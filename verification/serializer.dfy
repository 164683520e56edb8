/**
  The serializer's dispatch over the codecs of this model: a value is
  encoded, and a payload decoded, by the first codec whose `supports*`
  predicate accepts it; when none does, the serializer refuses.

  The registration order lives in the library's serializer set-up, which
  is not part of this model. The support predicates are pairwise disjoint,
  so the order does not matter: the chosen codec is the one that supports
  the request, whichever order the codecs are tried in.
 */
module Serializer {
  import opened Wrappers
  import opened Json
  import opened References
  import opened Values
  import Content
  import Preprint = PreprintReferenceNormalizer
  import Thesis = ThesisReferenceNormalizer
  import Book = BookReferenceNormalizer
  import Patent = PatentReferenceNormalizer
  import Software = SoftwareReferenceNormalizer
  import Image = ImageNormalizer
  import BlogArticle = BlogArticleNormalizer
  import PlaceCodec = PlaceNormalizer
  import PodcastEpisode = PodcastEpisodeNormalizer

  datatype Codec =
    | PreprintCodec | ThesisCodec | BookCodec | PatentCodec | SoftwareCodec
    | ImageCodec | BlogArticleCodec | PlaceNormalizerCodec | PodcastEpisodeCodec

  /** Every codec, in one registration order. */
  const Codecs: seq<Codec> :=
    [PreprintCodec, ThesisCodec, BookCodec, PatentCodec, SoftwareCodec,
     ImageCodec, BlogArticleCodec, PlaceNormalizerCodec, PodcastEpisodeCodec]

  predicate SupportsDenormalization(c: Codec, data: Json, cls: ClassName) {
    match c
    case PreprintCodec => Preprint.SupportsDenormalization(data, cls)
    case ThesisCodec => Thesis.SupportsDenormalization(data, cls)
    case BookCodec => Book.SupportsDenormalization(data, cls)
    case PatentCodec => Patent.SupportsDenormalization(data, cls)
    case SoftwareCodec => Software.SupportsDenormalization(data, cls)
    case ImageCodec => Image.SupportsDenormalization(data, cls)
    case BlogArticleCodec => BlogArticle.SupportsDenormalization(data, cls)
    case PlaceNormalizerCodec => PlaceCodec.SupportsDenormalization(data, cls)
    case PodcastEpisodeCodec => PodcastEpisode.SupportsDenormalization(data, cls)
  }

  predicate SupportsNormalization(c: Codec, v: Value) {
    match c
    case PreprintCodec => Preprint.SupportsNormalization(v)
    case ThesisCodec => Thesis.SupportsNormalization(v)
    case BookCodec => Book.SupportsNormalization(v)
    case PatentCodec => Patent.SupportsNormalization(v)
    case SoftwareCodec => Software.SupportsNormalization(v)
    case ImageCodec => Image.SupportsNormalization(v)
    case BlogArticleCodec => BlogArticle.SupportsNormalization(v)
    case PlaceNormalizerCodec => PlaceCodec.SupportsNormalization(v)
    case PodcastEpisodeCodec => PodcastEpisode.SupportsNormalization(v)
  }

  /** No payload and class are accepted by two different codecs. */
  lemma DenormalizationDisjoint(c1: Codec, c2: Codec, data: Json, cls: ClassName)
    requires SupportsDenormalization(c1, data, cls) && SupportsDenormalization(c2, data, cls)
    ensures c1 == c2
  {
  }

  /** No value is accepted by two different codecs. */
  lemma NormalizationDisjoint(c1: Codec, c2: Codec, v: Value)
    requires SupportsNormalization(c1, v) && SupportsNormalization(c2, v)
    ensures c1 == c2
  {
  }

  /** The first codec of `cs` accepting the payload and class. */
  function FirstDecoder(cs: seq<Codec>, data: Json, cls: ClassName): (r: Option<Codec>)
    ensures r.Some? ==> r.value in cs && SupportsDenormalization(r.value, data, cls)
    ensures r.None? ==> forall i :: 0 <= i < |cs| ==> !SupportsDenormalization(cs[i], data, cls)
  {
    if cs == [] then None
    else if SupportsDenormalization(cs[0], data, cls) then Some(cs[0])
    else FirstDecoder(cs[1..], data, cls)
  }

  /** The first codec of `cs` accepting the value. */
  function FirstEncoder(cs: seq<Codec>, v: Value): (r: Option<Codec>)
    ensures r.Some? ==> r.value in cs && SupportsNormalization(r.value, v)
    ensures r.None? ==> forall i :: 0 <= i < |cs| ==> !SupportsNormalization(cs[i], v)
  {
    if cs == [] then None
    else if SupportsNormalization(cs[0], v) then Some(cs[0])
    else FirstEncoder(cs[1..], v)
  }

  /**
    Whatever the order, a list holding every codec picks, for a payload,
    exactly the codec that supports it.
   */
  lemma DecoderChosen(cs: seq<Codec>, data: Json, cls: ClassName, c: Codec)
    requires c in cs
    ensures FirstDecoder(cs, data, cls) == Some(c) <==> SupportsDenormalization(c, data, cls)
  {
    var r := FirstDecoder(cs, data, cls);
    if SupportsDenormalization(c, data, cls) {
      var i :| 0 <= i < |cs| && cs[i] == c;
      assert r.Some?;
      DenormalizationDisjoint(r.value, c, data, cls);
    }
  }

  /** Whatever the order, a list holding every codec picks, for a value, exactly the codec that supports it. */
  lemma EncoderChosen(cs: seq<Codec>, v: Value, c: Codec)
    requires c in cs
    ensures FirstEncoder(cs, v) == Some(c) <==> SupportsNormalization(c, v)
  {
    var r := FirstEncoder(cs, v);
    if SupportsNormalization(c, v) {
      var i :| 0 <= i < |cs| && cs[i] == c;
      assert r.Some?;
      NormalizationDisjoint(r.value, c, v);
    }
  }

  /** A registration that holds every codec, in some order. */
  predicate Registers(cs: seq<Codec>) {
    forall c: Codec :: c in cs
  }

  /** The list above is such a registration. */
  lemma CodecsRegistered()
    ensures Registers(Codecs)
  {
    forall c: Codec ensures c in Codecs {
      match c
      case PreprintCodec => assert Codecs[0] == c;
      case ThesisCodec => assert Codecs[1] == c;
      case BookCodec => assert Codecs[2] == c;
      case PatentCodec => assert Codecs[3] == c;
      case SoftwareCodec => assert Codecs[4] == c;
      case ImageCodec => assert Codecs[5] == c;
      case BlogArticleCodec => assert Codecs[6] == c;
      case PlaceNormalizerCodec => assert Codecs[7] == c;
      case PodcastEpisodeCodec => assert Codecs[8] == c;
    }
  }

  /** The codec a reference variant is encoded by. */
  function ReferenceCodec(r: Reference): Codec {
    match r
    case Preprint(_) => PreprintCodec
    case Thesis(_) => ThesisCodec
    case Book(_) => BookCodec
    case Patent(_) => PatentCodec
    case Software(_) => SoftwareCodec
  }

  /** Encoding with one codec; a value of another kind is refused. */
  function NormalizeWith(c: Codec, v: Value, ctx: Context): Result<Object> {
    match c
    case PreprintCodec => if v.ReferenceValue? && v.reference.Preprint? then Success(Preprint.Normalize(v.reference.preprint)) else Failure(NoMatchingVariant)
    case ThesisCodec => if v.ReferenceValue? && v.reference.Thesis? then Success(Thesis.Normalize(v.reference.thesis)) else Failure(NoMatchingVariant)
    case BookCodec => if v.ReferenceValue? && v.reference.Book? then Success(Book.Normalize(v.reference.book)) else Failure(NoMatchingVariant)
    case PatentCodec => if v.ReferenceValue? && v.reference.Patent? then Success(Patent.Normalize(v.reference.patent)) else Failure(NoMatchingVariant)
    case SoftwareCodec => if v.ReferenceValue? && v.reference.Software? then Success(Software.Normalize(v.reference.software)) else Failure(NoMatchingVariant)
    case ImageCodec => if v.ImageValue? then Success(Image.Normalize(v.imageBlock)) else Failure(NoMatchingVariant)
    case BlogArticleCodec => if v.BlogArticleValue? then BlogArticle.Normalize(v.article, ctx) else Failure(NoMatchingVariant)
    case PlaceNormalizerCodec => if v.PlaceValue? then Success(PlaceCodec.Normalize(v.place)) else Failure(NoMatchingVariant)
    case PodcastEpisodeCodec => if v.PodcastEpisodeValue? then PodcastEpisode.Normalize(v.episode, ctx) else Failure(NoMatchingVariant)
  }

  /** Decoding with one codec, wrapping the decoded model as a value. */
  function DenormalizeWith(c: Codec, data: Json, ctx: Context, fetched: Deferred<Json>): Result<Value> {
    match c
    case PreprintCodec => var r :- Preprint.Denormalize(data); Success(ReferenceValue(Preprint(r)))
    case ThesisCodec => var r :- Thesis.Denormalize(data); Success(ReferenceValue(Thesis(r)))
    case BookCodec => var r :- Book.Denormalize(data); Success(ReferenceValue(Book(r)))
    case PatentCodec => var r :- Patent.Denormalize(data); Success(ReferenceValue(Patent(r)))
    case SoftwareCodec => var r :- Software.Denormalize(data); Success(ReferenceValue(Software(r)))
    case ImageCodec => var b :- Image.Denormalize(data); Success(ImageValue(b))
    case BlogArticleCodec => var a :- BlogArticle.Denormalize(data); Success(BlogArticleValue(a))
    case PlaceNormalizerCodec => var p :- PlaceCodec.Denormalize(data); Success(PlaceValue(p))
    case PodcastEpisodeCodec => var e :- PodcastEpisode.Denormalize(data, ctx, fetched); Success(PodcastEpisodeValue(e))
  }

  /** `normalize`: the first registered codec that supports the value encodes it; no codec, no encoding. */
  function Normalize(cs: seq<Codec>, v: Value, ctx: Context): (r: Result<Object>)
    ensures v.OtherObject? ==> r == Failure(NoMatchingVariant)
  {
    match FirstEncoder(cs, v)
    case None => Failure(NoMatchingVariant)
    case Some(c) => NormalizeWith(c, v, ctx)
  }

  /** `denormalize`: the first registered codec that supports the payload and class decodes it; no codec, no value. */
  function Denormalize(cs: seq<Codec>, data: Json, cls: ClassName, ctx: Context, fetched: Deferred<Json>)
    : (r: Result<Value>)
    ensures cls.OtherClass? ==> r == Failure(NoMatchingVariant)
  {
    match FirstDecoder(cs, data, cls)
    case None => Failure(NoMatchingVariant)
    case Some(c) => DenormalizeWith(c, data, ctx, fetched)
  }

  /** Whatever the registration order, every reference, image block and place is encoded. */
  lemma AlwaysEncoded(cs: seq<Codec>, v: Value, ctx: Context)
    requires Registers(cs)
    requires v.ReferenceValue? || v.ImageValue? || v.PlaceValue?
    ensures Normalize(cs, v, ctx).Success?
  {
    var c := if v.ImageValue? then ImageCodec else if v.PlaceValue? then PlaceNormalizerCodec
             else ReferenceCodec(v.reference);
    EncoderChosen(cs, v, c);
  }

  /** A `Reference` payload whose tag names no reference variant is refused. */
  lemma UnknownReferenceTagRefused(cs: seq<Codec>, data: Json, ctx: Context, fetched: Deferred<Json>)
    requires At(data, Key.Type) != JStr(Preprint.Tag) && At(data, Key.Type) != JStr(Thesis.Tag)
    requires At(data, Key.Type) != JStr(Book.Tag) && At(data, Key.Type) != JStr(Patent.Tag)
    requires At(data, Key.Type) != JStr(Software.Tag)
    ensures Denormalize(cs, data, ReferenceClass, ctx, fetched) == Failure(NoMatchingVariant)
  {
  }

  /** The encoding of a reference carries its variant's tag. */
  lemma ReferenceTagged(r: Reference)
    ensures NormalizeWith(ReferenceCodec(r), ReferenceValue(r), NoContext).Success?
    ensures var data := NormalizeWith(ReferenceCodec(r), ReferenceValue(r), NoContext).value;
      Key.Type in data && data[Key.Type] == JStr(ReferenceTag(r))
  {
    match r
    case Preprint(p) => Preprint.KeysBounded(p);
    case Thesis(t) => Thesis.KeysBounded(t);
    case Book(b) => Book.KeysBounded(b);
    case Patent(p) => Patent.KeysBounded(p);
    case Software(s) => Software.KeysBounded(s);
  }

  /** The tag each reference variant writes under `type`. */
  function ReferenceTag(r: Reference): string {
    match r
    case Preprint(_) => Preprint.Tag
    case Thesis(_) => Thesis.Tag
    case Book(_) => Book.Tag
    case Patent(_) => Patent.Tag
    case Software(_) => Software.Tag
  }

  /**
    Whatever the registration order, a reference is encoded by its own
    variant's codec, and decoding that encoding through the `Reference`
    interface picks the same codec again.
   */
  lemma TagSelectsVariant(cs: seq<Codec>, r: Reference)
    requires Registers(cs)
    ensures FirstEncoder(cs, ReferenceValue(r)) == Some(ReferenceCodec(r))
    ensures Normalize(cs, ReferenceValue(r), NoContext).Success?
    ensures FirstDecoder(cs, JObj(Normalize(cs, ReferenceValue(r), NoContext).value), ReferenceClass)
         == Some(ReferenceCodec(r))
  {
    EncoderChosen(cs, ReferenceValue(r), ReferenceCodec(r));
    ReferenceTagged(r);
    DecoderChosen(cs, JObj(NormalizeWith(ReferenceCodec(r), ReferenceValue(r), NoContext).value), ReferenceClass, ReferenceCodec(r));
  }

  /** What an encoding keeps of a reference: its variant's `Surviving`. */
  function SurvivingReference(r: Reference): (s: Reference)
    ensures ReferenceCodec(s) == ReferenceCodec(r)
  {
    match r
    case Preprint(p) => Preprint(Preprint.Surviving(p))
    case Thesis(t) => Thesis(Thesis.Surviving(t))
    case Book(b) => Book(Book.Surviving(b))
    case Patent(p) => Patent(Patent.Surviving(p))
    case Software(s) => Software(Software.Surviving(s))
  }

  /**
    Any reference, encoded and decoded back through the `Reference`
    interface, comes back as the same variant, less what its guards drop.
   */
  lemma ReferenceRoundTrip(cs: seq<Codec>, r: Reference, ctx: Context, fetched: Deferred<Json>)
    requires Registers(cs)
    ensures Normalize(cs, ReferenceValue(r), NoContext).Success?
    ensures Denormalize(cs, JObj(Normalize(cs, ReferenceValue(r), NoContext).value), ReferenceClass, ctx, fetched)
         == Success(ReferenceValue(SurvivingReference(r)))
  {
    TagSelectsVariant(cs, r);
    VariantDecoded(r, ctx, fetched);
  }

  /**
    Whatever the registration order, an image block encoded and decoded
    back through the `Block` interface is picked up by its tag and comes
    back less what its guards drop.
   */
  lemma ImageBlockRoundTrip(cs: seq<Codec>, b: Content.ImageBlock, ctx: Context, fetched: Deferred<Json>)
    requires Registers(cs)
    ensures Normalize(cs, ImageValue(b), ctx) == Success(Image.Normalize(b))
    ensures Denormalize(cs, JObj(Image.Normalize(b)), BlockClass, ctx, fetched)
         == Success(ImageValue(Image.Surviving(b)))
  {
    ImageEncoded(cs, b, ctx);
    ImageDecoderChosen(cs, b);
    ImageDecoded(b, ctx, fetched);
  }

  /** Whatever the registration order, an image block is encoded by the image codec. */
  lemma ImageEncoded(cs: seq<Codec>, b: Content.ImageBlock, ctx: Context)
    requires Registers(cs)
    ensures Normalize(cs, ImageValue(b), ctx) == Success(Image.Normalize(b))
  {
    EncoderChosen(cs, ImageValue(b), ImageCodec);
  }

  /** Whatever the registration order, an image block's encoding read as a `Block` goes to the image codec. */
  lemma ImageDecoderChosen(cs: seq<Codec>, b: Content.ImageBlock)
    requires Registers(cs)
    ensures FirstDecoder(cs, JObj(Image.Normalize(b)), BlockClass) == Some(ImageCodec)
  {
    Image.BlockKeysWritten(b);
    DecoderChosen(cs, JObj(Image.Normalize(b)), BlockClass, ImageCodec);
  }

  /** The image codec decodes an image block's encoding back as what its guards keep. */
  lemma ImageDecoded(b: Content.ImageBlock, ctx: Context, fetched: Deferred<Json>)
    ensures DenormalizeWith(ImageCodec, JObj(Image.Normalize(b)), ctx, fetched) == Success(ImageValue(Image.Surviving(b)))
  {
    Image.Decoded(b);
    DecodedByImageCodec(JObj(Image.Normalize(b)), ctx, fetched);
  }

  /** The image codec wraps whatever block the image decoder yields. */
  lemma DecodedByImageCodec(data: Json, ctx: Context, fetched: Deferred<Json>)
    ensures Image.Denormalize(data).Success? ==>
      DenormalizeWith(ImageCodec, data, ctx, fetched) == Success(ImageValue(Image.Denormalize(data).value))
  {
  }

  /** A reference's own codec decodes its encoding back as what its guards keep. */
  lemma VariantDecoded(r: Reference, ctx: Context, fetched: Deferred<Json>)
    ensures NormalizeWith(ReferenceCodec(r), ReferenceValue(r), NoContext).Success?
    ensures DenormalizeWith(ReferenceCodec(r), JObj(NormalizeWith(ReferenceCodec(r), ReferenceValue(r), NoContext).value), ctx, fetched)
         == Success(ReferenceValue(SurvivingReference(r)))
  {
    match r
    case Preprint(p) => PreprintDecoded(p, ctx, fetched);
    case Thesis(t) => ThesisDecoded(t, ctx, fetched);
    case Book(b) => BookDecoded(b, ctx, fetched);
    case Patent(p) => PatentDecoded(p, ctx, fetched);
    case Software(s) => SoftwareDecoded(s, ctx, fetched);
  }

  /** The preprint codec decodes a preprint reference's encoding back as what its guards keep. */
  lemma PreprintDecoded(p: PreprintReference, ctx: Context, fetched: Deferred<Json>)
    ensures NormalizeWith(PreprintCodec, ReferenceValue(Preprint(p)), NoContext) == Success(Preprint.Normalize(p))
    ensures DenormalizeWith(PreprintCodec, JObj(Preprint.Normalize(p)), ctx, fetched) == Success(ReferenceValue(Preprint(Preprint.Surviving(p))))
  {
    Preprint.Decoded(p);
  }

  /** The thesis codec decodes a thesis reference's encoding back as what its guards keep. */
  lemma ThesisDecoded(t: ThesisReference, ctx: Context, fetched: Deferred<Json>)
    ensures NormalizeWith(ThesisCodec, ReferenceValue(Thesis(t)), NoContext) == Success(Thesis.Normalize(t))
    ensures DenormalizeWith(ThesisCodec, JObj(Thesis.Normalize(t)), ctx, fetched) == Success(ReferenceValue(Thesis(Thesis.Surviving(t))))
  {
    Thesis.Decoded(t);
  }

  /** The book codec decodes a book reference's encoding back as what its guards keep. */
  lemma BookDecoded(b: BookReference, ctx: Context, fetched: Deferred<Json>)
    ensures NormalizeWith(BookCodec, ReferenceValue(Book(b)), NoContext) == Success(Book.Normalize(b))
    ensures DenormalizeWith(BookCodec, JObj(Book.Normalize(b)), ctx, fetched) == Success(ReferenceValue(Book(Book.Surviving(b))))
  {
    Book.Decoded(b);
  }

  /** The patent codec decodes a patent reference's encoding back as what its guards keep. */
  lemma PatentDecoded(p: PatentReference, ctx: Context, fetched: Deferred<Json>)
    ensures NormalizeWith(PatentCodec, ReferenceValue(Patent(p)), NoContext) == Success(Patent.Normalize(p))
    ensures DenormalizeWith(PatentCodec, JObj(Patent.Normalize(p)), ctx, fetched) == Success(ReferenceValue(Patent(Patent.Surviving(p))))
  {
    Patent.Decoded(p);
  }

  /** The software codec decodes a software reference's encoding back as what its guards keep. */
  lemma SoftwareDecoded(s: SoftwareReference, ctx: Context, fetched: Deferred<Json>)
    ensures NormalizeWith(SoftwareCodec, ReferenceValue(Software(s)), NoContext) == Success(Software.Normalize(s))
    ensures DenormalizeWith(SoftwareCodec, JObj(Software.Normalize(s)), ctx, fetched) == Success(ReferenceValue(Software(Software.Surviving(s))))
  {
    Software.Decoded(s);
  }
}
