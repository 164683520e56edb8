/**
  The thesis reference codec: a `type` tag, a single author's person
  details, a title and a publisher place, plus the optional keys an `if`
  guard writes only when truthy.
 */
module ThesisReferenceNormalizer {
  import opened Wrappers
  import opened Json
  import opened Places
  import opened References
  import opened Values
  import PlaceNormalizer

  const Tag := "thesis"

  /** The keys `normalize` writes whatever the reference holds. */
  const RequiredKeys: set<Key> := {Key.Type, Key.Id, Key.Date, Key.Author, Key.Title, Key.Publisher}

  /** Every key an encoding can hold. */
  const WireKeys: set<Key> :=
    {Key.Type, Key.Id, Key.Date, Key.Author, Key.Title, Key.Publisher,
     Key.Discriminator, Key.Doi, Key.Uri}

  /** What `normalize` writes under a key, or nothing when the key's `if` guard fails. */
  function Entry(r: ThesisReference, k: Key): Option<Json> {
    match k
    case Type => Some(JStr(Tag))
    case Id => Some(JStr(r.id))
    case Date => Some(JStr(r.date))
    case Author => Some(EncodeEmbedded(r.author))
    case Title => Some(JStr(r.title))
    case Publisher => Some(JObj(PlaceNormalizer.Normalize(r.publisher)))
    case Discriminator => IfString(r.discriminator)
    case Doi => IfString(r.doi)
    case Uri => IfString(r.uri)
    case _ => None
  }

  /** Encoding: every key of the wire format whose table entry is present. */
  function Normalize(r: ThesisReference): (data: Object)
  {
    map k | k in WireKeys && Entry(r, k).Some? :: Entry(r, k).value
  }

  /** Each key of the wire format holds its table entry, and is absent when the entry is. */
  lemma EntryAt(r: ThesisReference, k: Key)
    requires k in WireKeys
    ensures k in Normalize(r) <==> Entry(r, k).Some?
    ensures k in Normalize(r) ==> Normalize(r)[k] == Entry(r, k).value
  {
  }

  /** The encoding holds the tag and the required keys, and no key outside the wire format. */
  lemma KeysBounded(r: ThesisReference)
    ensures RequiredKeys <= Normalize(r).Keys <= WireKeys
    ensures Normalize(r)[Key.Type] == JStr(Tag)
  {
    EntryAt(r, Key.Type); EntryAt(r, Key.Id); EntryAt(r, Key.Date);
    EntryAt(r, Key.Title); EntryAt(r, Key.Author); EntryAt(r, Key.Publisher);
  }

  /** The required keys carry the reference's own fields; the publisher as a place encoding. */
  lemma RequiredKeysWritten(r: ThesisReference)
    ensures var data := Normalize(r);
      && Key.Id in data && data[Key.Id] == JStr(r.id)
      && Key.Date in data && data[Key.Date] == JStr(r.date)
      && Key.Title in data && data[Key.Title] == JStr(r.title)
      && Key.Author in data && data[Key.Author] == EncodeEmbedded(r.author)
      && Key.Publisher in data && data[Key.Publisher] == JObj(PlaceNormalizer.Normalize(r.publisher))
  {
    EntryAt(r, Key.Id); EntryAt(r, Key.Date); EntryAt(r, Key.Title); EntryAt(r, Key.Author); EntryAt(r, Key.Publisher);
  }

  /** Each optional string is written, as itself, exactly when it is truthy. */
  lemma OptionalStringsWritten(r: ThesisReference)
    ensures var data := Normalize(r);
      && (Key.Discriminator in data <==> r.discriminator.Some? && !FalsyString(r.discriminator.value))
      && (Key.Doi in data <==> r.doi.Some? && !FalsyString(r.doi.value))
      && (Key.Uri in data <==> r.uri.Some? && !FalsyString(r.uri.value))
      && (Key.Discriminator in data ==> data[Key.Discriminator] == JStr(r.discriminator.value))
      && (Key.Doi in data ==> data[Key.Doi] == JStr(r.doi.value))
      && (Key.Uri in data ==> data[Key.Uri] == JStr(r.uri.value))
  {
    EntryAt(r, Key.Discriminator); EntryAt(r, Key.Doi); EntryAt(r, Key.Uri);
  }

  /**
    Decoding: `author` goes to the person-details normalizer and
    `publisher` to the place normalizer; absent optional keys read as null.
   */
  function Denormalize(data: Json): (r: Result<ThesisReference>)
    ensures r.Success? && At(data, Key.Discriminator).JNull? ==> r.value.discriminator.None?
    ensures r.Success? && At(data, Key.Doi).JNull? ==> r.value.doi.None?
    ensures r.Success? && At(data, Key.Uri).JNull? ==> r.value.uri.None?
    ensures r.Success? ==> EncodeEmbedded(r.value.author) == At(data, Key.Author)
    ensures r.Success? ==> PlaceNormalizer.Denormalize(At(data, Key.Publisher)) == Success(r.value.publisher)
    ensures PlaceNormalizer.Denormalize(At(data, Key.Publisher)).Failure? ==> r.Failure?
    ensures !At(data, Key.Id).JStr? || !At(data, Key.Date).JStr? || !At(data, Key.Title).JStr? ==> r.Failure?
    ensures r.Success? ==> At(data, Key.Id) == JStr(r.value.id) && At(data, Key.Date) == JStr(r.value.date)
    ensures r.Success? ==> At(data, Key.Title) == JStr(r.value.title)
    ensures r.Success? ==> ReadOptionalString(data, Key.Discriminator) == Success(r.value.discriminator)
    ensures r.Success? ==> ReadOptionalString(data, Key.Doi) == Success(r.value.doi)
    ensures r.Success? ==> ReadOptionalString(data, Key.Uri) == Success(r.value.uri)
  {
    var id :- ReadString(data, Key.Id);
    var date :- ReadString(data, Key.Date);
    var discriminator :- ReadOptionalString(data, Key.Discriminator);
    var author :- DecodeEmbedded(At(data, Key.Author), "author");
    var title :- ReadString(data, Key.Title);
    var publisher :- PlaceNormalizer.Denormalize(At(data, Key.Publisher));
    var doi :- ReadOptionalString(data, Key.Doi);
    var uri :- ReadOptionalString(data, Key.Uri);
    Success(ThesisReference(id, date, discriminator, author, title, publisher, doi, uri))
  }

  /** The exact class, or the `Reference` interface with a `thesis` tag. */
  predicate SupportsDenormalization(data: Json, cls: ClassName) {
    cls == ThesisReferenceClass || (cls == ReferenceClass && At(data, Key.Type) == JStr(Tag))
  }

  predicate SupportsNormalization(v: Value) {
    v.ReferenceValue? && v.reference.Thesis?
  }

  /** A reference whose optional strings each survive the `if` guard. */
  predicate Encodable(r: ThesisReference) {
    KeptString(r.discriminator) && KeptString(r.doi) && KeptString(r.uri)
  }

  /** What an encoding keeps of a reference: its falsy optional strings become absent. */
  function Surviving(r: ThesisReference): (s: ThesisReference)
    ensures Encodable(s)
    ensures Encodable(r) <==> s == r
  {
    r.(discriminator := Kept(r.discriminator), doi := Kept(r.doi), uri := Kept(r.uri))
  }

  /** Decoding an encoding gives back the reference, less what the guards drop. */
  lemma Decoded(r: ThesisReference)
    ensures Denormalize(JObj(Normalize(r))) == Success(Surviving(r))
  {
    var d := JObj(Normalize(r));
    RequiredKeysWritten(r);
    OptionalStringsWritten(r);
    assert ReadString(d, Key.Id) == Success(r.id);
    assert ReadString(d, Key.Date) == Success(r.date);
    assert ReadString(d, Key.Title) == Success(r.title);
    assert DecodeEmbedded(At(d, Key.Author), "author") == Success(r.author);
    assert ReadOptionalString(d, Key.Discriminator) == Success(Kept(r.discriminator));
    assert ReadOptionalString(d, Key.Doi) == Success(Kept(r.doi));
    assert ReadOptionalString(d, Key.Uri) == Success(Kept(r.uri));
    PlaceNormalizer.RoundTrip(r.publisher);
  }

  /** Decoding an encoding gives the reference back, publisher included, when nothing is falsy. */
  lemma RoundTrip(r: ThesisReference)
    requires Encodable(r)
    ensures Denormalize(JObj(Normalize(r))) == Success(r)
  {
    Decoded(r);
  }
}
