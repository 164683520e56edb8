/**
  The podcast episode codec. Its normalizer source is not part of this
  model: the wire format is the one the podcast episode fixtures fix in
  both directions, for the full, snippet and typed contexts.

  A full encoding holds the banner image and the chapters and so waits on
  both promises; a snippet holds neither, and decoding a snippet resolves
  them from the full episode, fetched by number. That fetch is the
  `fetched` parameter of `Denormalize`.
 */
module PodcastEpisodeNormalizer {
  import opened Wrappers
  import opened Json
  import opened Content
  import opened Values

  const Tag := "podcast-episode"

  // ---- sources ----

  function EncodeSource(s: PodcastEpisodeSource): Json {
    JObj(map[Key.MediaType := JStr(s.mediaType), Key.Uri := JStr(s.uri)])
  }

  /** A source needs both its media type and its URI. */
  function DecodeSource(j: Json): (r: Result<PodcastEpisodeSource>)
    ensures r.Success? <==> At(j, Key.MediaType).JStr? && At(j, Key.Uri).JStr?
  {
    var mediaType :- ReadString(j, Key.MediaType);
    var uri :- ReadString(j, Key.Uri);
    Success(PodcastEpisodeSource(mediaType, uri))
  }

  /** A source decodes from its encoding unchanged. */
  lemma SourceRoundTrip(s: PodcastEpisodeSource)
    ensures DecodeSource(EncodeSource(s)) == Success(s)
  {
    var m := map[Key.MediaType := JStr(s.mediaType), Key.Uri := JStr(s.uri)];
    assert At(JObj(m), Key.MediaType) == JStr(s.mediaType);
    assert At(JObj(m), Key.Uri) == JStr(s.uri);
  }

  function EncodeSources(ss: seq<PodcastEpisodeSource>): (r: seq<Json>)
    ensures |r| == |ss|
  {
    if ss == [] then [] else [EncodeSource(ss[0])] + EncodeSources(ss[1..])
  }

  /** One source per list element, in order; the first failure wins. */
  function DecodeSources(xs: seq<Json>): (r: Result<seq<PodcastEpisodeSource>>)
    ensures r.Success? ==> |r.value| == |xs|
    ensures r.Success? ==> forall i :: 0 <= i < |xs| ==> DecodeSource(xs[i]) == Success(r.value[i])
  {
    if xs == [] then Success([])
    else
      var head :- DecodeSource(xs[0]);
      var rest :- DecodeSources(xs[1..]);
      Success([head] + rest)
  }

  /** A list of sources decodes from its encoding unchanged and in order. */
  lemma {:induction false} SourcesRoundTrip(ss: seq<PodcastEpisodeSource>)
    ensures DecodeSources(EncodeSources(ss)) == Success(ss)
  {
    if ss != [] {
      SourceRoundTrip(ss[0]);
      SourcesRoundTrip(ss[1..]);
      assert EncodeSources(ss)[1..] == EncodeSources(ss[1..]);
      assert [ss[0]] + ss[1..] == ss;
    }
  }

  // ---- chapters ----

  /** Every key a chapter's encoding can hold. */
  const ChapterKeys: set<Key> := {Key.Number, Key.Title, Key.Time, Key.Content, Key.ImpactStatement}

  /** The keys every chapter's encoding holds: the minimum fixture's chapter. */
  const RequiredChapterKeys: set<Key> := {Key.Number, Key.Title, Key.Time}

  /** What a chapter's encoding holds under a key: the content when non-empty, the impact statement when truthy. */
  function ChapterEntry(c: PodcastEpisodeChapter, k: Key): Option<Json> {
    match k
    case Number => Some(JInt(c.number))
    case Title => Some(JStr(c.title))
    case Time => Some(JInt(c.time))
    case Content => IfList(EncodeEmbeddedList(c.content))
    case ImpactStatement => IfString(c.impactStatement)
    case _ => None
  }

  function EncodeChapter(c: PodcastEpisodeChapter): Object {
    map k | k in ChapterKeys && ChapterEntry(c, k).Some? :: ChapterEntry(c, k).value
  }

  /** Each chapter key holds its table entry, and is absent when the entry is. */
  lemma ChapterEntryAt(c: PodcastEpisodeChapter, k: Key)
    requires k in ChapterKeys
    ensures k in EncodeChapter(c) <==> ChapterEntry(c, k).Some?
    ensures k in EncodeChapter(c) ==> EncodeChapter(c)[k] == ChapterEntry(c, k).value
  {
  }

  /**
    A chapter's encoding always holds its number, title and time; its
    content exactly when non-empty; its impact statement exactly when truthy.
   */
  lemma ChapterWritten(c: PodcastEpisodeChapter)
    ensures var data := EncodeChapter(c);
      && Key.Number in data && data[Key.Number] == JInt(c.number)
      && Key.Title in data && data[Key.Title] == JStr(c.title)
      && Key.Time in data && data[Key.Time] == JInt(c.time)
      && (Key.Content in data <==> |c.content| > 0)
      && (Key.Content in data ==> data[Key.Content] == JArr(EncodeEmbeddedList(c.content)))
      && (Key.ImpactStatement in data <==> c.impactStatement.Some? && !FalsyString(c.impactStatement.value))
      && (Key.ImpactStatement in data ==> data[Key.ImpactStatement] == JStr(c.impactStatement.value))
  {
    ChapterEntryAt(c, Key.Number); ChapterEntryAt(c, Key.Title); ChapterEntryAt(c, Key.Time);
    ChapterEntryAt(c, Key.Content); ChapterEntryAt(c, Key.ImpactStatement);
  }

  /** A chapter with no content and no impact statement encodes as its number, title and time only. */
  lemma MinimumChapterKeys(c: PodcastEpisodeChapter)
    requires c.content == [] && c.impactStatement.None?
    ensures EncodeChapter(c).Keys == RequiredChapterKeys
  {
    ChapterWritten(c);
    forall k | k in EncodeChapter(c) ensures k in RequiredChapterKeys {
      ChapterEntryAt(c, k);
    }
  }

  /** A chapter: number, title and time required; content `?? []`; impact statement `?? null`. */
  function DecodeChapter(j: Json): (r: Result<PodcastEpisodeChapter>)
    ensures !At(j, Key.Number).JInt? || !At(j, Key.Title).JStr? || !At(j, Key.Time).JInt? ==> r.Failure?
    ensures r.Success? && At(j, Key.Content).JNull? ==> r.value.content == []
    ensures r.Success? && At(j, Key.ImpactStatement).JNull? ==> r.value.impactStatement.None?
  {
    var number :- ReadInt(j, Key.Number);
    var title :- ReadString(j, Key.Title);
    var time :- ReadInt(j, Key.Time);
    var impactStatement :- ReadOptionalString(j, Key.ImpactStatement);
    var contentList :- ReadOptionalList(j, Key.Content);
    var content :- DecodeEmbeddedList(contentList, "content");
    Success(PodcastEpisodeChapter(number, title, time, impactStatement, content))
  }

  /** What a chapter's encoding keeps: a falsy impact statement is lost. */
  function SurvivingChapter(c: PodcastEpisodeChapter): (s: PodcastEpisodeChapter)
    ensures KeptString(s.impactStatement)
    ensures KeptString(c.impactStatement) <==> s == c
  {
    c.(impactStatement := Kept(c.impactStatement))
  }

  /** A chapter decodes from its encoding as what its guards keep. */
  lemma ChapterDecoded(c: PodcastEpisodeChapter)
    ensures DecodeChapter(JObj(EncodeChapter(c))) == Success(SurvivingChapter(c))
  {
    var d := JObj(EncodeChapter(c));
    ChapterWritten(c);
    assert ReadOptionalString(d, Key.ImpactStatement) == Success(Kept(c.impactStatement));
    assert ReadOptionalList(d, Key.Content) == Success(EncodeEmbeddedList(c.content));
    EmbeddedListRoundTrip(c.content, "content");
  }

  function EncodeChapters(cs: seq<PodcastEpisodeChapter>): (r: seq<Json>)
    ensures |r| == |cs|
  {
    if cs == [] then [] else [JObj(EncodeChapter(cs[0]))] + EncodeChapters(cs[1..])
  }

  /** One chapter per list element, in order; the first failure wins. */
  function DecodeChapters(xs: seq<Json>): (r: Result<seq<PodcastEpisodeChapter>>)
    ensures r.Success? ==> |r.value| == |xs|
    ensures r.Success? ==> forall i :: 0 <= i < |xs| ==> DecodeChapter(xs[i]) == Success(r.value[i])
  {
    if xs == [] then Success([])
    else
      var head :- DecodeChapter(xs[0]);
      var rest :- DecodeChapters(xs[1..]);
      Success([head] + rest)
  }

  /** `SurvivingChapter` of each chapter, in order. */
  function SurvivingChapters(cs: seq<PodcastEpisodeChapter>): (r: seq<PodcastEpisodeChapter>)
    ensures |r| == |cs|
    ensures forall i :: 0 <= i < |cs| ==> r[i] == SurvivingChapter(cs[i])
  {
    if cs == [] then [] else [SurvivingChapter(cs[0])] + SurvivingChapters(cs[1..])
  }

  /** A list of chapters decodes from its encoding, in order, as what each chapter's guards keep. */
  lemma {:induction false} ChaptersDecoded(cs: seq<PodcastEpisodeChapter>)
    ensures DecodeChapters(EncodeChapters(cs)) == Success(SurvivingChapters(cs))
  {
    if cs != [] {
      ChapterDecoded(cs[0]);
      ChaptersDecoded(cs[1..]);
      assert EncodeChapters(cs)[1..] == EncodeChapters(cs[1..]);
    }
  }

  // ---- the episode ----

  /** The `image` object: the thumbnail always, the banner only in a full encoding. */
  function ImageObject(e: PodcastEpisode, ctx: Context): (m: Object)
    ensures Key.Banner in m <==> !ctx.snippet && e.banner.Success?
    ensures Key.Thumbnail in m && m[Key.Thumbnail] == EncodeEmbedded(e.thumbnail)
    ensures Key.Banner in m ==> e.banner.Success? && m[Key.Banner] == EncodeEmbedded(e.banner.value)
  {
    if ctx.snippet || e.banner.Failure? then map[Key.Thumbnail := EncodeEmbedded(e.thumbnail)]
    else map[Key.Thumbnail := EncodeEmbedded(e.thumbnail), Key.Banner := EncodeEmbedded(e.banner.value)]
  }

  /** Every key an episode's encoding can hold. */
  const WireKeys: set<Key> :=
    {Key.Number, Key.Title, Key.ImpactStatement, Key.Published, Key.Updated, Key.Image,
     Key.Sources, Key.Subjects, Key.Chapters, Key.Type}

  /** The keys every snippet holds: the minimum snippet fixture's keys. */
  const SnippetKeys: set<Key> := {Key.Number, Key.Title, Key.Published, Key.Image, Key.Sources}

  /** What an encoding holds under a key in a context, or nothing when its guard fails. */
  function Entry(e: PodcastEpisode, ctx: Context, k: Key): Option<Json> {
    match k
    case Number => Some(JInt(e.number))
    case Title => Some(JStr(e.title))
    case ImpactStatement => IfString(e.impactStatement)
    case Published => Some(JStr(e.published))
    case Updated => if e.updated.Some? then Some(JStr(e.updated.value)) else None
    case Image => Some(JObj(ImageObject(e, ctx)))
    case Sources => Some(JArr(EncodeSources(e.sources)))
    case Subjects => IfList(EncodeEmbeddedList(e.subjects))
    case Chapters =>
      if ctx.snippet || e.chapters.Failure? then None else Some(JArr(EncodeChapters(e.chapters.value)))
    case Type => if ctx.typed then Some(JStr(Tag)) else None
    case _ => None
  }

  /** The encoded object once every promise it waits on has been fulfilled. */
  function Encoding(e: PodcastEpisode, ctx: Context): Object {
    map k | k in WireKeys && Entry(e, ctx, k).Some? :: Entry(e, ctx, k).value
  }

  /**
    Encoding: a full encoding waits on the banner, then the chapters, and
    fails with the first rejection; a snippet waits on neither.
   */
  function Normalize(e: PodcastEpisode, ctx: Context): (r: Result<Object>)
    ensures r.Failure? <==> !ctx.snippet && (e.banner.Failure? || e.chapters.Failure?)
    ensures r.Failure? && e.banner.Failure? ==> r.error == e.banner.error
  {
    if !ctx.snippet && e.banner.Failure? then Failure(e.banner.error)
    else if !ctx.snippet && e.chapters.Failure? then Failure(e.chapters.error)
    else Success(Encoding(e, ctx))
  }

  /** Each key of the wire format holds its table entry, and is absent when the entry is. */
  lemma EntryAt(e: PodcastEpisode, ctx: Context, k: Key)
    requires k in WireKeys
    ensures k in Encoding(e, ctx) <==> Entry(e, ctx, k).Some?
    ensures k in Encoding(e, ctx) ==> Encoding(e, ctx)[k] == Entry(e, ctx, k).value
  {
  }

  /** The number, title and published date are always written, as themselves. */
  lemma RequiredScalarsWritten(e: PodcastEpisode, ctx: Context)
    ensures var data := Encoding(e, ctx);
      && Key.Number in data && data[Key.Number] == JInt(e.number)
      && Key.Title in data && data[Key.Title] == JStr(e.title)
      && Key.Published in data && data[Key.Published] == JStr(e.published)
  {
    EntryAt(e, ctx, Key.Number); EntryAt(e, ctx, Key.Title); EntryAt(e, ctx, Key.Published);
  }

  /** The impact statement is written exactly when truthy; the updated date exactly when present. */
  lemma OptionalScalarsWritten(e: PodcastEpisode, ctx: Context)
    ensures var data := Encoding(e, ctx);
      && (Key.ImpactStatement in data <==> e.impactStatement.Some? && !FalsyString(e.impactStatement.value))
      && (Key.ImpactStatement in data ==> data[Key.ImpactStatement] == JStr(e.impactStatement.value))
      && (Key.Updated in data <==> e.updated.Some?)
      && (Key.Updated in data ==> data[Key.Updated] == JStr(e.updated.value))
  {
    EntryAt(e, ctx, Key.ImpactStatement); EntryAt(e, ctx, Key.Updated);
  }

  /**
    The number, title and published date are always written; the impact
    statement exactly when truthy; the updated date exactly when present.
   */
  lemma ScalarKeysWritten(e: PodcastEpisode, ctx: Context)
    ensures var data := Encoding(e, ctx);
      && Key.Number in data && data[Key.Number] == JInt(e.number)
      && Key.Title in data && data[Key.Title] == JStr(e.title)
      && Key.Published in data && data[Key.Published] == JStr(e.published)
      && (Key.ImpactStatement in data <==> e.impactStatement.Some? && !FalsyString(e.impactStatement.value))
      && (Key.ImpactStatement in data ==> data[Key.ImpactStatement] == JStr(e.impactStatement.value))
      && (Key.Updated in data <==> e.updated.Some?)
      && (Key.Updated in data ==> data[Key.Updated] == JStr(e.updated.value))
  {
    RequiredScalarsWritten(e, ctx);
    OptionalScalarsWritten(e, ctx);
  }

  /** The image object and the sources are always written. */
  lemma ImageAndSourcesWritten(e: PodcastEpisode, ctx: Context)
    ensures var data := Encoding(e, ctx);
      && Key.Image in data && data[Key.Image] == JObj(ImageObject(e, ctx))
      && Key.Sources in data && data[Key.Sources] == JArr(EncodeSources(e.sources))
  {
    EntryAt(e, ctx, Key.Image); EntryAt(e, ctx, Key.Sources);
  }

  /**
    The subjects are written exactly when there are some; the chapters
    exactly in a full encoding; the type tag exactly when the context asks
    for it.
   */
  lemma ListKeysWritten(e: PodcastEpisode, ctx: Context)
    requires !ctx.snippet ==> e.chapters.Success?
    ensures var data := Encoding(e, ctx);
      && (Key.Subjects in data <==> |e.subjects| > 0)
      && (Key.Subjects in data ==> data[Key.Subjects] == JArr(EncodeEmbeddedList(e.subjects)))
      && (Key.Chapters in data <==> !ctx.snippet)
      && (Key.Chapters in data ==> data[Key.Chapters] == JArr(EncodeChapters(e.chapters.value)))
      && (Key.Type in data <==> ctx.typed)
      && (Key.Type in data ==> data[Key.Type] == JStr(Tag))
  {
    EntryAt(e, ctx, Key.Subjects); EntryAt(e, ctx, Key.Chapters); EntryAt(e, ctx, Key.Type);
  }

  /** Every encoding holds the snippet keys and no key outside the wire format. */
  lemma KeysBounded(e: PodcastEpisode, ctx: Context)
    ensures SnippetKeys <= Encoding(e, ctx).Keys <= WireKeys
  {
    SnippetKeysWritten(e, ctx);
  }

  /** The snippet keys are written in every context. */
  lemma SnippetKeysWritten(e: PodcastEpisode, ctx: Context)
    ensures var data := Encoding(e, ctx);
      Key.Number in data && Key.Title in data && Key.Published in data && Key.Image in data && Key.Sources in data
  {
    RequiredScalarsWritten(e, ctx);
    ImageAndSourcesWritten(e, ctx);
  }

  /** The promised banner: the `image.banner` object of the full episode. */
  function DecodeBanner(full: Deferred<Json>): (r: Deferred<Embedded>)
    ensures full.Failure? ==> r == Failure(full.error)
    ensures full.Success? ==> (r.Success? <==> At(At(full.value, Key.Image), Key.Banner).JObj?)
  {
    var j :- full;
    DecodeEmbedded(At(At(j, Key.Image), Key.Banner), "banner")
  }

  /** The promised chapters: the `chapters` list of the full episode, each decoded in order. */
  function DecodeEpisodeChapters(full: Deferred<Json>): (r: Deferred<seq<PodcastEpisodeChapter>>)
    ensures full.Failure? ==> r == Failure(full.error)
    ensures full.Success? && !At(full.value, Key.Chapters).JArr? ==> r.Failure?
  {
    var j :- full;
    var list :- ReadList(j, Key.Chapters);
    DecodeChapters(list)
  }

  /**
    Decoding: the scalars first, then the body. A snippet's banner and
    chapters come from `fetched`, the full episode fetched by number; a
    full encoding's come from the data itself. Either way they are
    promises and never fail the decode.
   */
  function Denormalize(data: Json, ctx: Context, fetched: Deferred<Json>): (r: Result<PodcastEpisode>)
    ensures r.Success? ==> r.value.banner == DecodeBanner(if ctx.snippet then fetched else Success(data))
    ensures r.Success? ==> r.value.chapters == DecodeEpisodeChapters(if ctx.snippet then fetched else Success(data))
    ensures r.Success? && At(data, Key.ImpactStatement).JNull? ==> r.value.impactStatement.None?
    ensures r.Success? && At(data, Key.Updated).JNull? ==> r.value.updated.None?
    ensures r.Success? && At(data, Key.Subjects).JNull? ==> r.value.subjects == []
    ensures !At(data, Key.Number).JInt? || !At(data, Key.Title).JStr? || !At(data, Key.Published).JStr? ==> r.Failure?
    ensures r.Success? ==> At(data, Key.Number) == JInt(r.value.number) && At(data, Key.Title) == JStr(r.value.title)
    ensures r.Success? ==> At(data, Key.Published) == JStr(r.value.published)
    ensures r.Success? ==> ReadOptionalString(data, Key.ImpactStatement) == Success(r.value.impactStatement)
    ensures r.Success? ==> ReadOptionalString(data, Key.Updated) == Success(r.value.updated)
  {
    var number :- ReadInt(data, Key.Number);
    var title :- ReadString(data, Key.Title);
    var impactStatement :- ReadOptionalString(data, Key.ImpactStatement);
    var published :- ReadString(data, Key.Published);
    var updated :- ReadOptionalString(data, Key.Updated);
    DecodeBody(data, ctx, fetched, number, title, impactStatement, published, updated)
  }

  /** The rest of the decode: thumbnail, sources and subjects, then the two promises. */
  function DecodeBody(data: Json, ctx: Context, fetched: Deferred<Json>, number: int, title: string,
                      impactStatement: Option<string>, published: string, updated: Option<string>)
    : (r: Result<PodcastEpisode>)
    ensures r.Success? ==> r.value.banner == DecodeBanner(if ctx.snippet then fetched else Success(data))
    ensures r.Success? ==> r.value.chapters == DecodeEpisodeChapters(if ctx.snippet then fetched else Success(data))
    ensures r.Success? ==> r.value.number == number && r.value.title == title && r.value.published == published
    ensures r.Success? ==> r.value.impactStatement == impactStatement && r.value.updated == updated
    ensures r.Success? && At(data, Key.Subjects).JNull? ==> r.value.subjects == []
  {
    var thumbnail :- DecodeEmbedded(At(At(data, Key.Image), Key.Thumbnail), "thumbnail");
    var sourceList :- ReadList(data, Key.Sources);
    var sources :- DecodeSources(sourceList);
    var subjectList :- ReadOptionalList(data, Key.Subjects);
    var subjects :- DecodeEmbeddedList(subjectList, "subjects");
    var full := if ctx.snippet then fetched else Success(data);
    Success(PodcastEpisode(number, title, impactStatement, published, updated,
                           DecodeBanner(full), thumbnail, sources, subjects, DecodeEpisodeChapters(full)))
  }

  /** The `PodcastEpisode` class, or the `Model` interface with a `podcast-episode` tag. */
  predicate SupportsDenormalization(data: Json, cls: ClassName) {
    cls == PodcastEpisodeClass || (cls == ModelClass && At(data, Key.Type) == JStr(Tag))
  }

  /** Any podcast episode, whatever the format argument. */
  predicate SupportsNormalization(v: Value) {
    v.PodcastEpisodeValue?
  }

  /** The same context without the snippet flag: what the fetch by number returns. */
  function Full(ctx: Context): (c: Context)
    ensures !c.snippet && c.typed == ctx.typed && c.complete == ctx.complete
  {
    ctx.(snippet := false)
  }

  /** What an encoding keeps: falsy impact statements, the episode's and each chapter's, are lost. */
  function Surviving(e: PodcastEpisode): (s: PodcastEpisode)
    requires e.chapters.Success?
    ensures KeptString(s.impactStatement)
    ensures s.chapters.Success? && |s.chapters.value| == |e.chapters.value|
    ensures forall i :: 0 <= i < |s.chapters.value| ==> KeptString(s.chapters.value[i].impactStatement)
    ensures s.banner == e.banner && s.sources == e.sources && s.subjects == e.subjects
  {
    e.(impactStatement := Kept(e.impactStatement), chapters := Success(SurvivingChapters(e.chapters.value)))
  }

  /** An episode whose impact statements, its own and its chapters', all survive their guards. */
  predicate Encodable(e: PodcastEpisode) {
    && KeptString(e.impactStatement) && e.chapters.Success?
    && forall i :: 0 <= i < |e.chapters.value| ==> KeptString(e.chapters.value[i].impactStatement)
  }

  /** The scalars read back from any encoding as what their guards keep. */
  lemma ScalarsRead(e: PodcastEpisode, ctx: Context)
    ensures var d := JObj(Encoding(e, ctx));
      && ReadInt(d, Key.Number) == Success(e.number)
      && ReadString(d, Key.Title) == Success(e.title)
      && ReadOptionalString(d, Key.ImpactStatement) == Success(Kept(e.impactStatement))
      && ReadString(d, Key.Published) == Success(e.published)
      && ReadOptionalString(d, Key.Updated) == Success(e.updated)
  {
    ScalarKeysWritten(e, ctx);
  }

  /** A full encoding's own banner and chapters decode as the episode's. */
  lemma PromisesDecoded(e: PodcastEpisode, ctx: Context)
    requires !ctx.snippet && e.banner.Success? && e.chapters.Success?
    ensures var full := Success(JObj(Encoding(e, ctx)));
      && DecodeBanner(full) == e.banner
      && DecodeEpisodeChapters(full) == Success(SurvivingChapters(e.chapters.value))
  {
    var d := JObj(Encoding(e, ctx));
    ImageAndSourcesWritten(e, ctx);
    ListKeysWritten(e, ctx);
    assert At(At(d, Key.Image), Key.Banner) == EncodeEmbedded(e.banner.value);
    assert ReadList(d, Key.Chapters) == Success(EncodeChapters(e.chapters.value));
    ChaptersDecoded(e.chapters.value);
  }

  /** The body of any encoding decodes as the episode's thumbnail, sources and subjects. */
  lemma BodyDecoded(e: PodcastEpisode, ctx: Context, fetched: Deferred<Json>)
    requires e.banner.Success? && e.chapters.Success?
    requires ctx.snippet ==> fetched == Success(JObj(Encoding(e, Full(ctx))))
    ensures DecodeBody(JObj(Encoding(e, ctx)), ctx, fetched, e.number, e.title, Kept(e.impactStatement),
                       e.published, e.updated) == Success(Surviving(e))
  {
    var d := JObj(Encoding(e, ctx));
    ImageAndSourcesWritten(e, ctx);
    ListKeysWritten(e, ctx);
    assert At(At(d, Key.Image), Key.Thumbnail) == EncodeEmbedded(e.thumbnail);
    assert ReadList(d, Key.Sources) == Success(EncodeSources(e.sources));
    assert ReadOptionalList(d, Key.Subjects) == Success(EncodeEmbeddedList(e.subjects));
    SourcesRoundTrip(e.sources);
    EmbeddedListRoundTrip(e.subjects, "subjects");
    PromisesDecoded(e, Full(ctx));
    assert !ctx.snippet ==> Full(ctx) == ctx;
  }

  /**
    Decoding an encoding gives the episode back, less what the guards drop:
    directly for a full encoding, and for a snippet once the full episode
    has been fetched by number.
   */
  lemma Decoded(e: PodcastEpisode, ctx: Context, fetched: Deferred<Json>)
    requires e.banner.Success? && e.chapters.Success?
    requires ctx.snippet ==> fetched == Success(JObj(Normalize(e, Full(ctx)).value))
    ensures Normalize(e, ctx).Success?
    ensures Denormalize(JObj(Normalize(e, ctx).value), ctx, fetched) == Success(Surviving(e))
  {
    ScalarsRead(e, ctx);
    BodyDecoded(e, ctx, fetched);
  }

  /** An episode whose impact statements survive their guards comes back whole in every context. */
  lemma RoundTrip(e: PodcastEpisode, ctx: Context, fetched: Deferred<Json>)
    requires Encodable(e) && e.banner.Success?
    requires ctx.snippet ==> fetched == Success(JObj(Normalize(e, Full(ctx)).value))
    ensures Denormalize(JObj(Normalize(e, ctx).value), ctx, fetched) == Success(e)
  {
    Decoded(e, ctx, fetched);
    assert SurvivingChapters(e.chapters.value) == e.chapters.value;
  }

  /** An episode with no impact statement, no updated date and no subjects. */
  predicate NothingOptional(e: PodcastEpisode) {
    e.impactStatement.None? && e.updated.None? && e.subjects == []
  }

  /** With nothing optional and no type asked for, no optional key is written. */
  lemma NoOptionalKey(e: PodcastEpisode, ctx: Context)
    requires NothingOptional(e) && !ctx.typed
    ensures var data := Encoding(e, ctx);
      Key.ImpactStatement !in data && Key.Updated !in data && Key.Subjects !in data && Key.Type !in data
  {
    EntryAt(e, ctx, Key.ImpactStatement); EntryAt(e, ctx, Key.Updated);
    EntryAt(e, ctx, Key.Subjects); EntryAt(e, ctx, Key.Type);
  }

  /** With nothing optional and no type asked for, a key is written exactly when it is a snippet key or the chapters of a full encoding. */
  lemma MinimumKeyAt(e: PodcastEpisode, ctx: Context, k: Key)
    requires NothingOptional(e) && !ctx.typed && (!ctx.snippet ==> e.chapters.Success?)
    ensures k in Encoding(e, ctx) <==> k in SnippetKeys || (k == Key.Chapters && !ctx.snippet)
  {
    if k in SnippetKeys {
      SnippetKeysWritten(e, ctx);
    } else if k == Key.Chapters {
      EntryAt(e, ctx, Key.Chapters);
    } else if k in WireKeys {
      NoOptionalKey(e, ctx);
    }
  }

  /**
    With nothing optional and no type asked for, a snippet holds exactly
    the number, title, published date, image and sources, and a full
    encoding adds the chapters.
   */
  lemma MinimumKeys(e: PodcastEpisode, ctx: Context)
    requires NothingOptional(e) && !ctx.typed && (!ctx.snippet ==> e.chapters.Success?)
    ensures Encoding(e, ctx).Keys == if ctx.snippet then SnippetKeys else SnippetKeys + {Key.Chapters}
  {
    forall k {
      MinimumKeyAt(e, ctx, k);
    }
  }

  /** The image object holds the thumbnail alone in a snippet, and the banner as well in a full encoding. */
  lemma ImageKeys(e: PodcastEpisode, ctx: Context)
    requires e.banner.Success?
    ensures ImageObject(e, ctx).Keys == if ctx.snippet then {Key.Thumbnail} else {Key.Thumbnail, Key.Banner}
  {
  }
}
