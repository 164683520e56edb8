/**
  The blog article codec. The id, title and published date are always
  written; the impact statement when truthy, the subject ids when there are
  any, and the content blocks unless the context asks for a snippet.
  Decoding leaves the content as a promise: a missing or malformed content
  list rejects that promise and does not fail the decode.
 */
module BlogArticleNormalizer {
  import opened Wrappers
  import opened Json
  import opened Content
  import opened Values

  /** Every key an encoding can hold. */
  const WireKeys: set<Key> :=
    {Key.Id, Key.Title, Key.Published, Key.ImpactStatement, Key.Subjects, Key.Content}

  /** The keys every encoding holds. */
  const RequiredKeys: set<Key> := {Key.Id, Key.Title, Key.Published}

  /** What `normalize` writes under a key in a context, or nothing when its guard fails. */
  function Entry(a: BlogArticle, ctx: Context, k: Key): Option<Json> {
    match k
    case Id => Some(JStr(a.id))
    case Title => Some(JStr(a.title))
    case Published => Some(JStr(a.published))
    case ImpactStatement => IfString(a.impactStatement)
    case Subjects => if a.HasSubjects() then Some(JArr(EncodeStrings(a.subjects.value))) else None
    case Content =>
      if ctx.snippet || a.content.Failure? then None else Some(JArr(EncodeEmbeddedList(a.content.value)))
    case _ => None
  }

  /** The encoded object once every promise it waits on has been fulfilled. */
  function Encoding(a: BlogArticle, ctx: Context): Object {
    map k | k in WireKeys && Entry(a, ctx, k).Some? :: Entry(a, ctx, k).value
  }

  /**
    `normalize`: waiting on all the values fails with the content's
    rejection when the content is wanted; a snippet never waits on it.
   */
  function Normalize(a: BlogArticle, ctx: Context): (r: Result<Object>)
    ensures r.Failure? <==> !ctx.snippet && a.content.Failure?
    ensures r.Failure? ==> r.error == a.content.error
  {
    if !ctx.snippet && a.content.Failure? then Failure(a.content.error) else Success(Encoding(a, ctx))
  }

  /** Each key of the wire format holds its table entry, and is absent when the entry is. */
  lemma EntryAt(a: BlogArticle, ctx: Context, k: Key)
    requires k in WireKeys
    ensures k in Encoding(a, ctx) <==> Entry(a, ctx, k).Some?
    ensures k in Encoding(a, ctx) ==> Encoding(a, ctx)[k] == Entry(a, ctx, k).value
  {
  }

  /** The id, title and published date are always written, as themselves. */
  lemma RequiredKeysWritten(a: BlogArticle, ctx: Context)
    ensures var data := Encoding(a, ctx);
      && Key.Id in data && data[Key.Id] == JStr(a.id)
      && Key.Title in data && data[Key.Title] == JStr(a.title)
      && Key.Published in data && data[Key.Published] == JStr(a.published)
  {
    EntryAt(a, ctx, Key.Id); EntryAt(a, ctx, Key.Title); EntryAt(a, ctx, Key.Published);
  }

  /**
    The impact statement is written exactly when truthy; the subject ids,
    in order, exactly when there are some; the content blocks, in order,
    exactly outside a snippet.
   */
  lemma OptionalKeysWritten(a: BlogArticle, ctx: Context)
    requires !ctx.snippet ==> a.content.Success?
    ensures var data := Encoding(a, ctx);
      && (Key.ImpactStatement in data <==> a.impactStatement.Some? && !FalsyString(a.impactStatement.value))
      && (Key.ImpactStatement in data ==> data[Key.ImpactStatement] == JStr(a.impactStatement.value))
      && (Key.Subjects in data <==> a.subjects.Some? && |a.subjects.value| > 0)
      && (Key.Subjects in data ==> data[Key.Subjects] == JArr(EncodeStrings(a.subjects.value)))
      && (Key.Content in data <==> !ctx.snippet)
      && (Key.Content in data ==> data[Key.Content] == JArr(EncodeEmbeddedList(a.content.value)))
  {
    EntryAt(a, ctx, Key.ImpactStatement); EntryAt(a, ctx, Key.Subjects); EntryAt(a, ctx, Key.Content);
  }

  /** The encoding always holds the required keys and never a key outside the wire format. */
  lemma KeysBounded(a: BlogArticle, ctx: Context)
    ensures RequiredKeys <= Encoding(a, ctx).Keys <= WireKeys
  {
    RequiredKeysWritten(a, ctx);
  }

  /** The promised content: the blocks of an array, each an object, in order. */
  function DecodeContent(data: Json): (r: Deferred<seq<Embedded>>)
    ensures r.Success? <==> At(data, Key.Content).JArr? && DecodeEmbeddedList(At(data, Key.Content).items, "content").Success?
    ensures r.Success? ==> JArr(EncodeEmbeddedList(r.value)) == At(data, Key.Content)
  {
    var blocks :- ReadList(data, Key.Content);
    DecodeEmbeddedList(blocks, "content")
  }

  /** `!empty($data['subjects'])`: an absent, null or empty list gives no subjects. */
  function DecodeSubjects(data: Json): (r: Result<Option<seq<string>>>)
    ensures r == Success(None) <==> At(data, Key.Subjects).JNull? || At(data, Key.Subjects) == JArr([])
    ensures r.Success? && r.value.Some? ==> |r.value.value| > 0 && JArr(EncodeStrings(r.value.value)) == At(data, Key.Subjects)
  {
    var list :- ReadOptionalList(data, Key.Subjects);
    if list == [] then Success(None)
    else
      var ids :- DecodeStrings(list);
      Success(Some(ids))
  }

  /**
    `denormalize`: the content is decoded lazily and never fails the
    decode; the subjects, id, title, published date and impact statement
    are read in that order.
   */
  function Denormalize(data: Json): (r: Result<BlogArticle>)
    ensures r.Success? ==> r.value.content == DecodeContent(data)
    ensures r.Success? && At(data, Key.ImpactStatement).JNull? ==> r.value.impactStatement.None?
    ensures r.Success? ==> (r.value.subjects.None? <==> !r.value.HasSubjects())
    ensures !At(data, Key.Id).JStr? || !At(data, Key.Title).JStr? || !At(data, Key.Published).JStr? ==> r.Failure?
    ensures r.Success? <==>
      && DecodeSubjects(data).Success?
      && At(data, Key.Id).JStr? && At(data, Key.Title).JStr? && At(data, Key.Published).JStr?
      && ReadOptionalString(data, Key.ImpactStatement).Success?
    ensures r.Success? ==> DecodeSubjects(data) == Success(r.value.subjects)
    ensures r.Success? ==> At(data, Key.Id) == JStr(r.value.id) && At(data, Key.Title) == JStr(r.value.title)
    ensures r.Success? ==> At(data, Key.Published) == JStr(r.value.published)
    ensures r.Success? ==> ReadOptionalString(data, Key.ImpactStatement) == Success(r.value.impactStatement)
  {
    var content := DecodeContent(data);
    var subjects :- DecodeSubjects(data);
    var id :- ReadString(data, Key.Id);
    var title :- ReadString(data, Key.Title);
    var published :- ReadString(data, Key.Published);
    var impactStatement :- ReadOptionalString(data, Key.ImpactStatement);
    Success(BlogArticle(id, title, published, impactStatement, content, subjects))
  }

  /** The exact `BlogArticle` class only: there is no interface path. */
  predicate SupportsDenormalization(data: Json, cls: ClassName) {
    cls == BlogArticleClass
  }

  /** Any blog article. */
  predicate SupportsNormalization(v: Value) {
    v.BlogArticleValue?
  }

  /**
    What an encoding keeps: a falsy impact statement and an empty subject
    list are lost, and a snippet's content decodes as the promise the
    missing list rejects.
   */
  function Surviving(a: BlogArticle, ctx: Context): (s: BlogArticle)
    ensures KeptString(s.impactStatement)
    ensures s.subjects.None? || |s.subjects.value| > 0
    ensures ctx.snippet ==> s.content.Failure?
    ensures !ctx.snippet ==> s.content == a.content
    ensures s.id == a.id && s.title == a.title && s.published == a.published
  {
    a.(impactStatement := Kept(a.impactStatement),
       subjects := if a.HasSubjects() then a.subjects else None,
       content := if ctx.snippet then Failure(MissingKey(KeyName(Key.Content))) else a.content)
  }

  /** An article whose impact statement survives its guard and whose subject list, if any, is non-empty. */
  predicate Encodable(a: BlogArticle) {
    KeptString(a.impactStatement) && (a.subjects.None? || |a.subjects.value| > 0)
  }

  /** The content promise read back: the article's own outside a snippet, the missing list's rejection in one. */
  lemma ContentRead(a: BlogArticle, ctx: Context)
    requires Normalize(a, ctx).Success?
    ensures DecodeContent(JObj(Encoding(a, ctx))) == Surviving(a, ctx).content
  {
    OptionalKeysWritten(a, ctx);
    if !ctx.snippet {
      EmbeddedListRoundTrip(a.content.value, "content");
    }
  }

  /** The subject ids read back, when there are any. */
  lemma SubjectsRead(a: BlogArticle, ctx: Context)
    requires Normalize(a, ctx).Success?
    ensures DecodeSubjects(JObj(Encoding(a, ctx))) == Success(Surviving(a, ctx).subjects)
  {
    OptionalKeysWritten(a, ctx);
    if a.HasSubjects() {
      StringsRoundTrip(a.subjects.value);
    }
  }

  /** The id, title, published date and impact statement read back. */
  lemma ScalarsRead(a: BlogArticle, ctx: Context)
    requires Normalize(a, ctx).Success?
    ensures var d := JObj(Encoding(a, ctx));
      && ReadString(d, Key.Id) == Success(a.id)
      && ReadString(d, Key.Title) == Success(a.title)
      && ReadString(d, Key.Published) == Success(a.published)
      && ReadOptionalString(d, Key.ImpactStatement) == Success(Kept(a.impactStatement))
  {
    RequiredKeysWritten(a, ctx);
    OptionalKeysWritten(a, ctx);
  }

  /** Decoding a successful encoding gives the article back, less what the guards and the context drop. */
  lemma Decoded(a: BlogArticle, ctx: Context)
    requires Normalize(a, ctx).Success?
    ensures Denormalize(JObj(Normalize(a, ctx).value)) == Success(Surviving(a, ctx))
  {
    ContentRead(a, ctx);
    SubjectsRead(a, ctx);
    ScalarsRead(a, ctx);
  }

  /** Outside a snippet, an encodable article with fulfilled content comes back whole. */
  lemma RoundTrip(a: BlogArticle, ctx: Context)
    requires Encodable(a) && !ctx.snippet && a.content.Success?
    ensures Denormalize(JObj(Normalize(a, ctx).value)) == Success(a)
  {
    Decoded(a, ctx);
  }

  /** A snippet's decoding has a rejected content promise, whatever the article's content was. */
  lemma SnippetLosesContent(a: BlogArticle, ctx: Context)
    requires ctx.snippet
    ensures Normalize(a, ctx).Success?
    ensures Denormalize(JObj(Normalize(a, ctx).value)).Success?
    ensures Denormalize(JObj(Normalize(a, ctx).value)).value.content.Failure?
  {
    Decoded(a, ctx);
  }
}
