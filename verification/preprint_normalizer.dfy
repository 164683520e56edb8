/**
  The preprint reference codec: a `type` tag, the required keys, and the
  optional keys an `if` guard writes only when truthy.
 */
module PreprintReferenceNormalizer {
  import opened Wrappers
  import opened Json
  import opened References
  import opened Values

  const Tag := "preprint"

  /** The keys `normalize` writes whatever the reference holds. */
  const RequiredKeys: set<Key> := {Key.Type, Key.Id, Key.Date, Key.Authors, Key.ArticleTitle, Key.Source}

  /** Every key an encoding can hold. */
  const WireKeys: set<Key> :=
    {Key.Type, Key.Id, Key.Date, Key.Authors, Key.ArticleTitle, Key.Source,
     Key.Discriminator, Key.AuthorsEtAl, Key.Doi, Key.Uri}

  /** What `normalize` writes under a key, or nothing when the key's `if` guard fails. */
  function Entry(r: PreprintReference, k: Key): Option<Json> {
    match k
    case Type => Some(JStr(Tag))
    case Id => Some(JStr(r.id))
    case Date => Some(JStr(r.date))
    case Authors => Some(JArr(EncodeEmbeddedList(r.authors)))
    case ArticleTitle => Some(JStr(r.articleTitle))
    case Source => Some(JStr(r.source))
    case Discriminator => IfString(r.discriminator)
    case AuthorsEtAl => IfFlag(r.authorsEtAl)
    case Doi => IfString(r.doi)
    case Uri => IfString(r.uri)
    case _ => None
  }

  /** Encoding: every key of the wire format whose table entry is present. */
  function Normalize(r: PreprintReference): (data: Object)
  {
    map k | k in WireKeys && Entry(r, k).Some? :: Entry(r, k).value
  }

  /** Each key of the wire format holds its table entry, and is absent when the entry is. */
  lemma EntryAt(r: PreprintReference, k: Key)
    requires k in WireKeys
    ensures k in Normalize(r) <==> Entry(r, k).Some?
    ensures k in Normalize(r) ==> Normalize(r)[k] == Entry(r, k).value
  {
  }

  /** The encoding holds the tag and the required keys, and no key outside the wire format. */
  lemma KeysBounded(r: PreprintReference)
    ensures RequiredKeys <= Normalize(r).Keys <= WireKeys
    ensures Normalize(r)[Key.Type] == JStr(Tag)
  {
    EntryAt(r, Key.Type); EntryAt(r, Key.Id); EntryAt(r, Key.Date);
    EntryAt(r, Key.ArticleTitle); EntryAt(r, Key.Source); EntryAt(r, Key.Authors);
  }

  /** The required keys carry the reference's own fields, the authors in order. */
  lemma RequiredKeysWritten(r: PreprintReference)
    ensures var data := Normalize(r);
      && Key.Id in data && data[Key.Id] == JStr(r.id)
      && Key.Date in data && data[Key.Date] == JStr(r.date)
      && Key.ArticleTitle in data && data[Key.ArticleTitle] == JStr(r.articleTitle)
      && Key.Source in data && data[Key.Source] == JStr(r.source)
      && Key.Authors in data && data[Key.Authors] == JArr(EncodeEmbeddedList(r.authors))
  {
    EntryAt(r, Key.Id); EntryAt(r, Key.Date); EntryAt(r, Key.ArticleTitle);
    EntryAt(r, Key.Source); EntryAt(r, Key.Authors);
  }

  /** Each optional string is written, as itself, exactly when it is truthy. */
  lemma OptionalStringsWritten(r: PreprintReference)
    ensures var data := Normalize(r);
      && (Key.Discriminator in data <==> r.discriminator.Some? && !FalsyString(r.discriminator.value))
      && (Key.Doi in data <==> r.doi.Some? && !FalsyString(r.doi.value))
      && (Key.Uri in data <==> r.uri.Some? && !FalsyString(r.uri.value))
      && (Key.Discriminator in data ==> data[Key.Discriminator] == JStr(r.discriminator.value))
      && (Key.Doi in data ==> data[Key.Doi] == JStr(r.doi.value))
      && (Key.Uri in data ==> data[Key.Uri] == JStr(r.uri.value))
  {
    EntryAt(r, Key.Discriminator); EntryAt(r, Key.Doi); EntryAt(r, Key.Uri);
  }

  /** `authorsEtAl` is written, as `true`, exactly when the flag is set. */
  lemma EtAlWritten(r: PreprintReference)
    ensures var data := Normalize(r);
      && (Key.AuthorsEtAl in data <==> r.authorsEtAl)
      && (Key.AuthorsEtAl in data ==> data[Key.AuthorsEtAl] == JBool(true))
  {
    EntryAt(r, Key.AuthorsEtAl);
  }

  /** Decoding: required keys must be present; absent optional keys read as null or false. */
  function Denormalize(data: Json): (r: Result<PreprintReference>)
    ensures r.Success? && At(data, Key.Discriminator).JNull? ==> r.value.discriminator.None?
    ensures r.Success? && At(data, Key.Doi).JNull? ==> r.value.doi.None?
    ensures r.Success? && At(data, Key.Uri).JNull? ==> r.value.uri.None?
    ensures r.Success? && At(data, Key.AuthorsEtAl).JNull? ==> !r.value.authorsEtAl
    ensures r.Success? ==> JArr(EncodeEmbeddedList(r.value.authors)) == At(data, Key.Authors)
    ensures r.Success? ==> At(data, Key.Id) == JStr(r.value.id) && At(data, Key.Date) == JStr(r.value.date)
    ensures r.Success? ==> At(data, Key.ArticleTitle) == JStr(r.value.articleTitle)
    ensures r.Success? ==> At(data, Key.Source) == JStr(r.value.source)
    ensures r.Success? ==> ReadOptionalString(data, Key.Discriminator) == Success(r.value.discriminator)
    ensures r.Success? ==> ReadOptionalString(data, Key.Doi) == Success(r.value.doi)
    ensures r.Success? ==> ReadOptionalString(data, Key.Uri) == Success(r.value.uri)
    ensures r.Success? ==> ReadFlag(data, Key.AuthorsEtAl) == Success(r.value.authorsEtAl)
    ensures !At(data, Key.Id).JStr? || !At(data, Key.Authors).JArr? ==> r.Failure?
  {
    var id :- ReadString(data, Key.Id);
    var date :- ReadString(data, Key.Date);
    var discriminator :- ReadOptionalString(data, Key.Discriminator);
    var authorList :- ReadList(data, Key.Authors);
    var authors :- DecodeEmbeddedList(authorList, "authors");
    var authorsEtAl :- ReadFlag(data, Key.AuthorsEtAl);
    var articleTitle :- ReadString(data, Key.ArticleTitle);
    var source :- ReadString(data, Key.Source);
    var doi :- ReadOptionalString(data, Key.Doi);
    var uri :- ReadOptionalString(data, Key.Uri);
    Success(PreprintReference(id, date, discriminator, authors, authorsEtAl, articleTitle, source, doi, uri))
  }

  /** The exact class, or the `Reference` interface with a `preprint` tag. */
  predicate SupportsDenormalization(data: Json, cls: ClassName) {
    cls == PreprintReferenceClass || (cls == ReferenceClass && At(data, Key.Type) == JStr(Tag))
  }

  predicate SupportsNormalization(v: Value) {
    v.ReferenceValue? && v.reference.Preprint?
  }

  /** A reference whose optional strings each survive the `if` guard. */
  predicate Encodable(r: PreprintReference) {
    KeptString(r.discriminator) && KeptString(r.doi) && KeptString(r.uri)
  }

  /** What an encoding keeps of a reference: its falsy optional strings become absent. */
  function Surviving(r: PreprintReference): (s: PreprintReference)
    ensures Encodable(s)
    ensures Encodable(r) <==> s == r
  {
    r.(discriminator := Kept(r.discriminator), doi := Kept(r.doi), uri := Kept(r.uri))
  }

  /** Decoding an encoding gives back the reference, less what the guards drop. */
  lemma Decoded(r: PreprintReference)
    ensures Denormalize(JObj(Normalize(r))) == Success(Surviving(r))
  {
    var d := JObj(Normalize(r));
    RequiredKeysWritten(r);
    OptionalStringsWritten(r);
    EtAlWritten(r);
    assert ReadString(d, Key.Id) == Success(r.id);
    assert ReadString(d, Key.Date) == Success(r.date);
    assert ReadString(d, Key.ArticleTitle) == Success(r.articleTitle);
    assert ReadString(d, Key.Source) == Success(r.source);
    assert ReadList(d, Key.Authors) == Success(EncodeEmbeddedList(r.authors));
    assert ReadOptionalString(d, Key.Discriminator) == Success(Kept(r.discriminator));
    assert ReadOptionalString(d, Key.Doi) == Success(Kept(r.doi));
    assert ReadOptionalString(d, Key.Uri) == Success(Kept(r.uri));
    assert ReadFlag(d, Key.AuthorsEtAl) == Success(r.authorsEtAl);
    EmbeddedListRoundTrip(r.authors, "authors");
  }

  /** Decoding an encoding gives the reference back when nothing is falsy. */
  lemma RoundTrip(r: PreprintReference)
    requires Encodable(r)
    ensures Denormalize(JObj(Normalize(r))) == Success(r)
  {
    Decoded(r);
  }

  /** A falsy optional string is dropped: "0" as a DOI comes back as no DOI. */
  lemma FalsyDoiIsLost(r: PreprintReference)
    requires r.doi == Some("0") && KeptString(r.discriminator) && KeptString(r.uri)
    ensures Denormalize(JObj(Normalize(r))) == Success(r.(doi := None))
  {
    Decoded(r);
  }
}
