/**
  The software reference codec. Its normalizer source is not part of this
  model: the wire format is the one the software fixtures fix in both
  directions, with the publisher as a place encoding.
 */
module SoftwareReferenceNormalizer {
  import opened Wrappers
  import opened Json
  import opened Places
  import opened References
  import opened Values
  import PlaceNormalizer

  const Tag := "software"

  /** The keys every encoding holds: the minimum fixture's keys. */
  const RequiredKeys: set<Key> := {Key.Type, Key.Id, Key.Date, Key.Authors, Key.Title, Key.Publisher}

  /** Every key an encoding can hold: the complete fixture's keys. */
  const WireKeys: set<Key> :=
    {Key.Type, Key.Id, Key.Date, Key.Authors, Key.Title, Key.Publisher,
     Key.AuthorsEtAl, Key.Discriminator, Key.Version, Key.Uri}

  /** What the encoder writes under a key, or nothing when the value is falsy. */
  function Entry(r: SoftwareReference, k: Key): Option<Json> {
    match k
    case Type => Some(JStr(Tag))
    case Id => Some(JStr(r.id))
    case Date => Some(JStr(r.date))
    case Authors => Some(JArr(EncodeEmbeddedList(r.authors)))
    case Title => Some(JStr(r.title))
    case Publisher => Some(JObj(PlaceNormalizer.Normalize(r.publisher)))
    case AuthorsEtAl => IfFlag(r.authorsEtAl)
    case Discriminator => IfString(r.discriminator)
    case Version => IfString(r.version)
    case Uri => IfString(r.uri)
    case _ => None
  }

  /** Encoding: every key of the wire format whose table entry is present. */
  function Normalize(r: SoftwareReference): (data: Object)
  {
    map k | k in WireKeys && Entry(r, k).Some? :: Entry(r, k).value
  }

  /** Each key of the wire format holds its table entry, and is absent when the entry is. */
  lemma EntryAt(r: SoftwareReference, k: Key)
    requires k in WireKeys
    ensures k in Normalize(r) <==> Entry(r, k).Some?
    ensures k in Normalize(r) ==> Normalize(r)[k] == Entry(r, k).value
  {
  }

  /** The encoding holds the tag and the required keys, and no key outside the wire format. */
  lemma KeysBounded(r: SoftwareReference)
    ensures RequiredKeys <= Normalize(r).Keys <= WireKeys
    ensures Normalize(r)[Key.Type] == JStr(Tag)
  {
    EntryAt(r, Key.Type); EntryAt(r, Key.Id); EntryAt(r, Key.Date);
    EntryAt(r, Key.Authors); EntryAt(r, Key.Title); EntryAt(r, Key.Publisher);
  }

  /** The required keys carry the reference's own fields; the publisher as a place encoding. */
  lemma RequiredKeysWritten(r: SoftwareReference)
    ensures var data := Normalize(r);
      && Key.Id in data && data[Key.Id] == JStr(r.id)
      && Key.Date in data && data[Key.Date] == JStr(r.date)
      && Key.Authors in data && data[Key.Authors] == JArr(EncodeEmbeddedList(r.authors))
      && Key.Title in data && data[Key.Title] == JStr(r.title)
      && Key.Publisher in data && data[Key.Publisher] == JObj(PlaceNormalizer.Normalize(r.publisher))
  {
    EntryAt(r, Key.Id); EntryAt(r, Key.Date); EntryAt(r, Key.Authors);
    EntryAt(r, Key.Title); EntryAt(r, Key.Publisher);
  }

  /** Each optional string is written, as itself, exactly when truthy; `authorsEtAl` when set. */
  lemma OptionalKeysWritten(r: SoftwareReference)
    ensures var data := Normalize(r);
      && (Key.AuthorsEtAl in data <==> r.authorsEtAl)
      && (Key.Discriminator in data <==> r.discriminator.Some? && !FalsyString(r.discriminator.value))
      && (Key.Discriminator in data ==> data[Key.Discriminator] == JStr(r.discriminator.value))
      && (Key.Version in data <==> r.version.Some? && !FalsyString(r.version.value))
      && (Key.Version in data ==> data[Key.Version] == JStr(r.version.value))
      && (Key.Uri in data <==> r.uri.Some? && !FalsyString(r.uri.value))
      && (Key.Uri in data ==> data[Key.Uri] == JStr(r.uri.value))
  {
    EntryAt(r, Key.AuthorsEtAl); EntryAt(r, Key.Discriminator); EntryAt(r, Key.Version); EntryAt(r, Key.Uri);
  }

  /** Decoding: required keys must be present; absent optional keys read as null or false. */
  function Denormalize(data: Json): (r: Result<SoftwareReference>)
    ensures r.Success? && At(data, Key.Discriminator).JNull? ==> r.value.discriminator.None?
    ensures r.Success? && At(data, Key.AuthorsEtAl).JNull? ==> !r.value.authorsEtAl
    ensures r.Success? && At(data, Key.Version).JNull? ==> r.value.version.None?
    ensures r.Success? && At(data, Key.Uri).JNull? ==> r.value.uri.None?
    ensures r.Success? ==> JArr(EncodeEmbeddedList(r.value.authors)) == At(data, Key.Authors)
    ensures r.Success? ==> PlaceNormalizer.Denormalize(At(data, Key.Publisher)) == Success(r.value.publisher)
    ensures !At(data, Key.Title).JStr? || !At(data, Key.Authors).JArr? ==> r.Failure?
    ensures !At(data, Key.Id).JStr? || !At(data, Key.Date).JStr? ==> r.Failure?
    ensures r.Success? ==> At(data, Key.Id) == JStr(r.value.id) && At(data, Key.Date) == JStr(r.value.date)
    ensures r.Success? ==> At(data, Key.Title) == JStr(r.value.title)
  {
    var id :- ReadString(data, Key.Id);
    var date :- ReadString(data, Key.Date);
    var discriminator :- ReadOptionalString(data, Key.Discriminator);
    var authorList :- ReadList(data, Key.Authors);
    var authors :- DecodeEmbeddedList(authorList, "authors");
    var authorsEtAl :- ReadFlag(data, Key.AuthorsEtAl);
    var title :- ReadString(data, Key.Title);
    var publisher :- PlaceNormalizer.Denormalize(At(data, Key.Publisher));
    var version :- ReadOptionalString(data, Key.Version);
    var uri :- ReadOptionalString(data, Key.Uri);
    Success(SoftwareReference(id, date, discriminator, authors, authorsEtAl, title, publisher, version, uri))
  }

  /** The exact class, or the `Reference` interface with a `software` tag. */
  predicate SupportsDenormalization(data: Json, cls: ClassName) {
    cls == SoftwareReferenceClass || (cls == ReferenceClass && At(data, Key.Type) == JStr(Tag))
  }

  /** Any software reference, whatever the format argument. */
  predicate SupportsNormalization(v: Value) {
    v.ReferenceValue? && v.reference.Software?
  }

  /** A reference whose optional strings each survive the guard that writes them. */
  predicate Encodable(r: SoftwareReference) {
    KeptString(r.discriminator) && KeptString(r.version) && KeptString(r.uri)
  }

  /** What an encoding keeps of a reference: its falsy optional strings become absent. */
  function Surviving(r: SoftwareReference): (s: SoftwareReference)
    ensures Encodable(s)
    ensures Encodable(r) <==> s == r
  {
    r.(discriminator := Kept(r.discriminator), version := Kept(r.version), uri := Kept(r.uri))
  }

  /** Decoding an encoding gives back the reference, less what the guards drop. */
  lemma Decoded(r: SoftwareReference)
    ensures Denormalize(JObj(Normalize(r))) == Success(Surviving(r))
  {
    var d := JObj(Normalize(r));
    RequiredKeysWritten(r);
    OptionalKeysWritten(r);
    assert ReadString(d, Key.Id) == Success(r.id);
    assert ReadString(d, Key.Date) == Success(r.date);
    assert ReadList(d, Key.Authors) == Success(EncodeEmbeddedList(r.authors));
    assert ReadString(d, Key.Title) == Success(r.title);
    assert ReadFlag(d, Key.AuthorsEtAl) == Success(r.authorsEtAl);
    assert ReadOptionalString(d, Key.Discriminator) == Success(Kept(r.discriminator));
    assert ReadOptionalString(d, Key.Version) == Success(Kept(r.version));
    assert ReadOptionalString(d, Key.Uri) == Success(Kept(r.uri));
    EmbeddedListRoundTrip(r.authors, "authors");
    PlaceNormalizer.RoundTrip(r.publisher);
  }

  /** Decoding an encoding gives the reference back, publisher included, when nothing is falsy. */
  lemma RoundTrip(r: SoftwareReference)
    requires Encodable(r)
    ensures Denormalize(JObj(Normalize(r))) == Success(r)
  {
    Decoded(r);
  }

  /** A reference none of whose optional values the encoder writes. */
  predicate NothingOptional(r: SoftwareReference) {
    r.discriminator.None? && !r.authorsEtAl && r.version.None? && r.uri.None?
  }

  /** No optional key is written for a reference with nothing optional. */
  lemma NoOptionalKey(r: SoftwareReference)
    requires NothingOptional(r)
    ensures var data := Normalize(r);
      && Key.AuthorsEtAl !in data && Key.Discriminator !in data && Key.Version !in data
      && Key.Uri !in data
  {
    OptionalKeysWritten(r);
  }

  /** With nothing optional, the encoding holds exactly the required keys. */
  lemma OnlyRequiredKeys(r: SoftwareReference)
    requires NothingOptional(r)
    ensures Normalize(r).Keys == RequiredKeys
  {
    KeysBounded(r);
    NoOptionalKey(r);
  }

  /** A reference all of whose optional values the encoder writes. */
  predicate EverythingOptional(r: SoftwareReference) {
    && r.discriminator.Some? && !FalsyString(r.discriminator.value) && r.authorsEtAl
    && r.version.Some? && !FalsyString(r.version.value) && r.uri.Some? && !FalsyString(r.uri.value)
  }

  /** With everything optional present and truthy, every key of the wire format is written. */
  lemma AllKeys(r: SoftwareReference)
    requires EverythingOptional(r)
    ensures Normalize(r).Keys == WireKeys
  {
    KeysBounded(r);
    OptionalKeysWritten(r);
  }
}
