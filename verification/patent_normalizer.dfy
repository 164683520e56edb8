/**
  The patent reference codec. Its normalizer source is not part of this
  model: the wire format is the one the patent fixtures fix in both
  directions. The model's patent type travels under `patentType`, since
  `type` holds the variant tag.
 */
module PatentReferenceNormalizer {
  import opened Wrappers
  import opened Json
  import opened References
  import opened Values

  const Tag := "patent"

  /** The keys every encoding holds: the minimum fixture's keys. */
  const RequiredKeys: set<Key> :=
    {Key.Type, Key.Id, Key.Date, Key.Inventors, Key.Title, Key.PatentType, Key.Country}

  /** Every key an encoding can hold: the complete fixture's keys. */
  const WireKeys: set<Key> :=
    {Key.Type, Key.Id, Key.Date, Key.Inventors, Key.Title, Key.PatentType, Key.Country,
     Key.Discriminator, Key.InventorsEtAl, Key.Assignees, Key.AssigneesEtAl, Key.Number, Key.Uri}

  /** What the encoder writes under a key, or nothing when the value is falsy or empty. */
  function Entry(r: PatentReference, k: Key): Option<Json> {
    match k
    case Type => Some(JStr(Tag))
    case Id => Some(JStr(r.id))
    case Date => Some(JStr(r.date))
    case Inventors => Some(JArr(EncodeEmbeddedList(r.inventors)))
    case Title => Some(JStr(r.title))
    case PatentType => Some(JStr(r.patentType))
    case Country => Some(JStr(r.country))
    case Discriminator => IfString(r.discriminator)
    case InventorsEtAl => IfFlag(r.inventorsEtAl)
    case Assignees => IfList(EncodeEmbeddedList(r.assignees))
    case AssigneesEtAl => IfFlag(r.assigneesEtAl)
    case Number => IfString(r.number)
    case Uri => IfString(r.uri)
    case _ => None
  }

  /** Encoding: every key of the wire format whose table entry is present. */
  function Normalize(r: PatentReference): (data: Object)
  {
    map k | k in WireKeys && Entry(r, k).Some? :: Entry(r, k).value
  }

  /** Each key of the wire format holds its table entry, and is absent when the entry is. */
  lemma EntryAt(r: PatentReference, k: Key)
    requires k in WireKeys
    ensures k in Normalize(r) <==> Entry(r, k).Some?
    ensures k in Normalize(r) ==> Normalize(r)[k] == Entry(r, k).value
  {
  }

  /** The encoding holds the tag and the required keys, and no key outside the wire format. */
  lemma KeysBounded(r: PatentReference)
    ensures RequiredKeys <= Normalize(r).Keys <= WireKeys
    ensures Normalize(r)[Key.Type] == JStr(Tag)
  {
    EntryAt(r, Key.Type); EntryAt(r, Key.Id); EntryAt(r, Key.Date); EntryAt(r, Key.Inventors);
    EntryAt(r, Key.Title); EntryAt(r, Key.PatentType); EntryAt(r, Key.Country);
  }

  /** The required keys carry the reference's own fields; the patent type under `patentType`. */
  lemma RequiredKeysWritten(r: PatentReference)
    ensures var data := Normalize(r);
      && Key.Id in data && data[Key.Id] == JStr(r.id)
      && Key.Date in data && data[Key.Date] == JStr(r.date)
      && Key.Inventors in data && data[Key.Inventors] == JArr(EncodeEmbeddedList(r.inventors))
      && Key.Title in data && data[Key.Title] == JStr(r.title)
      && Key.PatentType in data && data[Key.PatentType] == JStr(r.patentType)
      && Key.Country in data && data[Key.Country] == JStr(r.country)
  {
    EntryAt(r, Key.Id); EntryAt(r, Key.Date); EntryAt(r, Key.Inventors);
    EntryAt(r, Key.Title); EntryAt(r, Key.PatentType); EntryAt(r, Key.Country);
  }

  /** Assignees are written only when there are some; each et-al key only when its flag is set. */
  lemma ContributorKeysWritten(r: PatentReference)
    ensures var data := Normalize(r);
      && (Key.Assignees in data <==> |r.assignees| > 0)
      && (Key.Assignees in data ==> data[Key.Assignees] == JArr(EncodeEmbeddedList(r.assignees)))
      && (Key.InventorsEtAl in data <==> r.inventorsEtAl)
      && (Key.AssigneesEtAl in data <==> r.assigneesEtAl)
  {
    EntryAt(r, Key.Assignees); EntryAt(r, Key.InventorsEtAl); EntryAt(r, Key.AssigneesEtAl);
  }

  /** The discriminator, number and URI are written, as themselves, exactly when truthy. */
  lemma OptionalStringsWritten(r: PatentReference)
    ensures var data := Normalize(r);
      && (Key.Discriminator in data <==> r.discriminator.Some? && !FalsyString(r.discriminator.value))
      && (Key.Discriminator in data ==> data[Key.Discriminator] == JStr(r.discriminator.value))
      && (Key.Number in data <==> r.number.Some? && !FalsyString(r.number.value))
      && (Key.Number in data ==> data[Key.Number] == JStr(r.number.value))
      && (Key.Uri in data <==> r.uri.Some? && !FalsyString(r.uri.value))
      && (Key.Uri in data ==> data[Key.Uri] == JStr(r.uri.value))
  {
    EntryAt(r, Key.Discriminator); EntryAt(r, Key.Number); EntryAt(r, Key.Uri);
  }

  /**
    Decoding: required keys must be present; absent optional keys read as
    null, false or an empty list.
   */
  function Denormalize(data: Json): (r: Result<PatentReference>)
    ensures r.Success? && At(data, Key.Discriminator).JNull? ==> r.value.discriminator.None?
    ensures r.Success? && At(data, Key.InventorsEtAl).JNull? ==> !r.value.inventorsEtAl
    ensures r.Success? && At(data, Key.Assignees).JNull? ==> r.value.assignees == []
    ensures r.Success? && At(data, Key.AssigneesEtAl).JNull? ==> !r.value.assigneesEtAl
    ensures r.Success? && At(data, Key.Number).JNull? ==> r.value.number.None?
    ensures r.Success? && At(data, Key.Uri).JNull? ==> r.value.uri.None?
    ensures r.Success? ==> JArr(EncodeEmbeddedList(r.value.inventors)) == At(data, Key.Inventors)
    ensures r.Success? ==> At(data, Key.PatentType) == JStr(r.value.patentType)
    ensures r.Success? ==> At(data, Key.Country) == JStr(r.value.country)
    ensures !At(data, Key.Inventors).JArr? || !At(data, Key.PatentType).JStr? ==> r.Failure?
    ensures !At(data, Key.Id).JStr? || !At(data, Key.Date).JStr? || !At(data, Key.Title).JStr? ==> r.Failure?
    ensures r.Success? ==> At(data, Key.Id) == JStr(r.value.id) && At(data, Key.Date) == JStr(r.value.date)
    ensures r.Success? ==> At(data, Key.Title) == JStr(r.value.title)
  {
    var id :- ReadString(data, Key.Id);
    var date :- ReadString(data, Key.Date);
    var discriminator :- ReadOptionalString(data, Key.Discriminator);
    var inventorList :- ReadList(data, Key.Inventors);
    var inventors :- DecodeEmbeddedList(inventorList, "inventors");
    var inventorsEtAl :- ReadFlag(data, Key.InventorsEtAl);
    var assigneeList :- ReadOptionalList(data, Key.Assignees);
    var assignees :- DecodeEmbeddedList(assigneeList, "assignees");
    var assigneesEtAl :- ReadFlag(data, Key.AssigneesEtAl);
    var title :- ReadString(data, Key.Title);
    var patentType :- ReadString(data, Key.PatentType);
    var country :- ReadString(data, Key.Country);
    var number :- ReadOptionalString(data, Key.Number);
    var uri :- ReadOptionalString(data, Key.Uri);
    Success(PatentReference(id, date, discriminator, inventors, inventorsEtAl, assignees, assigneesEtAl,
      title, patentType, country, number, uri))
  }

  /** The exact class, or the `Reference` interface with a `patent` tag. */
  predicate SupportsDenormalization(data: Json, cls: ClassName) {
    cls == PatentReferenceClass || (cls == ReferenceClass && At(data, Key.Type) == JStr(Tag))
  }

  /** Any patent reference, whatever the format argument. */
  predicate SupportsNormalization(v: Value) {
    v.ReferenceValue? && v.reference.Patent?
  }

  /** A reference whose optional strings each survive the guard that writes them. */
  predicate Encodable(r: PatentReference) {
    KeptString(r.discriminator) && KeptString(r.number) && KeptString(r.uri)
  }

  /** What an encoding keeps of a reference: its falsy optional strings become absent. */
  function Surviving(r: PatentReference): (s: PatentReference)
    ensures Encodable(s)
    ensures Encodable(r) <==> s == r
  {
    r.(discriminator := Kept(r.discriminator), number := Kept(r.number), uri := Kept(r.uri))
  }

  /** The optional contributor keys read back as written, or as their defaults. */
  lemma ContributorKeysRead(r: PatentReference)
    ensures var d := JObj(Normalize(r));
      && ReadFlag(d, Key.InventorsEtAl) == Success(r.inventorsEtAl)
      && ReadOptionalList(d, Key.Assignees) == Success(EncodeEmbeddedList(r.assignees))
      && ReadFlag(d, Key.AssigneesEtAl) == Success(r.assigneesEtAl)
  {
    EntryAt(r, Key.InventorsEtAl); EntryAt(r, Key.Assignees); EntryAt(r, Key.AssigneesEtAl);
  }

  /** The optional strings read back as what their guards let through. */
  lemma OptionalStringsRead(r: PatentReference)
    ensures var d := JObj(Normalize(r));
      && ReadOptionalString(d, Key.Discriminator) == Success(Kept(r.discriminator))
      && ReadOptionalString(d, Key.Number) == Success(Kept(r.number))
      && ReadOptionalString(d, Key.Uri) == Success(Kept(r.uri))
  {
    EntryAt(r, Key.Discriminator); EntryAt(r, Key.Number); EntryAt(r, Key.Uri);
  }

  /** Decoding an encoding gives back the reference, less what the guards drop. */
  lemma Decoded(r: PatentReference)
    ensures Denormalize(JObj(Normalize(r))) == Success(Surviving(r))
  {
    var d := JObj(Normalize(r));
    RequiredKeysWritten(r);
    ContributorKeysRead(r);
    OptionalStringsRead(r);
    assert ReadString(d, Key.Id) == Success(r.id);
    assert ReadString(d, Key.Date) == Success(r.date);
    assert ReadList(d, Key.Inventors) == Success(EncodeEmbeddedList(r.inventors));
    assert ReadString(d, Key.Title) == Success(r.title);
    assert ReadString(d, Key.PatentType) == Success(r.patentType);
    assert ReadString(d, Key.Country) == Success(r.country);
    EmbeddedListRoundTrip(r.inventors, "inventors");
    EmbeddedListRoundTrip(r.assignees, "assignees");
  }

  /** Decoding an encoding gives the reference back, assignees included, when nothing is falsy. */
  lemma RoundTrip(r: PatentReference)
    requires Encodable(r)
    ensures Denormalize(JObj(Normalize(r))) == Success(r)
  {
    Decoded(r);
  }

  /** A reference none of whose optional values the encoder writes. */
  predicate NothingOptional(r: PatentReference) {
    && r.discriminator.None? && !r.inventorsEtAl && r.assignees == [] && !r.assigneesEtAl
    && r.number.None? && r.uri.None?
  }

  /** No optional key is written for a reference with nothing optional. */
  lemma NoOptionalKey(r: PatentReference)
    requires NothingOptional(r)
    ensures var data := Normalize(r);
      && Key.Discriminator !in data && Key.InventorsEtAl !in data && Key.Assignees !in data
      && Key.AssigneesEtAl !in data && Key.Number !in data && Key.Uri !in data
  {
    ContributorKeysWritten(r);
    OptionalStringsWritten(r);
  }

  /** With nothing optional, the encoding holds exactly the required keys. */
  lemma OnlyRequiredKeys(r: PatentReference)
    requires NothingOptional(r)
    ensures Normalize(r).Keys == RequiredKeys
  {
    KeysBounded(r);
    NoOptionalKey(r);
  }

  /** A reference all of whose optional values the encoder writes. */
  predicate EverythingOptional(r: PatentReference) {
    && r.discriminator.Some? && !FalsyString(r.discriminator.value)
    && r.inventorsEtAl && |r.assignees| > 0 && r.assigneesEtAl
    && r.number.Some? && !FalsyString(r.number.value) && r.uri.Some? && !FalsyString(r.uri.value)
  }

  /** With everything optional present and truthy, every key of the wire format is written. */
  lemma AllKeys(r: PatentReference)
    requires EverythingOptional(r)
    ensures Normalize(r).Keys == WireKeys
  {
    KeysBounded(r);
    ContributorKeysWritten(r);
    OptionalStringsWritten(r);
  }
}
