/**
  The book reference codec. Its normalizer source is not part of this
  model: the wire format is the one the book fixtures fix in both
  directions, following the pattern of the other reference codecs.
 */
module BookReferenceNormalizer {
  import opened Wrappers
  import opened Json
  import opened Places
  import opened References
  import opened Values
  import PlaceNormalizer

  const Tag := "book"

  /** The keys every encoding holds: the minimum fixture's keys. */
  const RequiredKeys: set<Key> := {Key.Type, Key.Id, Key.Date, Key.BookTitle, Key.Publisher, Key.Authors}

  /** Every key an encoding can hold: the complete fixture's keys. */
  const WireKeys: set<Key> :=
    {Key.Type, Key.Id, Key.Date, Key.BookTitle, Key.Publisher, Key.Authors,
     Key.Discriminator, Key.AuthorsEtAl, Key.Editors, Key.EditorsEtAl,
     Key.Volume, Key.Edition, Key.Doi, Key.Pmid, Key.Isbn}

  /** What the encoder writes under a key, or nothing when the value is falsy or empty. */
  function Entry(r: BookReference, k: Key): Option<Json> {
    match k
    case Type => Some(JStr(Tag))
    case Id => Some(JStr(r.id))
    case Date => Some(JStr(r.date))
    case BookTitle => Some(JStr(r.bookTitle))
    case Publisher => Some(JObj(PlaceNormalizer.Normalize(r.publisher)))
    case Authors => Some(JArr(EncodeEmbeddedList(r.authors)))
    case Discriminator => IfString(r.discriminator)
    case AuthorsEtAl => IfFlag(r.authorsEtAl)
    case Editors => IfList(EncodeEmbeddedList(r.editors))
    case EditorsEtAl => IfFlag(r.editorsEtAl)
    case Volume => IfString(r.volume)
    case Edition => IfString(r.edition)
    case Doi => IfString(r.doi)
    case Pmid => IfInt(r.pmid)
    case Isbn => IfString(r.isbn)
    case _ => None
  }

  /** Encoding: the tag and the required keys always, and no key outside the wire format. */
  function Normalize(r: BookReference): (data: Object)
  {
    map k | k in WireKeys && Entry(r, k).Some? :: Entry(r, k).value
  }

  /** Each key of the wire format holds its table entry, and is absent when the entry is. */
  lemma EntryAt(r: BookReference, k: Key)
    requires k in WireKeys
    ensures k in Normalize(r) <==> Entry(r, k).Some?
    ensures k in Normalize(r) ==> Normalize(r)[k] == Entry(r, k).value
  {
  }

  /** The encoding holds the tag and the required keys, and no key outside the wire format. */
  lemma KeysBounded(r: BookReference)
    ensures RequiredKeys <= Normalize(r).Keys <= WireKeys
    ensures Normalize(r)[Key.Type] == JStr(Tag)
  {
    EntryAt(r, Key.Type); EntryAt(r, Key.Id); EntryAt(r, Key.Date); EntryAt(r, Key.BookTitle);
    EntryAt(r, Key.Authors); EntryAt(r, Key.Publisher);
  }

  /** The required keys carry the reference's own fields; the publisher as a place encoding. */
  lemma RequiredKeysWritten(r: BookReference)
    ensures var data := Normalize(r);
      && Key.Id in data && data[Key.Id] == JStr(r.id)
      && Key.Date in data && data[Key.Date] == JStr(r.date)
      && Key.BookTitle in data && data[Key.BookTitle] == JStr(r.bookTitle)
      && Key.Authors in data && data[Key.Authors] == JArr(EncodeEmbeddedList(r.authors))
      && Key.Publisher in data && data[Key.Publisher] == JObj(PlaceNormalizer.Normalize(r.publisher))
  {
    EntryAt(r, Key.Id); EntryAt(r, Key.Date); EntryAt(r, Key.BookTitle);
    EntryAt(r, Key.Authors); EntryAt(r, Key.Publisher);
  }

  /** Editors are written only when there are some; each et-al key only when its flag is set. */
  lemma ContributorKeysWritten(r: BookReference)
    ensures var data := Normalize(r);
      && (Key.Editors in data <==> |r.editors| > 0)
      && (Key.Editors in data ==> data[Key.Editors] == JArr(EncodeEmbeddedList(r.editors)))
      && (Key.AuthorsEtAl in data <==> r.authorsEtAl)
      && (Key.EditorsEtAl in data <==> r.editorsEtAl)
  {
    EntryAt(r, Key.Editors); EntryAt(r, Key.AuthorsEtAl); EntryAt(r, Key.EditorsEtAl);
  }

  /** The discriminator and volume are written, as themselves, exactly when truthy. */
  lemma DiscriminatorAndVolumeWritten(r: BookReference)
    ensures var data := Normalize(r);
      && (Key.Discriminator in data <==> r.discriminator.Some? && !FalsyString(r.discriminator.value))
      && (Key.Discriminator in data ==> data[Key.Discriminator] == JStr(r.discriminator.value))
      && (Key.Volume in data <==> r.volume.Some? && !FalsyString(r.volume.value))
      && (Key.Volume in data ==> data[Key.Volume] == JStr(r.volume.value))
  {
    EntryAt(r, Key.Discriminator); EntryAt(r, Key.Volume);
  }

  /** The edition and the DOI are written, as themselves, exactly when truthy. */
  lemma EditionAndDoiWritten(r: BookReference)
    ensures var data := Normalize(r);
      && (Key.Edition in data <==> r.edition.Some? && !FalsyString(r.edition.value))
      && (Key.Edition in data ==> data[Key.Edition] == JStr(r.edition.value))
      && (Key.Doi in data <==> r.doi.Some? && !FalsyString(r.doi.value))
      && (Key.Doi in data ==> data[Key.Doi] == JStr(r.doi.value))
  {
    EntryAt(r, Key.Edition); EntryAt(r, Key.Doi);
  }

  /** The PubMed id is written unless absent or 0; the ISBN exactly when truthy. */
  lemma PmidAndIsbnWritten(r: BookReference)
    ensures var data := Normalize(r);
      && (Key.Pmid in data <==> r.pmid.Some? && r.pmid.value != 0)
      && (Key.Pmid in data ==> data[Key.Pmid] == JInt(r.pmid.value))
      && (Key.Isbn in data <==> r.isbn.Some? && !FalsyString(r.isbn.value))
      && (Key.Isbn in data ==> data[Key.Isbn] == JStr(r.isbn.value))
  {
    EntryAt(r, Key.Pmid); EntryAt(r, Key.Isbn);
  }

  /**
    Decoding: required keys must be present; absent optional keys read as
    null, false or an empty list.
   */
  function Denormalize(data: Json): (r: Result<BookReference>)
    ensures r.Success? && At(data, Key.Discriminator).JNull? ==> r.value.discriminator.None?
    ensures r.Success? && At(data, Key.Editors).JNull? ==> r.value.editors == []
    ensures r.Success? && At(data, Key.AuthorsEtAl).JNull? ==> !r.value.authorsEtAl
    ensures r.Success? && At(data, Key.EditorsEtAl).JNull? ==> !r.value.editorsEtAl
    ensures r.Success? && At(data, Key.Volume).JNull? ==> r.value.volume.None?
    ensures r.Success? && At(data, Key.Edition).JNull? ==> r.value.edition.None?
    ensures r.Success? && At(data, Key.Doi).JNull? ==> r.value.doi.None?
    ensures r.Success? && At(data, Key.Pmid).JNull? ==> r.value.pmid.None?
    ensures r.Success? && At(data, Key.Isbn).JNull? ==> r.value.isbn.None?
    ensures r.Success? ==> JArr(EncodeEmbeddedList(r.value.authors)) == At(data, Key.Authors)
    ensures r.Success? ==> PlaceNormalizer.Denormalize(At(data, Key.Publisher)) == Success(r.value.publisher)
    ensures !At(data, Key.BookTitle).JStr? || !At(data, Key.Authors).JArr? ==> r.Failure?
    ensures !At(data, Key.Id).JStr? || !At(data, Key.Date).JStr? ==> r.Failure?
    ensures r.Success? ==> At(data, Key.Id) == JStr(r.value.id) && At(data, Key.Date) == JStr(r.value.date)
    ensures r.Success? ==> At(data, Key.BookTitle) == JStr(r.value.bookTitle)
  {
    var id :- ReadString(data, Key.Id);
    var date :- ReadString(data, Key.Date);
    var discriminator :- ReadOptionalString(data, Key.Discriminator);
    var authorList :- ReadList(data, Key.Authors);
    var authors :- DecodeEmbeddedList(authorList, "authors");
    var authorsEtAl :- ReadFlag(data, Key.AuthorsEtAl);
    var editorList :- ReadOptionalList(data, Key.Editors);
    var editors :- DecodeEmbeddedList(editorList, "editors");
    var editorsEtAl :- ReadFlag(data, Key.EditorsEtAl);
    var bookTitle :- ReadString(data, Key.BookTitle);
    var publisher :- PlaceNormalizer.Denormalize(At(data, Key.Publisher));
    var volume :- ReadOptionalString(data, Key.Volume);
    var edition :- ReadOptionalString(data, Key.Edition);
    var doi :- ReadOptionalString(data, Key.Doi);
    var pmid :- ReadOptionalInt(data, Key.Pmid);
    var isbn :- ReadOptionalString(data, Key.Isbn);
    Success(BookReference(id, date, discriminator, authors, authorsEtAl, editors, editorsEtAl,
      bookTitle, publisher, volume, edition, doi, pmid, isbn))
  }

  /** The exact class, or the `Reference` interface with a `book` tag. */
  predicate SupportsDenormalization(data: Json, cls: ClassName) {
    cls == BookReferenceClass || (cls == ReferenceClass && At(data, Key.Type) == JStr(Tag))
  }

  /** Any book reference, whatever the format argument. */
  predicate SupportsNormalization(v: Value) {
    v.ReferenceValue? && v.reference.Book?
  }

  /** A reference whose optional values each survive the guard that writes them. */
  predicate Encodable(r: BookReference) {
    && KeptString(r.discriminator) && KeptString(r.volume) && KeptString(r.edition)
    && KeptString(r.doi) && KeptString(r.isbn)
    && (r.pmid.None? || r.pmid.value != 0)
  }

  /** What an encoding keeps of a reference: its falsy optional values become absent. */
  function Surviving(r: BookReference): (s: BookReference)
    ensures Encodable(s)
    ensures Encodable(r) <==> s == r
  {
    r.(discriminator := Kept(r.discriminator), volume := Kept(r.volume), edition := Kept(r.edition),
       doi := Kept(r.doi), pmid := KeptNumber(r.pmid), isbn := Kept(r.isbn))
  }

  /** The optional contributor keys read back as the reference holds them. */
  lemma ContributorKeysRead(r: BookReference)
    ensures var d := JObj(Normalize(r));
      && ReadOptionalString(d, Key.Discriminator) == Success(Kept(r.discriminator))
      && ReadOptionalList(d, Key.Editors) == Success(EncodeEmbeddedList(r.editors))
      && ReadFlag(d, Key.AuthorsEtAl) == Success(r.authorsEtAl)
      && ReadFlag(d, Key.EditorsEtAl) == Success(r.editorsEtAl)
  {
    EntryAt(r, Key.Discriminator); EntryAt(r, Key.Editors);
    EntryAt(r, Key.AuthorsEtAl); EntryAt(r, Key.EditorsEtAl);
  }

  /** The optional publication keys read back as what their guards let through. */
  lemma PublicationKeysRead(r: BookReference)
    ensures var d := JObj(Normalize(r));
      && ReadOptionalString(d, Key.Volume) == Success(Kept(r.volume))
      && ReadOptionalString(d, Key.Edition) == Success(Kept(r.edition))
      && ReadOptionalString(d, Key.Doi) == Success(Kept(r.doi))
      && ReadOptionalInt(d, Key.Pmid) == Success(KeptNumber(r.pmid))
      && ReadOptionalString(d, Key.Isbn) == Success(Kept(r.isbn))
  {
    EntryAt(r, Key.Volume); EntryAt(r, Key.Edition); EntryAt(r, Key.Doi);
    EntryAt(r, Key.Pmid); EntryAt(r, Key.Isbn);
  }

  /** Decoding an encoding gives back the reference, less what the guards drop. */
  lemma Decoded(r: BookReference)
    ensures Denormalize(JObj(Normalize(r))) == Success(Surviving(r))
  {
    var d := JObj(Normalize(r));
    RequiredKeysWritten(r);
    ContributorKeysRead(r);
    PublicationKeysRead(r);
    assert ReadString(d, Key.Id) == Success(r.id);
    assert ReadString(d, Key.Date) == Success(r.date);
    assert ReadString(d, Key.BookTitle) == Success(r.bookTitle);
    assert ReadList(d, Key.Authors) == Success(EncodeEmbeddedList(r.authors));
    EmbeddedListRoundTrip(r.authors, "authors");
    EmbeddedListRoundTrip(r.editors, "editors");
    PlaceNormalizer.RoundTrip(r.publisher);
  }

  /** Decoding an encoding gives the reference back, editors and publisher included. */
  lemma RoundTrip(r: BookReference)
    requires Encodable(r)
    ensures Denormalize(JObj(Normalize(r))) == Success(r)
  {
    Decoded(r);
  }

  /** A reference none of whose optional values the encoder writes. */
  predicate NothingOptional(r: BookReference) {
    && r.discriminator.None? && !r.authorsEtAl && r.editors == [] && !r.editorsEtAl
    && r.volume.None? && r.edition.None? && r.doi.None? && r.pmid.None? && r.isbn.None?
  }

  /** No optional key is written for a reference with nothing optional. */
  lemma NoOptionalKey(r: BookReference)
    requires NothingOptional(r)
    ensures var data := Normalize(r);
      && Key.Discriminator !in data && Key.AuthorsEtAl !in data && Key.Editors !in data
      && Key.EditorsEtAl !in data && Key.Volume !in data && Key.Edition !in data
      && Key.Doi !in data && Key.Pmid !in data && Key.Isbn !in data
  {
    ContributorKeysWritten(r);
    DiscriminatorAndVolumeWritten(r);
    EditionAndDoiWritten(r);
    PmidAndIsbnWritten(r);
  }

  /** With nothing optional, the encoding holds exactly the required keys. */
  lemma OnlyRequiredKeys(r: BookReference)
    requires NothingOptional(r)
    ensures Normalize(r).Keys == RequiredKeys
  {
    KeysBounded(r);
    NoOptionalKey(r);
  }

  /** A reference all of whose optional values the encoder writes. */
  predicate EverythingOptional(r: BookReference) {
    && r.discriminator.Some? && !FalsyString(r.discriminator.value) && r.authorsEtAl
    && |r.editors| > 0 && r.editorsEtAl
    && r.volume.Some? && !FalsyString(r.volume.value) && r.edition.Some? && !FalsyString(r.edition.value)
    && r.doi.Some? && !FalsyString(r.doi.value) && r.pmid.Some? && r.pmid.value != 0
    && r.isbn.Some? && !FalsyString(r.isbn.value)
  }

  /** With everything optional present and truthy, every key of the wire format is written. */
  lemma AllKeys(r: BookReference)
    requires EverythingOptional(r)
    ensures Normalize(r).Keys == WireKeys
  {
    KeysBounded(r);
    ContributorKeysWritten(r);
    DiscriminatorAndVolumeWritten(r);
    EditionAndDoiWritten(r);
    PmidAndIsbnWritten(r);
  }
}
