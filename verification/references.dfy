/**
  The reference variants that carry a codec in this model. A reference's
  date is its wire string: `Date::fromString` and `Date::toString` are
  taken to be inverse. Author entries and person details are nested values
  whose normalizers are collaborators (see `Json.Embedded`).
 */
module References {
  import opened Wrappers
  import opened Json
  import opened Places

  datatype PreprintReference = PreprintReference(
    id: string,
    date: string,
    discriminator: Option<string>,
    authors: seq<Embedded>,
    authorsEtAl: bool,
    articleTitle: string,
    source: string,
    doi: Option<string>,
    uri: Option<string>)

  datatype ThesisReference = ThesisReference(
    id: string,
    date: string,
    discriminator: Option<string>,
    author: Embedded,
    title: string,
    publisher: Place,
    doi: Option<string>,
    uri: Option<string>)

  datatype BookReference = BookReference(
    id: string,
    date: string,
    discriminator: Option<string>,
    authors: seq<Embedded>,
    authorsEtAl: bool,
    editors: seq<Embedded>,
    editorsEtAl: bool,
    bookTitle: string,
    publisher: Place,
    volume: Option<string>,
    edition: Option<string>,
    doi: Option<string>,
    pmid: Option<int>,
    isbn: Option<string>)

  datatype PatentReference = PatentReference(
    id: string,
    date: string,
    discriminator: Option<string>,
    inventors: seq<Embedded>,
    inventorsEtAl: bool,
    assignees: seq<Embedded>,
    assigneesEtAl: bool,
    title: string,
    patentType: string,
    country: string,
    number: Option<string>,
    uri: Option<string>)

  datatype SoftwareReference = SoftwareReference(
    id: string,
    date: string,
    discriminator: Option<string>,
    authors: seq<Embedded>,
    authorsEtAl: bool,
    title: string,
    publisher: Place,
    version: Option<string>,
    uri: Option<string>)

  /** The closed `Reference` family, one case per variant. */
  datatype Reference =
    | Preprint(preprint: PreprintReference)
    | Thesis(thesis: ThesisReference)
    | Book(book: BookReference)
    | Patent(patent: PatentReference)
    | Software(software: SoftwareReference)

  /**
    The wire object of a person author entry with the given preferred and
    index names, as the fixtures write it.
   */
  function PersonEntry(preferred: string, index: string): Embedded {
    Embedded(map[
      Key.Type := JStr("person"),
      Key.Name := JObj(map[Key.Other("preferred") := JStr(preferred), Key.Other("index") := JStr(index)])])
  }
}
