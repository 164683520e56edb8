/**
  The `PersonAuthor` model: an author entry that wraps a person's details
  and a deceased flag. The fields it inherits from the `Author` base class
  (not part of this model) are carried unchanged.
 */
module PersonAuthors {
  import opened Wrappers
  import opened Json

  /** The person details an author delegates to. */
  datatype PersonDetails = PersonDetails(preferredName: string, indexName: string, orcid: Option<string>)

  datatype PersonAuthor = PersonAuthor(
    person: PersonDetails,
    deceased: bool,
    additionalInformation: seq<string>,
    affiliations: seq<Embedded>,
    competingInterests: Option<string>,
    contribution: Option<string>,
    emailAddresses: seq<string>,
    equalContributionGroups: seq<int>,
    phoneNumbers: seq<string>,
    postalAddresses: seq<Embedded>)
  {
    function GetPreferredName(): string {
      person.preferredName
    }

    function GetIndexName(): string {
      person.indexName
    }

    function GetOrcid(): Option<string> {
      person.orcid
    }

    /** An author prints as its preferred name. */
    function ToString(): string {
      GetPreferredName()
    }

    function IsDeceased(): bool {
      deceased
    }
  }

  /**
    The constructor with its defaults: not deceased, no extra information,
    and empty or absent base-class fields.
   */
  function NewPersonAuthor(
    person: PersonDetails,
    deceased: bool := false,
    additionalInformation: seq<string> := [],
    affiliations: seq<Embedded> := [],
    competingInterests: Option<string> := None,
    contribution: Option<string> := None,
    emailAddresses: seq<string> := [],
    equalContributionGroups: seq<int> := [],
    phoneNumbers: seq<string> := [],
    postalAddresses: seq<Embedded> := []): (a: PersonAuthor)
    ensures a.IsDeceased() == deceased
    ensures a.ToString() == a.GetPreferredName() == person.preferredName
    ensures a.GetIndexName() == person.indexName
    ensures a.GetOrcid() == person.orcid
  {
    PersonAuthor(person, deceased, additionalInformation, affiliations, competingInterests,
                 contribution, emailAddresses, equalContributionGroups, phoneNumbers, postalAddresses)
  }

  /** Omitting the flag builds an author who is not deceased. */
  lemma DeceasedDefaultsToFalse(person: PersonDetails)
    ensures !NewPersonAuthor(person).IsDeceased()
  {
  }

  /**
    Two authors wrapping the same person details print, index and identify
    alike, whatever else differs between them.
   */
  lemma DelegationIgnoresAuthorFields(a: PersonAuthor, b: PersonAuthor)
    requires a.person == b.person
    ensures a.ToString() == b.ToString()
    ensures a.GetIndexName() == b.GetIndexName()
    ensures a.GetOrcid() == b.GetOrcid()
  {
  }
}
