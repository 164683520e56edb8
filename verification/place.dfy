/**
  The `Place` model: a list of name lines and an optional address.
  The `Address` model and its `toString` are not part of this model: an
  address is carried as its wire object and its text is a parameter.
 */
module Places {
  import opened Wrappers
  import opened Json

  type Address = Embedded

  datatype Place = Place(name: seq<string>, address: Option<Address>) {

    function GetName(): seq<string> {
      name
    }

    function GetAddress(): Option<Address> {
      address
    }
  }

  /** `new Place($name, $address = null)`. */
  function NewPlace(name: seq<string>, address: Option<Address> := None): (p: Place)
    ensures p.GetName() == name
    ensures p.GetAddress() == address
  {
    Place(name, address)
  }

  /** PHP's `implode($separator, $parts)`. */
  function Join(parts: seq<string>, separator: string): string {
    if |parts| == 0 then ""
    else if |parts| == 1 then parts[0]
    else Join(parts[..|parts| - 1], separator) + separator + parts[|parts| - 1]
  }

  /** Appending one part extends the joined text by the separator and that part. */
  lemma JoinSnoc(parts: seq<string>, last: string, separator: string)
    ensures Join(parts + [last], separator)
            == if parts == [] then last else Join(parts, separator) + separator + last
  {
    assert (parts + [last])[..|parts|] == parts;
  }

  /**
    `Place::toString`: the name lines, then the address text when there is
    an address, joined by ", ".
   */
  function ToString(p: Place, addressText: Address -> string): (r: string)
    ensures p.address.None? ==> r == Join(p.name, ", ")
    ensures p.address.Some? && p.name != [] ==>
              r == Join(p.name, ", ") + ", " + addressText(p.address.value)
    ensures p.address.Some? && p.name == [] ==> r == addressText(p.address.value)
  {
    match p.address
    case None => Join(p.name, ", ")
    case Some(a) =>
      JoinSnoc(p.name, addressText(a), ", ");
      Join(p.name + [addressText(a)], ", ")
  }

  /** With a one-line name and no address, the text is that line. */
  lemma SingleNameToString(line: string, addressText: Address -> string)
    ensures ToString(NewPlace([line]), addressText) == line
  {
  }
}
