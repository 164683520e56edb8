/**
  The place codec: `{"name": [lines]}` plus a nested `address` object when
  the place has one. Its normalizer source is not part of this model; the
  wire format is the one the place fixtures fix in both directions.
 */
module PlaceNormalizer {
  import opened Wrappers
  import opened Json
  import opened Places
  import opened Values

  /** Encoding: the name lines always; the address only when there is one. */
  function Normalize(p: Place): Object {
    var data := map[Key.Name := JArr(EncodeStrings(p.name))];
    if p.address.Some? then data[Key.Address := EncodeEmbedded(p.address.value)] else data
  }

  /** The encoding holds `name` always and `address` exactly when the place has one. */
  lemma Written(p: Place)
    ensures Normalize(p).Keys == {Key.Name} + (if p.address.Some? then {Key.Address} else {})
    ensures Normalize(p)[Key.Name] == JArr(EncodeStrings(p.name))
    ensures p.address.Some? ==> Normalize(p)[Key.Address] == EncodeEmbedded(p.address.value)
  {
  }

  /** Decoding: `name` must be a list of strings; an absent `address` is none. */
  function Denormalize(data: Json): (r: Result<Place>)
    ensures At(data, Key.Address).JNull? && r.Success? ==> r.value.address.None?
    ensures r.Success? ==> JArr(EncodeStrings(r.value.name)) == At(data, Key.Name)
  {
    var lines :- ReadList(data, Key.Name);
    var name :- DecodeStrings(lines);
    var address :- ReadOptionalEmbedded(data, Key.Address);
    assert EncodeStrings(name) == lines;
    Success(Place(name, address))
  }

  /** Only a request for the `Place` class itself is decoded here. */
  predicate SupportsDenormalization(data: Json, cls: ClassName) {
    cls == PlaceClass
  }

  /** Any place, whatever the format argument. */
  predicate SupportsNormalization(v: Value) {
    v.PlaceValue?
  }

  /** Every place decodes back from its encoding. */
  lemma RoundTrip(p: Place)
    ensures Denormalize(JObj(Normalize(p))) == Success(p)
  {
    Written(p);
    StringsRoundTrip(p.name);
  }

  /** A wire object in the shape the encoder writes: only its keys, no null address. */
  predicate Canonical(data: Json) {
    && data.JObj? && data.fields.Keys <= {Key.Name, Key.Address}
    && (Key.Address in data.fields ==> !data.fields[Key.Address].JNull?)
  }

  /** The other direction: a canonical object is the encoding of what it decodes to. */
  lemma EncodeOfDecode(data: Json)
    requires Canonical(data) && Denormalize(data).Success?
    ensures JObj(Normalize(Denormalize(data).value)) == data
  {
    var p := Denormalize(data).value;
    var m := Normalize(p);
    Written(p);
    assert m.Keys == data.fields.Keys;
    assert forall k | k in m :: m[k] == data.fields[k];
  }

  // ---- the fixtures ----

  /** The sample address the complete fixture nests. */
  function SampleAddress(): Address {
    Embedded(map[
      Key.Other("formatted") := JArr([JStr("address")]),
      Key.Other("components") := JObj(map[
        Key.Other("streetAddress") := JArr([JStr("street address")]),
        Key.Other("locality") := JArr([JStr("locality")]),
        Key.Other("area") := JArr([JStr("area")]),
        Key.Country := JStr("country"),
        Key.Other("postalCode") := JStr("postal code")])])
  }

  /** The complete fixture: a named place with an address, in both directions. */
  lemma CompleteFixture()
    ensures Normalize(Place(["place"], Some(SampleAddress())))
            == map[Key.Name := JArr([JStr("place")]), Key.Address := JObj(SampleAddress().fields)]
    ensures Denormalize(JObj(map[Key.Name := JArr([JStr("place")]), Key.Address := JObj(SampleAddress().fields)]))
            == Success(Place(["place"], Some(SampleAddress())))
  {
    assert EncodeStrings(["place"]) == [JStr("place")];
    RoundTrip(Place(["place"], Some(SampleAddress())));
  }

  /** The minimum fixture: a place without an address is `{name}` only. */
  lemma MinimumFixture()
    ensures Normalize(NewPlace(["place"])) == map[Key.Name := JArr([JStr("place")])]
    ensures Denormalize(JObj(map[Key.Name := JArr([JStr("place")])])) == Success(NewPlace(["place"]))
  {
    assert EncodeStrings(["place"]) == [JStr("place")];
    RoundTrip(NewPlace(["place"]));
  }
}
