/**
  The `Collection` model, reduced to what has behaviour: the full title
  built from a title and a deferred subtitle, and the deferred banner.
  Other fields are carried unchanged.
 */
module Collections {
  import opened Wrappers
  import opened Json
  import Places

  datatype Collection = Collection(
    id: string,
    title: string,
    subTitle: Deferred<Option<string>>,
    impactStatement: Option<string>,
    publishedDate: string,
    updatedDate: Option<string>,
    banner: Deferred<Embedded>,
    thumbnail: Embedded,
    subjects: seq<Embedded>,
    selectedCurator: Embedded,
    selectedCuratorEtAl: bool,
    curators: seq<Embedded>,
    summary: seq<Embedded>,
    content: seq<Embedded>,
    relatedContent: seq<Embedded>,
    podcastEpisodes: seq<Embedded>)

  /** `getSubTitle`: waits on the subtitle; a rejected one raises its error. */
  function GetSubTitle(c: Collection): Result<Option<string>> {
    c.subTitle
  }

  /** `getBanner`: waits on the banner; a rejected one raises its error. */
  function GetBanner(c: Collection): Result<Embedded> {
    c.banner
  }

  /** PHP's `array_filter` without a callback: keeps the truthy parts. */
  function KeepTruthy(parts: seq<Option<string>>): (r: seq<string>)
    ensures forall i :: 0 <= i < |r| ==> !FalsyString(r[i]) && Some(r[i]) in parts
    ensures forall i :: 0 <= i < |parts| && parts[i].Some? && !FalsyString(parts[i].value) ==> parts[i].value in r
    ensures |r| <= |parts|
  {
    if parts == [] then []
    else
      var rest := KeepTruthy(parts[1..]);
      if parts[0].Some? && !FalsyString(parts[0].value) then [parts[0].value] + rest else rest
  }

  /** `array_filter` keeps the input order: filtering a concatenation concatenates the filtered parts. */
  lemma {:induction false} KeepTruthyConcat(a: seq<Option<string>>, b: seq<Option<string>>)
    ensures KeepTruthy(a + b) == KeepTruthy(a) + KeepTruthy(b)
  {
    if a != [] {
      assert (a + b)[0] == a[0];
      assert (a + b)[1..] == a[1..] + b;
      KeepTruthyConcat(a[1..], b);
    } else {
      assert a + b == b;
    }
  }

  /** One more part is kept, at the end, exactly when it is a truthy string. */
  lemma KeepTruthyAppend(parts: seq<Option<string>>, p: Option<string>)
    ensures KeepTruthy(parts + [p]) == KeepTruthy(parts) + (if p.Some? && !FalsyString(p.value) then [p.value] else [])
  {
    KeepTruthyConcat(parts, [p]);
    assert [p][1..] == [];
  }

  /** `getFullTitle`: `implode(': ', array_filter([title, subtitle]))`. */
  function GetFullTitle(c: Collection): (r: Result<string>)
    ensures r.Success? <==> c.subTitle.Success?
    ensures c.subTitle.Success? && !KeptSubTitle(c) ==>
              r.value == (if FalsyString(c.title) then "" else c.title)
    ensures c.subTitle.Success? && KeptSubTitle(c) && !FalsyString(c.title) ==>
              r.value == c.title + ": " + c.subTitle.value.value
    ensures c.subTitle.Success? && KeptSubTitle(c) && FalsyString(c.title) ==>
              r.value == c.subTitle.value.value
  {
    var subTitle :- GetSubTitle(c);
    var parts := KeepTruthy([Some(c.title), subTitle]);
    assert [Some(c.title), subTitle][1..] == [subTitle];
    assert KeepTruthy([subTitle]) == KeepTruthy([subTitle] + []);
    assert |parts| == 2 ==> parts[..1] == [c.title] && Places.Join([c.title], ": ") == c.title;
    Success(Places.Join(parts, ": "))
  }

  /** The subtitle resolved to a string that `array_filter` keeps. */
  predicate KeptSubTitle(c: Collection)
    requires c.subTitle.Success?
  {
    c.subTitle.value.Some? && !FalsyString(c.subTitle.value.value)
  }

  /** A resolved subtitle and banner are returned exactly as they were given. */
  lemma ResolvedFieldsReturned(c: Collection, sub: Option<string>, banner: Embedded)
    requires c.subTitle == Success(sub) && c.banner == Success(banner)
    ensures GetSubTitle(c) == Success(sub) && GetBanner(c) == Success(banner)
  {
  }

  /**
    The full title never loses information a reader needs: when the title
    is an ordinary string, it starts the full title.
   */
  lemma {:induction false} FullTitleStartsWithTitle(c: Collection)
    requires c.subTitle.Success? && !FalsyString(c.title)
    ensures GetFullTitle(c).Success?
    ensures c.title <= GetFullTitle(c).value
  {
  }
}
