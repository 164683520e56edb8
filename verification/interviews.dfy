/**
  The interviews client: a paged, cached view of the interviews API.

  The client's item cache is an `ArrayObject`, which `clone` copies by
  reference: a client and the copies `reverse()` makes of it share one
  cache, while each has its own count and order. The model therefore
  keeps the per-client `View` apart from the shared `Cache` and threads
  the cache through every operation.

  The HTTP transport is a pair of functions: `ListPage` for one page of
  the interview list and `GetOne` for one full interview record. Promises
  are modelled once settled (see `Wrappers.Deferred`).
 */
module Interviews {
  import opened Wrappers
  import opened Json
  import opened Paging

  /** One page of the list endpoint: the server's `total` and the raw list items. */
  datatype Page = Page(total: int, items: seq<Json>)

  /** `listInterviews(page, perPage, descendingOrder)`. */
  type ListPage = (int, int, bool) -> Result<Page>

  /** `getInterview(id)`: the full record. */
  type GetOne = string -> Result<Json>

  /** A request the client sends, in the order it sends them. */
  datatype Request =
    | ListInterviews(page: int, perPage: int, descendingOrder: bool)
    | GetInterview(id: string)

  /**
    An interview as the denormalizer builds it. The interview normalizer
    is not part of this model: the record is kept as it was handed over,
    with the interviewee's CV and the content as settled promises.
   */
  datatype Interview = Interview(id: string, record: Json, cv: Deferred<Json>, content: Deferred<Json>)

  /** The per-id cache of settled `get` promises, shared between a client and its copies. */
  type Cache = map<string, Result<Interview>>

  /** What one client holds of its own: the memoised count and the order flag. */
  datatype View = View(count: Option<int>, descendingOrder: bool)

  /** A new client: descending order, count unknown. */
  const NewView := View(None, true)

  /** A new client's cache is empty. */
  const NewCache: Cache := map[]

  const Interviewee := Key.Other("interviewee")
  const Cv := Key.Other("cv")

  /** The interviewee's CV in a record. */
  function CvIn(record: Json): Json {
    At(At(record, Interviewee), Cv)
  }

  /**
    The interview denormalizer, reading the id it is stored under; the
    CV and content are handed over separately.
   */
  function DecodeInterview(record: Json, cv: Deferred<Json>, content: Deferred<Json>): (r: Result<Interview>)
    ensures r.Success? <==> record.JObj? && At(record, Key.Id).JStr?
    ensures r.Success? ==> r.value == Interview(At(record, Key.Id).s, record, cv, content)
  {
    if !record.JObj? then Failure(WrongType("interview"))
    else
      var id :- ReadString(record, Key.Id);
      Success(Interview(id, record, cv, content))
  }

  /** A full record decodes with its own CV and content. */
  function DecodeFull(fetched: Result<Json>): (r: Result<Interview>)
    ensures fetched.Failure? ==> r == Failure(fetched.error)
    ensures r.Success? ==> r.value.record == fetched.value && r.value.cv == Success(CvIn(fetched.value))
    ensures r.Success? ==> r.value.content == Success(At(fetched.value, Key.Content))
  {
    var record :- fetched;
    DecodeInterview(record, Success(CvIn(record)), Success(At(record, Key.Content)))
  }

  // ---- get ----

  /** The outcome of `get`: the settled promise, the cache after, and the requests sent. */
  datatype GetOutcome = GetOutcome(result: Result<Interview>, cache: Cache, requests: seq<Request>)

  /**
    `get(id)`: a cached promise is returned as it is, rejected or not,
    and nothing is sent; otherwise the record is fetched, decoded, and the
    outcome stored under `id`.
   */
  function Get(cache: Cache, id: string, getOne: GetOne): (o: GetOutcome)
    ensures id in cache ==> o == GetOutcome(cache[id], cache, [])
    ensures id !in cache ==> o.requests == [GetInterview(id)] && o.result == DecodeFull(getOne(id))
    ensures id in o.cache && o.cache[id] == o.result
    ensures o.cache.Keys == cache.Keys + {id}
    ensures forall k | k in cache :: o.cache[k] == cache[k]
  {
    if id in cache then GetOutcome(cache[id], cache, [])
    else
      var r := DecodeFull(getOne(id));
      GetOutcome(r, cache[id := r], [GetInterview(id)])
  }

  /** A second `get` of the same id is a cache hit: the same outcome, and nothing sent. */
  lemma GetTwice(cache: Cache, id: string, getOne: GetOne)
    ensures var first := Get(cache, id, getOne);
      Get(first.cache, id, getOne) == GetOutcome(first.result, first.cache, [])
  {
  }

  // ---- slice ----

  /** The id a list item is looked up and stored under. */
  function ItemId(item: Json): Option<string> {
    if At(item, Key.Id).JStr? then Some(At(item, Key.Id).s) else None
  }

  /**
    The CV promise of a listed interview: the full record's CV, or an
    empty list when that CV is empty.
   */
  function CvFromFull(full: Result<Json>): (r: Deferred<Json>)
    ensures full.Failure? ==> r == Failure(full.error)
    ensures full.Success? && !Truthy(CvIn(full.value)) ==> r == Success(JArr([]))
    ensures full.Success? && Truthy(CvIn(full.value)) ==> r == Success(CvIn(full.value))
  {
    var record :- full;
    if !Truthy(CvIn(record)) then Success(JArr([])) else Success(CvIn(record))
  }

  /** The content promise of a listed interview: the full record's content. */
  function ContentFromFull(full: Result<Json>): (r: Deferred<Json>)
    ensures full.Failure? ==> r == Failure(full.error)
    ensures full.Success? ==> r == Success(At(full.value, Key.Content))
  {
    var record :- full;
    Success(At(record, Key.Content))
  }

  /**
    The interview a listed item decodes to: the listed record under its
    own id, its CV and content taken from its full record.
   */
  function DecodeListed(item: Json, getOne: GetOne): (r: Result<Interview>)
    requires ItemId(item).Some?
    ensures var id := ItemId(item).value;
      r == Success(Interview(id, item, CvFromFull(getOne(id)), ContentFromFull(getOne(id))))
  {
    var full := getOne(ItemId(item).value);
    DecodeInterview(item, CvFromFull(full), ContentFromFull(full))
  }

  /**
    A listed interview that was not cached carries what `get` of its id
    would give: the same content, and the same CV except that an empty
    one becomes an empty list; a failed fetch rejects both.
   */
  lemma ListedAgreesWithGet(item: Json, cache: Cache, getOne: GetOne)
    requires ItemId(item).Some? && ItemId(item).value !in cache
    ensures var id := ItemId(item).value;
      var listed := DecodeListed(item, getOne).value;
      var got := Get(cache, id, getOne).result;
      (got.Success? ==>
         listed.content == got.value.content
         && listed.cv == (if Truthy(got.value.cv.value) then got.value.cv else Success(JArr([]))))
      && (getOne(id).Failure? ==>
         got == Failure(getOne(id).error)
         && listed.cv == Failure(getOne(id).error) && listed.content == Failure(getOne(id).error))
  {
  }

  /** The ids of a run of list items, of those that have one. */
  function Ids(items: seq<Json>): set<string> {
    if items == [] then {}
    else (if ItemId(items[0]).Some? then {ItemId(items[0]).value} else {}) + Ids(items[1..])
  }

  /** Item `i` is the first with its id, and that id was not cached before the listing. */
  predicate FirstUncached(items: seq<Json>, cache: Cache, i: int)
    requires 0 <= i < |items|
  {
    ItemId(items[i]).Some? && ItemId(items[i]).value !in cache && ItemId(items[i]).value !in Ids(items[..i])
  }

  /** The ids before item `i` of a list are the first item's and those before item `i - 1` of the rest. */
  lemma IdsOfPrefixes(items: seq<Json>)
    requires items != []
    ensures forall i | 1 <= i <= |items| ::
      Ids(items[..i]) == (if ItemId(items[0]).Some? then {ItemId(items[0]).value} else {}) + Ids(items[1..][..i - 1])
  {
    forall i | 1 <= i <= |items|
      ensures Ids(items[..i]) == (if ItemId(items[0]).Some? then {ItemId(items[0]).value} else {}) + Ids(items[1..][..i - 1])
    {
      assert items[..i][0] == items[0];
      assert items[..i][1..] == items[1..][..i - 1];
    }
  }

  /** Every item of a list is in the cache with a fulfilled promise. */
  predicate AllCached(items: seq<Json>, cache: Cache) {
    forall i :: 0 <= i < |items| ==>
      ItemId(items[i]).Some? && ItemId(items[i]).value in cache && cache[ItemId(items[i]).value].Success?
  }

  /** The cached interviews of a fully cached list, in order. */
  function CachedItems(items: seq<Json>, cache: Cache): (r: seq<Interview>)
    requires AllCached(items, cache)
    ensures |r| == |items|
    ensures forall i :: 0 <= i < |items| ==> r[i] == cache[ItemId(items[i]).value].value
  {
    if items == [] then [] else [cache[ItemId(items[0]).value].value] + CachedItems(items[1..], cache)
  }

  /**
    The loop over the listed items: a cached id yields its cached
    interview (a rejected one fails the slice); any other item is decoded
    and stored under its id. The first failure stops the loop, keeping
    what was stored before it.
   */
  function ListItems(items: seq<Json>, cache: Cache, getOne: GetOne): (o: (Result<seq<Interview>>, Cache))
    ensures cache.Keys <= o.1.Keys
    ensures forall k | k in cache :: o.1[k] == cache[k]
    ensures forall k | k in o.1 && k !in cache :: o.1[k].Success?
    ensures o.0.Success? ==> AllCached(items, o.1) && o.0.value == CachedItems(items, o.1)
    ensures o.0.Success? ==> forall i | 0 <= i < |items| && FirstUncached(items, cache, i) ::
      var id := ItemId(items[i]).value;
      o.0.value[i] == Interview(id, items[i], CvFromFull(getOne(id)), ContentFromFull(getOne(id)))
    decreases |items|
  {
    if items == [] then (Success([]), cache)
    else
      IdsOfPrefixes(items);
      var item := items[0];
      match ItemId(item)
      case None => (Failure(MissingKey(KeyName(Key.Id))), cache)
      case Some(id) =>
        if id in cache then
          match cache[id]
          case Failure(e) => (Failure(e), cache)
          case Success(interview) =>
            var (rest, after) := ListItems(items[1..], cache, getOne);
            if rest.Failure? then (Failure(rest.error), after)
            else (Success([interview] + rest.value), after)
        else
          match DecodeListed(item, getOne)
          case Failure(e) => (Failure(e), cache)
          case Success(interview) =>
            var (rest, after) := ListItems(items[1..], cache[id := Success(interview)], getOne);
            if rest.Failure? then (Failure(rest.error), after)
            else (Success([interview] + rest.value), after)
  }

  /** A fully cached list is served from the cache alone, leaving it unchanged. */
  lemma {:induction false} ServedFromCache(items: seq<Json>, cache: Cache, getOne: GetOne)
    requires AllCached(items, cache)
    ensures ListItems(items, cache, getOne) == (Success(CachedItems(items, cache)), cache)
  {
    if items != [] {
      assert AllCached(items[1..], cache) by {
        forall i | 0 <= i < |items[1..]| ensures ItemId(items[1..][i]).Some? {
          assert items[1..][i] == items[i + 1];
        }
      }
      ServedFromCache(items[1..], cache, getOne);
      assert CachedItems(items[1..], cache) == CachedItems(items, cache)[1..];
    }
  }

  /** Listing the same items again after a successful listing gives the same interviews and stores nothing new. */
  lemma ListingTwice(items: seq<Json>, cache: Cache, getOne: GetOne)
    requires ListItems(items, cache, getOne).0.Success?
    ensures var (first, after) := ListItems(items, cache, getOne);
      ListItems(items, after, getOne) == (first, after)
  {
    var (first, after) := ListItems(items, cache, getOne);
    ServedFromCache(items, after, getOne);
  }

  /** Whether the follow-up batch of full-record fetches is needed: some listed item is not cached. */
  predicate NeedsFollowUp(items: seq<Json>, cache: Cache) {
    exists i :: 0 <= i < |items| && (ItemId(items[i]).None? || ItemId(items[i]).value !in cache)
  }

  /** The follow-up batch: one full-record fetch per listed item, in order. */
  function FollowUp(items: seq<Json>): (r: seq<Request>)
    ensures |r| == |items|
    ensures forall i | 0 <= i < |items| :: r[i].GetInterview?
    ensures forall i | 0 <= i < |items| && ItemId(items[i]).Some? :: r[i] == GetInterview(ItemId(items[i]).value)
  {
    if items == [] then []
    else
      var id := if ItemId(items[0]).Some? then ItemId(items[0]).value else "";
      [GetInterview(id)] + FollowUp(items[1..])
  }

  /** The outcome of `slice`: the settled collection, the client's view and the cache after, and the requests sent. */
  datatype SliceOutcome = SliceOutcome(result: Result<seq<Interview>>, view: View, cache: Cache, requests: seq<Request>)

  /**
    `slice(offset, length)`: list page `offset/length + 1` of size
    `length` in the client's order, record the total as the count, then
    build the interviews, cache first. The follow-up batch is one shared
    set of full-record fetches, sent only when some item is not cached.
   */
  function Slice(view: View, cache: Cache, offset: int, length: int, listPage: ListPage, getOne: GetOne)
    : (o: SliceOutcome)
    ensures length == 0 ==> o == SliceOutcome(Failure(DivisionByZero), view, cache, [])
    ensures o.view.descendingOrder == view.descendingOrder
    ensures length != 0 ==> |o.requests| >= 1 && o.requests[0] == ListInterviews(PageNumber(offset, length).value, length, view.descendingOrder)
    ensures length != 0 && listPage(PageNumber(offset, length).value, length, view.descendingOrder).Success?
        ==> o.view.count == Some(listPage(PageNumber(offset, length).value, length, view.descendingOrder).value.total)
    ensures o.result.Success? ==> length != 0 && listPage(PageNumber(offset, length).value, length, view.descendingOrder).Success?
    ensures o.result.Success? ==> |o.result.value| == |listPage(PageNumber(offset, length).value, length, view.descendingOrder).value.items|
    ensures cache.Keys <= o.cache.Keys && forall k | k in cache :: o.cache[k] == cache[k]
    ensures length != 0 && listPage(PageNumber(offset, length).value, length, view.descendingOrder).Failure?
        ==> o == SliceOutcome(Failure(listPage(PageNumber(offset, length).value, length, view.descendingOrder).error),
                              view, cache, o.requests[..1]) && |o.requests| == 1
    ensures length != 0 && listPage(PageNumber(offset, length).value, length, view.descendingOrder).Success?
        ==> var items := listPage(PageNumber(offset, length).value, length, view.descendingOrder).value.items;
            o.requests[1..] == (if NeedsFollowUp(items, cache) then FollowUp(items) else [])
            && (o.result.Success? <==> ListItems(items, cache, getOne).0.Success?)
            && (o.result.Success? ==> AllCached(items, o.cache) && forall i | 0 <= i < |items| ::
                  var id := ItemId(items[i]).value;
                  o.result.value[i] == o.cache[id].value
                  && (FirstUncached(items, cache, i)
                      ==> o.result.value[i] == Interview(id, items[i], CvFromFull(getOne(id)), ContentFromFull(getOne(id)))))
  {
    match PageNumber(offset, length)
    case Failure(e) => SliceOutcome(Failure(e), view, cache, [])
    case Success(page) =>
      var request := ListInterviews(page, length, view.descendingOrder);
      match listPage(page, length, view.descendingOrder)
      case Failure(e) => SliceOutcome(Failure(e), view, cache, [request])
      case Success(listed) =>
        var counted := view.(count := Some(listed.total));
        var followUp := if NeedsFollowUp(listed.items, cache) then FollowUp(listed.items) else [];
        var (result, after) := ListItems(listed.items, cache, getOne);
        SliceOutcome(result, counted, after, [request] + followUp)
  }

  /** A successful slice leaves every listed interview in the cache, so the same slice again sends only the list request. */
  lemma SliceTwice(view: View, cache: Cache, offset: int, length: int, listPage: ListPage, getOne: GetOne)
    requires Slice(view, cache, offset, length, listPage, getOne).result.Success?
    ensures var first := Slice(view, cache, offset, length, listPage, getOne);
      var again := Slice(first.view, first.cache, offset, length, listPage, getOne);
      again.result == first.result && again.cache == first.cache && |again.requests| == 1
  {
    var first := Slice(view, cache, offset, length, listPage, getOne);
    var page := PageNumber(offset, length).value;
    var listed := listPage(page, length, view.descendingOrder).value;
    ListingTwice(listed.items, cache, getOne);
    var (_, after) := ListItems(listed.items, cache, getOne);
    assert AllCached(listed.items, after);
    assert !NeedsFollowUp(listed.items, after);
  }

  // ---- reverse and count ----

  /** `reverse()`: a copy with the order flipped; the count is kept and the cache stays shared. */
  function Reverse(view: View): (r: View)
    ensures r.descendingOrder == !view.descendingOrder
    ensures r.count == view.count
  {
    view.(descendingOrder := !view.descendingOrder)
  }

  /** Reversing twice restores the original view. */
  lemma ReverseTwice(view: View)
    ensures Reverse(Reverse(view)) == view
  {
  }

  /** The outcome of `count`: the count, the view and cache after, and the requests sent. */
  datatype CountOutcome = CountOutcome(result: Result<int>, view: View, cache: Cache, requests: seq<Request>)

  /** `count()`: a known count is returned as it is; an unknown one is learnt from `slice(0, 1)`. */
  function Count(view: View, cache: Cache, listPage: ListPage, getOne: GetOne): (o: CountOutcome)
    ensures view.count.Some? ==> o == CountOutcome(Success(view.count.value), view, cache, [])
    ensures view.count.None? ==> |o.requests| >= 1 && o.requests[0] == ListInterviews(1, 1, view.descendingOrder)
    ensures view.count.None? && listPage(1, 1, view.descendingOrder).Success?
        ==> o.view.count == Some(listPage(1, 1, view.descendingOrder).value.total)
    ensures view.count.None? && listPage(1, 1, view.descendingOrder).Failure?
        ==> o.result == Failure(listPage(1, 1, view.descendingOrder).error) && o.view == view && o.cache == cache
    ensures view.count.None? && listPage(1, 1, view.descendingOrder).Success?
        ==> (o.result.Success? <==> ListItems(listPage(1, 1, view.descendingOrder).value.items, cache, getOne).0.Success?)
            && (o.result.Success? ==> o.result.value == listPage(1, 1, view.descendingOrder).value.total)
  {
    if view.count.Some? then CountOutcome(Success(view.count.value), view, cache, [])
    else
      PageOfNonNegativeOffset(0, 1);
      assert Quotient(0, 1) == 0;
      var s := Slice(view, cache, 0, 1, listPage, getOne);
      var result := if s.result.Failure? then Failure(s.result.error) else Success(s.view.count.value);
      CountOutcome(result, s.view, s.cache, s.requests)
  }

  /** Once counted, counting again sends nothing and gives the same count. */
  lemma CountTwice(view: View, cache: Cache, listPage: ListPage, getOne: GetOne)
    requires Count(view, cache, listPage, getOne).result.Success?
    ensures var first := Count(view, cache, listPage, getOne);
      Count(first.view, first.cache, listPage, getOne) == CountOutcome(first.result, first.view, first.cache, [])
  {
  }
}
