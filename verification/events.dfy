/**
  The events client: a paged view of the events API, filtered by event
  type. Unlike the interviews client it keeps no item cache: every `get`
  and every `slice` goes to the server. A copy made by `forType` or
  `reverse` carries its own type, order and count.
 */
module Events {
  import opened Wrappers
  import opened Json
  import opened Paging

  /** One page of the list endpoint: the server's `total` and the raw list items. */
  datatype Page = Page(total: int, items: seq<Json>)

  /** `listEvents(page, perPage, type, descendingOrder)`. */
  type ListPage = (int, int, string, bool) -> Result<Page>

  /** `getEvent(id)`: the full record. */
  type GetOne = string -> Result<Json>

  /** A request the client sends. */
  datatype Request =
    | ListEvents(page: int, perPage: int, eventType: string, descendingOrder: bool)
    | GetEvent(id: string)

  /**
    An event as the denormalizer builds it. The event normalizer is not
    part of this model: the record is kept as handed over, with the
    snippet flag of the context it was decoded in.
   */
  datatype Event = Event(record: Object, snippet: bool)

  /** What one client holds: the memoised count, the order flag and the event type. */
  datatype View = View(count: Option<int>, descendingOrder: bool, eventType: string)

  /** A new client: all event types, descending order, count unknown. */
  const NewView := View(None, true, "all")

  /** The event denormalizer: only an object (a PHP array) is accepted. */
  function DecodeEvent(data: Json, snippet: bool): (r: Result<Event>)
    ensures r.Success? <==> data.JObj?
    ensures r.Success? ==> r.value.record == data.fields && r.value.snippet == snippet
  {
    if data.JObj? then Success(Event(data.fields, snippet)) else Failure(WrongType("event"))
  }

  /** The outcome of `get`: the settled promise and the request sent. */
  datatype GetOutcome = GetOutcome(result: Result<Event>, request: Request)

  /** `get(id)`: fetch the full record and decode it, every time. */
  function Get(id: string, getOne: GetOne): (o: GetOutcome)
    ensures o.request == GetEvent(id)
    ensures getOne(id).Failure? ==> o.result == Failure(getOne(id).error)
    ensures getOne(id).Success? ==> o.result == DecodeEvent(getOne(id).value, false)
    ensures o.result.Success? ==> !o.result.value.snippet
  {
    var result := match getOne(id)
      case Failure(e) => Failure(e)
      case Success(full) => DecodeEvent(full, false);
    GetOutcome(result, GetEvent(id))
  }

  /** `forType(type)`: a copy for another event type; the count is kept only when the type is unchanged. */
  function ForType(view: View, eventType: string): (r: View)
    ensures r.eventType == eventType
    ensures r.descendingOrder == view.descendingOrder
    ensures r.count == (if eventType == view.eventType then view.count else None)
  {
    var copy := view.(eventType := eventType);
    if copy.eventType != view.eventType then copy.(count := None) else copy
  }

  /** Choosing the type a view already has changes nothing. */
  lemma SameTypeUnchanged(view: View)
    ensures ForType(view, view.eventType) == view
  {
  }

  /** Choosing a type twice is choosing it once. */
  lemma ForTypeIdempotent(view: View, eventType: string)
    ensures ForType(ForType(view, eventType), eventType) == ForType(view, eventType)
  {
  }

  /** Each listed item decoded as a snippet, in order; the first item that is not an object fails the lot. */
  function DecodeItems(items: seq<Json>): (r: Result<seq<Event>>)
    ensures r.Success? <==> forall i :: 0 <= i < |items| ==> items[i].JObj?
    ensures r.Success? ==> |r.value| == |items|
    ensures r.Success? ==> forall i :: 0 <= i < |items| ==> r.value[i] == Event(items[i].fields, true)
  {
    if items == [] then Success([])
    else
      var first :- DecodeEvent(items[0], true);
      var rest :- DecodeItems(items[1..]);
      Success([first] + rest)
  }

  /** Decoded events keep their records: encoding them back gives the listed items. */
  lemma {:induction false} ItemsKeepRecords(items: seq<Json>)
    ensures DecodeItems(items).Success? ==> Records(DecodeItems(items).value) == items
  {
    if items != [] && DecodeItems(items).Success? {
      ItemsKeepRecords(items[1..]);
    }
  }

  /** The records of a run of events, each as an object. */
  function Records(events: seq<Event>): seq<Json> {
    if events == [] then [] else [JObj(events[0].record)] + Records(events[1..])
  }

  /** The outcome of `slice`: the settled sequence, the client's view after, and the requests sent. */
  datatype SliceOutcome = SliceOutcome(result: Result<seq<Event>>, view: View, requests: seq<Request>)

  /**
    `slice(offset, length)`: list page `offset/length + 1` of size `length`
    for the client's type and order, record the total as the count, and
    decode every item as a snippet.
   */
  function Slice(view: View, offset: int, length: int, listPage: ListPage): (o: SliceOutcome)
    ensures length == 0 ==> o == SliceOutcome(Failure(DivisionByZero), view, [])
    ensures length != 0 ==> o.requests == [ListEvents(PageNumber(offset, length).value, length, view.eventType, view.descendingOrder)]
    ensures o.view.eventType == view.eventType && o.view.descendingOrder == view.descendingOrder
    ensures length != 0 && listPage(PageNumber(offset, length).value, length, view.eventType, view.descendingOrder).Failure?
        ==> o.result == Failure(listPage(PageNumber(offset, length).value, length, view.eventType, view.descendingOrder).error)
            && o.view == view
    ensures length != 0 && listPage(PageNumber(offset, length).value, length, view.eventType, view.descendingOrder).Success?
        ==> var listed := listPage(PageNumber(offset, length).value, length, view.eventType, view.descendingOrder).value;
            o.view.count == Some(listed.total)
            && (o.result.Success? <==> forall i :: 0 <= i < |listed.items| ==> listed.items[i].JObj?)
            && (o.result.Success? ==> Records(o.result.value) == listed.items)
  {
    match PageNumber(offset, length)
    case Failure(e) => SliceOutcome(Failure(e), view, [])
    case Success(page) =>
      var request := ListEvents(page, length, view.eventType, view.descendingOrder);
      match listPage(page, length, view.eventType, view.descendingOrder)
      case Failure(e) => SliceOutcome(Failure(e), view, [request])
      case Success(listed) =>
        var decoded := DecodeItems(listed.items);
        ItemsKeepRecords(listed.items);
        SliceOutcome(decoded, view.(count := Some(listed.total)), [request])
  }

  /** Every event a slice yields was decoded as a snippet. */
  lemma SliceGivesSnippets(view: View, offset: int, length: int, listPage: ListPage)
    requires Slice(view, offset, length, listPage).result.Success?
    ensures forall e | e in Slice(view, offset, length, listPage).result.value :: e.snippet
  {
  }

  /** `reverse()`: a copy with the order flipped; the type and count are kept. */
  function Reverse(view: View): (r: View)
    ensures r.descendingOrder == !view.descendingOrder
    ensures r.count == view.count && r.eventType == view.eventType
  {
    view.(descendingOrder := !view.descendingOrder)
  }

  /** Reversing twice restores the original view. */
  lemma ReverseTwice(view: View)
    ensures Reverse(Reverse(view)) == view
  {
  }

  /** Reversing and choosing a type commute. */
  lemma ReverseForTypeCommute(view: View, eventType: string)
    ensures Reverse(ForType(view, eventType)) == ForType(Reverse(view), eventType)
  {
  }
}
