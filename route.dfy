/**
  The route handler GET /metrics/daily-receipt-in-period: resolve the window,
  reject one longer than seven days with 400 INVALID_PERIOD, otherwise run the
  revenue query and sort its rows in place by label.

  The managed restaurant (an authenticated lookup), the order ledger (the
  database), dayjs' parsing of the query text and the two readings of the clock
  are the handler's parameters.
*/
module Route {
  import opened Wrappers
  import Calendar
  import Labels
  import Period
  import Receipts
  import Ordering

  /** The optional query parameters, as text. */
  datatype Query = Query(from: Option<string>, to: Option<string>)

  datatype Body =
    | InvalidPeriod(code: string, message: string)
    | Rows(rows: seq<Receipts.DailyReceipt>)

  /** `set.status` and the returned value. Elysia answers 200 unless the handler
      sets another status. */
  datatype Response = Response(status: int, body: Body)

  function WindowOf(query: Query, parse: string -> int, startNow: int, endNow: int): Period.Window
  {
    Period.Resolve(Period.Bound(query.from, parse), Period.Bound(query.to, parse), startNow, endNow)
  }

  /** With both bounds given, the window is what dayjs reads from the two strings;
      the clock is not read. */
  lemma BothBoundsWindow(from: string, to: string, parse: string -> int, startNow: int, endNow: int)
    requires from != "" && to != ""
    ensures WindowOf(Query(Some(from), Some(to)), parse, startNow, endNow) == Period.Window(parse(from), parse(to))
  {
  }

  /** `from ? … : …` tests truthiness: an empty string, for either bound, gives the
      window of a request that leaves the bound out. */
  lemma EmptyBoundAbsent(from: Option<string>, to: Option<string>, parse: string -> int, startNow: int, endNow: int)
    ensures WindowOf(Query(Some(""), to), parse, startNow, endNow) == WindowOf(Query(None, to), parse, startNow, endNow)
    ensures WindowOf(Query(from, Some("")), parse, startNow, endNow) == WindowOf(Query(from, None), parse, startNow, endNow)
  {
  }

  /** The WHERE clause of a window filters by whole days: an order is kept exactly
      when it is the restaurant's and falls on the window's first day, its last day
      or a day between. */
  lemma KeptByDay(o: Receipts.Order, restaurantId: string, w: Period.Window)
    ensures Receipts.Kept(o, restaurantId, Calendar.StartOfDay(w.start), Calendar.EndOfDay(w.end))
      <==> o.restaurantId == restaurantId
           && Calendar.DayNumber(w.start) <= Calendar.DayNumber(o.createdAt) <= Calendar.DayNumber(w.end)
  {
    Calendar.StartOfDayIff(w.start, o.createdAt);
    Calendar.EndOfDayIff(w.end, o.createdAt);
  }

  /** The rows the query returns for a window, before sorting. */
  function QueryRows(orders: seq<Receipts.Order>, restaurantId: string, w: Period.Window): seq<Receipts.DailyReceipt>
  {
    Receipts.Aggregate(orders, restaurantId, Calendar.StartOfDay(w.start), Calendar.EndOfDay(w.end))
  }

  /** What a 200 response carries for a window: the query's rows, each with a positive
      sum equal to the total of its day's orders of the restaurant in the window,
      every such day present, no label twice, in strictly ascending (month, day) order. */
  predicate ReceiptsFor(rows: seq<Receipts.DailyReceipt>, orders: seq<Receipts.Order>, restaurantId: string, w: Period.Window)
  {
    var low, high := Calendar.StartOfDay(w.start), Calendar.EndOfDay(w.end);
    && multiset(rows) == multiset(QueryRows(orders, restaurantId, w))
    && Ordering.AllLabels(rows)
    && Ordering.Sorted(rows)
    && Receipts.DistinctDates(rows)
    && (forall i :: 0 <= i < |rows| ==>
          rows[i].receipt >= 1 && rows[i].receipt == Receipts.DayTotal(orders, restaurantId, low, high, rows[i].date))
    && (forall o ::
          (o in orders && Receipts.Kept(o, restaurantId, low, high) &&
           Receipts.DayTotal(orders, restaurantId, low, high, Receipts.OrderLabel(o)) >= 1)
          ==> Receipts.HasDate(rows, Receipts.OrderLabel(o)))
  }

  method GetDailyReceiptInPeriod(
    orders: seq<Receipts.Order>, restaurantId: string, query: Query,
    parse: string -> int, startNow: int, endNow: int)
    returns (response: Response)
    ensures var w := WindowOf(query, parse, startNow, endNow);
      if Period.Rejected(w) then
        response == Response(Period.InvalidPeriodStatus, InvalidPeriod(Period.InvalidPeriodCode, Period.InvalidPeriodMessage))
      else
        response.status == 200 && response.body.Rows? && ReceiptsFor(response.body.rows, orders, restaurantId, w)
  {
    var from := Period.Bound(query.from, parse);
    var to := Period.Bound(query.to, parse);
    var w := Period.Resolve(from, to, startNow, endNow);
    if Period.Span(w) > Period.MaxSpanDays {
      return Response(Period.InvalidPeriodStatus, InvalidPeriod(Period.InvalidPeriodCode, Period.InvalidPeriodMessage));
    }
    var rows := Receipts.Aggregate(orders, restaurantId, Calendar.StartOfDay(w.start), Calendar.EndOfDay(w.end));
    Receipts.AggregateRows(orders, restaurantId, Calendar.StartOfDay(w.start), Calendar.EndOfDay(w.end));
    var a := new Receipts.DailyReceipt[|rows|](i requires 0 <= i < |rows| => rows[i]);
    assert a[..] == rows;
    Ordering.SortByDate(a);
    SortedQueryRows(a[..], orders, restaurantId, w);
    response := Response(200, Rows(a[..]));
  }

  /** Any ascending rearrangement of the query's rows is what a 200 response carries. */
  lemma SortedQueryRows(sorted: seq<Receipts.DailyReceipt>, orders: seq<Receipts.Order>, restaurantId: string, w: Period.Window)
    requires multiset(sorted) == multiset(QueryRows(orders, restaurantId, w))
    requires Ordering.Sorted(sorted)
    ensures ReceiptsFor(sorted, orders, restaurantId, w)
  {
    var low, high := Calendar.StartOfDay(w.start), Calendar.EndOfDay(w.end);
    var rows := QueryRows(orders, restaurantId, w);
    Receipts.AggregateRows(orders, restaurantId, low, high);
    Ordering.PermutationKeepsDistinct(rows, sorted);
    PermutedRowValues(sorted, rows, orders, restaurantId, low, high);
    forall o | o in orders && Receipts.Kept(o, restaurantId, low, high) &&
      Receipts.DayTotal(orders, restaurantId, low, high, Receipts.OrderLabel(o)) >= 1
      ensures Receipts.HasDate(sorted, Receipts.OrderLabel(o))
    {
      PermutedHasDate(sorted, rows, Receipts.OrderLabel(o));
    }
  }

  /** Rearranging rows keeps what each row says. */
  lemma PermutedRowValues(sorted: seq<Receipts.DailyReceipt>, rows: seq<Receipts.DailyReceipt>,
    orders: seq<Receipts.Order>, restaurantId: string, low: int, high: int)
    requires multiset(sorted) == multiset(rows)
    requires forall i :: 0 <= i < |rows| ==>
      && rows[i].receipt >= 1
      && rows[i].receipt == Receipts.DayTotal(orders, restaurantId, low, high, rows[i].date)
      && Labels.IsLabel(rows[i].date)
    ensures forall i :: 0 <= i < |sorted| ==>
      && sorted[i].receipt >= 1
      && sorted[i].receipt == Receipts.DayTotal(orders, restaurantId, low, high, sorted[i].date)
      && Labels.IsLabel(sorted[i].date)
  {
    forall i | 0 <= i < |sorted|
      ensures sorted[i].receipt >= 1
      ensures sorted[i].receipt == Receipts.DayTotal(orders, restaurantId, low, high, sorted[i].date)
      ensures Labels.IsLabel(sorted[i].date)
    {
      assert sorted[i] in multiset(rows);
    }
  }

  /** Rearranging rows keeps the labels present. */
  lemma PermutedHasDate(sorted: seq<Receipts.DailyReceipt>, rows: seq<Receipts.DailyReceipt>, date: string)
    requires multiset(sorted) == multiset(rows) && Receipts.HasDate(rows, date)
    ensures Receipts.HasDate(sorted, date)
  {
    var k :| 0 <= k < |rows| && rows[k].date == date;
    assert rows[k] in multiset(sorted);
    var m :| 0 <= m < |sorted| && sorted[m] == rows[k];
  }

  /** Two 200 responses for the same request and ledger carry the same rows in the
      same order. */
  lemma ReceiptsDetermined(r1: seq<Receipts.DailyReceipt>, r2: seq<Receipts.DailyReceipt>,
    orders: seq<Receipts.Order>, restaurantId: string, w: Period.Window)
    requires ReceiptsFor(r1, orders, restaurantId, w) && ReceiptsFor(r2, orders, restaurantId, w)
    ensures r1 == r2
  {
    Ordering.SortedUnique(r1, r2);
  }
}
