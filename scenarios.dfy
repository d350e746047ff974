/**
  Worked requests: particular inputs, derived from the general model.
*/
module Scenarios {
  import Wrappers
  import Calendar
  import Labels
  import Period
  import Receipts
  import Ordering
  import Route

  /** 2024-01-01T00:00:00.000Z. */
  const NewYear2024: int := 19723 * Calendar.MsPerDay
  const Noon: int := Calendar.MsPerDay / 2

  /** Day numbers 19723 .. 19725 are 1 .. 3 January 2024. */
  lemma EarlyJanuaryDates(k: int)
    requires 0 <= k < 3
    ensures Calendar.CivilFromDays(19723 + k) == Calendar.Date(2024, 1, k + 1)
  {
    var doe := 8706 + k;
    assert (19723 + k + 719468) % 146097 == doe;
    assert (19723 + k + 719468) / 146097 == 5;
    assert Calendar.YearOfEra(doe) == 23;
    assert Calendar.DayOfYear(doe) == 306 + k;
    assert Calendar.ShiftedMonth(306 + k) == 10;
    assert Calendar.MonthStart(10) == 306;
  }

  lemma EarlyJanuaryFormat(k: int)
    requires 0 <= k < 3
    ensures Labels.Format(Labels.DayMonth(k + 1, 1)) == ["01/01", "02/01", "03/01"][k]
  {
    assert Labels.TwoDigits(k + 1) == ["01", "02", "03"][k];
    assert Labels.TwoDigits(1) == "01";
  }

  /** The first three days of 2024 and their labels. */
  lemma EarlyJanuary2024(k: int, t: int)
    requires 0 <= k < 3 && NewYear2024 + k * Calendar.MsPerDay <= t < NewYear2024 + (k + 1) * Calendar.MsPerDay
    ensures Calendar.CivilFromDays(Calendar.DayNumber(t)) == Calendar.Date(2024, 1, k + 1)
    ensures Labels.LabelOf(t) == ["01/01", "02/01", "03/01"][k]
  {
    assert Calendar.DayNumber(t) == 19723 + k;
    EarlyJanuaryDates(k);
    EarlyJanuaryFormat(k);
  }

  /** The label comparator puts "15/01" before "28/02" before "01/03". */
  lemma SortExampleKeys()
    ensures Labels.Key("15/01") == Labels.DayMonth(15, 1) && Labels.IsLabel("15/01")
    ensures Labels.Key("28/02") == Labels.DayMonth(28, 2) && Labels.IsLabel("28/02")
    ensures Labels.Key("01/03") == Labels.DayMonth(1, 3) && Labels.IsLabel("01/03")
  {
    assert Labels.Parse("15/01") == Wrappers.Some(Labels.DayMonth(15, 1));
    assert Labels.Parse("28/02") == Wrappers.Some(Labels.DayMonth(28, 2));
    assert Labels.Parse("01/03") == Wrappers.Some(Labels.DayMonth(1, 3));
  }

  lemma SortExampleSorted(a: int, b: int, c: int)
    ensures var s := [Receipts.DailyReceipt("15/01", c), Receipts.DailyReceipt("28/02", a), Receipts.DailyReceipt("01/03", b)];
      Ordering.Sorted(s) && Ordering.AllLabels(s) && Receipts.DistinctDates(s)
  {
    var s := [Receipts.DailyReceipt("15/01", c), Receipts.DailyReceipt("28/02", a), Receipts.DailyReceipt("01/03", b)];
    SortExampleKeys();
    assert Ordering.NotAfter(s[0].date, s[1].date) && Ordering.NotAfter(s[1].date, s[2].date)
      && Ordering.NotAfter(s[0].date, s[2].date);
    assert s[0].date[0] != s[1].date[0] && s[0].date[0] != s[2].date[0] && s[1].date[0] != s[2].date[0];
  }

  lemma SortExample(a: int, b: int, c: int, t: seq<Receipts.DailyReceipt>)
    requires multiset(t) == multiset([Receipts.DailyReceipt("28/02", a), Receipts.DailyReceipt("01/03", b), Receipts.DailyReceipt("15/01", c)])
    requires Ordering.Sorted(t)
    ensures t == [Receipts.DailyReceipt("15/01", c), Receipts.DailyReceipt("28/02", a), Receipts.DailyReceipt("01/03", b)]
  {
    var s := [Receipts.DailyReceipt("15/01", c), Receipts.DailyReceipt("28/02", a), Receipts.DailyReceipt("01/03", b)];
    SortExampleSorted(a, b, c);
    assert multiset(s) == multiset(t);
    Ordering.SortedUnique(s, t);
  }

  /** A window across New Year (30/12 to 01/01): the labels carry no year, so the
      January row is put before the December row. */
  lemma NewYearOrder(a: int, b: int, t: seq<Receipts.DailyReceipt>)
    requires multiset(t) == multiset([Receipts.DailyReceipt("30/12", a), Receipts.DailyReceipt("01/01", b)])
    requires Ordering.Sorted(t)
    ensures t == [Receipts.DailyReceipt("01/01", b), Receipts.DailyReceipt("30/12", a)]
  {
    var s := [Receipts.DailyReceipt("01/01", b), Receipts.DailyReceipt("30/12", a)];
    assert Labels.Parse("01/01") == Wrappers.Some(Labels.DayMonth(1, 1));
    assert Labels.Parse("30/12") == Wrappers.Some(Labels.DayMonth(30, 12));
    assert Ordering.NotAfter(s[0].date, s[1].date);
    assert s[0].date[0] != s[1].date[0];
    assert Ordering.Sorted(s) && Ordering.AllLabels(s) && Receipts.DistinctDates(s);
    assert multiset(s) == multiset(t);
    Ordering.SortedUnique(s, t);
  }

  /** An order created at the last millisecond of the window's last day counts; one
      created a millisecond later does not. */
  lemma BoundaryInclusive(o: Receipts.Order, w: Period.Window)
    requires w.start <= w.end
    ensures o.createdAt == Calendar.EndOfDay(w.end) ==>
      (Receipts.Kept(o, o.restaurantId, Calendar.StartOfDay(w.start), Calendar.EndOfDay(w.end)))
    ensures o.createdAt == Calendar.EndOfDay(w.end) + 1 ==>
      !Receipts.Kept(o, o.restaurantId, Calendar.StartOfDay(w.start), Calendar.EndOfDay(w.end))
    ensures o.createdAt == Calendar.StartOfDay(w.start) - 1 ==>
      !Receipts.Kept(o, o.restaurantId, Calendar.StartOfDay(w.start), Calendar.EndOfDay(w.end))
  {
  }

  /** Adding to the 01/01 row of [02/01, 01/01], or opening it. */
  lemma AddToSecondDay(sum: int, amount: int)
    ensures var first := Receipts.DailyReceipt("02/01", 0);
      && (sum == 0 ==> Receipts.AddToDay([first], "01/01", amount) == [first, Receipts.DailyReceipt("01/01", amount)])
      && Receipts.AddToDay([first, Receipts.DailyReceipt("01/01", sum)], "01/01", amount)
         == [first, Receipts.DailyReceipt("01/01", sum + amount)]
  {
    var first := Receipts.DailyReceipt("02/01", 0);
    assert "02/01"[1] != "01/01"[1];
    assert [first][1..] == [];
    assert [first, Receipts.DailyReceipt("01/01", sum)][1..] == [Receipts.DailyReceipt("01/01", sum)];
  }

  lemma DropZeroDay(sum: int)
    requires sum >= 1
    ensures Receipts.HavingPositive([Receipts.DailyReceipt("02/01", 0), Receipts.DailyReceipt("01/01", sum)])
      == [Receipts.DailyReceipt("01/01", sum)]
  {
    var rows := [Receipts.DailyReceipt("02/01", 0), Receipts.DailyReceipt("01/01", sum)];
    assert rows[1..] == [Receipts.DailyReceipt("01/01", sum)];
    assert rows[1..][1..] == [];
    assert Receipts.HavingPositive(rows[1..][1..]) == [];
    assert Receipts.HavingPositive(rows[1..]) == [rows[1..][0]] + Receipts.HavingPositive(rows[1..][1..]);
  }

  /** The orders of the one-day example. */
  function SameDayOrders(): seq<Receipts.Order>
  {
    [Receipts.Order("r", NewYear2024 + Noon, 100), Receipts.Order("r", NewYear2024 + Noon + 1, 250),
     Receipts.Order("r", NewYear2024 + Noon + 2, 0), Receipts.Order("r", NewYear2024 + Calendar.MsPerDay + Noon, 0)]
  }

  lemma SameDayKept()
    ensures Receipts.Selected(SameDayOrders(), "r", NewYear2024, NewYear2024 + 2 * Calendar.MsPerDay) == SameDayOrders()
  {
    var orders := SameDayOrders();
    var low, high := NewYear2024, NewYear2024 + 2 * Calendar.MsPerDay;
    forall i | 0 <= i < |orders| ensures Receipts.Kept(orders[i], "r", low, high) {
      assert orders[i].restaurantId == "r";
      assert low <= orders[i].createdAt <= high;
    }
    Receipts.SelectedAllKept(orders, "r", low, high);
  }

  /** One step of the grouping fold. */
  lemma GroupStep(orders: seq<Receipts.Order>, rows: seq<Receipts.DailyReceipt>, date: string, amount: int)
    requires |orders| > 0 && Receipts.GroupByDay(orders[1..]) == rows
    requires Receipts.OrderLabel(orders[0]) == date && orders[0].totalInCents == amount
    ensures Receipts.GroupByDay(orders) == Receipts.AddToDay(rows, date, amount)
  {
  }

  /** Grouping one order of 02/01 of 0 cents. */
  lemma GroupOne(orders: seq<Receipts.Order>)
    requires |orders| == 1 && Receipts.OrderLabel(orders[0]) == "02/01" && orders[0].totalInCents == 0
    ensures Receipts.GroupByDay(orders) == [Receipts.DailyReceipt("02/01", 0)]
  {
    assert Receipts.GroupByDay(orders[1..]) == [];
  }

  /** Grouping an order of 01/01 and then one of 02/01, both of 0 cents. */
  lemma GroupTwoEmpty(orders: seq<Receipts.Order>)
    requires |orders| == 2
    requires Receipts.OrderLabel(orders[0]) == "01/01" && Receipts.OrderLabel(orders[1]) == "02/01"
    requires orders[0].totalInCents == 0 && orders[1].totalInCents == 0
    ensures Receipts.GroupByDay(orders) == [Receipts.DailyReceipt("02/01", 0), Receipts.DailyReceipt("01/01", 0)]
  {
    GroupOne(orders[1..]);
    GroupStep(orders, [Receipts.DailyReceipt("02/01", 0)], "01/01", 0);
    AddToSecondDay(0, 0);
  }

  /** Grouping two orders of 01/01 and then one of 02/01 of 0 cents. */
  lemma GroupThree(orders: seq<Receipts.Order>)
    requires |orders| == 3
    requires Receipts.OrderLabel(orders[0]) == "01/01" && Receipts.OrderLabel(orders[1]) == "01/01"
    requires Receipts.OrderLabel(orders[2]) == "02/01"
    requires orders[1].totalInCents == 0 && orders[2].totalInCents == 0
    ensures Receipts.GroupByDay(orders)
      == [Receipts.DailyReceipt("02/01", 0), Receipts.DailyReceipt("01/01", orders[0].totalInCents)]
  {
    GroupTwoEmpty(orders[1..]);
    GroupStep(orders, [Receipts.DailyReceipt("02/01", 0), Receipts.DailyReceipt("01/01", 0)], "01/01", orders[0].totalInCents);
    AddToSecondDay(0, orders[0].totalInCents);
  }

  lemma SameDayGroups()
    ensures Receipts.GroupByDay(SameDayOrders())
      == [Receipts.DailyReceipt("02/01", 0), Receipts.DailyReceipt("01/01", 350)]
  {
    var orders := SameDayOrders();
    EarlyJanuary2024(0, orders[0].createdAt);
    EarlyJanuary2024(0, orders[1].createdAt);
    EarlyJanuary2024(0, orders[2].createdAt);
    EarlyJanuary2024(1, orders[3].createdAt);
    GroupThree(orders[1..]);
    GroupStep(orders, [Receipts.DailyReceipt("02/01", 0), Receipts.DailyReceipt("01/01", 250)], "01/01", 100);
    AddToSecondDay(250, 100);
  }

  /** Orders of one day totalling 100, 250 and 0 cents give one row of 350 cents;
      a day whose orders total 0 gives no row. */
  lemma SameDayExample()
    ensures Receipts.Aggregate(SameDayOrders(), "r", NewYear2024, NewYear2024 + 2 * Calendar.MsPerDay)
      == [Receipts.DailyReceipt("01/01", 350)]
  {
    SameDayKept();
    SameDayGroups();
    DropZeroDay(350);
  }

  lemma EndToEndGroups()
    ensures var first := Receipts.DailyReceipt("02/01", 0);
      var second := Receipts.DailyReceipt("01/01", 500);
      var third := Receipts.DailyReceipt("03/01", 300);
      && Receipts.AddToDay([first, second], "03/01", 300) == [first, second, third]
      && Receipts.HavingPositive([first, second, third]) == [second, third]
  {
    var first := Receipts.DailyReceipt("02/01", 0);
    var second := Receipts.DailyReceipt("01/01", 500);
    var third := Receipts.DailyReceipt("03/01", 300);
    assert "02/01"[1] != "03/01"[1] && "01/01"[1] != "03/01"[1];
    var rows := [first, second, third];
    assert [first, second][1..] == [second] && [first, second][1..][1..] == [];
    assert Receipts.AddToDay([], "03/01", 300) == [third];
    assert Receipts.AddToDay([second], "03/01", 300) == [second] + [third];
    assert Receipts.AddToDay([first, second], "03/01", 300) == [first] + [second, third];
    assert rows[1..] == [second, third] && rows[1..][1..] == [third] && rows[1..][1..][1..] == [];
    assert Receipts.HavingPositive(rows[1..][1..]) == [third];
    assert Receipts.HavingPositive(rows[1..]) == [second, third];
  }

  /** The bounds of the query for from=2024-01-01, to=2024-01-03. */
  lemma EndToEndBounds()
    ensures Calendar.StartOfDay(NewYear2024) == NewYear2024
    ensures Calendar.EndOfDay(NewYear2024 + 2 * Calendar.MsPerDay) == NewYear2024 + 3 * Calendar.MsPerDay - 1
  {
    assert Calendar.DayNumber(NewYear2024) == 19723;
    assert Calendar.DayNumber(NewYear2024 + 2 * Calendar.MsPerDay) == 19725;
  }

  /** The two expected rows are labels, distinct and in order. */
  lemma EndToEndOrder()
    ensures var expected := [Receipts.DailyReceipt("01/01", 500), Receipts.DailyReceipt("03/01", 300)];
      Ordering.Sorted(expected) && Ordering.AllLabels(expected) && Receipts.DistinctDates(expected)
  {
    var expected := [Receipts.DailyReceipt("01/01", 500), Receipts.DailyReceipt("03/01", 300)];
    assert Labels.Key("01/01") == Labels.DayMonth(1, 1);
    assert Labels.Key("03/01") == Labels.DayMonth(3, 1);
    assert "01/01"[1] != "03/01"[1];
    assert Ordering.NotAfter(expected[0].date, expected[1].date);
  }

  /** Orders of 300 on 03/01, 500 on 01/01, 900 of another restaurant on 01/01 and
      0 on 02/01. */
  function EndToEndOrders(): seq<Receipts.Order>
  {
    [Receipts.Order("r", NewYear2024 + 2 * Calendar.MsPerDay + Noon, 300),
     Receipts.Order("r", NewYear2024 + Noon, 500),
     Receipts.Order("other", NewYear2024 + Noon, 900),
     Receipts.Order("r", NewYear2024 + Calendar.MsPerDay + Noon, 0)]
  }

  lemma EndToEndKept()
    ensures var orders := EndToEndOrders();
      Receipts.Selected(orders, "r", NewYear2024, NewYear2024 + 3 * Calendar.MsPerDay - 1) == [orders[0], orders[1], orders[3]]
  {
    var orders := EndToEndOrders();
    var o1, o2, o3, o4 := orders[0], orders[1], orders[2], orders[3];
    var low, high := NewYear2024, NewYear2024 + 3 * Calendar.MsPerDay - 1;
    assert orders[1..] == [o2, o3, o4] && orders[1..][1..] == [o3, o4] && orders[1..][1..][1..] == [o4];
    assert Receipts.Selected([o4], "r", low, high) == [o4];
    assert Receipts.Selected([o3, o4], "r", low, high) == [o4];
    assert Receipts.Selected([o2, o3, o4], "r", low, high) == [o2, o4];
  }

  lemma EndToEndGrouped()
    ensures var orders := EndToEndOrders();
      Receipts.GroupByDay([orders[0], orders[1], orders[3]])
      == [Receipts.DailyReceipt("02/01", 0), Receipts.DailyReceipt("01/01", 500), Receipts.DailyReceipt("03/01", 300)]
  {
    var orders := EndToEndOrders();
    var o1, o2, o4 := orders[0], orders[1], orders[3];
    EarlyJanuary2024(0, o2.createdAt);
    EarlyJanuary2024(1, o4.createdAt);
    EarlyJanuary2024(2, o1.createdAt);
    assert [o1, o2, o4][1..] == [o2, o4] && [o2, o4][1..] == [o4] && [o4][1..] == [];
    assert Receipts.GroupByDay([o4]) == [Receipts.DailyReceipt("02/01", 0)];
    AddToSecondDay(0, 500);
    assert Receipts.GroupByDay([o2, o4]) == [Receipts.DailyReceipt("02/01", 0), Receipts.DailyReceipt("01/01", 500)];
    EndToEndGroups();
  }

  /** from=2024-01-01, to=2024-01-03 over those orders, whatever the clock reads: the
      request is accepted and the answer is 01/01 with 500 cents, then 03/01 with 300
      cents. */
  lemma EndToEndExample(parse: string -> int, startNow: int, endNow: int, rows: seq<Receipts.DailyReceipt>)
    requires parse("2024-01-01") == NewYear2024 && parse("2024-01-03") == NewYear2024 + 2 * Calendar.MsPerDay
    requires var query := Route.Query(Wrappers.Some("2024-01-01"), Wrappers.Some("2024-01-03"));
      Route.ReceiptsFor(rows, EndToEndOrders(), "r", Route.WindowOf(query, parse, startNow, endNow))
    ensures var query := Route.Query(Wrappers.Some("2024-01-01"), Wrappers.Some("2024-01-03"));
      !Period.Rejected(Route.WindowOf(query, parse, startNow, endNow))
    ensures rows == [Receipts.DailyReceipt("01/01", 500), Receipts.DailyReceipt("03/01", 300)]
  {
    var w := Period.Window(NewYear2024, NewYear2024 + 2 * Calendar.MsPerDay);
    Route.BothBoundsWindow("2024-01-01", "2024-01-03", parse, startNow, endNow);
    EndToEndWindow(rows, w);
  }

  lemma EndToEndWindow(rows: seq<Receipts.DailyReceipt>, w: Period.Window)
    requires w == Period.Window(NewYear2024, NewYear2024 + 2 * Calendar.MsPerDay)
    requires Route.ReceiptsFor(rows, EndToEndOrders(), "r", w)
    ensures !Period.Rejected(w)
    ensures rows == [Receipts.DailyReceipt("01/01", 500), Receipts.DailyReceipt("03/01", 300)]
  {
    EndToEndBounds();
    EndToEndKept();
    EndToEndGrouped();
    EndToEndGroups();
    var expected := [Receipts.DailyReceipt("01/01", 500), Receipts.DailyReceipt("03/01", 300)];
    assert Route.QueryRows(EndToEndOrders(), "r", w) == expected;
    EndToEndOrder();
    Ordering.SortedUnique(expected, rows);
  }
}
