/**
  The revenue query of the route handler (lines 26-40): the orders of one
  restaurant created inside the window are grouped by their "DD/MM" label, the
  group's totalInCents are summed, and only groups summing to at least 1 are kept.
  The SQL is given its meaning as a fold over the order ledger.
*/
module Receipts {
  import Labels

  datatype Order = Order(restaurantId: string, createdAt: int, totalInCents: int)

  /** A row of the result: `date` is the day label, `receipt` the summed cents. */
  datatype DailyReceipt = DailyReceipt(date: string, receipt: int)

  /** The WHERE clause (lines 33-37): the managed restaurant, and a creation instant
      between `low` and `high`, both inclusive. */
  predicate Kept(o: Order, restaurantId: string, low: int, high: int)
  {
    o.restaurantId == restaurantId && low <= o.createdAt <= high
  }

  function OrderLabel(o: Order): string
  {
    Labels.LabelOf(o.createdAt)
  }

  /** The reference meaning of one row: the sum of totalInCents over exactly the
      orders that are kept and carry the label `date`. */
  function DayTotal(orders: seq<Order>, restaurantId: string, low: int, high: int, date: string): int
  {
    if |orders| == 0 then 0
    else
      (if Kept(orders[0], restaurantId, low, high) && OrderLabel(orders[0]) == date then orders[0].totalInCents else 0)
      + DayTotal(orders[1..], restaurantId, low, high, date)
  }

  /** The sum of totalInCents over the orders of a sequence that carry `date`. */
  function LabelTotal(orders: seq<Order>, date: string): int
  {
    if |orders| == 0 then 0
    else (if OrderLabel(orders[0]) == date then orders[0].totalInCents else 0) + LabelTotal(orders[1..], date)
  }

  /** The orders that pass the WHERE clause, in ledger order. */
  function Selected(orders: seq<Order>, restaurantId: string, low: int, high: int): (r: seq<Order>)
    ensures forall o :: o in r ==> o in orders && Kept(o, restaurantId, low, high)
  {
    if |orders| == 0 then []
    else if Kept(orders[0], restaurantId, low, high) then [orders[0]] + Selected(orders[1..], restaurantId, low, high)
    else Selected(orders[1..], restaurantId, low, high)
  }

  /** Adds an amount to the row of `date`, opening the row if there is none. */
  function AddToDay(rows: seq<DailyReceipt>, date: string, amount: int): seq<DailyReceipt>
  {
    if |rows| == 0 then [DailyReceipt(date, amount)]
    else if rows[0].date == date then [DailyReceipt(date, rows[0].receipt + amount)] + rows[1..]
    else [rows[0]] + AddToDay(rows[1..], date, amount)
  }

  /** GROUP BY TO_CHAR(createdAt, 'DD/MM') with sum(totalInCents) (lines 27-29, 39). */
  function GroupByDay(orders: seq<Order>): seq<DailyReceipt>
  {
    if |orders| == 0 then []
    else AddToDay(GroupByDay(orders[1..]), OrderLabel(orders[0]), orders[0].totalInCents)
  }

  /** HAVING sum >= 1 (line 40). */
  function HavingPositive(rows: seq<DailyReceipt>): (r: seq<DailyReceipt>)
    ensures forall x :: x in r ==> x in rows && x.receipt >= 1
    ensures forall x :: x in rows && x.receipt >= 1 ==> x in r
  {
    if |rows| == 0 then []
    else if rows[0].receipt >= 1 then [rows[0]] + HavingPositive(rows[1..])
    else HavingPositive(rows[1..])
  }

  predicate DistinctDates(rows: seq<DailyReceipt>)
  {
    forall i, j :: 0 <= i < j < |rows| ==> rows[i].date != rows[j].date
  }

  predicate HasDate(rows: seq<DailyReceipt>, date: string)
  {
    exists i :: 0 <= i < |rows| && rows[i].date == date
  }

  /** Looking a date up past a first row of another date. */
  lemma HasDateTail(rows: seq<DailyReceipt>, date: string)
    requires |rows| > 0 && rows[0].date != date
    ensures HasDate(rows, date) <==> HasDate(rows[1..], date)
    ensures HasDate(rows, date) ==> RowOf(rows, date) == RowOf(rows[1..], date)
  {
    if HasDate(rows, date) {
      var i :| 0 <= i < |rows| && rows[i].date == date;
      assert rows[1..][i - 1].date == date;
    }
    if HasDate(rows[1..], date) {
      var i :| 0 <= i < |rows[1..]| && rows[1..][i].date == date;
      assert rows[i + 1].date == date;
    }
  }

  /** Adding to a day gives the dates there were, plus that day. */
  lemma {:induction false} AddToDayDates(rows: seq<DailyReceipt>, date: string, amount: int)
    ensures forall l :: HasDate(AddToDay(rows, date, amount), l) <==> l == date || HasDate(rows, l)
  {
    var r := AddToDay(rows, date, amount);
    if |rows| == 0 {
      forall l ensures HasDate(r, l) <==> l == date {
        assert r[0].date == date;
      }
    } else if rows[0].date != date {
      AddToDayDates(rows[1..], date, amount);
      assert r[0] == rows[0] && r[1..] == AddToDay(rows[1..], date, amount);
      forall l ensures HasDate(r, l) <==> l == date || HasDate(rows, l) {
        if l != rows[0].date {
          HasDateTail(rows, l);
          HasDateTail(r, l);
        } else {
          assert r[0].date == l && rows[0].date == l;
        }
      }
    } else {
      assert r[0].date == date && r[1..] == rows[1..];
      forall l ensures HasDate(r, l) <==> l == date || HasDate(rows, l) {
        if l != date {
          HasDateTail(rows, l);
          HasDateTail(r, l);
        } else {
          assert r[0].date == l && rows[0].date == l;
        }
      }
    }
  }

  /** Adding to a day keeps the dates distinct, changes that day's row alone and opens
      it with the amount when it was absent. */
  lemma {:induction false} AddToDayRows(rows: seq<DailyReceipt>, date: string, amount: int)
    requires DistinctDates(rows)
    ensures DistinctDates(AddToDay(rows, date, amount))
    ensures forall x :: x in AddToDay(rows, date, amount) ==>
      if x.date == date then
        x.receipt == amount + (if HasDate(rows, date) then RowOf(rows, date).receipt else 0)
      else x in rows
    ensures forall x :: x in rows && x.date != date ==> x in AddToDay(rows, date, amount)
  {
    if |rows| > 0 && rows[0].date != date {
      AddToDayRows(rows[1..], date, amount);
      HasDateTail(rows, date);
      var r := AddToDay(rows, date, amount);
      assert r == [rows[0]] + AddToDay(rows[1..], date, amount);
      assert r[1..] == AddToDay(rows[1..], date, amount);
    } else if |rows| > 0 {
      assert RowOf(rows, date) == rows[0];
    }
  }

  /** The row of a date that has one. */
  function RowOf(rows: seq<DailyReceipt>, date: string): (x: DailyReceipt)
    requires HasDate(rows, date)
    ensures x in rows && x.date == date
  {
    if rows[0].date == date then rows[0]
    else
      assert HasDate(rows[1..], date) by {
        var i :| 0 <= i < |rows| && rows[i].date == date;
        assert rows[1..][i - 1].date == date;
      }
      RowOf(rows[1..], date)
  }

  /** Some order of the sequence carries the label. */
  predicate HasOrderOn(orders: seq<Order>, date: string)
  {
    exists i :: 0 <= i < |orders| && OrderLabel(orders[i]) == date
  }

  lemma HasOrderOnCons(orders: seq<Order>, date: string)
    requires |orders| > 0
    ensures HasOrderOn(orders, date) <==> OrderLabel(orders[0]) == date || HasOrderOn(orders[1..], date)
  {
    if HasOrderOn(orders, date) && OrderLabel(orders[0]) != date {
      var i :| 0 <= i < |orders| && OrderLabel(orders[i]) == date;
      assert OrderLabel(orders[1..][i - 1]) == date;
    }
    if HasOrderOn(orders[1..], date) {
      var i :| 0 <= i < |orders| - 1 && OrderLabel(orders[1..][i]) == date;
      assert OrderLabel(orders[i + 1]) == date;
    }
  }

  /** A label no order carries sums to nothing. */
  lemma {:induction false} LabelTotalAbsent(orders: seq<Order>, date: string)
    requires !HasOrderOn(orders, date)
    ensures LabelTotal(orders, date) == 0
  {
    if |orders| > 0 {
      HasOrderOnCons(orders, date);
      LabelTotalAbsent(orders[1..], date);
    }
  }

  /** GROUP BY: one row per label that occurs, no label twice, and each row holds
      the sum of its orders' totals. */
  lemma {:induction false} GroupByDayRows(orders: seq<Order>)
    ensures DistinctDates(GroupByDay(orders))
    ensures forall x :: x in GroupByDay(orders) ==> x.receipt == LabelTotal(orders, x.date)
    ensures forall d :: HasDate(GroupByDay(orders), d) <==> HasOrderOn(orders, d)
  {
    if |orders| > 0 {
      var rest := GroupByDay(orders[1..]);
      var d0, t0 := OrderLabel(orders[0]), orders[0].totalInCents;
      GroupByDayRows(orders[1..]);
      AddToDayRows(rest, d0, t0);
      AddToDayDates(rest, d0, t0);
      forall d ensures HasOrderOn(orders, d) <==> d == d0 || HasOrderOn(orders[1..], d) {
        HasOrderOnCons(orders, d);
      }
      forall x | x in GroupByDay(orders) ensures x.receipt == LabelTotal(orders, x.date) {
        if x.date == d0 && !HasDate(rest, d0) {
          LabelTotalAbsent(orders[1..], d0);
        }
      }
    }
  }

  /** The WHERE clause then per-label sums give the reference sum. */
  lemma {:induction false} SelectedLabelTotal(orders: seq<Order>, restaurantId: string, low: int, high: int, date: string)
    ensures LabelTotal(Selected(orders, restaurantId, low, high), date) == DayTotal(orders, restaurantId, low, high, date)
  {
    if |orders| > 0 {
      SelectedLabelTotal(orders[1..], restaurantId, low, high, date);
      if Kept(orders[0], restaurantId, low, high) {
        var s := Selected(orders, restaurantId, low, high);
        assert s[0] == orders[0] && s[1..] == Selected(orders[1..], restaurantId, low, high);
      }
    }
  }

  /** When every order passes the WHERE clause, all of them are selected, in order. */
  lemma {:induction false} SelectedAllKept(orders: seq<Order>, restaurantId: string, low: int, high: int)
    requires forall i :: 0 <= i < |orders| ==> Kept(orders[i], restaurantId, low, high)
    ensures Selected(orders, restaurantId, low, high) == orders
  {
    if |orders| > 0 {
      assert forall i :: 0 <= i < |orders[1..]| ==> orders[1..][i] == orders[i + 1];
      SelectedAllKept(orders[1..], restaurantId, low, high);
      assert orders == [orders[0]] + orders[1..];
    }
  }

  /** Every order that passes the WHERE clause is selected. */
  lemma {:induction false} SelectedComplete(orders: seq<Order>, restaurantId: string, low: int, high: int)
    ensures forall o :: o in orders && Kept(o, restaurantId, low, high) ==> o in Selected(orders, restaurantId, low, high)
  {
    if |orders| > 0 {
      SelectedComplete(orders[1..], restaurantId, low, high);
      forall o | o in orders && Kept(o, restaurantId, low, high)
        ensures o in Selected(orders, restaurantId, low, high)
      {
        if o != orders[0] {
          assert o in orders[1..];
        }
      }
    }
  }

  /** The WHERE clause applies order by order, so it splits over concatenation. */
  lemma {:induction false} SelectedAppend(a: seq<Order>, b: seq<Order>, restaurantId: string, low: int, high: int)
    ensures Selected(a + b, restaurantId, low, high) == Selected(a, restaurantId, low, high) + Selected(b, restaurantId, low, high)
  {
    if |a| > 0 {
      assert (a + b)[1..] == a[1..] + b;
      SelectedAppend(a[1..], b, restaurantId, low, high);
    } else {
      assert a + b == b;
    }
  }

  /** Dropping the first row keeps labels distinct, and none of the rest carries its label. */
  lemma DistinctTail(rows: seq<DailyReceipt>)
    requires |rows| > 0 && DistinctDates(rows)
    ensures DistinctDates(rows[1..])
    ensures forall x :: x in rows[1..] ==> x.date != rows[0].date
  {
    forall x | x in rows[1..] ensures x.date != rows[0].date {
      var k :| 0 <= k < |rows[1..]| && rows[1..][k] == x;
      assert rows[k + 1] == x;
    }
    forall i, j | 0 <= i < j < |rows| - 1 ensures rows[1..][i].date != rows[1..][j].date {
      assert rows[1..][i] == rows[i + 1] && rows[1..][j] == rows[j + 1];
    }
  }

  lemma DistinctCons(x: DailyReceipt, rest: seq<DailyReceipt>)
    requires DistinctDates(rest) && forall y :: y in rest ==> y.date != x.date
    ensures DistinctDates([x] + rest)
  {
    var r := [x] + rest;
    forall i, j | 0 <= i < j < |r| ensures r[i].date != r[j].date {
      assert r[j] == rest[j - 1];
      if i > 0 {
        assert r[i] == rest[i - 1];
      }
    }
  }

  /** HAVING drops rows and reorders none, so labels stay distinct. */
  lemma {:induction false} HavingPositiveDistinct(rows: seq<DailyReceipt>)
    requires DistinctDates(rows)
    ensures DistinctDates(HavingPositive(rows))
  {
    if |rows| > 0 {
      DistinctTail(rows);
      HavingPositiveDistinct(rows[1..]);
      if rows[0].receipt >= 1 {
        DistinctCons(rows[0], HavingPositive(rows[1..]));
      }
    }
  }

  /** The query's result: the rows the Postgres statement of lines 26-40 returns,
      in some order. */
  function Aggregate(orders: seq<Order>, restaurantId: string, low: int, high: int): seq<DailyReceipt>
  {
    HavingPositive(GroupByDay(Selected(orders, restaurantId, low, high)))
  }

  /** What the result means: every row holds a positive sum, no label appears twice,
      each row's sum is the total over exactly the kept orders of its day, and every
      day whose total is positive has a row. */
  lemma AggregateRows(orders: seq<Order>, restaurantId: string, low: int, high: int)
    ensures var r := Aggregate(orders, restaurantId, low, high);
      && DistinctDates(r)
      && (forall i :: 0 <= i < |r| ==>
        && r[i].receipt >= 1
        && r[i].receipt == DayTotal(orders, restaurantId, low, high, r[i].date)
        && Labels.IsLabel(r[i].date)
        && exists o :: o in orders && Kept(o, restaurantId, low, high) && OrderLabel(o) == r[i].date)
      && (forall o ::
            (o in orders && Kept(o, restaurantId, low, high) && DayTotal(orders, restaurantId, low, high, OrderLabel(o)) >= 1)
            ==> HasDate(r, OrderLabel(o)))
  {
    var kept := Selected(orders, restaurantId, low, high);
    var grouped := GroupByDay(kept);
    var r := HavingPositive(grouped);
    GroupByDayRows(kept);
    HavingPositiveDistinct(grouped);
    SelectedComplete(orders, restaurantId, low, high);
    forall i | 0 <= i < |r|
      ensures r[i].receipt == DayTotal(orders, restaurantId, low, high, r[i].date)
      ensures Labels.IsLabel(r[i].date)
      ensures exists o :: o in orders && Kept(o, restaurantId, low, high) && OrderLabel(o) == r[i].date
    {
      RowOfSelected(orders, restaurantId, low, high, r[i]);
    }
    forall o | o in orders && Kept(o, restaurantId, low, high) &&
      DayTotal(orders, restaurantId, low, high, OrderLabel(o)) >= 1
      ensures HasDate(r, OrderLabel(o))
    {
      SelectedDayHasRow(orders, restaurantId, low, high, o);
    }
  }

  lemma RowOfSelected(orders: seq<Order>, restaurantId: string, low: int, high: int, x: DailyReceipt)
    requires x in HavingPositive(GroupByDay(Selected(orders, restaurantId, low, high)))
    ensures x.receipt == DayTotal(orders, restaurantId, low, high, x.date)
    ensures exists o :: o in orders && Kept(o, restaurantId, low, high) && OrderLabel(o) == x.date
    ensures Labels.IsLabel(x.date)
  {
    var kept := Selected(orders, restaurantId, low, high);
    var grouped := GroupByDay(kept);
    GroupByDayRows(kept);
    SelectedLabelTotal(orders, restaurantId, low, high, x.date);
    assert x in grouped;
    var k :| 0 <= k < |grouped| && grouped[k] == x;
    assert HasDate(grouped, x.date);
    assert HasOrderOn(kept, x.date);
    var j :| 0 <= j < |kept| && OrderLabel(kept[j]) == x.date;
    assert kept[j] in kept;
  }

  lemma SelectedDayHasRow(orders: seq<Order>, restaurantId: string, low: int, high: int, o: Order)
    requires o in orders && Kept(o, restaurantId, low, high)
    requires DayTotal(orders, restaurantId, low, high, OrderLabel(o)) >= 1
    ensures HasDate(Aggregate(orders, restaurantId, low, high), OrderLabel(o))
  {
    var kept := Selected(orders, restaurantId, low, high);
    var grouped := GroupByDay(kept);
    var r := HavingPositive(grouped);
    GroupByDayRows(kept);
    SelectedComplete(orders, restaurantId, low, high);
    SelectedLabelTotal(orders, restaurantId, low, high, OrderLabel(o));
    var j :| 0 <= j < |kept| && kept[j] == o;
    assert HasOrderOn(kept, OrderLabel(o));
    var x := RowOf(grouped, OrderLabel(o));
    assert x in r;
    var k :| 0 <= k < |r| && r[k] == x;
  }

  /** Orders of other restaurants never contribute: inserting one anywhere in the
      ledger leaves the result unchanged. */
  lemma OtherRestaurantIgnored(before: seq<Order>, o: Order, after: seq<Order>, restaurantId: string, low: int, high: int)
    requires o.restaurantId != restaurantId
    ensures Aggregate(before + [o] + after, restaurantId, low, high) == Aggregate(before + after, restaurantId, low, high)
  {
    SelectedAppend(before + [o], after, restaurantId, low, high);
    SelectedAppend(before, [o], restaurantId, low, high);
    SelectedAppend(before, after, restaurantId, low, high);
    assert Selected([o], restaurantId, low, high) == [];
    assert Selected(before + [o] + after, restaurantId, low, high) == Selected(before + after, restaurantId, low, high);
  }
}
