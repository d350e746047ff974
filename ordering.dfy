/**
  The ordering of the result rows (lines 42-53): `receiptPerDay.sort(comparator)`
  reorders the query's rows in place by their "DD/MM" labels.
*/
module Ordering {
  import Calendar
  import Labels
  import Receipts

  /** `new Date(2023, month - 1).getTime()`: the first instant of the month in 2023. */
  function MonthTime(month: int): int
  {
    Calendar.JsDateTime(2023, month - 1)
  }

  lemma MonthTimeStep(m: int)
    requires 1 <= m < 12
    ensures MonthTime(m) < MonthTime(m + 1)
  {
  }

  /** The reference dates of the comparator increase strictly with the month. */
  lemma {:induction false} MonthTimeIncreasing(m1: int, m2: int)
    requires 1 <= m1 < m2 <= 12
    ensures MonthTime(m1) < MonthTime(m2)
  {
    MonthTimeStep(m2 - 1);
    if m1 < m2 - 1 {
      MonthTimeIncreasing(m1, m2 - 1);
    }
  }

  /** The comparator passed to sort. */
  function Compare(a: string, b: string): int
    requires Labels.IsLabel(a) && Labels.IsLabel(b)
  {
    var x, y := Labels.Key(a), Labels.Key(b);
    if x.month == y.month then x.day - y.day
    else MonthTime(x.month) - MonthTime(y.month)
  }

  /** Label `a` names a day no later than `b` in (month, day) order. */
  predicate NotAfter(a: string, b: string)
  {
    var x, y := Labels.Key(a), Labels.Key(b);
    x.month < y.month || (x.month == y.month && x.day <= y.day)
  }

  /** Within a month the comparator is the difference of the days; across months
      its sign is that of the difference of the months and it is never zero. */
  lemma CompareCases(a: string, b: string)
    requires Labels.IsLabel(a) && Labels.IsLabel(b)
    ensures Labels.Key(a).month == Labels.Key(b).month ==> Compare(a, b) == Labels.Key(a).day - Labels.Key(b).day
    ensures Labels.Key(a).month != Labels.Key(b).month ==>
      Compare(a, b) != 0 && (Compare(a, b) < 0 <==> Labels.Key(a).month < Labels.Key(b).month)
  {
    var x, y := Labels.Key(a), Labels.Key(b);
    if x.month < y.month {
      MonthTimeIncreasing(x.month, y.month);
    } else if y.month < x.month {
      MonthTimeIncreasing(y.month, x.month);
    }
  }

  /** The comparator orders labels by (month, day): negative before, zero only for the
      same label, positive after; so it is a consistent total order on labels. */
  lemma CompareIsOrder(a: string, b: string)
    requires Labels.IsLabel(a) && Labels.IsLabel(b)
    ensures Compare(a, b) <= 0 <==> NotAfter(a, b)
    ensures Compare(a, b) == 0 <==> a == b
    ensures Compare(a, b) < 0 <==> Compare(b, a) > 0
  {
    CompareCases(a, b);
    CompareCases(b, a);
    Labels.SameLabelIffSameKey(a, b);
  }

  /** One call of the comparator as sort makes it, on two neighbouring rows:
      whether row `j - 1` belongs after row `j`. */
  method OutOfOrder(a: array<Receipts.DailyReceipt>, j: int) returns (after: bool)
    requires 0 < j < a.Length && AllLabels(a[..])
    ensures after <==> !NotAfter(a[j - 1].date, a[j].date)
  {
    assert Labels.IsLabel(a[..][j - 1].date) && Labels.IsLabel(a[..][j].date);
    CompareCases(a[j - 1].date, a[j].date);
    var c := Compare(a[j - 1].date, a[j].date);
    after := c > 0;
  }

  predicate AllLabels(s: seq<Receipts.DailyReceipt>)
  {
    forall i :: 0 <= i < |s| ==> Labels.IsLabel(s[i].date)
  }

  /** Ascending by (month, day). */
  predicate Sorted(s: seq<Receipts.DailyReceipt>)
  {
    forall i, j :: 0 <= i < j < |s| ==> NotAfter(s[i].date, s[j].date)
  }

  /** The first `n` rows are in ascending order. */
  predicate SortedPrefix(s: seq<Receipts.DailyReceipt>, n: int)
  {
    forall p, q :: 0 <= p < q < n && q < |s| ==> NotAfter(s[p].date, s[q].date)
  }

  method Exchange(a: array<Receipts.DailyReceipt>, i: int, j: int)
    requires 0 <= i < j < a.Length
    modifies a
    ensures a[..] == old(a[..])[i := old(a[j])][j := old(a[i])]
    ensures multiset(a[..]) == multiset(old(a[..]))
    ensures AllLabels(old(a[..])) ==> AllLabels(a[..])
  {
    a[i], a[j] := a[j], a[i];
  }

  /** Rows 0 .. i are in order except row j, which is no later than any row after it
      up to i: the state of an insertion step while row j moves left. */
  predicate InsertionGap(s: seq<Receipts.DailyReceipt>, i: int, j: int)
  {
    && 0 <= j <= i < |s|
    && (forall p, q :: 0 <= p < q <= i && p != j && q != j ==> NotAfter(s[p].date, s[q].date))
    && (forall q :: j < q <= i ==> NotAfter(s[j].date, s[q].date))
  }

  lemma GapStart(s: seq<Receipts.DailyReceipt>, i: int)
    requires 0 <= i < |s| && SortedPrefix(s, i)
    ensures InsertionGap(s, i, i)
  {
  }

  /** Exchanging row j with an earlier row that belongs after it moves the gap left. */
  lemma GapStep(s: seq<Receipts.DailyReceipt>, i: int, j: int)
    requires InsertionGap(s, i, j) && j > 0 && !NotAfter(s[j - 1].date, s[j].date)
    ensures InsertionGap(s[j - 1 := s[j]][j := s[j - 1]], i, j - 1)
  {
  }

  /** Once the row before the gap is no later than it, rows 0 .. i are in order. */
  lemma GapClosed(s: seq<Receipts.DailyReceipt>, i: int, j: int)
    requires InsertionGap(s, i, j) && (j == 0 || NotAfter(s[j - 1].date, s[j].date))
    ensures SortedPrefix(s, i + 1)
  {
  }

  /** Moves row `i` left past every row after it in (month, day) order, so that
      the first `i + 1` rows are in order. */
  method InsertAt(a: array<Receipts.DailyReceipt>, i: int)
    requires 0 <= i < a.Length
    requires AllLabels(a[..]) && SortedPrefix(a[..], i)
    modifies a
    ensures AllLabels(a[..]) && SortedPrefix(a[..], i + 1)
    ensures multiset(a[..]) == multiset(old(a[..]))
    ensures a[i + 1..] == old(a[i + 1..])
  {
    GapStart(a[..], i);
    var j := i;
    var after := false;
    if j > 0 {
      after := OutOfOrder(a, j);
    }
    while j > 0 && after
      invariant InsertionGap(a[..], i, j)
      invariant AllLabels(a[..])
      invariant multiset(a[..]) == multiset(old(a[..]))
      invariant a[i + 1..] == old(a[i + 1..])
      invariant j > 0 ==> (after <==> !NotAfter(a[j - 1].date, a[j].date))
    {
      GapStep(a[..], i, j);
      Exchange(a, j - 1, j);
      j := j - 1;
      if j > 0 {
        after := OutOfOrder(a, j);
      }
    }
    GapClosed(a[..], i, j);
  }

  /** `sort` with the comparator, in place: an insertion sort. */
  method SortByDate(a: array<Receipts.DailyReceipt>)
    requires AllLabels(a[..])
    modifies a
    ensures Sorted(a[..])
    ensures multiset(a[..]) == multiset(old(a[..]))
  {
    var i := 0;
    while i < a.Length
      invariant 0 <= i <= a.Length
      invariant AllLabels(a[..]) && SortedPrefix(a[..], i)
      invariant multiset(a[..]) == multiset(old(a[..]))
    {
      InsertAt(a, i);
      i := i + 1;
    }
  }

  /** A row that occurs once in a sequence whose labels are distinct. */
  lemma {:induction false} DistinctCount(s: seq<Receipts.DailyReceipt>, x: Receipts.DailyReceipt)
    requires Receipts.DistinctDates(s) && x in s
    ensures multiset(s)[x] == 1
  {
    assert s == [s[0]] + s[1..];
    if s[0] == x {
      forall k | 0 <= k < |s| - 1 ensures s[1..][k] != x {
        assert s[k + 1].date != s[0].date;
      }
      assert x !in s[1..];
    } else {
      DistinctCount(s[1..], x);
    }
  }

  /** A row found at two positions occurs at least twice. */
  lemma TwoPositions(t: seq<Receipts.DailyReceipt>, i: int, j: int)
    requires 0 <= i < j < |t|
    ensures t[i] == t[j] ==> multiset(t)[t[i]] >= 2
  {
    assert t == t[..j] + [t[j]] + t[j + 1..];
    assert t[..j][i] == t[i];
  }

  /** In rows with distinct labels, a label names one row. */
  lemma SameDateSameRow(s: seq<Receipts.DailyReceipt>, x: Receipts.DailyReceipt, y: Receipts.DailyReceipt)
    requires Receipts.DistinctDates(s) && x in s && y in s
    ensures x.date == y.date ==> x == y
  {
    var p :| 0 <= p < |s| && s[p] == x;
    var q :| 0 <= q < |s| && s[q] == y;
    assert p < q ==> s[p].date != s[q].date;
    assert q < p ==> s[q].date != s[p].date;
  }

  /** Rearranging rows keeps their labels distinct. */
  lemma PermutationKeepsDistinct(s: seq<Receipts.DailyReceipt>, t: seq<Receipts.DailyReceipt>)
    requires Receipts.DistinctDates(s) && multiset(t) == multiset(s)
    ensures Receipts.DistinctDates(t)
  {
    forall i, j | 0 <= i < j < |t| ensures t[i].date != t[j].date {
      assert t[i] in multiset(s) && t[j] in multiset(s);
      DistinctCount(s, t[i]);
      TwoPositions(t, i, j);
      SameDateSameRow(s, t[i], t[j]);
    }
  }

  /** The first row of a sorted sequence is no later than any of its rows. */
  lemma SortedFirst(s: seq<Receipts.DailyReceipt>, x: Receipts.DailyReceipt)
    requires Sorted(s) && x in s
    ensures NotAfter(s[0].date, x.date)
  {
    var k :| 0 <= k < |s| && s[k] == x;
  }

  lemma SortedHeads(s: seq<Receipts.DailyReceipt>, t: seq<Receipts.DailyReceipt>)
    requires AllLabels(s) && Sorted(s) && Sorted(t) && Receipts.DistinctDates(s)
    requires multiset(s) == multiset(t) && |s| > 0
    ensures |t| > 0 && s[0] == t[0]
  {
    assert |t| == |multiset(t)| == |s|;
    assert t[0] in multiset(s) && s[0] in multiset(t);
    SortedFirst(s, t[0]);
    SortedFirst(t, s[0]);
    var k :| 0 <= k < |s| && s[k] == t[0];
    Labels.SameLabelIffSameKey(s[0].date, s[k].date);
    SameDateSameRow(s, s[0], t[0]);
  }

  lemma SortedDrop(s: seq<Receipts.DailyReceipt>)
    requires |s| > 0 && Sorted(s)
    ensures Sorted(s[1..])
  {
    forall i, j | 0 <= i < j < |s| - 1 ensures NotAfter(s[1..][i].date, s[1..][j].date) {
      assert s[1..][i] == s[i + 1] && s[1..][j] == s[j + 1];
    }
  }

  lemma SortedTail(s: seq<Receipts.DailyReceipt>)
    requires |s| > 0 && AllLabels(s) && Sorted(s) && Receipts.DistinctDates(s)
    ensures AllLabels(s[1..]) && Sorted(s[1..]) && Receipts.DistinctDates(s[1..])
  {
    SortedDrop(s);
    forall i | 0 <= i < |s| - 1 ensures Labels.IsLabel(s[1..][i].date) {
      assert s[1..][i] == s[i + 1];
    }
    forall i, j | 0 <= i < j < |s| - 1 ensures s[1..][i].date != s[1..][j].date {
      assert s[1..][i] == s[i + 1] && s[1..][j] == s[j + 1];
    }
  }

  lemma MultisetTail(s: seq<Receipts.DailyReceipt>)
    requires |s| > 0
    ensures multiset(s[1..]) == multiset(s) - multiset{s[0]}
  {
    assert s == [s[0]] + s[1..];
    assert multiset(s) == multiset{s[0]} + multiset(s[1..]);
  }

  /** Rows with distinct labels have exactly one ascending arrangement: the sorted
      result does not depend on the order the query returned its rows in. */
  lemma {:induction false} SortedUnique(s: seq<Receipts.DailyReceipt>, t: seq<Receipts.DailyReceipt>)
    requires AllLabels(s) && Sorted(s) && Sorted(t) && Receipts.DistinctDates(s)
    requires multiset(s) == multiset(t)
    ensures s == t
  {
    if |s| == 0 {
      assert |t| == |multiset(t)| == 0;
    } else {
      SortedHeads(s, t);
      SortedTail(s);
      SortedDrop(t);
      MultisetTail(s);
      MultisetTail(t);
      SortedUnique(s[1..], t[1..]);
      assert s == [s[0]] + s[1..] && t == [t[0]] + t[1..];
    }
  }
}
