/**
  The date window of a request (the route handler's lines 14-24): default bounds
  for the optional `from`/`to` query parameters, and the test that rejects a
  window longer than seven whole days.
*/
module Period {
  import opened Wrappers
  import Calendar

  /** A missing `from` lies this many days before now; a missing `to` this many days
      after `from`, when `from` is given. */
  const DefaultDays: int := 7
  /** The longest window, in whole days, that is accepted. */
  const MaxSpanDays: int := 7

  const InvalidPeriodStatus: int := 400
  const InvalidPeriodCode: string := "INVALID_PERIOD"
  const InvalidPeriodMessage: string := "The interval of date cant be above 7 days"

  /** The resolved bounds; `start` may lie after `end`, nothing orders them. */
  datatype Window = Window(start: int, end: int)

  /** A query parameter as the handler tests it (`from ? … : …`): JavaScript
      truthiness, so an empty string counts as absent. `parse` stands for dayjs(text). */
  function Bound(raw: Option<string>, parse: string -> int): Option<int>
  {
    if raw.Some? && raw.value != "" then Some(parse(raw.value)) else None
  }

  /** Lines 14-15. `startNow` and `endNow` are the two readings of the clock
      (dayjs()) the two lines take; only a request without `from` takes them. */
  function Resolve(from: Option<int>, to: Option<int>, startNow: int, endNow: int): Window
  {
    var start := if from.Some? then from.value else startNow - DefaultDays * Calendar.MsPerDay;
    var end := if to.Some? then to.value else if from.Some? then start + DefaultDays * Calendar.MsPerDay else endNow;
    Window(start, end)
  }

  /** dayjs `later.diff(earlier, "days")`: the difference in whole days, truncated toward zero. */
  function DiffInDays(later: int, earlier: int): (d: int)
    ensures later >= earlier ==> 0 <= d * Calendar.MsPerDay <= later - earlier < (d + 1) * Calendar.MsPerDay
    ensures later < earlier ==> 0 <= -d * Calendar.MsPerDay <= earlier - later < (-d + 1) * Calendar.MsPerDay
  {
    if later >= earlier then (later - earlier) / Calendar.MsPerDay
    else -((earlier - later) / Calendar.MsPerDay)
  }

  function Span(w: Window): int
  {
    DiffInDays(w.end, w.start)
  }

  /** Line 17: the request is answered with 400 INVALID_PERIOD. */
  predicate Rejected(w: Window)
  {
    Span(w) > MaxSpanDays
  }

  /** The window is rejected exactly when its end is eight days or more after its start. */
  lemma RejectedIff(w: Window)
    ensures Rejected(w) <==> w.end - w.start >= 8 * Calendar.MsPerDay
  {
    if w.end >= w.start {
      var d := Span(w);
      if w.end - w.start >= 8 * Calendar.MsPerDay {
        assert (d + 1) * Calendar.MsPerDay > 8 * Calendar.MsPerDay;
      } else {
        assert d * Calendar.MsPerDay < 8 * Calendar.MsPerDay;
      }
    }
  }

  /** A span of exactly seven days, or of seven days and a fraction, is accepted. */
  lemma SevenDaysAccepted(w: Window)
    requires 7 * Calendar.MsPerDay <= w.end - w.start < 8 * Calendar.MsPerDay
    ensures Span(w) == MaxSpanDays && !Rejected(w)
  {
    var d := Span(w);
    assert d * Calendar.MsPerDay < 8 * Calendar.MsPerDay;
    assert (d + 1) * Calendar.MsPerDay > 7 * Calendar.MsPerDay;
  }

  /** No ordering check: a window whose end precedes its start is accepted. */
  lemma ReversedAccepted(w: Window)
    requires w.end <= w.start
    ensures Span(w) <= 0 && !Rejected(w)
  {
  }

  /** Without `from` and `to` the window runs from seven days before the first
      clock reading to the second reading; read at one instant, that is the last
      seven days, and it is accepted while the two readings lie less than a day apart. */
  lemma DefaultWindow(startNow: int, endNow: int)
    ensures Resolve(None, None, startNow, endNow) == Window(startNow - 7 * Calendar.MsPerDay, endNow)
    ensures startNow <= endNow < startNow + Calendar.MsPerDay ==>
      Span(Resolve(None, None, startNow, endNow)) == 7 && !Rejected(Resolve(None, None, startNow, endNow))
  {
    if startNow <= endNow < startNow + Calendar.MsPerDay {
      SevenDaysAccepted(Resolve(None, None, startNow, endNow));
    }
  }

  /** With `from` and without `to` the window is exactly seven days from `from`
      and is never rejected. */
  lemma FromOnlyWindow(from: int, startNow: int, endNow: int)
    ensures Resolve(Some(from), None, startNow, endNow) == Window(from, from + 7 * Calendar.MsPerDay)
    ensures Span(Resolve(Some(from), None, startNow, endNow)) == 7
    ensures !Rejected(Resolve(Some(from), None, startNow, endNow))
  {
    SevenDaysAccepted(Resolve(Some(from), None, startNow, endNow));
  }

  /** With `to` and without `from` the window starts seven days before the clock reading. */
  lemma ToOnlyWindow(to: int, startNow: int, endNow: int)
    ensures Resolve(None, Some(to), startNow, endNow) == Window(startNow - 7 * Calendar.MsPerDay, to)
  {
  }

  /** Orders are then filtered from the start of the first day to the end of the
      last (lines 35-36). Because the span is truncated, an accepted window reaches
      over at most nine calendar days, one more than "7 days" suggests. */
  lemma AcceptedWindowDays(w: Window)
    requires !Rejected(w)
    ensures Calendar.DayNumber(w.end) - Calendar.DayNumber(w.start) <= 8
    ensures Calendar.EndOfDay(w.end) - Calendar.StartOfDay(w.start) < 9 * Calendar.MsPerDay
  {
    RejectedIff(w);
    var s, e := Calendar.DayNumber(w.start), Calendar.DayNumber(w.end);
    assert s * Calendar.MsPerDay <= w.start;
    assert w.end < (e + 1) * Calendar.MsPerDay;
    assert e * Calendar.MsPerDay <= w.end;
    assert (e - s) * Calendar.MsPerDay < 9 * Calendar.MsPerDay;
  }

  /** The nine days are reached: from the last millisecond of one day to a window
      of seven days and nearly a whole day later. */
  lemma NineDaysReached()
    ensures var w := Window(Calendar.MsPerDay - 1, 9 * Calendar.MsPerDay - 2);
      !Rejected(w) && Calendar.DayNumber(w.end) - Calendar.DayNumber(w.start) == 8
  {
    SevenDaysAccepted(Window(Calendar.MsPerDay - 1, 9 * Calendar.MsPerDay - 2));
  }
}
