/**
  Instants and calendar days, as the handler sees them through dayjs, Postgres'
  TO_CHAR and the JavaScript Date constructor.

  An instant is a whole number of milliseconds since 1970-01-01T00:00:00.000,
  read in UTC: every day is exactly MsPerDay long. A day number counts days
  since 1970-01-01 (negative before it). The conversion between day numbers
  and proleptic Gregorian dates is the usual era-based one.
*/
module Calendar {
  const MsPerDay: int := 86_400_000

  datatype Date = Date(year: int, month: int, day: int)

  /** The day an instant falls on. Dafny's division floors for a positive divisor. */
  function DayNumber(t: int): int
  {
    t / MsPerDay
  }

  /** dayjs startOf("day"): midnight at the start of the instant's day. */
  function StartOfDay(t: int): (r: int)
    ensures r <= t < r + MsPerDay
    ensures r % MsPerDay == 0
    ensures DayNumber(r) == DayNumber(t)
  {
    DayNumber(t) * MsPerDay
  }

  /** dayjs endOf("day"): 23:59:59.999 of the instant's day. */
  function EndOfDay(t: int): (r: int)
    ensures t <= r < t + MsPerDay
    ensures DayNumber(r) == DayNumber(t)
    ensures DayNumber(r + 1) == DayNumber(t) + 1
  {
    StartOfDay(t) + MsPerDay - 1
  }

  /** An instant is at or after the start of a day exactly when it falls on that
      day or a later one. */
  lemma StartOfDayIff(s: int, t: int)
    ensures StartOfDay(s) <= t <==> DayNumber(s) <= DayNumber(t)
  {
    var d, e := DayNumber(s), DayNumber(t);
    assert e * MsPerDay <= t < (e + 1) * MsPerDay;
    if d <= e {
      assert d * MsPerDay <= e * MsPerDay;
    } else {
      assert (e + 1) * MsPerDay <= d * MsPerDay;
    }
  }

  /** An instant is at or before the end of a day exactly when it falls on that
      day or an earlier one. */
  lemma EndOfDayIff(s: int, t: int)
    ensures t <= EndOfDay(s) <==> DayNumber(t) <= DayNumber(s)
  {
    var d, e := DayNumber(s), DayNumber(t);
    assert e * MsPerDay <= t < (e + 1) * MsPerDay;
    if e <= d {
      assert (e + 1) * MsPerDay <= (d + 1) * MsPerDay;
    } else {
      assert (d + 1) * MsPerDay <= e * MsPerDay;
    }
  }

  /** The Gregorian leap rule. */
  predicate IsLeapYear(year: int)
  {
    year % 4 == 0 && (year % 100 != 0 || year % 400 == 0)
  }

  function DaysInMonth(year: int, month: int): int
    requires 1 <= month <= 12
  {
    if month == 2 then (if IsLeapYear(year) then 29 else 28)
    else if month == 4 || month == 6 || month == 9 || month == 11 then 30
    else 31
  }

  /** A date of the proleptic Gregorian calendar. */
  predicate ValidDate(d: Date)
  {
    1 <= d.month <= 12 && 1 <= d.day <= DaysInMonth(d.year, d.month)
  }

  /** Years since the start of a 400-year era, for a day of that era (0 .. 146096).
      Eras and their years begin on 1 March. */
  function YearOfEra(doe: int): int
    requires 0 <= doe < 146097
  {
    (doe - doe / 1460 + doe / 36524 - doe / 146096) / 365
  }

  /** Days from the start of an era to the start (1 March) of its year `yoe`. */
  function YearStart(yoe: int): int
  {
    365 * yoe + yoe / 4 - yoe / 100
  }

  /** Year `yoe` of an era runs from 1 March to the end of February of year `yoe + 1`. */
  function YearLength(yoe: int): int
  {
    if IsLeapYear(yoe + 1) then 366 else 365
  }

  /** The year-of-era formula on day `s` of four-year cycle `q` of century `c` of an
      era: the cycle's leap day belongs to its last year. */
  lemma CycleYearOfEra(c: int, q: int, s: int, doe: int)
    requires 0 <= c < 4 && 0 <= q < 25 && 0 <= s < 1461 && (q == 24 ==> s < 1460)
    requires doe == 36524 * c + 1461 * q + s
    ensures YearOfEra(doe) == 100 * c + 4 * q + (if s < 1460 then s / 365 else 3)
  {
    assert doe / 36524 == c && doe / 146096 == 0;
    var k := if 24 * c + q + s >= 1460 then 1 else 0;
    assert 1460 * (25 * c + q + k) <= doe < 1460 * (25 * c + q + k + 1);
    assert doe / 1460 == 25 * c + q + k;
    assert (s - k) / 365 == (if s < 1460 then s / 365 else 3);
    assert doe - doe / 1460 + doe / 36524 - doe / 146096 == 365 * (100 * c + 4 * q) + (s - k);
  }

  /** Year `j` of four-year cycle `q` of century `c` starts after the cycle's earlier
      years, the earlier cycles and the earlier centuries; of those years only the
      last of a cycle that does not end a century is a leap year. */
  lemma CycleYearStart(c: int, q: int, j: int, yoe: int)
    requires 0 <= c < 4 && 0 <= q < 25 && 0 <= j < 4 && yoe == 100 * c + 4 * q + j
    ensures YearStart(yoe) == 36524 * c + 1461 * q + 365 * j
    ensures YearLength(yoe) == if j == 3 && (q < 24 || c == 3) then 366 else 365
  {
    assert yoe / 4 == 25 * c + q && yoe / 100 == c;
    var next := yoe + 1;
    if j == 3 {
      assert next == 4 * (25 * c + q + 1);
      Remainder4(25 * c + q + 1, 0);
      if q < 24 {
        Remainder100(c, 4 * q + 4);
      } else {
        Remainder100(c + 1, 0);
        if c < 3 {
          Remainder400(0, 100 * c + 100);
        } else {
          Remainder400(1, 0);
        }
      }
    } else {
      Remainder4(25 * c + q, j + 1);
    }
  }

  /** Day `s` of four-year cycle `q` of century `c` of an era lies inside the year the
      year-of-era formula gives it. */
  lemma CycleYear(c: int, q: int, s: int, doe: int)
    requires 0 <= c < 4 && 0 <= q < 25 && 0 <= s < 1461 && (q == 24 ==> s < 1460)
    requires doe == 36524 * c + 1461 * q + s
    ensures 0 <= YearOfEra(doe) < 400
    ensures YearStart(YearOfEra(doe)) <= doe < YearStart(YearOfEra(doe)) + YearLength(YearOfEra(doe))
  {
    CycleYearOfEra(c, q, s, doe);
    var j := if s < 1460 then s / 365 else 3;
    CycleYearStart(c, q, j, YearOfEra(doe));
  }

  /** Every day of an era lies in the year the year-of-era formula gives it. */
  lemma YearOfEraSplit(doe: int)
    requires 0 <= doe < 146097
    ensures 0 <= YearOfEra(doe) < 400
    ensures YearStart(YearOfEra(doe)) <= doe < YearStart(YearOfEra(doe)) + YearLength(YearOfEra(doe))
  {
    if doe == 146096 {
      assert YearOfEra(doe) == 399;
      CycleYearStart(3, 24, 3, 399);
    } else {
      var c := doe / 36524;
      var q := (doe - 36524 * c) / 1461;
      CycleYear(c, q, doe - 36524 * c - 1461 * q, doe);
    }
  }

  /** The year after year `y` of an era starts where year `y` ends. */
  lemma YearStep(y: int)
    requires 0 <= y < 399
    ensures YearStart(y + 1) == YearStart(y) + YearLength(y)
  {
    var c := y / 100;
    var q := (y - 100 * c) / 4;
    var j := y - 100 * c - 4 * q;
    assert 0 <= c < 4 && 0 <= q < 25 && 0 <= j < 4;
    CycleYearStart(c, q, j, y);
    if j < 3 {
      CycleYearStart(c, q, j + 1, y + 1);
    } else if q < 24 {
      CycleYearStart(c, q + 1, 0, y + 1);
    } else {
      CycleYearStart(c + 1, 0, 0, y + 1);
    }
  }

  /** Later years of an era start later. */
  lemma YearStartMonotone(a: int, b: int)
    requires 0 <= a <= b
    ensures YearStart(a) <= YearStart(b)
  {
    assert 4 * (a / 4) <= a && b < 4 * (b / 4) + 4;
    assert a < 100 * (a / 100) + 100 && 100 * (b / 100) <= b;
  }

  /** Years of an era follow one another without gaps or overlaps. */
  lemma YearsOrdered(y1: int, y2: int)
    requires 0 <= y1 < 400 && 0 <= y2 < 400
    ensures y1 < y2 ==> YearStart(y1) + YearLength(y1) <= YearStart(y2)
    ensures YearStart(y1) + YearLength(y1) <= 146097
  {
    if y1 < 399 {
      YearStep(y1);
      YearStartMonotone(y1 + 1, if y1 < y2 then y2 else 399);
      assert YearStart(399) == 145731;
    } else {
      assert YearStart(399) + YearLength(399) == 146097 by {
        CycleYearStart(3, 24, 3, 399);
        Remainder400(1, 0);
      }
    }
  }

  lemma Remainder4(q: int, r: int)
    requires 0 <= r < 4
    ensures (4 * q + r) % 4 == r
  {
  }

  lemma Remainder100(q: int, r: int)
    requires 0 <= r < 100
    ensures (100 * q + r) % 100 == r
  {
  }

  lemma Remainder400(q: int, r: int)
    requires 0 <= r < 400
    ensures (400 * q + r) % 400 == r
  {
  }

  /** The leap rule repeats every 400 years. */
  lemma LeapShift(year: int, era: int)
    ensures IsLeapYear(year + 400 * era) == IsLeapYear(year)
  {
    Remainder4(year / 4 + 100 * era, year % 4);
    Remainder100(year / 100 + 4 * era, year % 100);
    Remainder400(year / 400 + era, year % 400);
    assert year + 400 * era == 4 * (year / 4 + 100 * era) + year % 4;
    assert year + 400 * era == 100 * (year / 100 + 4 * era) + year % 100;
    assert year + 400 * era == 400 * (year / 400 + era) + year % 400;
  }

  /** Day of a March-based year (0 is 1 March). */
  function DayOfYear(doe: int): (doy: int)
    requires 0 <= doe < 146097
    ensures 0 <= YearOfEra(doe) < 400
    ensures 0 <= doy < YearLength(YearOfEra(doe))
  {
    YearOfEraSplit(doe);
    doe - YearStart(YearOfEra(doe))
  }

  /** Days from 1 March to the first day of March-based month `mp` (0 is March, 11 is February). */
  function MonthStart(mp: int): int
  {
    (153 * mp + 2) / 5
  }

  /** The calendar month (1 .. 12) of March-based month `mp`. */
  function MonthOf(mp: int): int
  {
    if mp < 10 then mp + 3 else mp - 9
  }

  /** The March-based month of calendar month `month`. */
  function MarchMonth(month: int): int
  {
    if month > 2 then month - 3 else month + 9
  }

  /** Every March-based month but February runs up to the start of the next one, and
      has the length of its calendar month. */
  lemma MonthLength(mp: int, year: int)
    requires 0 <= mp < 12
    ensures 1 <= MonthOf(mp) <= 12 && MarchMonth(MonthOf(mp)) == mp
    ensures (MonthOf(mp) <= 2) == (mp >= 10)
    ensures mp < 11 ==> MonthStart(mp + 1) - MonthStart(mp) == DaysInMonth(year, MonthOf(mp))
    ensures MonthStart(11) == 337
  {
  }

  function ShiftedMonth(doy: int): (mp: int)
    requires 0 <= doy <= 365
    ensures 0 <= mp < 12
    ensures MonthStart(mp) <= doy
    ensures mp < 11 ==> doy < MonthStart(mp + 1)
  {
    (5 * doy + 2) / 153
  }

  /** The calendar date of a day number. */
  function CivilFromDays(n: int): (d: Date)
    ensures ValidDate(d)
  {
    var z := n + 719468;
    DateInEra(z / 146097, z % 146097)
  }

  /** The date of day `doe` of era `era` (eras are 400-year cycles from 1 March 0000). */
  function DateInEra(era: int, doe: int): (d: Date)
    requires 0 <= doe < 146097
    ensures ValidDate(d)
  {
    var yoe := YearOfEra(doe);
    var doy := DayOfYear(doe);
    var mp := ShiftedMonth(doy);
    var month := MonthOf(mp);
    var year := yoe + era * 400 + (if month <= 2 then 1 else 0);
    DayInMonth(era, yoe, doy, mp, year);
    Date(year, month, doy - MonthStart(mp) + 1)
  }

  /** Day `doy` of year `yoe` of era `era`, lying in March-based month `mp`, is a day
      of that month's calendar month in the calendar year `year` it falls in. */
  lemma DayInMonth(era: int, yoe: int, doy: int, mp: int, year: int)
    requires 0 <= yoe < 400 && 0 <= doy < YearLength(yoe) && 0 <= mp < 12
    requires MonthStart(mp) <= doy && (mp < 11 ==> doy < MonthStart(mp + 1))
    requires year == yoe + era * 400 + (if MonthOf(mp) <= 2 then 1 else 0)
    ensures 1 <= MonthOf(mp) <= 12 && 1 <= doy - MonthStart(mp) + 1 <= DaysInMonth(year, MonthOf(mp))
  {
    MonthLength(mp, year);
    if mp == 11 {
      LeapShift(yoe + 1, era);
      assert year == yoe + 1 + 400 * era;
    }
  }

  /** The day number of a calendar date. */
  function DaysFromCivil(year: int, month: int, day: int): int
    requires 1 <= month <= 12
  {
    var y := if month <= 2 then year - 1 else year;
    y / 400 * 146097 + YearStart(y % 400) + MonthStart(MarchMonth(month)) + day - 1 - 719468
  }

  lemma EraSplit(y: int, era: int, yoe: int)
    requires 0 <= yoe < 400 && y == yoe + era * 400
    ensures y / 400 == era && y % 400 == yoe
  {
  }

  lemma DayNumberSplit(z: int, era: int, doe: int)
    requires 0 <= doe < 146097 && z == era * 146097 + doe
    ensures z / 146097 == era && z % 146097 == doe
  {
  }

  /** The date of era `era`, year of era `yoe`, March-based month `mp` and day `day`
      counts its days from the parts. */
  lemma DaysFromCivilParts(era: int, yoe: int, mp: int, year: int, month: int, day: int)
    requires 0 <= yoe < 400 && 0 <= mp < 12 && month == MonthOf(mp)
    requires year == yoe + era * 400 + (if month <= 2 then 1 else 0)
    ensures DaysFromCivil(year, month, day) == era * 146097 + YearStart(yoe) + MonthStart(mp) + day - 1 - 719468
  {
    MonthLength(mp, 0);
    EraSplit(if month <= 2 then year - 1 else year, era, yoe);
  }

  /** The date with the parts of day `doe` of era `era` is that day's date. */
  lemma DateInEraOf(era: int, doe: int, yoe: int, doy: int, mp: int, d: Date)
    requires 0 <= doe < 146097 && YearOfEra(doe) == yoe && DayOfYear(doe) == doy
    requires 0 <= mp < 12 && MonthStart(mp) <= doy && (mp < 11 ==> doy < MonthStart(mp + 1))
    requires d.month == MonthOf(mp) && d.day == doy - MonthStart(mp) + 1
    requires d.year == yoe + era * 400 + (if d.month <= 2 then 1 else 0)
    ensures DateInEra(era, doe) == d
  {
    ShiftedMonthOf(mp, doy);
  }

  lemma DaysFromCivilOfDateInEra(era: int, doe: int)
    requires 0 <= doe < 146097
    ensures var d := DateInEra(era, doe); DaysFromCivil(d.year, d.month, d.day) == era * 146097 + doe - 719468
  {
    var yoe := YearOfEra(doe);
    var doy := DayOfYear(doe);
    var mp := ShiftedMonth(doy);
    var month := MonthOf(mp);
    var d := Date(yoe + era * 400 + (if month <= 2 then 1 else 0), month, doy - MonthStart(mp) + 1);
    DateInEraOf(era, doe, yoe, doy, mp, d);
    DaysFromCivilParts(era, yoe, mp, d.year, d.month, d.day);
    assert doy == doe - YearStart(yoe);
  }

  /** Converting a day number to a date and back gives the day number again. */
  lemma DaysFromCivilOfCivilFromDays(n: int)
    ensures var d := CivilFromDays(n); DaysFromCivil(d.year, d.month, d.day) == n
  {
    var z := n + 719468;
    var era, doe := z / 146097, z % 146097;
    assert CivilFromDays(n) == DateInEra(era, doe);
    DaysFromCivilOfDateInEra(era, doe);
    assert era * 146097 + doe == z;
  }

  lemma CivilFromDaysInEra(n: int, era: int, doe: int)
    requires 0 <= doe < 146097 && n + 719468 == era * 146097 + doe
    ensures CivilFromDays(n) == DateInEra(era, doe)
  {
    var z := n + 719468;
    DayNumberSplit(z, era, doe);
    assert CivilFromDays(n) == DateInEra(z / 146097, z % 146097);
  }

  /** A day of March-based month `mp` is found in that month again. */
  lemma ShiftedMonthOf(mp: int, doy: int)
    requires 0 <= mp < 12 && MonthStart(mp) <= doy <= 365 && (mp < 11 ==> doy < MonthStart(mp + 1))
    ensures ShiftedMonth(doy) == mp
  {
  }

  /** Day `doy` of year `yoe` of an era, read back from its day of era. */
  lemma DateInEraOfYearDay(yoe: int, doy: int)
    requires 0 <= yoe < 400 && 0 <= doy < YearLength(yoe)
    ensures 0 <= YearStart(yoe) + doy < 146097
    ensures YearOfEra(YearStart(yoe) + doy) == yoe && DayOfYear(YearStart(yoe) + doy) == doy
  {
    var doe := YearStart(yoe) + doy;
    YearsOrdered(yoe, yoe);
    YearOfEraSplit(doe);
    var y := YearOfEra(doe);
    YearsOrdered(y, yoe);
    YearsOrdered(yoe, y);
  }

  /** The day of a valid date within its March-based year `yoe` (the calendar year
      before, for January and February). */
  lemma DayInYear(d: Date, y: int, era: int, yoe: int, mp: int)
    requires ValidDate(d) && y == (if d.month <= 2 then d.year - 1 else d.year)
    requires era == y / 400 && yoe == y % 400 && mp == MarchMonth(d.month)
    ensures 0 <= mp < 12 && MonthOf(mp) == d.month
    ensures 0 <= MonthStart(mp) + d.day - 1 < YearLength(yoe)
    ensures mp < 11 ==> MonthStart(mp) + d.day - 1 < MonthStart(mp + 1)
  {
    MonthLength(mp, d.year);
    if mp == 11 {
      LeapShift(yoe + 1, era);
      assert yoe + 1 + 400 * era == d.year;
    }
  }

  /** Converting a valid date to its day number and back gives the date again, so
      day numbers and dates correspond one to one. */
  lemma CivilFromDaysOfDaysFromCivil(d: Date)
    requires ValidDate(d)
    ensures CivilFromDays(DaysFromCivil(d.year, d.month, d.day)) == d
  {
    var y := if d.month <= 2 then d.year - 1 else d.year;
    var mp := MarchMonth(d.month);
    var era, yoe := y / 400, y % 400;
    DayInYear(d, y, era, yoe, mp);
    var doy := MonthStart(mp) + d.day - 1;
    DateInEraOfYearDay(yoe, doy);
    var doe := YearStart(yoe) + doy;
    assert y == yoe + era * 400;
    DaysFromCivilParts(era, yoe, mp, d.year, d.month, d.day);
    CivilFromDaysInEra(DaysFromCivil(d.year, d.month, d.day), era, doe);
    DateInEraOf(era, doe, yoe, doy, mp, d);
  }

  /** `new Date(year, monthIndex).getTime()` in UTC for a year of 100 or more (the
      Date constructor reads a year 0 .. 99 as 1900 + year; this function does not):
      ECMAScript's MakeDay(year, monthIndex, 1), which carries a month index outside
      0 .. 11 into the year. */
  function JsDateTime(year: int, monthIndex: int): int
  {
    var n := DaysFromCivil(year + monthIndex / 12, monthIndex % 12 + 1, 1);
    n * MsPerDay
  }

  /** For a month index 0 .. 11, `new Date(year, monthIndex)` is midnight at the
      start of the first day of that month. */
  lemma JsDateTimeMonthStart(year: int, monthIndex: int)
    requires 0 <= monthIndex < 12
    ensures StartOfDay(JsDateTime(year, monthIndex)) == JsDateTime(year, monthIndex)
    ensures CivilFromDays(DayNumber(JsDateTime(year, monthIndex))) == Date(year, monthIndex + 1, 1)
  {
    var n := DaysFromCivil(year, monthIndex + 1, 1);
    assert monthIndex / 12 == 0 && monthIndex % 12 == monthIndex;
    assert DaysFromCivil(year + monthIndex / 12, monthIndex % 12 + 1, 1) == n;
    Midnight(n);
    CivilFromDaysOfDaysFromCivil(Date(year, monthIndex + 1, 1));
  }

  /** Midnight of day `n` lies on day `n`. */
  lemma Midnight(n: int)
    ensures DayNumber(n * MsPerDay) == n && StartOfDay(n * MsPerDay) == n * MsPerDay
  {
  }
}
