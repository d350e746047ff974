/**
  The "DD/MM" day labels: Postgres' TO_CHAR(createdAt, 'DD/MM') produces them,
  and the sort comparator reads them back with split("/").map(Number).
*/
module Labels {
  import opened Wrappers
  import Calendar

  datatype DayMonth = DayMonth(day: int, month: int)

  predicate IsDigit(c: char)
  {
    '0' <= c <= '9'
  }

  function DigitChar(n: int): (c: char)
    requires 0 <= n <= 9
    ensures IsDigit(c)
  {
    ('0' as int + n) as char
  }

  function DigitValue(c: char): (n: int)
    requires IsDigit(c)
    ensures 0 <= n <= 9
  {
    c as int - '0' as int
  }

  /** A number below 100 written with two digits, zero-padded. */
  function TwoDigits(n: int): string
    requires 0 <= n <= 99
  {
    [DigitChar(n / 10), DigitChar(n % 10)]
  }

  /** TO_CHAR's 'DD/MM' pattern applied to a day of month and a month. */
  function Format(dm: DayMonth): (s: string)
    requires 0 <= dm.day <= 99 && 0 <= dm.month <= 99
    ensures |s| == 5 && s[2] == '/'
  {
    TwoDigits(dm.day) + "/" + TwoDigits(dm.month)
  }

  /** The comparator's `split("/").map(Number)` on a label of the form "DD/MM";
      None for text of any other form. */
  function Parse(s: string): (r: Option<DayMonth>)
    ensures r.Some? ==> |s| == 5 && s[2] == '/'
    ensures r.Some? ==> 0 <= r.value.day <= 99 && 0 <= r.value.month <= 99
  {
    if |s| == 5 && IsDigit(s[0]) && IsDigit(s[1]) && s[2] == '/' && IsDigit(s[3]) && IsDigit(s[4]) then
      Some(DayMonth(10 * DigitValue(s[0]) + DigitValue(s[1]), 10 * DigitValue(s[3]) + DigitValue(s[4])))
    else
      None
  }

  /** A label TO_CHAR can produce: a day 1 .. 31 and a month 1 .. 12. */
  predicate IsLabel(s: string)
  {
    Parse(s).Some? && 1 <= Parse(s).value.day <= 31 && 1 <= Parse(s).value.month <= 12
  }

  /** The day and month a label names (0/0 for a string that is not a label). */
  function Key(s: string): DayMonth
  {
    if Parse(s).Some? then Parse(s).value else DayMonth(0, 0)
  }

  /** Parsing a zero-padded label gives back the day and month it was made from. */
  lemma ParseFormat(dm: DayMonth)
    requires 0 <= dm.day <= 99 && 0 <= dm.month <= 99
    ensures Parse(Format(dm)) == Some(dm)
  {
    var s := Format(dm);
    assert s[0] == DigitChar(dm.day / 10) && s[1] == DigitChar(dm.day % 10);
    assert s[3] == DigitChar(dm.month / 10) && s[4] == DigitChar(dm.month % 10);
  }

  /** Formatting what a label parses to writes the label again. */
  lemma FormatParse(s: string)
    requires Parse(s).Some?
    ensures Format(Parse(s).value) == s
  {
    var dm := Parse(s).value;
    assert dm.day / 10 == DigitValue(s[0]) && dm.day % 10 == DigitValue(s[1]);
    assert dm.month / 10 == DigitValue(s[3]) && dm.month % 10 == DigitValue(s[4]);
    assert Format(dm) == [s[0], s[1], '/', s[3], s[4]];
  }

  /** Two labels are the same text exactly when they name the same day and month. */
  lemma SameLabelIffSameKey(a: string, b: string)
    requires Parse(a).Some? && Parse(b).Some?
    ensures a == b <==> Key(a) == Key(b)
  {
    if Key(a) == Key(b) {
      FormatParse(a);
      FormatParse(b);
    }
  }

  /** TO_CHAR(createdAt, 'DD/MM'): the day label of an instant, read in UTC. */
  function LabelOf(t: int): (s: string)
    ensures IsLabel(s)
    ensures var d := Calendar.CivilFromDays(Calendar.DayNumber(t)); Key(s) == DayMonth(d.day, d.month)
  {
    var d := Calendar.CivilFromDays(Calendar.DayNumber(t));
    ParseFormat(DayMonth(d.day, d.month));
    Format(DayMonth(d.day, d.month))
  }
}
