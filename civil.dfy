/**
 * Calendar dates as the done-count summary handles them: the proleptic
 * Gregorian calendar of Python's `datetime`, day numbers counted from
 * 1970-01-01, and `datetime.strptime(s, "%Y-%m-%d")` on ASCII text.
 */
module Civil {
  import opened Wrappers

  datatype Date = Date(year: int, month: int, day: int)

  predicate IsLeap(y: int) {
    y % 4 == 0 && (y % 100 != 0 || y % 400 == 0)
  }

  function DaysInMonth(y: int, m: int): (n: int)
    requires 1 <= m <= 12
    ensures 28 <= n <= 31
    ensures n == 29 <==> m == 2 && IsLeap(y)
  {
    if m == 2 then (if IsLeap(y) then 29 else 28)
    else if m == 4 || m == 6 || m == 9 || m == 11 then 30
    else 31
  }

  /** A date `datetime` accepts: years 1 to 9999 and a day that exists in its month. */
  predicate Valid(d: Date) {
    1 <= d.year <= 9999 && 1 <= d.month <= 12 && 1 <= d.day <= DaysInMonth(d.year, d.month)
  }

  /** Days in the years before `y`, from 0001-01-01 on. */
  function DaysBeforeYear(y: int): int
    requires y >= 1
  {
    var p := y - 1;
    p * 365 + p / 4 - p / 100 + p / 400
  }

  /** Days in the months of year `y` before month `m`. */
  function DaysBeforeMonth(y: int, m: int): int
    requires 1 <= m <= 12
  {
    if m == 1 then 0 else DaysBeforeMonth(y, m - 1) + DaysInMonth(y, m - 1)
  }

  /** The day number of `d`: days since 1970-01-01, negative before it. */
  function DayNumber(d: Date): int
    requires Valid(d)
  {
    DaysBeforeYear(d.year) + DaysBeforeMonth(d.year, d.month) + d.day - 719163
  }

  /** The calendar day after `d`. */
  function NextDate(d: Date): (n: Date)
    requires Valid(d)
  {
    if d.day < DaysInMonth(d.year, d.month) then Date(d.year, d.month, d.day + 1)
    else if d.month < 12 then Date(d.year, d.month + 1, 1)
    else Date(d.year + 1, 1, 1)
  }

  lemma DaysBeforeDecember(y: int)
    ensures DaysBeforeMonth(y, 12) + 31 == if IsLeap(y) then 366 else 365
  {
    assert DaysBeforeMonth(y, 2) == 31;
    assert DaysBeforeMonth(y, 3) == 31 + DaysInMonth(y, 2);
    assert DaysBeforeMonth(y, 4) == DaysBeforeMonth(y, 3) + 31;
    assert DaysBeforeMonth(y, 5) == DaysBeforeMonth(y, 4) + 30;
    assert DaysBeforeMonth(y, 6) == DaysBeforeMonth(y, 5) + 31;
    assert DaysBeforeMonth(y, 7) == DaysBeforeMonth(y, 6) + 30;
    assert DaysBeforeMonth(y, 8) == DaysBeforeMonth(y, 7) + 31;
    assert DaysBeforeMonth(y, 9) == DaysBeforeMonth(y, 8) + 31;
    assert DaysBeforeMonth(y, 10) == DaysBeforeMonth(y, 9) + 30;
    assert DaysBeforeMonth(y, 11) == DaysBeforeMonth(y, 10) + 31;
    assert DaysBeforeMonth(y, 12) == DaysBeforeMonth(y, 11) + 30;
  }

  lemma DaysInYear(y: int)
    requires y >= 1
    ensures DaysBeforeYear(y + 1) == DaysBeforeYear(y) + if IsLeap(y) then 366 else 365
  {
    var p := y - 1;
    assert (p + 1) / 4 == p / 4 + (if y % 4 == 0 then 1 else 0);
    assert (p + 1) / 100 == p / 100 + (if y % 100 == 0 then 1 else 0);
    assert (p + 1) / 400 == p / 400 + (if y % 400 == 0 then 1 else 0);
  }

  /** Day numbers follow the calendar: the next date has the next day number. */
  lemma NextDateNumber(d: Date)
    requires Valid(d) && d != Date(9999, 12, 31)
    ensures Valid(NextDate(d)) && DayNumber(NextDate(d)) == DayNumber(d) + 1
  {
    if d.day == DaysInMonth(d.year, d.month) && d.month == 12 {
      DaysInYear(d.year);
      DaysBeforeDecember(d.year);
    }
  }

  lemma {:induction false} DaysBeforeMonthMono(y: int, m: int, m2: int)
    requires 1 <= m <= m2 <= 12
    ensures DaysBeforeMonth(y, m) <= DaysBeforeMonth(y, m2)
    decreases m2
  {
    if m < m2 {
      DaysBeforeMonthMono(y, m, m2 - 1);
    }
  }

  /** The day of the year of `d` lies within its year, and only 31 December is its last day. */
  lemma DayOfYearBound(d: Date)
    requires Valid(d)
    ensures 1 <= DaysBeforeMonth(d.year, d.month) + d.day <= DaysBeforeMonth(d.year, 12) + 31
    ensures d.month != 12 || d.day != 31 ==> DaysBeforeMonth(d.year, d.month) + d.day < DaysBeforeMonth(d.year, 12) + 31
  {
    DaysBeforeMonthMono(d.year, 1, d.month);
    if d.month < 12 {
      DaysBeforeMonthMono(d.year, d.month + 1, 12);
    }
  }

  lemma {:induction false} DaysBeforeYearMono(y: int, y2: int)
    requires 1 <= y <= y2
    ensures DaysBeforeYear(y) <= DaysBeforeYear(y2)
    decreases y2 - y
  {
    if y < y2 {
      DaysInYear(y);
      DaysBeforeYearMono(y + 1, y2);
    }
  }

  /** Every valid date other than 0001-01-01 comes after it. */
  lemma DayNumberAfterFirst(d: Date)
    requires Valid(d) && d != Date(1, 1, 1)
    ensures DayNumber(d) > DayNumber(Date(1, 1, 1))
  {
    DayOfYearBound(d);
    if d.month > 1 {
      DaysBeforeMonthMono(d.year, 2, d.month);
    }
    if d.year > 1 {
      DaysBeforeYearMono(2, d.year);
    }
  }

  /** Every valid date other than 9999-12-31 comes before it. */
  lemma DayNumberBeforeLast(d: Date)
    requires Valid(d) && d != Date(9999, 12, 31)
    ensures DayNumber(d) < DayNumber(Date(9999, 12, 31))
  {
    DayOfYearBound(d);
    DaysBeforeMonthMono(9999, 1, 12);
    if d.year < 9999 {
      DaysInYear(d.year);
      DaysBeforeDecember(d.year);
      DaysBeforeYearMono(d.year + 1, 9999);
    }
  }

  // ---- datetime.strptime(s, "%Y-%m-%d") ----

  predicate IsDigit(c: char) {
    '0' <= c <= '9'
  }

  function Digit(c: char): int
    requires IsDigit(c)
  {
    c as int - '0' as int
  }

  /** A field the pattern matched: its value and the index just after it. */
  datatype Field = Field(value: int, end: nat)

  /**
   * `%m` is the alternation `1[0-2]|0[1-9]|[1-9]`, tried in that order and
   * followed by the literal '-'. At most one alternative is followed by '-',
   * so backtracking cannot change which one matches.
   */
  function MatchMonth(s: string, p: nat): (r: Option<Field>)
    ensures r.Some? ==> 1 <= r.value.value <= 12 && r.value.end < |s| && s[r.value.end] == '-'
  {
    if p + 2 < |s| && s[p] == '1' && '0' <= s[p + 1] <= '2' && s[p + 2] == '-' then
      Some(Field(10 + Digit(s[p + 1]), p + 2))
    else if p + 2 < |s| && s[p] == '0' && '1' <= s[p + 1] <= '9' && s[p + 2] == '-' then
      Some(Field(Digit(s[p + 1]), p + 2))
    else if p + 1 < |s| && '1' <= s[p] <= '9' && s[p + 1] == '-' then
      Some(Field(Digit(s[p]), p + 1))
    else
      None
  }

  /**
   * `%d` is the alternation `3[01]|[12]\d|0[1-9]|[1-9]| [1-9]`; it ends the
   * pattern, so the first alternative that matches is taken.
   */
  function MatchDay(s: string, p: nat): (r: Option<Field>)
    ensures r.Some? ==> 1 <= r.value.value <= 31 && p < r.value.end <= |s|
  {
    if p + 1 < |s| && s[p] == '3' && '0' <= s[p + 1] <= '1' then
      Some(Field(30 + Digit(s[p + 1]), p + 2))
    else if p + 1 < |s| && '1' <= s[p] <= '2' && IsDigit(s[p + 1]) then
      Some(Field(10 * Digit(s[p]) + Digit(s[p + 1]), p + 2))
    else if p + 1 < |s| && s[p] == '0' && '1' <= s[p + 1] <= '9' then
      Some(Field(Digit(s[p + 1]), p + 2))
    else if p < |s| && '1' <= s[p] <= '9' then
      Some(Field(Digit(s[p]), p + 1))
    else if p + 1 < |s| && s[p] == ' ' && '1' <= s[p + 1] <= '9' then
      Some(Field(Digit(s[p + 1]), p + 2))
    else
      None
  }

  /**
   * `datetime.strptime(s, "%Y-%m-%d")`: four digits, '-', a month, '-', a day;
   * `None` where it raises ValueError: no match, text left over after the day,
   * or a date that does not exist (year 0, day 31 of a 30-day month, 29 February
   * of a common year). A text it accepts is a spelling of the date it gives;
   * `ParseSpelled` shows that every spelling of a valid date is accepted.
   */
  function ParseYmd(s: string): (r: Option<Date>)
    ensures r.Some? ==> Valid(r.value) && Spells(s, r.value)
  {
    if |s| < 5 || !IsDigit(s[0]) || !IsDigit(s[1]) || !IsDigit(s[2]) || !IsDigit(s[3]) || s[4] != '-' then
      None
    else
      var y := 1000 * Digit(s[0]) + 100 * Digit(s[1]) + 10 * Digit(s[2]) + Digit(s[3]);
      match MatchMonth(s, 5)
      case None => None
      case Some(m) =>
        match MatchDay(s, m.end + 1)
        case None => None
        case Some(d) =>
          var date := Date(y, m.value, d.value);
          if d.end == |s| && Valid(date) then
            YearRead(s);
            MonthRead(s);
            DayRead(s, m.end + 1);
            assert SpellsWith(s, m.end, date);
            Some(date)
          else
            None
  }

  function DigitChar(n: int): (c: char)
    requires 0 <= n <= 9
    ensures IsDigit(c) && Digit(c) == n
  {
    ('0' as int + n) as char
  }

  lemma DigitCharOf(c: char)
    requires IsDigit(c)
    ensures DigitChar(Digit(c)) == c
  {
  }

  /** `n` as exactly two digits, zero-padded. */
  function Pad2(n: int): (s: string)
    requires 0 <= n <= 99
  {
    [DigitChar(n / 10), DigitChar(n % 10)]
  }

  /** A year as exactly four digits, zero-padded. */
  function YearText(y: int): (s: string)
    requires 0 <= y <= 9999
    ensures |s| == 4
  {
    [DigitChar(y / 10 / 10 / 10), DigitChar(y / 10 / 10 % 10), DigitChar(y / 10 % 10), DigitChar(y % 10)]
  }

  /** The canonical text `YYYY-MM-DD` of a date. */
  function Canonical(d: Date): (s: string)
    requires Valid(d)
    ensures |s| == 10
  {
    YearText(d.year) + "-" + Pad2(d.month) + "-" + Pad2(d.day)
  }

  // ---- The texts `%Y-%m-%d` reads as a given date ----

  /** How `%m` may write month `m`: two digits, or one digit for January to September. */
  predicate MonthSpelling(t: string, m: int) {
    1 <= m <= 12 && (t == Pad2(m) || (m <= 9 && t == [DigitChar(m)]))
  }

  /** How `%d` may write day `d`: two digits, or for the 1st to the 9th one digit, bare or after a space. */
  predicate DaySpelling(t: string, d: int) {
    1 <= d <= 31 && (t == Pad2(d) || (d <= 9 && (t == [DigitChar(d)] || t == [' ', DigitChar(d)])))
  }

  /** `s` writes the month and day of `d`, the '-' after the month being at index `k`. */
  predicate SpellsWith(s: string, k: nat, d: Date) {
    5 <= k < |s| && s[k] == '-' && MonthSpelling(s[5..k], d.month) && DaySpelling(s[k + 1..], d.day)
  }

  /** `s` is the year of `d` in four digits, '-', a spelling of its month, '-', a spelling of its day, and nothing else. */
  predicate Spells(s: string, d: Date) {
    0 <= d.year <= 9999 && |s| >= 5 && s[..4] == YearText(d.year) && s[4] == '-' &&
    (SpellsWith(s, 6, d) || SpellsWith(s, 7, d))
  }

  /** Four digits read as a year are that year's four-digit text. */
  lemma YearRead(s: string)
    requires |s| >= 4 && IsDigit(s[0]) && IsDigit(s[1]) && IsDigit(s[2]) && IsDigit(s[3])
    ensures var y := 1000 * Digit(s[0]) + 100 * Digit(s[1]) + 10 * Digit(s[2]) + Digit(s[3]);
      0 <= y <= 9999 && YearText(y) == s[..4]
  {
    var y := 1000 * Digit(s[0]) + 100 * Digit(s[1]) + 10 * Digit(s[2]) + Digit(s[3]);
    assert y / 10 == 100 * Digit(s[0]) + 10 * Digit(s[1]) + Digit(s[2]);
    assert y / 10 / 10 == 10 * Digit(s[0]) + Digit(s[1]);
    assert y / 10 / 10 / 10 == Digit(s[0]);
    DigitCharOf(s[0]);
    DigitCharOf(s[1]);
    DigitCharOf(s[2]);
    DigitCharOf(s[3]);
  }

  /** The four-digit text of a year reads back as that year. */
  lemma YearOfText(s: string, y: int)
    requires 0 <= y <= 9999 && |s| >= 4 && s[..4] == YearText(y)
    ensures IsDigit(s[0]) && IsDigit(s[1]) && IsDigit(s[2]) && IsDigit(s[3])
    ensures 1000 * Digit(s[0]) + 100 * Digit(s[1]) + 10 * Digit(s[2]) + Digit(s[3]) == y
  {
    assert s[0] == YearText(y)[0] && s[1] == YearText(y)[1] && s[2] == YearText(y)[2] && s[3] == YearText(y)[3];
    var q := y / 10;
    var r := q / 10;
    assert y == 10 * q + y % 10;
    assert q == 10 * r + q % 10;
    assert r == 10 * (r / 10) + r % 10;
  }

  /** The month `%m` matches is written by one of its spellings, ending at index 6 or 7. */
  lemma MonthRead(s: string)
    requires MatchMonth(s, 5).Some?
    ensures var f := MatchMonth(s, 5).value;
      6 <= f.end <= 7 && MonthSpelling(s[5..f.end], f.value)
  {
    var f := MatchMonth(s, 5).value;
    if f.end == 7 {
      DigitCharOf(s[5]);
      DigitCharOf(s[6]);
      assert s[5..7] == [s[5], s[6]];
    } else {
      DigitCharOf(s[5]);
      assert s[5..6] == [s[5]];
    }
  }

  /** Every spelling of a month, followed by '-', is matched by `%m`. */
  lemma MonthOfSpelling(s: string, k: nat, m: int)
    requires 5 <= k < |s| && s[k] == '-' && MonthSpelling(s[5..k], m)
    ensures MatchMonth(s, 5) == Some(Field(m, k))
  {
    if s[5..k] == Pad2(m) {
      assert k == 7 && s[5] == DigitChar(m / 10) && s[6] == DigitChar(m % 10);
    } else {
      assert k == 6 && s[5] == DigitChar(m);
    }
  }

  /** The day `%d` matches, when it ends the text, is written by one of its spellings. */
  lemma DayRead(s: string, p: nat)
    requires MatchDay(s, p).Some? && MatchDay(s, p).value.end == |s|
    ensures DaySpelling(s[p..], MatchDay(s, p).value.value)
  {
    if p + 1 < |s| {
      DigitCharOf(s[p + 1]);
      if IsDigit(s[p]) { DigitCharOf(s[p]); }
      assert s[p..] == [s[p], s[p + 1]];
    } else {
      DigitCharOf(s[p]);
      assert s[p..] == [s[p]];
    }
  }

  /** Every spelling of a day that ends the text is matched by `%d` up to the end. */
  lemma DayOfSpelling(s: string, p: nat, d: int)
    requires p <= |s| && DaySpelling(s[p..], d)
    ensures MatchDay(s, p) == Some(Field(d, |s|))
  {
    if s[p..] == Pad2(d) {
      assert s[p] == DigitChar(d / 10) && s[p + 1] == DigitChar(d % 10);
    } else if s[p..] == [DigitChar(d)] {
      assert s[p] == DigitChar(d);
    } else {
      assert s[p] == ' ' && s[p + 1] == DigitChar(d);
    }
  }

  /** `strptime(s, "%Y-%m-%d")` gives `d` exactly when `d` is a real date and `s` is one of its spellings. */
  lemma ParseSpelled(s: string, d: Date)
    ensures ParseYmd(s) == Some(d) <==> Valid(d) && Spells(s, d)
  {
    if Valid(d) && Spells(s, d) {
      var k := if SpellsWith(s, 6, d) then 6 else 7;
      YearOfText(s, d.year);
      MonthOfSpelling(s, k, d.month);
      DayOfSpelling(s, k + 1, d.day);
    }
  }

  /** Parsing the canonical text of a date gives that date back. */
  lemma ParseCanonical(d: Date)
    requires Valid(d)
    ensures ParseYmd(Canonical(d)) == Some(d)
  {
    var s := Canonical(d);
    assert s[..4] == YearText(d.year) && s[5..7] == Pad2(d.month) && s[8..] == Pad2(d.day);
    assert SpellsWith(s, 7, d);
    ParseSpelled(s, d);
  }

  /** strptime is lenient: a single-digit month and day, and a space-padded day, are accepted. */
  lemma LenientForms()
    ensures ParseYmd("2025-1-5") == Some(Date(2025, 1, 5))
    ensures ParseYmd("2025-01- 5") == Some(Date(2025, 1, 5))
  {
    assert MatchMonth("2025-1-5", 5) == Some(Field(1, 6));
    assert MatchMonth("2025-01- 5", 5) == Some(Field(1, 7));
  }

  /** A single-digit field may stand beside a two-digit one. */
  lemma MixedWidthForms()
    ensures ParseYmd("2025-1-15") == Some(Date(2025, 1, 15))
    ensures ParseYmd("2025-10-5") == Some(Date(2025, 10, 5))
  {
    assert MatchMonth("2025-1-15", 5) == Some(Field(1, 6));
    assert MatchMonth("2025-10-5", 5) == Some(Field(10, 7));
  }

  /** Text that is not a date, or names a day that does not exist, is refused. */
  lemma RefusedForms()
    ensures ParseYmd("invalid-date") == None
    ensures ParseYmd("2025-02-29") == None
    ensures ParseYmd("0000-01-01") == None
    ensures ParseYmd("2025-01-011") == None
    ensures ParseYmd("2025/01/01") == None
  {
    assert MatchMonth("2025-02-29", 5) == Some(Field(2, 7));
    assert MatchDay("2025-02-29", 8) == Some(Field(29, 10));
    assert !IsLeap(2025);
    assert MatchMonth("0000-01-01", 5) == Some(Field(1, 7));
    assert MatchDay("0000-01-01", 8) == Some(Field(1, 10));
    assert MatchMonth("2025-01-011", 5) == Some(Field(1, 7));
    assert MatchDay("2025-01-011", 8) == Some(Field(1, 10));
  }
}
