/**
 * routes/analytics.py: the done-count summary. A range keyword or an explicit
 * pair of dates is resolved to a window of India Standard Time wall-clock
 * instants, converted to UTC, and turned into the `count_documents` filter.
 *
 * Instants are integer microseconds since 1970-01-01T00:00; a window from
 * `get_date_range` is measured on the IST wall clock, `ToUtc` moves it to UTC.
 * The current time is a parameter, `nowUtc`.
 */
module Analytics {
  import opened Wrappers
  import opened Text
  import opened Civil
  import opened DocStore

  const MicrosPerSecond: int := 1_000_000
  const MicrosPerMinute: int := 60_000_000
  const MicrosPerHour: int := 3_600_000_000
  const MicrosPerDay: int := 86_400_000_000

  /** Asia/Kolkata is UTC+05:30 all year round. */
  const IstOffset: int := 19_800_000_000

  /** The last microsecond of a day: 23:59:59.999999. */
  const LastMicroOfDay: int := 23 * MicrosPerHour + 59 * MicrosPerMinute + 59 * MicrosPerSecond + 999_999

  const MsgCustomNeedsDates := "start and end dates are required for custom range"
  const MsgBadDate := "Invalid date format. Use YYYY-MM-DD"
  const MsgNoRange := "Either range or start_date/end_date must be provided"
  const MsgInvalidRange := "Invalid range type: "
  const MsgFetchPrefix := "Error fetching analytics: "
  /** The message of the OverflowError `datetime` arithmetic raises. */
  const MsgOverflow := "date value out of range"

  /** A time window; both ends are included. */
  datatype Window = Window(start: int, end: int)

  /** The query parameters of the summary endpoint. */
  datatype SummaryQuery = SummaryQuery(
    range: Option<string>,
    start: Option<string>,
    end: Option<string>,
    location: Option<string>,
    startDate: Option<string>,
    endDate: Option<string>)

  /** The body of a successful answer: `{"done_count": n}`. */
  datatype DoneBody = DoneBody(doneCount: nat)

  /** Python truthiness of an optional string: present and non-empty. */
  predicate Truthy(s: Option<string>) {
    s.Some? && s.value != ""
  }

  /** The IST calendar day (a day number) that contains the UTC instant `nowUtc`. */
  function LocalDay(nowUtc: int): int {
    (nowUtc + IstOffset) / MicrosPerDay
  }

  /** Microseconds since the last local midnight. */
  function TimeOfDay(t: int): int {
    t % MicrosPerDay
  }

  /** From 00:00:00.000000 of day `first` through 23:59:59.999999 of day `last`. */
  function DayWindow(first: int, last: int): (w: Window)
    ensures w.start == first * MicrosPerDay && w.end + 1 == (last + 1) * MicrosPerDay
    ensures TimeOfDay(w.start) == 0 && TimeOfDay(w.end) == LastMicroOfDay
    ensures w.end - w.start + 1 == (last - first + 1) * MicrosPerDay
  {
    Window(first * MicrosPerDay, last * MicrosPerDay + LastMicroOfDay)
  }

  /**
   * pytz's `localize` looks at the wall-clock time one day before and one day
   * after the given one, so on the first and the last date `datetime` can hold
   * it raises OverflowError ("date value out of range").
   */
  predicate Localizable(d: Date) {
    d != Date(1, 1, 1) && d != Date(9999, 12, 31)
  }

  /**
   * Two `YYYY-MM-DD` texts as a window of whole local days: both are parsed
   * first (a ValueError, re-raised with the date-format message), then both
   * are localized (an OverflowError, which the `except ValueError` lets through).
   */
  function ExplicitWindow(start: string, end: string): (r: Result<Window, Exc>)
    ensures r.Success? <==>
              (ParseYmd(start).Some? && ParseYmd(end).Some? &&
               Localizable(ParseYmd(start).value) && Localizable(ParseYmd(end).value))
    ensures ParseYmd(start).None? || ParseYmd(end).None? ==> r == Failure(ValueError(MsgBadDate))
    ensures r.Failure? && ParseYmd(start).Some? && ParseYmd(end).Some? ==> r == Failure(OtherError(MsgOverflow))
    ensures r.Success? ==> r.value == DayWindow(DayNumber(ParseYmd(start).value), DayNumber(ParseYmd(end).value))
  {
    match (ParseYmd(start), ParseYmd(end))
    case (Some(a), Some(b)) =>
      if Localizable(a) && Localizable(b) then Success(DayWindow(DayNumber(a), DayNumber(b)))
      else Failure(OtherError(MsgOverflow))
    case _ => Failure(ValueError(MsgBadDate))
  }

  const Keywords: set<string> := {"today", "yesterday", "last_7", "last_30"}

  /**
   * `get_date_range`: the local window a range keyword names. A keyword range
   * always succeeds and runs from a local midnight to the last microsecond of
   * today or yesterday; `custom` needs both dates; anything else is refused.
   */
  function GetDateRange(rangeType: string, start: Option<string>, end: Option<string>, nowUtc: int): (r: Result<Window, Exc>)
    ensures rangeType in Keywords ==>
              (r.Success? && r.value.start < r.value.end &&
               TimeOfDay(r.value.start) == 0 && TimeOfDay(r.value.end) == LastMicroOfDay &&
               r.value.end + 1 == (LocalDay(nowUtc) + (if rangeType == "yesterday" then 0 else 1)) * MicrosPerDay)
    ensures rangeType == "custom" && (!Truthy(start) || !Truthy(end)) ==> r == Failure(ValueError(MsgCustomNeedsDates))
    ensures rangeType == "custom" && Truthy(start) && Truthy(end) ==> r == ExplicitWindow(start.value, end.value)
    ensures rangeType !in Keywords && rangeType != "custom" ==> r == Failure(ValueError(MsgInvalidRange + rangeType))
  {
    var today := LocalDay(nowUtc);
    if rangeType == "today" then Success(DayWindow(today, today))
    else if rangeType == "yesterday" then Success(DayWindow(today - 1, today - 1))
    else if rangeType == "last_7" then Success(DayWindow(today - 7, today))
    else if rangeType == "last_30" then Success(DayWindow(today - 30, today))
    else if rangeType == "custom" then
      if !Truthy(start) || !Truthy(end) then Failure(ValueError(MsgCustomNeedsDates))
      else ExplicitWindow(start.value, end.value)
    else Failure(ValueError(MsgInvalidRange + rangeType))
  }

  /** The date precedence of the handler: explicit `start_date`/`end_date`, then `range`, else an error. */
  function ResolveWindow(q: SummaryQuery, nowUtc: int): (r: Result<Window, Exc>)
    ensures r.Success? ==> (Truthy(q.startDate) && Truthy(q.endDate)) || Truthy(q.range)
    ensures !(Truthy(q.startDate) && Truthy(q.endDate)) && !Truthy(q.range) ==> r == Failure(ValueError(MsgNoRange))
  {
    if Truthy(q.startDate) && Truthy(q.endDate) then ExplicitWindow(q.startDate.value, q.endDate.value)
    else if Truthy(q.range) then GetDateRange(q.range.value, q.start, q.end, nowUtc)
    else Failure(ValueError(MsgNoRange))
  }

  /** `astimezone(pytz.UTC)` of an IST window: both ends move back by exactly 5h30m. */
  function ToUtc(w: Window): (u: Window)
    ensures u.start + IstOffset == w.start && u.end + IstOffset == w.end
  {
    Window(w.start - IstOffset, w.end - IstOffset)
  }

  /** The location clause: the trimmed location, unless it is missing, blank or exactly "All Cities". */
  function LocationClause(location: Option<string>): (r: Option<string>)
    ensures r.Some? <==> location.Some? && !AllSpace(location.value) && Strip(location.value) != "All Cities"
    ensures r.Some? ==> r.value == Strip(location.value) && r.value != []
  {
    StripAllSpace(if location.Some? then location.value else "");
    if Truthy(location) && Strip(location.value) != "" && Strip(location.value) != "All Cities" then
      Some(Strip(location.value))
    else
      None
  }

  /** The `count_documents` filter for done requests in the UTC window `u`, with the optional location clause. */
  function DoneFilter(u: Window, location: Option<string>): (f: Filter)
    ensures f.Keys == {"status.done.check", "date"} + (if LocationClause(location).Some? then {"location"} else {})
    ensures f["status.done.check"] == Is(Bool(true))
    ensures f["date"] == Between(u.start, u.end)
    ensures "location" in f <==> LocationClause(location).Some?
    ensures "location" in f ==> f["location"] == EqOp(Str(LocationClause(location).value))
  {
    var base := map["status.done.check" := Is(Bool(true)), "date" := Between(u.start, u.end)];
    match LocationClause(location)
    case Some(loc) => base["location" := EqOp(Str(loc))]
    case None => base
  }

  /** The `except` clauses: a ValueError becomes 400 with its message, anything else 500. */
  function ErrorResponse(e: Exc): (r: Reply<DoneBody>)
    ensures r.HttpError?
    ensures e.ValueError? ==> r == HttpError(400, e.msg)
    ensures e.OtherError? ==> r == HttpError(500, MsgFetchPrefix + e.msg)
  {
    match e
    case ValueError(m) => HttpError(400, m)
    case OtherError(m) => HttpError(500, MsgFetchPrefix + m)
  }

  /**
   * `get_service_requests_summary`. `database` is the outcome of fetching the
   * store handle; `countDocuments` is the store's answer to a filter.
   */
  function Summary(q: SummaryQuery, nowUtc: int, database: Result<(), Exc>, countDocuments: Filter -> Result<nat, Exc>): (r: Reply<DoneBody>)
    ensures database.Failure? ==> r == ErrorResponse(database.error)
    ensures database.Success? && ResolveWindow(q, nowUtc).Failure? ==> r == ErrorResponse(ResolveWindow(q, nowUtc).error)
    ensures (database.Success? && ResolveWindow(q, nowUtc).Success? &&
             countDocuments(DoneFilter(ToUtc(ResolveWindow(q, nowUtc).value), q.location)).Failure? ==>
               r == ErrorResponse(countDocuments(DoneFilter(ToUtc(ResolveWindow(q, nowUtc).value), q.location)).error))
    ensures r.Ok? <==>
              (database.Success? && ResolveWindow(q, nowUtc).Success? &&
               countDocuments(DoneFilter(ToUtc(ResolveWindow(q, nowUtc).value), q.location)).Success?)
    ensures r.Ok? ==>
      countDocuments(DoneFilter(ToUtc(ResolveWindow(q, nowUtc).value), q.location)) == Success(r.body.doneCount)
  {
    if database.Failure? then
      ErrorResponse(database.error)
    else
      match ResolveWindow(q, nowUtc)
      case Failure(e) => ErrorResponse(e)
      case Success(w) =>
        match countDocuments(DoneFilter(ToUtc(w), q.location))
        case Success(n) => Ok(DoneBody(n))
        case Failure(e) => ErrorResponse(e)
  }

  // ---- Properties of the keyword ranges ----

  /** The local instant of `nowUtc` lies on its local day. */
  lemma LocalDayContainsNow(nowUtc: int)
    ensures LocalDay(nowUtc) * MicrosPerDay <= nowUtc + IstOffset < LocalDay(nowUtc) * MicrosPerDay + MicrosPerDay
  {
  }

  /** `today` runs from local midnight to 23:59:59.999999 of the current local date, and contains now. */
  lemma TodayWindow(nowUtc: int, start: Option<string>, end: Option<string>)
    ensures GetDateRange("today", start, end, nowUtc).Success?
    ensures var w := GetDateRange("today", start, end, nowUtc).value;
      w.start == LocalDay(nowUtc) * MicrosPerDay && w.end == w.start + MicrosPerDay - 1 &&
      TimeOfDay(w.start) == 0 && TimeOfDay(w.end) == LastMicroOfDay &&
      w.start <= nowUtc + IstOffset <= w.end
  {
    LocalDayContainsNow(nowUtc);
  }

  /** `yesterday` is `today`'s window moved back by exactly one day. */
  lemma YesterdayIsTodayShifted(nowUtc: int, start: Option<string>, end: Option<string>)
    ensures GetDateRange("yesterday", start, end, nowUtc).Success?
    ensures GetDateRange("yesterday", start, end, nowUtc).value.start == GetDateRange("today", start, end, nowUtc).value.start - MicrosPerDay
    ensures GetDateRange("yesterday", start, end, nowUtc).value.end == GetDateRange("today", start, end, nowUtc).value.end - MicrosPerDay
  {
  }

  /** `last_7` and `last_30` start at local midnight N days back and end at the end of today: N + 1 whole days. */
  lemma LastNWindow(nowUtc: int, n: int, start: Option<string>, end: Option<string>)
    requires n == 7 || n == 30
    ensures var w := GetDateRange(if n == 7 then "last_7" else "last_30", start, end, nowUtc);
      w.Success? &&
      w.value.start == (LocalDay(nowUtc) - n) * MicrosPerDay &&
      w.value.end == GetDateRange("today", start, end, nowUtc).value.end &&
      w.value.end - w.value.start + 1 == (n + 1) * MicrosPerDay
  {
  }

  /** Explicit dates are not checked for order: a later start gives a window that ends before it starts. */
  lemma ExplicitDatesUnordered(s: string, e: string, ds: Date, de: Date)
    requires ParseYmd(s) == Some(ds) && ParseYmd(e) == Some(de) && Localizable(ds) && Localizable(de)
    requires DayNumber(de) < DayNumber(ds)
    ensures ExplicitWindow(s, e).Success? && ExplicitWindow(s, e).value.end < ExplicitWindow(s, e).value.start
  {
  }

  // ---- Precedence in the handler ----

  /** Non-empty `start_date` and `end_date` win: `range`, `start` and `end` are ignored. */
  lemma ExplicitDatesWin(q: SummaryQuery, nowUtc: int, range: Option<string>, start: Option<string>, end: Option<string>)
    requires Truthy(q.startDate) && Truthy(q.endDate)
    ensures ResolveWindow(q, nowUtc) == ExplicitWindow(q.startDate.value, q.endDate.value)
    ensures ResolveWindow(q, nowUtc) == ResolveWindow(q.(range := range, start := start, end := end), nowUtc)
  {
  }

  /** Without both explicit dates, a non-empty `range` is resolved by `get_date_range`. */
  lemma RangeOtherwise(q: SummaryQuery, nowUtc: int)
    requires !(Truthy(q.startDate) && Truthy(q.endDate)) && Truthy(q.range)
    ensures ResolveWindow(q, nowUtc) == GetDateRange(q.range.value, q.start, q.end, nowUtc)
  {
  }

  // ---- The UTC window ----

  /** A single date D runs from (D-1) 18:30:00 UTC through D 18:29:59.999999 UTC. */
  lemma SingleDateInUtc(q: SummaryQuery, nowUtc: int, d: Date)
    requires Truthy(q.startDate) && q.endDate == q.startDate && ParseYmd(q.startDate.value) == Some(d) && Localizable(d)
    ensures ResolveWindow(q, nowUtc).Success?
    ensures var u := ToUtc(ResolveWindow(q, nowUtc).value);
      u.start == (DayNumber(d) - 1) * MicrosPerDay + 18 * MicrosPerHour + 30 * MicrosPerMinute &&
      u.end == DayNumber(d) * MicrosPerDay + 18 * MicrosPerHour + 29 * MicrosPerMinute + 59 * MicrosPerSecond + 999_999
  {
  }

  /** Dates D1..D2 give a UTC window of (D2 - D1 + 1) whole days, less one microsecond. */
  lemma ExplicitSpanInUtc(s: string, e: string, ds: Date, de: Date)
    requires ParseYmd(s) == Some(ds) && ParseYmd(e) == Some(de) && Localizable(ds) && Localizable(de)
    ensures ExplicitWindow(s, e).Success?
    ensures var u := ToUtc(ExplicitWindow(s, e).value);
      u.end - u.start == (DayNumber(de) - DayNumber(ds) + 1) * MicrosPerDay - 1
  {
  }

  /** 2025-01-01 through 2025-01-07 covers exactly seven calendar days. */
  lemma FirstWeekOf2025()
    ensures ExplicitWindow("2025-01-01", "2025-01-07").Success?
    ensures var w := ExplicitWindow("2025-01-01", "2025-01-07").value; w.end - w.start + 1 == 7 * MicrosPerDay
  {
    ParseCanonical(Date(2025, 1, 1));
    assert Canonical(Date(2025, 1, 1)) == "2025-01-01";
    ParseCanonical(Date(2025, 1, 7));
    assert Canonical(Date(2025, 1, 7)) == "2025-01-07";
  }

  /** Explicit dates naming today's local date give exactly the `today` window. */
  lemma ExplicitTodayIsToday(q: SummaryQuery, nowUtc: int, d: Date)
    requires Truthy(q.startDate) && q.endDate == q.startDate && ParseYmd(q.startDate.value) == Some(d) && Localizable(d)
    requires DayNumber(d) == LocalDay(nowUtc)
    ensures ResolveWindow(q, nowUtc) == GetDateRange("today", q.start, q.end, nowUtc)
  {
  }

  // ---- The location clause ----

  /** Around a trimmed word, padding does not matter; blank and exactly "All Cities" add no clause. */
  lemma LocationClausePadded(pre: string, w: string, post: string)
    requires AllSpace(pre) && AllSpace(post) && Stripped(w)
    ensures LocationClause(Some(pre + w + post)) == if w == "" || w == "All Cities" then None else Some(w)
  {
    StripPadded(pre, w, post);
    StripAllSpace(pre + w + post);
  }

  /** Exactly "All Cities", padded or not, adds no location clause. */
  lemma AllCitiesAddsNoClause(pre: string, post: string)
    requires AllSpace(pre) && AllSpace(post)
    ensures LocationClause(Some(pre + "All Cities" + post)).None?
  {
    LocationClausePadded(pre, "All Cities", post);
  }

  /** The sentinel is case-sensitive: "all cities" is a location like any other. */
  lemma OtherCasingAddsClause(pre: string, post: string)
    requires AllSpace(pre) && AllSpace(post)
    ensures LocationClause(Some(pre + "all cities" + post)) == Some("all cities")
  {
    assert "all cities" != "All Cities" by { assert "all cities"[0] != "All Cities"[0]; }
    LocationClausePadded(pre, "all cities", post);
  }

  /** An empty or whitespace-only location adds no clause. */
  lemma BlankAddsNoClause(pre: string, post: string)
    requires AllSpace(pre) && AllSpace(post)
    ensures LocationClause(Some(pre + post)).None?
  {
    LocationClausePadded(pre, "", post);
    assert pre + "" + post == pre + post;
  }

  // ---- The response ----

  /** The store handle is fetched first: when that fails, even bad dates give its error, not 400 for the dates. */
  lemma StoreFailureComesFirst(q: SummaryQuery, nowUtc: int, msg: string, countDocuments: Filter -> Result<nat, Exc>)
    ensures Summary(q, nowUtc, Failure(OtherError(msg)), countDocuments) == HttpError(500, "Error fetching analytics: " + msg)
  {
  }

  lemma SingleDateWindow(q: SummaryQuery, nowUtc: int, d: Date)
    requires Truthy(q.startDate) && q.endDate == q.startDate && ParseYmd(q.startDate.value) == Some(d) && Localizable(d)
    ensures ResolveWindow(q, nowUtc) == Success(DayWindow(DayNumber(d), DayNumber(d)))
  {
  }

  /** A trimmed location other than "All Cities" gives the filter all three clauses. */
  lemma LocationDoneFilter(u: Window, loc: string)
    requires loc != "" && Stripped(loc) && loc != "All Cities"
    ensures DoneFilter(u, Some(loc)) == map[
        "status.done.check" := Is(Bool(true)),
        "date" := Between(u.start, u.end),
        "location" := EqOp(Str(loc))]
  {
    StripOfStripped(loc);
    assert !AllSpace(loc) by { assert !IsSpace(loc[0]); }
    assert LocationClause(Some(loc)) == Some(loc);
  }

  lemma KolkataIsALocation()
    ensures "Kolkata" != "" && Stripped("Kolkata") && "Kolkata" != "All Cities"
  {
    assert |"Kolkata"| == 7;
  }

  /** Explicit dates for a local date, with location "Kolkata": the filter the store is asked about, in full. */
  lemma KolkataFilter(q: SummaryQuery, nowUtc: int, d: Date, n: nat, countDocuments: Filter -> Result<nat, Exc>)
    requires Truthy(q.startDate) && q.endDate == q.startDate && ParseYmd(q.startDate.value) == Some(d) && Localizable(d)
    requires q.location == Some("Kolkata")
    requires countDocuments(map[
        "status.done.check" := Is(Bool(true)),
        "date" := Between(DayNumber(d) * MicrosPerDay - IstOffset, DayNumber(d) * MicrosPerDay + LastMicroOfDay - IstOffset),
        "location" := EqOp(Str("Kolkata"))]) == Success(n)
    ensures Summary(q, nowUtc, Success(()), countDocuments) == Ok(DoneBody(n))
  {
    var w := DayWindow(DayNumber(d), DayNumber(d));
    SingleDateWindow(q, nowUtc, d);
    assert ResolveWindow(q, nowUtc) == Success(w);
    var u := ToUtc(w);
    assert u == Window(DayNumber(d) * MicrosPerDay - IstOffset, DayNumber(d) * MicrosPerDay + LastMicroOfDay - IstOffset);
    KolkataIsALocation();
    LocationDoneFilter(u, "Kolkata");
    var f := DoneFilter(u, q.location);
    assert f == map[
        "status.done.check" := Is(Bool(true)),
        "date" := Between(u.start, u.end),
        "location" := EqOp(Str("Kolkata"))];
    assert countDocuments(f) == Success(n);
    assert Summary(q, nowUtc, Success(()), countDocuments) == Ok(DoneBody(n));
  }

  // ---- Dates at the ends of the calendar ----

  /** The first and the last instant `datetime` can hold, on the same clock as the windows. */
  const FirstInstant: int := DayNumber(Date(1, 1, 1)) * MicrosPerDay
  const LastInstant: int := DayNumber(Date(9999, 12, 31)) * MicrosPerDay + LastMicroOfDay

  /** Explicit dates that resolve give a UTC window `datetime` can represent: no bound leaves years 1 to 9999. */
  lemma ExplicitWindowInRange(s: string, e: string)
    requires ExplicitWindow(s, e).Success?
    ensures FirstInstant <= ToUtc(ExplicitWindow(s, e).value).start
    ensures ToUtc(ExplicitWindow(s, e).value).end <= LastInstant
  {
    var a, b := ParseYmd(s).value, ParseYmd(e).value;
    DayNumberAfterFirst(a);
    DayNumberBeforeLast(b);
    var u := ToUtc(ExplicitWindow(s, e).value);
    assert u.start == DayNumber(a) * MicrosPerDay - IstOffset;
    assert u.end == DayNumber(b) * MicrosPerDay + LastMicroOfDay - IstOffset;
  }

  /**
   * An explicit date on the first or the last day `datetime` can hold
   * overflows in `localize`: the answer is 500, not 400 and not a count.
   */
  lemma EdgeDateIs500(q: SummaryQuery, nowUtc: int, countDocuments: Filter -> Result<nat, Exc>)
    requires Truthy(q.startDate) && Truthy(q.endDate)
    requires ParseYmd(q.startDate.value).Some? && ParseYmd(q.endDate.value).Some?
    requires !Localizable(ParseYmd(q.startDate.value).value) || !Localizable(ParseYmd(q.endDate.value).value)
    ensures Summary(q, nowUtc, Success(()), countDocuments) == HttpError(500, MsgFetchPrefix + MsgOverflow)
  {
    assert ResolveWindow(q, nowUtc) == ExplicitWindow(q.startDate.value, q.endDate.value);
    assert ExplicitWindow(q.startDate.value, q.endDate.value) == Failure(OtherError(MsgOverflow));
  }

  /** "0001-01-01" and "9999-12-31" are such dates. */
  lemma EdgeDatesParse()
    ensures ParseYmd("0001-01-01") == Some(Date(1, 1, 1)) && !Localizable(Date(1, 1, 1))
    ensures ParseYmd("9999-12-31") == Some(Date(9999, 12, 31)) && !Localizable(Date(9999, 12, 31))
  {
    ParseCanonical(Date(1, 1, 1));
    assert Canonical(Date(1, 1, 1)) == "0001-01-01";
    ParseCanonical(Date(9999, 12, 31));
    assert Canonical(Date(9999, 12, 31)) == "9999-12-31";
  }
}
