/** Vietnamese time expressions to half-open date ranges, from the branch already matched. */
module TimeRanges {
  import opened Wrappers
  import opened Calendar

  /** The branch of the parser that matched, with the number its pattern captured. */
  datatype Phrase =
    | LatestRecord
    | Today
    | Yesterday
    | LastDays(count: nat)
    | LastMonths(count: nat)
    | FewDays
    | ThisWeek
    | LastWeek
    | ThisMonth
    | LastMonth
    | ThisYear
    | LastYear
    | QuarterOf(year: int, quarter: int)
    | YearOf(year: int)
    | MonthNumber(month: int)
    | NoTime

  datatype TimeFilter = TimeFilter(kind: string, start: Option<Date>, end: Option<Date>)

  /** What the patterns can capture: `20\d{2}` for years, `[1-4]` and `[1-9]|1[0-2]`. */
  predicate Captured(p: Phrase) {
    match p
    case QuarterOf(year, quarter) => 2000 <= year <= 2099 && 1 <= quarter <= 4
    case YearOf(year) => 2000 <= year <= 2099
    case MonthNumber(month) => 1 <= month <= 12
    case _ => true
  }

  datatype DateError = OutOfRange

  type DateResult = Result<TimeFilter, DateError>

  /** `date(y, m, d)`: a ValueError outside years 1 to 9999. */
  function MakeDate(year: int, month: int, day: int): (r: Option<Date>)
    ensures r.Some? ==> Valid(r.value)
  {
    var d := Date(year, month, day);
    if Valid(d) then Some(d) else None
  }

  function Range(kind: string, start: Option<Date>, end: Option<Date>): DateResult {
    if start.Some? && end.Some? then Ok(TimeFilter(kind, start, end)) else Err(OutOfRange)
  }

  function Clamp(n: int, low: int, high: int): int {
    if n > high then high else if n < low then low else n
  }

  /** The month that lies `months` before (year, month), as (year, month). */
  function MonthsBefore(year: int, month: int, months: nat): (int, int) {
    var total := 12 * year + (month - 1) - months;
    (total / 12, total % 12 + 1)
  }

  /** The borrow loop of the "N months" branch. */
  method BorrowMonths(year: int, month: int, months: nat) returns (y: int, mo: int)
    requires 1 <= month <= 12
    ensures (y, mo) == MonthsBefore(year, month, months)
    ensures 1 <= mo <= 12 && 12 * y + mo == 12 * year + month - months
  {
    y, mo := year, month - months;
    while mo <= 0
      invariant mo <= 12
      invariant 12 * y + mo == 12 * year + month - months
      decreases -mo
    {
      mo := mo + 12;
      y := y - 1;
    }
    var total := 12 * year + (month - 1) - months;
    assert total == 12 * y + (mo - 1) && 0 <= mo - 1 < 12;
  }

  function FirstOfMonth(d: Date): (r: Date)
    requires Valid(d)
    ensures Valid(r)
  {
    d.(day := 1)
  }

  /** From `back` days ago up to and including today. */
  function DayRange(kind: string, today: Date, back: int): DateResult
    requires Valid(today)
  {
    Range(kind, AddDays(today, -back), AddDays(today, 1))
  }

  /** The Monday-to-Monday week that lies `weeks` weeks before this one. */
  function WeekRange(kind: string, today: Date, weeks: int): DateResult
    requires Valid(today)
  {
    var start := AddDays(today, -(Weekday(today) + 7 * weeks));
    Range(kind, start, if start.Some? then AddDays(start.value, 7) else None)
  }

  function MonthRange(kind: string, year: int, month: int): DateResult {
    var em := if month < 12 then month + 1 else 1;
    var ey := if month < 12 then year else year + 1;
    Range(kind, MakeDate(year, month, 1), MakeDate(ey, em, 1))
  }

  function Resolve(p: Phrase, today: Date): DateResult
    requires Valid(today)
  {
    match p
    case LatestRecord => Ok(TimeFilter("latest_record", None, None))
    case Today => DayRange("today", today, 0)
    case Yesterday => Range("yesterday", AddDays(today, -1), Some(today))
    case LastDays(count) => DayRange("recent_days", today, Clamp(count, 1, 366) - 1)
    case LastMonths(count) =>
      var (y, mo) := MonthsBefore(today.year, today.month, Clamp(count, 1, 24));
      Range("recent_months", MakeDate(y, mo, 1), AddDays(today, 1))
    case FewDays => DayRange("recent_days", today, 6)
    case ThisWeek => WeekRange("current_week", today, 0)
    case LastWeek => WeekRange("previous_week", today, 1)
    case ThisMonth => MonthRange("current_month", today.year, today.month)
    case LastMonth =>
      var firstThis := FirstOfMonth(today);
      var lastOfPrevious := AddDays(firstThis, -1);
      Range("previous_month",
            if lastOfPrevious.Some? then Some(FirstOfMonth(lastOfPrevious.value)) else None,
            Some(firstThis))
    case ThisYear => Range("current_year", MakeDate(today.year, 1, 1), MakeDate(today.year + 1, 1, 1))
    case LastYear => Range("previous_year", MakeDate(today.year - 1, 1, 1), MakeDate(today.year, 1, 1))
    case QuarterOf(year, quarter) =>
      var sm := (quarter - 1) * 3 + 1;
      var em := sm + 3;
      Range("quarter", MakeDate(year, sm, 1),
            if em > 12 then MakeDate(year + 1, 1, 1) else MakeDate(year, em, 1))
    case YearOf(year) => Range("year", MakeDate(year, 1, 1), MakeDate(year + 1, 1, 1))
    case MonthNumber(month) => MonthRange("specific_month", today.year, month)
    case NoTime => Ok(TimeFilter("none", None, None))
  }

  predicate IsDated(p: Phrase) { !p.LatestRecord? && !p.NoTime? }

  // ---- What each phrase means, without date arithmetic ----------------------------------

  /** The Monday on or before `d`, by day number; two days share a week when it is equal. */
  function WeekOf(d: Date): int
  {
    (Ordinal(d) + 6) / 7
  }

  function MonthIndex(d: Date): int { 12 * d.year + d.month }

  /** The days a phrase stands for on a given day, in calendar terms. */
  predicate Stands(p: Phrase, today: Date, d: Date)
    requires Valid(today) && Valid(d)
  {
    match p
    case LatestRecord => false
    case NoTime => false
    case Today => d == today
    case Yesterday => Before(d, today) && NextDay(d) == today
    case LastDays(count) =>
      0 <= Ordinal(today) - Ordinal(d) < (if count == 0 then 1 else if count <= 366 then count else 366)
    case FewDays => 0 <= Ordinal(today) - Ordinal(d) < 7
    case LastMonths(count) =>
      && !Before(today, d)
      && MonthIndex(today) - MonthIndex(d) <= (if count == 0 then 1 else if count <= 24 then count else 24)
    case ThisWeek => WeekOf(d) == WeekOf(today)
    case LastWeek => WeekOf(d) == WeekOf(today) - 1
    case ThisMonth => d.year == today.year && d.month == today.month
    case LastMonth => MonthIndex(d) == MonthIndex(today) - 1
    case ThisYear => d.year == today.year
    case LastYear => d.year == today.year - 1
    case QuarterOf(year, quarter) => d.year == year && (d.month - 1) / 3 + 1 == quarter
    case YearOf(year) => d.year == year
    case MonthNumber(month) => d.year == today.year && d.month == month
  }

  /** Membership in the emitted range: start included, end excluded. */
  predicate InRange(f: TimeFilter, d: Date)
    requires f.start.Some? && f.end.Some?
  {
    !Before(d, f.start.value) && Before(d, f.end.value)
  }

  lemma LastOfPreviousMonth(d: Date)
    requires Valid(d) && AddDays(FirstOfMonth(d), -1).Some?
    ensures !IsFirst(FirstOfMonth(d))
    ensures AddDays(FirstOfMonth(d), -1).value == PrevDay(FirstOfMonth(d))
  {
    var first := FirstOfMonth(d);
    assert AddDays(PrevDay(first), 0) == Some(PrevDay(first));
  }

  /** Ordering against a moved date is ordering of day numbers. */
  lemma AgainstMoved(d: Date, base: Date, n: int)
    requires Valid(d) && Valid(base) && AddDays(base, n).Some?
    ensures Before(d, AddDays(base, n).value) <==> Ordinal(d) < Ordinal(base) + n
  {
    AddDaysOrdinal(base, n);
    OrdinalOrder(d, AddDays(base, n).value);
  }

  predicate Selects(r: DateResult, d: Date) {
    r.Ok? && r.value.start.Some? && r.value.end.Some? && InRange(r.value, d)
  }

  lemma DayRangeSelects(kind: string, today: Date, back: int, d: Date)
    requires Valid(today) && Valid(d) && DayRange(kind, today, back).Ok?
    ensures Selects(DayRange(kind, today, back), d) <==> 0 <= Ordinal(today) - Ordinal(d) <= back
  {
    AgainstMoved(d, today, -back);
    AgainstMoved(d, today, 1);
  }

  lemma WeekArithmetic(o: int, t: int, weeks: int)
    ensures var monday := t - (t + 6) % 7 - 7 * weeks;
            monday <= o < monday + 7 <==> (o + 6) / 7 == (t + 6) / 7 - weeks
  {
  }

  lemma WeekRangeSelects(kind: string, today: Date, weeks: int, d: Date)
    requires Valid(today) && Valid(d) && WeekRange(kind, today, weeks).Ok?
    ensures Selects(WeekRange(kind, today, weeks), d) <==> WeekOf(d) == WeekOf(today) - weeks
  {
    var back := -(Weekday(today) + 7 * weeks);
    var start := AddDays(today, back).value;
    AgainstMoved(d, today, back);
    AddDaysOrdinal(today, back);
    AgainstMoved(d, start, 7);
    WeekArithmetic(Ordinal(d), Ordinal(today), weeks);
  }

  lemma YesterdaySelects(today: Date, d: Date)
    requires Valid(today) && Valid(d) && Resolve(Yesterday, today).Ok?
    ensures Selects(Resolve(Yesterday, today), d) <==> Stands(Yesterday, today, d)
  {
    AgainstMoved(d, today, -1);
    OrdinalOrder(d, today);
    if Before(d, today) {
      NextDayOrdinal(d);
      OrdinalOrder(NextDay(d), today);
    }
  }

  lemma LastMonthsSelects(count: nat, today: Date, d: Date)
    requires Valid(today) && Valid(d) && Resolve(LastMonths(count), today).Ok?
    ensures Selects(Resolve(LastMonths(count), today), d) <==> Stands(LastMonths(count), today, d)
  {
    AgainstMoved(d, today, 1);
    OrdinalOrder(today, d);
  }

  lemma LastDaysSelects(count: nat, today: Date, d: Date)
    requires Valid(today) && Valid(d) && Resolve(LastDays(count), today).Ok?
    ensures Selects(Resolve(LastDays(count), today), d) <==> Stands(LastDays(count), today, d)
  {
    DayRangeSelects("recent_days", today, Clamp(count, 1, 366) - 1, d);
  }

  /** Every dated phrase selects exactly the days it stands for. */
  lemma RangeIsMeaning(p: Phrase, today: Date, d: Date)
    requires Valid(today) && Valid(d) && Captured(p) && IsDated(p) && Resolve(p, today).Ok?
    ensures Selects(Resolve(p, today), d) <==> Stands(p, today, d)
  {
    match p
    case Today => DayRangeSelects("today", today, 0, d); OrdinalOrder(d, today);
    case LastDays(count) => LastDaysSelects(count, today, d);
    case FewDays => DayRangeSelects("recent_days", today, 6, d);
    case Yesterday => YesterdaySelects(today, d);
    case LastMonths(count) => LastMonthsSelects(count, today, d);
    case ThisWeek => WeekRangeSelects("current_week", today, 0, d);
    case LastWeek => WeekRangeSelects("previous_week", today, 1, d);
    case LastMonth => LastOfPreviousMonth(today);
    case _ =>
  }

  /** The label a phrase is reported under. */
  lemma KindReported(p: Phrase, today: Date)
    requires Valid(today) && Resolve(p, today).Ok?
    ensures var kind := Resolve(p, today).value.kind;
            && (kind == "latest_record" <==> p.LatestRecord?) && (kind == "none" <==> p.NoTime?)
            && (kind == "today" <==> p.Today?) && (kind == "yesterday" <==> p.Yesterday?)
            && (kind == "recent_days" <==> p.LastDays? || p.FewDays?) && (kind == "recent_months" <==> p.LastMonths?)
            && (kind == "current_week" <==> p.ThisWeek?) && (kind == "previous_week" <==> p.LastWeek?)
            && (kind == "current_month" <==> p.ThisMonth?) && (kind == "previous_month" <==> p.LastMonth?)
            && (kind == "current_year" <==> p.ThisYear?) && (kind == "previous_year" <==> p.LastYear?)
            && (kind == "quarter" <==> p.QuarterOf?) && (kind == "year" <==> p.YearOf?)
            && (kind == "specific_month" <==> p.MonthNumber?)
  {
  }

  // ---- Shape of the ranges ----------------------------------------------------------------

  predicate NotEmpty(r: DateResult) {
    && r.Ok? && r.value.start.Some? && r.value.end.Some?
    && Valid(r.value.start.value) && Valid(r.value.end.value)
    && Before(r.value.start.value, r.value.end.value)
  }

  lemma DayRangeSpan(kind: string, today: Date, back: int)
    requires Valid(today) && back >= 0 && DayRange(kind, today, back).Ok?
    ensures var r := DayRange(kind, today, back);
            && NotEmpty(r)
            && Ordinal(r.value.end.value) - Ordinal(r.value.start.value) == back + 1
            && AddDays(r.value.end.value, -1) == Some(today)
  {
    AddDaysOrdinal(today, -back);
    AgainstMoved(AddDays(today, -back).value, today, 1);
    AddDaysOrdinal(today, 1);
    AddDaysCompose(today, 1, 0);
  }

  lemma WeekRangeNotEmpty(kind: string, today: Date, weeks: int)
    requires Valid(today) && WeekRange(kind, today, weeks).Ok?
    ensures NotEmpty(WeekRange(kind, today, weeks))
  {
    var start := AddDays(today, -(Weekday(today) + 7 * weeks)).value;
    AgainstMoved(start, start, 7);
  }

  lemma YesterdayNotEmpty(today: Date)
    requires Valid(today) && Resolve(Yesterday, today).Ok?
    ensures NotEmpty(Resolve(Yesterday, today))
  {
    AddDaysOrdinal(today, -1);
    OrdinalOrder(AddDays(today, -1).value, today);
  }

  lemma LastMonthsNotEmpty(count: nat, today: Date)
    requires Valid(today) && Resolve(LastMonths(count), today).Ok?
    ensures NotEmpty(Resolve(LastMonths(count), today))
  {
    var start := Resolve(LastMonths(count), today).value.start.value;
    assert Before(start, today);
    AgainstMoved(start, today, 1);
    OrdinalOrder(start, today);
  }

  /** Every dated range holds at least one day. */
  lemma RangeNotEmpty(p: Phrase, today: Date)
    requires Valid(today) && Captured(p) && IsDated(p) && Resolve(p, today).Ok?
    ensures NotEmpty(Resolve(p, today))
  {
    match p
    case Today => DayRangeSpan("today", today, 0);
    case LastDays(count) => DayRangeSpan("recent_days", today, Clamp(count, 1, 366) - 1);
    case FewDays => DayRangeSpan("recent_days", today, 6);
    case Yesterday => YesterdayNotEmpty(today);
    case LastMonths(count) => LastMonthsNotEmpty(count, today);
    case ThisWeek => WeekRangeNotEmpty("current_week", today, 0);
    case LastWeek => WeekRangeNotEmpty("previous_week", today, 1);
    case LastMonth => LastOfPreviousMonth(today);
    case _ =>
  }

  /** "N days" from 1 to 366 holds exactly N days, the last of which is today; "0 days" holds today, and a larger number
      holds 366 days. */
  lemma LastDaysCount(count: nat, today: Date)
    requires Valid(today) && Resolve(LastDays(count), today).Ok?
    ensures var r := Resolve(LastDays(count), today);
            && NotEmpty(r) && AddDays(r.value.end.value, -1) == Some(today)
            && var days := Ordinal(r.value.end.value) - Ordinal(r.value.start.value);
               && (1 <= count <= 366 ==> days == count)
               && (count == 0 ==> days == 1 && r.value.start == Some(today))
               && (count > 366 ==> days == 366)
  {
    DayRangeSpan("recent_days", today, Clamp(count, 1, 366) - 1);
  }

  /** "N months" from 1 to 24 starts on the first day of the month that lies N months before this one; "0 months" in the
      month before, and a larger number two years before. It ends with today. */
  lemma LastMonthsStart(count: nat, today: Date)
    requires Valid(today) && Resolve(LastMonths(count), today).Ok?
    ensures var r := Resolve(LastMonths(count), today);
            && NotEmpty(r) && AddDays(r.value.end.value, -1) == Some(today)
            && var start := r.value.start.value;
               && start.day == 1
               && var back := 12 * (today.year - start.year) + (today.month - start.month);
                  && (1 <= count <= 24 ==> back == count)
                  && (count == 0 ==> back == 1)
                  && (count > 24 ==> back == 24 && start.year == today.year - 2 && start.month == today.month)
  {
    LastMonthsNotEmpty(count, today);
    AddDaysOrdinal(today, 1);
    AddDaysCompose(today, 1, 0);
  }

  /** The days a range of "N days" or "N months" selects, number by number. */
  lemma LastSelects(count: nat, today: Date, d: Date)
    requires Valid(today) && Valid(d)
    ensures Resolve(LastDays(count), today).Ok? ==>
              var taken := Selects(Resolve(LastDays(count), today), d);
              && (1 <= count <= 366 ==> (taken <==> 0 <= Ordinal(today) - Ordinal(d) < count))
              && (count == 0 ==> (taken <==> d == today))
              && (count > 366 ==> (taken <==> 0 <= Ordinal(today) - Ordinal(d) < 366))
    ensures Resolve(LastMonths(count), today).Ok? ==>
              var taken := Selects(Resolve(LastMonths(count), today), d);
              var back := 12 * (today.year - d.year) + (today.month - d.month);
              && (1 <= count <= 24 ==> (taken <==> !Before(today, d) && back <= count))
              && (count == 0 ==> (taken <==> !Before(today, d) && back <= 1))
              && (count > 24 ==> (taken <==> !Before(today, d) && back <= 24))
  {
    if Resolve(LastDays(count), today).Ok? {
      DayRangeSelects("recent_days", today, Clamp(count, 1, 366) - 1, d);
      OrdinalOrder(d, today);
    }
    if Resolve(LastMonths(count), today).Ok? { LastMonthsSelects(count, today, d); }
  }

  /** Weeks start on a Monday and hold seven days; this week's holds today, and the other ends a week before it ends. */
  lemma WeeksStartOnMonday(kind: string, today: Date, weeks: nat)
    requires Valid(today) && WeekRange(kind, today, weeks).Ok?
    ensures var r := WeekRange(kind, today, weeks).value;
            && r.start.Some? && r.end.Some? && Valid(r.start.value) && Valid(r.end.value)
            && Weekday(r.start.value) == 0
            && Ordinal(r.end.value) - Ordinal(r.start.value) == 7
            && 0 <= Ordinal(today) - Ordinal(r.start.value) - 7 * weeks < 7
  {
    var w := Weekday(today);
    var start := WeekStart(today, w, weeks, -(w + 7 * weeks));
    AddDaysOrdinal(start, 7);
  }

  lemma WeekStart(today: Date, w: int, weeks: nat, back: int) returns (start: Date)
    requires Valid(today) && w == Weekday(today) && back == -(w + 7 * weeks) && AddDays(today, back).Some?
    ensures start == AddDays(today, back).value && Ordinal(start) == Ordinal(today) + back && Weekday(start) == 0
  {
    start := AddDays(today, back).value;
    AddDaysOrdinal(today, back);
    IsMonday(start, Ordinal(today), w, weeks);
  }

  lemma IsMonday(start: Date, o: int, w: int, weeks: nat)
    requires w == (o + 6) % 7 && Ordinal(start) == o - w - 7 * weeks
    ensures Weekday(start) == 0
  {
    MondayBack(o, weeks);
  }

  lemma MondayBack(o: int, weeks: nat)
    ensures (o - (o + 6) % 7 - 7 * weeks + 6) % 7 == 0
  {
  }

  /** One range ends exactly where the other starts, whenever both exist. */
  predicate Meets(a: DateResult, b: DateResult) {
    a.Ok? && b.Ok? ==> a.value.end == b.value.start
  }

  lemma WeeksMeet(kinds: (string, string), today: Date)
    requires Valid(today)
    ensures Meets(WeekRange(kinds.0, today, 1), WeekRange(kinds.1, today, 0))
  {
    var back := -(Weekday(today) + 7);
    if AddDays(today, back).Some? { AddDaysCompose(today, back, 7); }
  }

  /** The previous week, month and year end exactly where the current one starts. */
  lemma PreviousMeetsCurrent(today: Date)
    requires Valid(today)
    ensures Meets(Resolve(LastWeek, today), Resolve(ThisWeek, today))
    ensures Meets(Resolve(LastMonth, today), Resolve(ThisMonth, today))
    ensures Meets(Resolve(LastYear, today), Resolve(ThisYear, today))
  {
    WeeksMeet(("previous_week", "current_week"), today);
  }

  /** The four quarters tile the year: a day of the year is in one quarter and in no other. */
  lemma QuartersTile(year: int, today: Date, d: Date)
    requires Valid(today) && Valid(d) && 2000 <= year <= 2099
    ensures Selects(Resolve(YearOf(year), today), d)
        <==> exists q :: 1 <= q <= 4 && Selects(Resolve(QuarterOf(year, q), today), d)
    ensures forall q, r | 1 <= q <= 4 && 1 <= r <= 4 ::
              Selects(Resolve(QuarterOf(year, q), today), d) && Selects(Resolve(QuarterOf(year, r), today), d)
              ==> q == r
  {
    RangeIsMeaning(YearOf(year), today, d);
    forall q | 1 <= q <= 4
      ensures Selects(Resolve(QuarterOf(year, q), today), d)
          <==> Stands(QuarterOf(year, q), today, d)
    {
      RangeIsMeaning(QuarterOf(year, q), today, d);
    }
    var quarter := (d.month - 1) / 3 + 1;
    if d.year == year { assert Selects(Resolve(QuarterOf(year, quarter), today), d); }
  }

  /** So do the twelve months of the current year; in the year 9999 neither the year nor its December has a range. */
  lemma MonthsTile(today: Date, d: Date)
    requires Valid(today) && Valid(d) && today.year < 9999
    ensures Selects(Resolve(ThisYear, today), d)
        <==> exists m :: 1 <= m <= 12 && Selects(Resolve(MonthNumber(m), today), d)
    ensures forall m, n | 1 <= m <= 12 && 1 <= n <= 12 ::
              Selects(Resolve(MonthNumber(m), today), d) && Selects(Resolve(MonthNumber(n), today), d)
              ==> m == n
  {
    RangeIsMeaning(ThisYear, today, d);
    forall m | 1 <= m <= 12
      ensures Selects(Resolve(MonthNumber(m), today), d) <==> Stands(MonthNumber(m), today, d)
    {
      assert Resolve(MonthNumber(m), today).Ok?;
      RangeIsMeaning(MonthNumber(m), today, d);
    }
    if d.year == today.year { assert Selects(Resolve(MonthNumber(d.month), today), d); }
  }

  // ---- Failures -----------------------------------------------------------------------------

  /** The range would leave years 1 to 9999. */
  predicate Leaves(p: Phrase, today: Date)
    requires Valid(today)
  {
    match p
    case Today => IsLast(today)
    case Yesterday => IsFirst(today)
    case LastDays(count) =>
      IsLast(today) || Ordinal(today) < (if count == 0 then 1 else if count <= 366 then count else 366)
    case FewDays => IsLast(today) || Ordinal(today) < 7
    case LastMonths(count) =>
      IsLast(today) || MonthIndex(today) < 13 + (if count == 0 then 1 else if count <= 24 then count else 24)
    case ThisWeek => Ordinal(today) - Weekday(today) + 7 > MAX_ORDINAL
    case LastWeek => Ordinal(today) <= 7
    case ThisMonth => today.year == 9999 && today.month == 12
    case LastMonth => today.year == 1 && today.month == 1
    case ThisYear => today.year == 9999
    case LastYear => today.year == 1
    case MonthNumber(month) => today.year == 9999 && month == 12
    case _ => false
  }

  lemma DayRangeFails(kind: string, today: Date, back: int)
    requires Valid(today) && back >= 0
    ensures DayRange(kind, today, back).Err? <==> IsLast(today) || Ordinal(today) <= back
  {
    OrdinalBounds(today);
    AddDaysOrdinal(today, 1);
    AddDaysOrdinal(today, -back);
  }

  lemma WeekRangeFails(kind: string, today: Date, weeks: int)
    requires Valid(today)
    ensures WeekRange(kind, today, weeks).Err? <==>
            var monday := Ordinal(today) - Weekday(today) - 7 * weeks;
            monday < 1 || monday + 7 > MAX_ORDINAL
  {
    var back := -(Weekday(today) + 7 * weeks);
    OrdinalBounds(today);
    AddDaysOrdinal(today, back);
    if AddDays(today, back).Some? { AddDaysOrdinal(AddDays(today, back).value, 7); }
  }

  lemma MondayExists(o: int)
    requires o >= 1
    ensures o - (o + 6) % 7 >= 1
    ensures o - (o + 6) % 7 - 7 < 1 <==> o <= 7
  {
  }

  lemma MondayBounds(today: Date, o: int, w: int)
    requires Valid(today) && o == Ordinal(today) && w == Weekday(today)
    ensures 1 <= o - w && o <= MAX_ORDINAL && 0 <= w && (o - w - 7 < 1 <==> o <= 7)
  {
    OrdinalInRange(today);
    MondayExists(o);
  }

  lemma ThisWeekFails(today: Date)
    requires Valid(today)
    ensures Resolve(ThisWeek, today).Err? <==> Leaves(ThisWeek, today)
  {
    MondayBounds(today, Ordinal(today), Weekday(today));
    WeekRangeFails("current_week", today, 0);
  }

  lemma LastWeekFails(today: Date)
    requires Valid(today)
    ensures Resolve(LastWeek, today).Err? <==> Leaves(LastWeek, today)
  {
    MondayBounds(today, Ordinal(today), Weekday(today));
    WeekRangeFails("previous_week", today, 1);
  }

  lemma LastMonthsFails(count: nat, today: Date)
    requires Valid(today)
    ensures Resolve(LastMonths(count), today).Err? <==> Leaves(LastMonths(count), today)
  {
    OrdinalBounds(today);
    AddDaysOrdinal(today, 1);
  }

  lemma YesterdayFails(today: Date)
    requires Valid(today)
    ensures Resolve(Yesterday, today).Err? <==> Leaves(Yesterday, today)
  {
    OneBack(today);
  }

  lemma OneBack(d: Date)
    requires Valid(d)
    ensures AddDays(d, -1).None? <==> IsFirst(d)
  {
    OrdinalBounds(d);
    AddDaysOrdinal(d, -1);
  }

  lemma LastMonthFails(today: Date)
    requires Valid(today)
    ensures Resolve(LastMonth, today).Err? <==> today.year == 1 && today.month == 1
  {
    OrdinalBounds(FirstOfMonth(today));
    AddDaysOrdinal(FirstOfMonth(today), -1);
  }

  /** A phrase raises exactly when its range would leave years 1 to 9999. */
  lemma ResolveFailsExactly(p: Phrase, today: Date)
    requires Valid(today) && Captured(p)
    ensures Resolve(p, today).Err? <==> Leaves(p, today)
  {
    match p
    case Today => DayRangeFails("today", today, 0); OrdinalBounds(today);
    case LastDays(count) => DayRangeFails("recent_days", today, Clamp(count, 1, 366) - 1);
    case FewDays => DayRangeFails("recent_days", today, 6);
    case Yesterday => YesterdayFails(today);
    case LastMonths(count) => LastMonthsFails(count, today);
    case ThisWeek => ThisWeekFails(today);
    case LastWeek => LastWeekFails(today);
    case LastMonth => LastMonthFails(today);
    case _ =>
  }
}
