/** Gregorian dates as `datetime.date` has them (years 1 to 9999); the leap-year and
    month-length rules are those of section 5.7 and Appendix C of RFC 3339. */
module Calendar {
  import opened Wrappers
  import opened Text

  datatype Date = Date(year: int, month: int, day: int)

  const MAX_ORDINAL := 3652059

  predicate IsFirst(d: Date) { d.year == 1 && d.month == 1 && d.day == 1 }

  predicate IsLast(d: Date) { d.year == 9999 && d.month == 12 && d.day == 31 }

  predicate IsLeap(year: int) { year % 4 == 0 && (year % 100 != 0 || year % 400 == 0) }

  function DaysInMonth(year: int, month: int): int {
    if month == 2 then (if IsLeap(year) then 29 else 28)
    else if month == 4 || month == 6 || month == 9 || month == 11 then 30
    else 31
  }

  predicate Valid(d: Date) {
    1 <= d.year <= 9999 && 1 <= d.month <= 12 && 1 <= d.day <= DaysInMonth(d.year, d.month)
  }

  predicate Before(a: Date, b: Date) {
    a.year < b.year ||
    (a.year == b.year && (a.month < b.month || (a.month == b.month && a.day < b.day)))
  }

  /** The days that exist. */
  lemma ValidInFull(year: int, month: int, day: int)
    ensures Valid(Date(year, month, day))
        <==> && 1 <= year <= 9999 && 1 <= day
             && (|| (month in {1, 3, 5, 7, 8, 10, 12} && day <= 31)
                 || (month in {4, 6, 9, 11} && day <= 30)
                 || (month == 2 && day <= 28)
                 || (month == 2 && day == 29 && year % 4 == 0 && (year % 100 == 0 ==> year % 400 == 0)))
  {
  }

  // ---- Day numbers ------------------------------------------------------------------

  function YearLength(year: int): int { if IsLeap(year) then 366 else 365 }

  function DaysBeforeYear(year: int): int {
    var y := year - 1;
    y * 365 + y / 4 - y / 100 + y / 400
  }

  function DaysBeforeMonth(year: int, month: int): int {
    var leap := if IsLeap(year) then 1 else 0;
    if month == 1 then 0 else if month == 2 then 31
    else if month == 3 then 59 + leap else if month == 4 then 90 + leap
    else if month == 5 then 120 + leap else if month == 6 then 151 + leap
    else if month == 7 then 181 + leap else if month == 8 then 212 + leap
    else if month == 9 then 243 + leap else if month == 10 then 273 + leap
    else if month == 11 then 304 + leap else 334 + leap
  }

  /** `date.toordinal()`: 1 January of year 1 is day 1. */
  function Ordinal(d: Date): int
  {
    DaysBeforeYear(d.year) + DaysBeforeMonth(d.year, d.month) + d.day
  }

  /** The day after `d`, by the calendar's own rules and no arithmetic on day numbers. */
  function NextDay(d: Date): (r: Date)
    requires Valid(d) && !IsLast(d)
    ensures Valid(r)
  {
    if d.day < DaysInMonth(d.year, d.month) then d.(day := d.day + 1)
    else if d.month < 12 then Date(d.year, d.month + 1, 1)
    else Date(d.year + 1, 1, 1)
  }

  function PrevDay(d: Date): (r: Date)
    requires Valid(d) && !IsFirst(d)
    ensures Valid(r)
  {
    if d.day > 1 then d.(day := d.day - 1)
    else if d.month > 1 then Date(d.year, d.month - 1, DaysInMonth(d.year, d.month - 1))
    else Date(d.year - 1, 12, 31)
  }

  lemma DivisionStep(y: int, k: int)
    requires k == 4 || k == 100 || k == 400
    ensures y / k == (y - 1) / k + (if y % k == 0 then 1 else 0)
  {
  }

  lemma MonthStep(year: int, month: int)
    requires 1 <= month < 12
    ensures DaysBeforeMonth(year, month + 1) == DaysBeforeMonth(year, month) + DaysInMonth(year, month)
  {
  }

  /** The closed forms count the days of the months and years one after the other. */
  lemma YearStep(year: int)
    ensures DaysBeforeYear(year + 1) == DaysBeforeYear(year) + YearLength(year)
    ensures DaysBeforeMonth(year, 12) + DaysInMonth(year, 12) == YearLength(year)
  {
    YearsStep(year);
    MonthsFill(year);
  }

  lemma YearsStep(year: int)
    ensures DaysBeforeYear(year + 1) == DaysBeforeYear(year) + YearLength(year)
  {
    DivisionStep(year, 4);
    DivisionStep(year, 100);
    DivisionStep(year, 400);
    LeapMultiples(year);
  }

  lemma LeapMultiples(year: int)
    ensures year % 100 == 0 ==> year % 4 == 0
    ensures year % 400 == 0 ==> year % 100 == 0
  {
  }

  lemma MonthsFill(year: int)
    ensures DaysBeforeMonth(year, 12) + DaysInMonth(year, 12) == YearLength(year)
  {
  }

  lemma NextDayOrdinal(d: Date)
    requires Valid(d) && !IsLast(d)
    ensures Ordinal(NextDay(d)) == Ordinal(d) + 1
    ensures PrevDay(NextDay(d)) == d
  {
    YearStep(d.year);
    if d.day == DaysInMonth(d.year, d.month) && d.month < 12 { MonthStep(d.year, d.month); }
  }

  lemma PrevDayOrdinal(d: Date)
    requires Valid(d) && !IsFirst(d)
    ensures Ordinal(PrevDay(d)) == Ordinal(d) - 1
    ensures NextDay(PrevDay(d)) == d
  {
    BackAndForth(d);
    NextDayOrdinal(PrevDay(d));
  }

  lemma BackAndForth(d: Date)
    requires Valid(d) && !IsFirst(d)
    ensures !IsLast(PrevDay(d)) && NextDay(PrevDay(d)) == d
  {
  }

  lemma WithinYear(d: Date)
    requires Valid(d)
    ensures 0 < Ordinal(d) - DaysBeforeYear(d.year) <= YearLength(d.year)
  {
  }

  lemma {:induction false} YearsGrow(a: int, b: int)
    requires 1 <= a <= b
    ensures DaysBeforeYear(a) <= DaysBeforeYear(b)
    decreases b - a
  {
    if a < b { YearStep(b - 1); YearsGrow(a, b - 1); }
  }

  lemma {:induction false} MonthsGrow(year: int, a: int, b: int)
    requires 1 <= a < b <= 12
    ensures DaysBeforeMonth(year, a) + DaysInMonth(year, a) <= DaysBeforeMonth(year, b)
    decreases b - a
  {
    MonthStep(year, b - 1);
    if a + 1 < b { MonthsGrow(year, a, b - 1); }
  }

  lemma BeforeOrdinal(a: Date, b: Date)
    requires Valid(a) && Valid(b) && Before(a, b)
    ensures Ordinal(a) < Ordinal(b)
  {
    if a.year < b.year {
      WithinYear(a);
      WithinYear(b);
      YearStep(a.year);
      YearsGrow(a.year + 1, b.year);
    } else if a.month < b.month {
      MonthsGrow(a.year, a.month, b.month);
    }
  }

  /** Day numbers order dates exactly as the calendar does, so they identify them. */
  lemma OrdinalOrder(a: Date, b: Date)
    requires Valid(a) && Valid(b)
    ensures Before(a, b) <==> Ordinal(a) < Ordinal(b)
    ensures a == b <==> Ordinal(a) == Ordinal(b)
  {
    if Before(a, b) { BeforeOrdinal(a, b); }
    else if Before(b, a) { BeforeOrdinal(b, a); }
    else { assert a == b; }
  }

  lemma EndOrdinals(d: Date)
    ensures IsFirst(d) ==> Ordinal(d) == 1
    ensures IsLast(d) ==> Ordinal(d) == MAX_ORDINAL
  {
  }

  lemma BeforeLast(d: Date)
    requires Valid(d) && !IsLast(d)
    ensures Ordinal(d) < MAX_ORDINAL
  {
    var last := Date(9999, 12, 31);
    EndOrdinals(last);
    BeforeOrdinal(d, last);
  }

  lemma AfterFirst(d: Date)
    requires Valid(d) && !IsFirst(d)
    ensures Ordinal(d) > 1
  {
    if d.year > 1 {
      assert DaysBeforeYear(2) == 365;
      YearsGrow(2, d.year);
      WithinYear(d);
    } else {
      assert DaysBeforeYear(d.year) == 0;
    }
  }

  lemma OrdinalBounds(d: Date)
    requires Valid(d)
    ensures 1 <= Ordinal(d) <= MAX_ORDINAL
    ensures Ordinal(d) == 1 <==> IsFirst(d)
    ensures Ordinal(d) == MAX_ORDINAL <==> IsLast(d)
  {
    EndOrdinals(d);
    if !IsFirst(d) { AfterFirst(d); }
    if !IsLast(d) { BeforeLast(d); }
  }

  lemma OrdinalInRange(d: Date)
    requires Valid(d)
    ensures 1 <= Ordinal(d) <= MAX_ORDINAL
  {
    OrdinalBounds(d);
  }

  // ---- Adding days -------------------------------------------------------------------

  /** `d + timedelta(days=n)`; None is the OverflowError of a date outside years 1 to 9999. */
  function AddDays(d: Date, n: int): (r: Option<Date>)
    requires Valid(d)
    ensures r.Some? ==> Valid(r.value)
    decreases if n < 0 then -n else n, d.day
  {
    if n == 0 then Some(d)
    else if n > 0 then (if IsLast(d) then None else AddDays(NextDay(d), n - 1))
    else (if IsFirst(d) then None else AddDays(PrevDay(d), n + 1))
  }

  /** The move by `n` days from day number `from` lands on the day with that number, or outside the calendar. */
  predicate Lands(from: int, n: int, r: Option<Date>) {
    if 1 <= from + n <= MAX_ORDINAL then r.Some? && Ordinal(r.value) == from + n else r.None?
  }

  lemma Tomorrow(d: Date, n: int) returns (e: Date)
    requires Valid(d) && n > 0 && !IsLast(d)
    ensures Valid(e) && Ordinal(e) == Ordinal(d) + 1 && AddDays(d, n) == AddDays(e, n - 1)
  {
    e := NextDay(d);
    NextDayOrdinal(d);
  }

  lemma DayBefore(d: Date, n: int) returns (e: Date)
    requires Valid(d) && n < 0 && !IsFirst(d)
    ensures Valid(e) && Ordinal(e) == Ordinal(d) - 1 && AddDays(d, n) == AddDays(e, n + 1)
  {
    e := PrevDay(d);
    PrevDayOrdinal(d);
  }

  /** A move that ends at once: no days, or no day left. */
  lemma LandsAtOnce(d: Date, n: int)
    requires Valid(d) && (n == 0 || (n > 0 && IsLast(d)) || (n < 0 && IsFirst(d)))
    ensures Lands(Ordinal(d), n, AddDays(d, n))
  {
    OrdinalBounds(d);
  }

  lemma {:induction false} MovesForward(d: Date, n: nat, from: int, r: Option<Date>)
    requires Valid(d) && from == Ordinal(d) && r == AddDays(d, n)
    ensures Lands(from, n, r)
    decreases n
  {
    if n == 0 || IsLast(d) {
      LandsAtOnce(d, n);
    } else {
      var e := Tomorrow(d, n);
      MovesForward(e, n - 1, from + 1, r);
    }
  }

  lemma {:induction false} MovesBack(d: Date, n: int, from: int, r: Option<Date>)
    requires Valid(d) && n <= 0 && from == Ordinal(d) && r == AddDays(d, n)
    ensures Lands(from, n, r)
    decreases -n
  {
    if n == 0 || IsFirst(d) {
      LandsAtOnce(d, n);
    } else {
      var e := DayBefore(d, n);
      MovesBack(e, n + 1, from - 1, r);
    }
  }

  lemma AddDaysOrdinal(d: Date, n: int)
    requires Valid(d)
    ensures AddDays(d, n).Some? <==> 1 <= Ordinal(d) + n <= MAX_ORDINAL
    ensures AddDays(d, n).Some? ==> Ordinal(AddDays(d, n).value) == Ordinal(d) + n
  {
    var from, r := Ordinal(d), AddDays(d, n);
    if n >= 0 { MovesForward(d, n, from, r); } else { MovesBack(d, n, from, r); }
    if r.Some? { OrdinalBounds(r.value); }
  }

  /** Moving by m and then by n is moving by m + n, and moving back undoes it. */
  lemma AddDaysCompose(d: Date, m: int, n: int)
    requires Valid(d) && AddDays(d, m).Some?
    ensures AddDays(AddDays(d, m).value, n) == AddDays(d, m + n)
    ensures AddDays(AddDays(d, m).value, -m) == Some(d)
  {
    var e := AddDays(d, m).value;
    AddDaysOrdinal(d, m);
    AddDaysUnique(e, n, d, m + n);
    AddDaysUnique(e, -m, d, 0);
  }

  /** Two moves that aim at the same day number have the same outcome. */
  lemma AddDaysUnique(a: Date, m: int, b: Date, n: int)
    requires Valid(a) && Valid(b) && Ordinal(a) + m == Ordinal(b) + n
    ensures AddDays(a, m) == AddDays(b, n)
  {
    AddDaysOrdinal(a, m);
    AddDaysOrdinal(b, n);
    if AddDays(a, m).Some? { SameDay(AddDays(a, m).value, AddDays(b, n).value); }
  }

  lemma SameDay(a: Date, b: Date)
    requires Valid(a) && Valid(b) && Ordinal(a) == Ordinal(b)
    ensures a == b
  {
    OrdinalOrder(a, b);
  }

  /** `date.weekday()`: Monday is 0. */
  function Weekday(d: Date): (w: int)
    ensures 0 <= w < 7
  {
    (Ordinal(d) + 6) % 7
  }

  lemma NextRemainder(o: int)
    ensures (o + 1 + 6) % 7 == if (o + 6) % 7 == 6 then 0 else (o + 6) % 7 + 1
  {
  }

  lemma WeekdayOf(d: Date, o: int)
    requires o == Ordinal(d)
    ensures Weekday(d) == (o + 6) % 7
  {
  }

  /** The first day of the calendar, day number 1, is a Monday. */
  lemma CalendarStartsOnMonday(d: Date)
    requires Ordinal(d) == 1
    ensures Weekday(d) == 0
  {
    WeekdayOf(d, 1);
  }

  /** The weekdays follow one another. */
  lemma WeekdaysFollow(d: Date, e: Date, w: int)
    requires Valid(d) && !IsLast(d) && e == NextDay(d) && w == Weekday(d)
    ensures Weekday(e) == if w == 6 then 0 else w + 1
  {
    var o := DayAfter(d, e);
    WeekdayOf(d, o);
    WeekdayOf(e, o + 1);
    NextRemainder(o);
  }

  lemma DayAfter(d: Date, e: Date) returns (o: int)
    requires Valid(d) && !IsLast(d) && e == NextDay(d)
    ensures o == Ordinal(d) && o + 1 == Ordinal(e)
  {
    NextDayOrdinal(d);
    o := Ordinal(d);
  }

  // ---- Text form: full-date of section 5.6 of RFC 3339 ---------------------------------

  /** `d.isoformat()` */
  function IsoFormat(d: Date): string
    requires Valid(d)
  {
    ZeroPad(d.year, 4) + "-" + ZeroPad(d.month, 2) + "-" + ZeroPad(d.day, 2)
  }

  /** `date.fromisoformat(s)` on the YYYY-MM-DD form; None is its ValueError. */
  function FromIsoFormat(s: string): (r: Option<Date>)
    ensures r.Some? ==> Valid(r.value)
  {
    if |s| == 10 && s[4] == '-' && s[7] == '-'
       && AllDigits(s[..4]) && AllDigits(s[5..7]) && AllDigits(s[8..])
    then
      var d := Date(Value(s[..4]), Value(s[5..7]), Value(s[8..]));
      if Valid(d) then Some(d) else None
    else None
  }

  lemma PowTable()
    ensures Pow10(2) == 100 && Pow10(4) == 10000
  {
    assert Pow10(0) == 1;
    assert Pow10(1) == 10;
    assert Pow10(3) == 1000;
  }

  /** Four digits of the year, two of the month and two of the day, with a hyphen between. */
  lemma IsoInFull(d: Date)
    requires Valid(d)
    ensures var s := IsoFormat(d);
            && |s| == 10 && s[4] == '-' && s[7] == '-'
            && AllDigits(s[..4]) && AllDigits(s[5..7]) && AllDigits(s[8..])
            && Value(s[..4]) == d.year && Value(s[5..7]) == d.month && Value(s[8..]) == d.day
  {
    PowTable();
    ZeroPadReads(d.year, 4);
    ZeroPadReads(d.month, 2);
    ZeroPadReads(d.day, 2);
    var s := IsoFormat(d);
    assert s[..4] == ZeroPad(d.year, 4);
    assert s[5..7] == ZeroPad(d.month, 2);
    assert s[8..] == ZeroPad(d.day, 2);
  }

  lemma IsoReads(d: Date)
    requires Valid(d)
    ensures |IsoFormat(d)| == 10
    ensures FromIsoFormat(IsoFormat(d)) == Some(d)
  {
    IsoInFull(d);
  }

  lemma {:induction false} ValueBound(s: string)
    requires AllDigits(s)
    ensures Value(s) < Pow10(|s|)
  {
    if s != "" { ValueBound(s[..|s| - 1]); }
  }

  /** Digit runs of one length are told apart by their value. */
  lemma {:induction false} ValueInjective(a: string, b: string)
    requires AllDigits(a) && AllDigits(b) && |a| == |b| && Value(a) == Value(b)
    ensures a == b
  {
    if a != "" {
      var n := |a| - 1;
      ValueInjective(a[..n], b[..n]);
      assert a == a[..n] + [a[n]];
      assert b == b[..n] + [b[n]];
    }
  }

  /** Only the text that `isoformat` prints is read as a date: reading and printing are inverse. */
  lemma IsoExact(s: string)
    requires FromIsoFormat(s).Some?
    ensures IsoFormat(FromIsoFormat(s).value) == s
  {
    var d := FromIsoFormat(s).value;
    PowTable();
    ZeroPadReads(d.year, 4);
    ZeroPadReads(d.month, 2);
    ZeroPadReads(d.day, 2);
    ValueInjective(ZeroPad(d.year, 4), s[..4]);
    ValueInjective(ZeroPad(d.month, 2), s[5..7]);
    ValueInjective(ZeroPad(d.day, 2), s[8..]);
    assert s == s[..4] + "-" + s[5..7] + "-" + s[8..];
  }
}
