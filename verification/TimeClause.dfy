/** From a time phrase to the rows it selects: the emitted clause takes exactly the instants of the days meant. */
module TimeClause {
  import opened Wrappers
  import opened Calendar
  import opened TimeRanges
  import opened QueryDsl
  import opened SqlCompiler

  /** The instant, in seconds, falls on the day. */
  predicate FallsOn(instant: int, d: Date) { Midnight(d) <= instant < Midnight(d) + SECONDS_PER_DAY }

  lemma KindSaysDated(p: Phrase, today: Date)
    requires Valid(today) && IsDated(p) && Resolve(p, today).Ok?
    ensures Resolve(p, today).value.kind != "none" && Resolve(p, today).value.kind != "latest_record"
  {
  }

  lemma HalfOpen(start: Date, end: Date, d: Date, instant: int)
    requires Valid(start) && Valid(end) && Valid(d) && FallsOn(instant, d)
    ensures PeriodTruth(IsoFormat(start), IsoFormat(end), Some(instant)) == True
        <==> !Before(d, start) && Before(d, end)
  {
    IsoReads(start);
    IsoReads(end);
    OrdinalOrder(d, start);
    OrdinalOrder(d, end);
  }

  /** The clause of a resolved phrase is true of a row exactly when the row's day is one the phrase stands for. */
  lemma PhraseSelectsItsDays(p: Phrase, today: Date, d: Date, instant: int, host: Host, params: Parameters, row: Row)
    requires Valid(today) && Captured(p) && IsDated(p) && Resolve(p, today).Ok?
    requires Valid(d) && FallsOn(instant, d) && row.period == Some(instant)
    ensures var clause := ParsedClause(Resolve(p, today).value);
            && clause.Some?
            && (AtomTruth(host, clause.value, params, row) == True <==> Stands(p, today, d))
  {
    var f := RangeOf(p, today, d);
    ClauseTakes(f, d, instant, host, params, row);
  }

  predicate IsRange(f: TimeFilter) {
    && f.kind != "none" && f.kind != "latest_record"
    && f.start.Some? && f.end.Some? && Valid(f.start.value) && Valid(f.end.value)
  }

  lemma RangeOf(p: Phrase, today: Date, d: Date) returns (f: TimeFilter)
    requires Valid(today) && Captured(p) && IsDated(p) && Resolve(p, today).Ok? && Valid(d)
    ensures f == Resolve(p, today).value && IsRange(f) && (InRange(f, d) <==> Stands(p, today, d))
  {
    f := Resolve(p, today).value;
    KindSaysDated(p, today);
    RangeNotEmpty(p, today);
    RangeIsMeaning(p, today, d);
  }

  lemma ClauseTakes(f: TimeFilter, d: Date, instant: int, host: Host, params: Parameters, row: Row)
    requires IsRange(f) && Valid(d) && FallsOn(instant, d) && row.period == Some(instant)
    ensures ParsedClause(f).Some? && (AtomTruth(host, ParsedClause(f).value, params, row) == True <==> InRange(f, d))
  {
    var start, end := IsoFormat(f.start.value), IsoFormat(f.end.value);
    assert ParsedClause(f) == Some(PeriodWithin(start, end));
    PeriodAtom(host, start, end, params, row);
    HalfOpen(f.start.value, f.end.value, d, instant);
  }

  lemma PeriodAtom(host: Host, start: string, end: string, params: Parameters, row: Row)
    ensures AtomTruth(host, PeriodWithin(start, end), params, row) == PeriodTruth(start, end, row.period)
  {
  }

  /** Phrases without a range select every row. */
  lemma NoRangeNoClause(p: Phrase, today: Date)
    requires Valid(today) && !IsDated(p)
    ensures Resolve(p, today).Ok? && ParsedClause(Resolve(p, today).value).None?
  {
  }
}
