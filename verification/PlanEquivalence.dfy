/** The two back ends select the same rows. */
module PlanEquivalence {
  import opened Wrappers
  import opened Text
  import opened Calendar
  import opened TimeRanges
  import opened QueryDsl
  import opened SqlCompiler
  import opened CubeCompiler
  import opened SqlText

  // ---- Values: when the two encodings of one filter agree ------------------------------------

  function UpperTexts(host: Host, values: seq<Literal>): set<string> {
    set v | v in values :: UpperText(host, v)
  }

  function PlainTexts(values: seq<Literal>): set<string> {
    set v | v in values :: v.text
  }

  /** The values SQL compares with (upper case, and only the first for eq and ne) are the values
      Cube compares with (as written, and all of them); bounds of between are text. */
  predicate Aligned(host: Host, f: Filter) {
    match f.op
    case Eq => f.values != [] && {UpperText(host, f.values[0])} == PlainTexts(f.values)
    case Ne => f.values != [] && {UpperText(host, f.values[0])} == PlainTexts(f.values)
    case In => f.values != [] && UpperTexts(host, f.values) == PlainTexts(f.values)
    case NotIn => f.values != [] && UpperTexts(host, f.values) == PlainTexts(f.values)
    case Between => |f.values| == 2 ==> f.values[0].TextValue? && f.values[1].TextValue?
    case Like => false
    case IsNull => true
    case NotNull => true
  }

  predicate AllKeep(host: Host, cube: string, f: Filter, cell: Option<string>) {
    forall g :: g in CubeFiltersOf(cube, f) ==> OperatorKeeps(host, g.operator, g.values, cell)
  }

  lemma TextsMembership(values: seq<Literal>, s: string)
    ensures s in Texts(values) <==> s in PlainTexts(values)
  {
    if v :| v in values && v.text == s {
      var i :| 0 <= i < |values| && values[i] == v;
      assert Texts(values)[i] == s;
    }
    if s in Texts(values) {
      var i :| 0 <= i < |values| && Texts(values)[i] == s;
      assert values[i] in values;
    }
  }

  predicate IsNegation(f: Filter) { f.op == Ne || f.op == NotIn }

  /** On any cell, null included: SQL keeps exactly what Cube keeps, except that Cube also keeps a
      null under a negated comparison. */
  lemma FilterAgrees(host: Host, cube: string, f: Filter, cell: Option<string>)
    requires Aligned(host, f)
    ensures FilterTruth(host, f, cell) == True
        <==> AllKeep(host, cube, f, cell) && (IsNegation(f) ==> cell.Some?)
  {
    if cell.Some? && (f.op == Eq || f.op == Ne || f.op == In || f.op == NotIn) {
      ListAgrees(host, cube, f, cell.value);
    } else if f.op == Between && |f.values| == 2 {
      BetweenAgrees(host, cube, f, cell);
    } else if f.op != Between {
      assert CubeFiltersOf(cube, f)[0] in CubeFiltersOf(cube, f);
    }
  }

  lemma BetweenAgrees(host: Host, cube: string, f: Filter, cell: Option<string>)
    requires f.op == Between && |f.values| == 2 && Aligned(host, f)
    ensures FilterTruth(host, f, cell) == True <==> AllKeep(host, cube, f, cell)
  {
    var gs := CubeFiltersOf(cube, f);
    assert gs[0] in gs && gs[1] in gs;
    assert forall g :: g in gs ==> g == gs[0] || g == gs[1];
  }

  predicate SqlTakes(host: Host, f: Filter, s: string)
  {
    FilterTruth(host, f, Some(s)) == True
  }

  lemma ListAgrees(host: Host, cube: string, f: Filter, s: string)
    requires f.op == Eq || f.op == Ne || f.op == In || f.op == NotIn
    requires Aligned(host, f)
    ensures SqlTakes(host, f, s) <==> AllKeep(host, cube, f, Some(s))
  {
    TextsMembership(f.values, s);
    assert AllKeep(host, cube, f, Some(s))
      <==> OperatorKeeps(host, CubeFiltersOf(cube, f)[0].operator, Texts(f.values), Some(s));
    assert s in UpperTexts(host, f.values) <==> exists v :: v in f.values && s == UpperText(host, v);
  }

  /** The condition on values is exact: when it fails, some cell tells the two back ends apart. */
  lemma AlignedExactly(host: Host, cube: string, f: Filter)
    requires f.op == Eq || f.op == Ne || f.op == In || f.op == NotIn
    requires f.values != []
    ensures Aligned(host, f)
        <==> forall s: string :: SqlTakes(host, f, s) <==> AllKeep(host, cube, f, Some(s))
  {
    if Aligned(host, f) {
      forall s: string
        ensures SqlTakes(host, f, s) <==> AllKeep(host, cube, f, Some(s))
      {
        ListAgrees(host, cube, f, s);
      }
    } else {
      var taken := if f.op == Eq || f.op == Ne then {UpperText(host, f.values[0])} else UpperTexts(host, f.values);
      var s :| s in taken <==> s !in PlainTexts(f.values);
      TextsMembership(f.values, s);
      assert CubeFiltersOf(cube, f)[0] in CubeFiltersOf(cube, f);
      assert s in UpperTexts(host, f.values) <==> exists v :: v in f.values && s == UpperText(host, v);
      assert SqlTakes(host, f, s) != AllKeep(host, cube, f, Some(s));
    }
  }

  // ---- Member names ---------------------------------------------------------------------------

  /** No two columns of the model share a member name. */
  predicate Faithful(catalog: seq<string>) {
    forall i, j :: 0 <= i < j < |catalog| ==> SafeName(catalog[i]) != SafeName(catalog[j])
  }

  /** Two spellings of one column: column names are not case sensitive. */
  predicate SameColumn(host: Host, a: string, b: string) { Lower(a) == Lower(b) && host.Upper(a) == host.Upper(b) }

  predicate InCatalog(host: Host, catalog: seq<string>, column: string) {
    exists i :: 0 <= i < |catalog| && SameColumn(host, catalog[i], column)
  }

  /** The printed member name of a column leads back to the catalog's spelling of it. */
  lemma {:induction false} MemberFindsColumn(cube: string, catalog: seq<string>, column: string, i: nat)
    requires Faithful(catalog) && i < |catalog| && Lower(catalog[i]) == Lower(column)
    ensures ColumnOf(cube, catalog, Member(cube, column)) == Some(catalog[i])
  {
    SafeNameLower(catalog[i], column);
    FindsMember(cube, catalog, Member(cube, column), i);
  }

  lemma {:induction false} FindsMember(cube: string, catalog: seq<string>, member: string, i: nat)
    requires Faithful(catalog) && i < |catalog| && Member(cube, catalog[i]) == member
    ensures ColumnOf(cube, catalog, member) == Some(catalog[i])
  {
    if Member(cube, catalog[0]) == member {
      SameMember(cube, catalog[0], catalog[i]);
    } else {
      FaithfulRest(catalog);
      FindsMember(cube, catalog[1..], member, i - 1);
    }
  }

  lemma FaithfulRest(catalog: seq<string>)
    requires Faithful(catalog) && catalog != []
    ensures Faithful(catalog[1..])
  {
  }

  lemma SafeNameLower(a: string, b: string)
    requires Lower(a) == Lower(b)
    ensures SafeName(a) == SafeName(b)
  {
  }

  lemma SameMember(cube: string, a: string, b: string)
    requires Member(cube, a) == Member(cube, b)
    ensures SafeName(a) == SafeName(b)
  {
    assert SafeName(a) == Member(cube, a)[|cube| + 1..];
    assert SafeName(b) == Member(cube, b)[|cube| + 1..];
  }

  // ---- Dates -------------------------------------------------------------------------------------

  /** A half-open range of dates and the inclusive range one day shorter hold the same instants,
      across month, year and leap-day ends. */
  lemma DatesAgree(start: string, end: string, period: Option<int>)
    requires FromIsoFormat(start).Some? && FromIsoFormat(end).Some? && !IsFirst(FromIsoFormat(end).value)
    ensures InclusiveEnd(end).Ok?
    ensures PeriodTruth(start, end, period) == True
        <==> DateRangeKeeps(DateRange(start, InclusiveEnd(end).value), period)
  {
    var d := FromIsoFormat(end).value;
    OrdinalBounds(d);
    AddDaysOrdinal(d, -1);
    IsoReads(AddDays(d, -1).value);
  }

  /** The day before an end date is missing exactly when that date is the first of the calendar. */
  lemma InclusiveEndFails(end: string)
    ensures InclusiveEnd(end).Err? <==> FromIsoFormat(end).Some? && IsFirst(FromIsoFormat(end).value)
  {
    if FromIsoFormat(end).Some? {
      OrdinalBounds(FromIsoFormat(end).value);
      AddDaysOrdinal(FromIsoFormat(end).value, -1);
    }
  }

  // ---- Whole plans ---------------------------------------------------------------------------------

  /** The dates of the plan, if it gives both, are dates with a day before the end; without a time
      range of its own, the query text must not have added one on the SQL side. */
  predicate Dated(plan: Plan, parsed: TimeFilter) {
    match plan.time
    case None => ParsedClause(parsed).None?
    case Some(t) =>
      Bounded(t) ==>
        && FromIsoFormat(t.start.value).Some?
        && FromIsoFormat(t.end.value).Some? && !IsFirst(FromIsoFormat(t.end.value).value)
  }

  /** The columns filtered by are columns of the catalog, and the values are aligned. */
  predicate ComparableFilters(host: Host, catalog: seq<string>, plan: Plan) {
    && Faithful(catalog)
    && forall i :: 0 <= i < |plan.filters| && !IsTimeColumn(host, plan.filters[i].column) ==>
         && IsIdentifier(plan.filters[i].column) && InCatalog(host, catalog, plan.filters[i].column)
         && Aligned(host, plan.filters[i])
  }

  /** What a caller can check of a plan before running it. */
  predicate Comparable(host: Host, catalog: seq<string>, plan: Plan, parsed: TimeFilter) {
    Dated(plan, parsed) && ComparableFilters(host, catalog, plan)
  }

  /** No cell under a negated comparison is null. */
  predicate NegationsNotNull(host: Host, filters: seq<Filter>, n: nat, row: Row)
    requires n <= |filters|
  {
    forall i :: 0 <= i < n && Kept(host, filters[i]) && IsNegation(filters[i]) ==>
      CellOf(host, row, filters[i].column).Some?
  }

  predicate CubeFiltersKeep(host: Host, cube: string, catalog: seq<string>, filters: seq<Filter>, n: nat, row: Row)
    requires n <= |filters|
  {
    forall g :: g in CubeFiltersUpTo(host, cube, filters, n) ==> CubeFilterKeeps(host, cube, catalog, g, row)
  }

  /** The Cube filters of one plan filter keep the row. */
  predicate OwnFiltersKeep(host: Host, cube: string, catalog: seq<string>, f: Filter, row: Row) {
    forall g :: g in CubeFiltersOf(cube, f) ==> CubeFilterKeeps(host, cube, catalog, g, row)
  }

  lemma OneFilterKeeps(host: Host, cube: string, catalog: seq<string>, f: Filter, row: Row)
    requires Faithful(catalog) && InCatalog(host, catalog, f.column)
    ensures OwnFiltersKeep(host, cube, catalog, f, row)
        <==> AllKeep(host, cube, f, CellOf(host, row, f.column))
  {
    var i :| 0 <= i < |catalog| && SameColumn(host, catalog[i], f.column);
    MemberFindsColumn(cube, catalog, f.column, i);
    FoundFilterKeeps(host, cube, catalog, f, catalog[i], row);
  }

  lemma FoundFilterKeeps(host: Host, cube: string, catalog: seq<string>, f: Filter, column: string, row: Row)
    requires ColumnOf(cube, catalog, Member(cube, f.column)) == Some(column)
    requires host.Upper(column) == host.Upper(f.column)
    ensures OwnFiltersKeep(host, cube, catalog, f, row)
        <==> AllKeep(host, cube, f, CellOf(host, row, f.column))
  {
    forall g | g in CubeFiltersOf(cube, f)
      ensures CubeFilterKeeps(host, cube, catalog, g, row)
          <==> OperatorKeeps(host, g.operator, g.values, CellOf(host, row, f.column))
    {
      OwnMember(cube, f, g);
      MemberKeeps(host, cube, catalog, g, column, f.column, row);
    }
  }

  lemma OwnMember(cube: string, f: Filter, g: CubeFilter)
    requires g in CubeFiltersOf(cube, f)
    ensures g.member == Member(cube, f.column)
  {
  }

  lemma MemberKeeps(
      host: Host, cube: string, catalog: seq<string>, g: CubeFilter, column: string, same: string, row: Row)
    requires ColumnOf(cube, catalog, g.member) == Some(column) && host.Upper(column) == host.Upper(same)
    ensures CubeFilterKeeps(host, cube, catalog, g, row)
        <==> OperatorKeeps(host, g.operator, g.values, CellOf(host, row, same))
  {
  }

  lemma FiltersAgree(
      host: Host, cube: string, catalog: seq<string>, plan: Plan, n: nat, row: Row)
    requires ComparableFilters(host, catalog, plan) && n <= |plan.filters|
    ensures FiltersHold(host, plan.filters, n, row)
        <==> CubeFiltersKeep(host, cube, catalog, plan.filters, n, row)
             && NegationsNotNull(host, plan.filters, n, row)
  {
    KeepAll(host, cube, catalog, plan.filters, n, row, CubeFiltersKeep(host, cube, catalog, plan.filters, n, row));
    forall i | 0 <= i < n && !IsTimeColumn(host, plan.filters[i].column)
      ensures FilterAgreesOn(host, cube, catalog, plan.filters[i], row)
    {
      OneFilterAgrees(host, cube, catalog, plan, i, row);
    }
  }

  /** The filter is compiled, and Oracle selects by it exactly what Cube keeps by it, negated nulls aside. */
  predicate FilterAgreesOn(host: Host, cube: string, catalog: seq<string>, f: Filter, row: Row) {
    var cell := CellOf(host, row, f.column);
    && Kept(host, f)
    && (FilterTruth(host, f, cell) == True
        <==> OwnFiltersKeep(host, cube, catalog, f, row) && (IsNegation(f) ==> cell.Some?))
  }

  /** The filters of a plan keep a row when the filters of each of its own do. */
  lemma {:induction false} KeepAll(
      host: Host, cube: string, catalog: seq<string>, filters: seq<Filter>, n: nat, row: Row, keep: bool)
    requires n <= |filters| && keep == CubeFiltersKeep(host, cube, catalog, filters, n, row)
    ensures keep <==> forall i :: 0 <= i < n && !IsTimeColumn(host, filters[i].column) ==>
                        OwnFiltersKeep(host, cube, catalog, filters[i], row)
  {
    if n > 0 {
      var i := n - 1;
      KeepAll(host, cube, catalog, filters, i, row, CubeFiltersKeep(host, cube, catalog, filters, i, row));
      KeepAppend(host, cube, catalog, filters, i, n, row);
    }
  }

  lemma OneFilterAgrees(
      host: Host, cube: string, catalog: seq<string>, plan: Plan, i: nat, row: Row)
    requires ComparableFilters(host, catalog, plan) && i < |plan.filters|
    requires !IsTimeColumn(host, plan.filters[i].column)
    ensures FilterAgreesOn(host, cube, catalog, plan.filters[i], row)
  {
    var f := plan.filters[i];
    OneFilterKeeps(host, cube, catalog, f, row);
    FilterAgrees(host, cube, f, CellOf(host, row, f.column));
  }

  lemma KeepAppend(
      host: Host, cube: string, catalog: seq<string>, filters: seq<Filter>, i: nat, n: nat, row: Row)
    requires i + 1 == n <= |filters|
    ensures CubeFiltersKeep(host, cube, catalog, filters, n, row)
        <==> && CubeFiltersKeep(host, cube, catalog, filters, i, row)
             && (!IsTimeColumn(host, filters[i].column) ==> OwnFiltersKeep(host, cube, catalog, filters[i], row))
  {
    var a, b := CubeFiltersUpTo(host, cube, filters, i), CubeFiltersOf(cube, filters[i]);
    assert forall g :: g in a + b <==> g in a || g in b;
  }

  lemma OneTimeAtom(host: Host, plan: Plan, parsed: TimeFilter, a: Atom, row: Row)
    requires TimeAtoms(plan, parsed) == [a]
    ensures TimeHolds(host, plan, parsed, row) <==> AtomTruth(host, a, map[], row) == True
  {
    assert a in TimeAtoms(plan, parsed);
  }

  lemma BoundedRange(plan: Plan, t: TimeRange)
    requires plan.time == Some(t) && Bounded(t) && InclusiveEnd(t.end.value).Ok?
    ensures CubeDateRange(plan) == Ok(Some(DateRange(t.start.value, InclusiveEnd(t.end.value).value)))
  {
  }

  lemma BoundedTimesAgree(host: Host, plan: Plan, t: TimeRange, parsed: TimeFilter, row: Row)
    requires plan.time == Some(t) && Bounded(t) && Dated(plan, parsed)
    ensures CubeDateRange(plan).Ok? && CubeDateRange(plan).value.Some?
    ensures TimeHolds(host, plan, parsed, row)
        <==> DateRangeKeeps(CubeDateRange(plan).value.value, row.period)
  {
    var start, end := t.start.value, t.end.value;
    DatesAgree(start, end, row.period);
    BoundedRange(plan, t);
    BoundedAtom(plan, t, parsed);
    OneTimeAtom(host, plan, parsed, PeriodWithin(start, end), row);
    AtomIsPeriod(host, start, end, row);
  }

  lemma BoundedAtom(plan: Plan, t: TimeRange, parsed: TimeFilter)
    requires plan.time == Some(t) && Bounded(t)
    ensures TimeAtoms(plan, parsed) == [PeriodWithin(t.start.value, t.end.value)]
  {
  }

  lemma AtomIsPeriod(host: Host, start: string, end: string, row: Row)
    ensures AtomTruth(host, PeriodWithin(start, end), map[], row) == PeriodTruth(start, end, row.period)
  {
  }

  lemma TimesAgree(host: Host, plan: Plan, parsed: TimeFilter, row: Row)
    requires Dated(plan, parsed)
    ensures CubeDateRange(plan).Ok?
    ensures TimeHolds(host, plan, parsed, row)
        <==> var range := CubeDateRange(plan).value; range.Some? ==> DateRangeKeeps(range.value, row.period)
  {
    if plan.time.Some? && Bounded(plan.time.value) {
      BoundedTimesAgree(host, plan, plan.time.value, parsed, row);
    } else {
      assert TimeAtoms(plan, parsed) == [];
    }
  }

  /** On every row, nulls included, the SQL clause selects what the Cube query selects within the
      caller's department, less the rows with a null under a negated comparison. */
  lemma BackEndsAgree(
      host: Host, cube: string, catalog: seq<string>, plan: Plan, p: Principal, parsed: TimeFilter, row: Row)
    requires Comparable(host, catalog, plan, parsed)
    ensures SqlCompiler.Selects(host, WhereAtoms(host, plan, p, parsed), WhereParams(host, plan, p), row)
        <==> && InScope(p, row) && CubeKeeps(host, cube, catalog, plan, row)
             && NegationsNotNull(host, plan.filters, |plan.filters|, row)
  {
    WhereMeaning(host, plan, p, parsed, row);
    FiltersAgree(host, cube, catalog, plan, |plan.filters|, row);
    TimesAgree(host, plan, parsed, row);
  }

  /** A plan without a time range of its own: Oracle selects what Cube keeps, narrowed to the phrase that was found in
      the text of the question, if there was one. */
  lemma PhraseNarrows(
      host: Host, cube: string, catalog: seq<string>, plan: Plan, p: Principal, parsed: TimeFilter, row: Row)
    requires ComparableFilters(host, catalog, plan) && plan.time.None?
    ensures SqlCompiler.Selects(host, WhereAtoms(host, plan, p, parsed), WhereParams(host, plan, p), row)
        <==> && InScope(p, row) && CubeKeeps(host, cube, catalog, plan, row)
             && NegationsNotNull(host, plan.filters, |plan.filters|, row)
             && (ParsedClause(parsed).Some? ==> AtomTruth(host, ParsedClause(parsed).value, map[], row) == True)
  {
    WhereMeaning(host, plan, p, parsed, row);
    FiltersAgree(host, cube, catalog, plan, |plan.filters|, row);
    if ParsedClause(parsed).Some? { OneTimeAtom(host, plan, parsed, ParsedClause(parsed).value, row); }
  }

  /** So without a range of the plan's own, the phrase changes nothing for any row if and only if there is none. */
  lemma PhraseAgreesExactly(host: Host, plan: Plan, parsed: TimeFilter)
    requires plan.time.None?
    ensures CubeDateRange(plan) == Ok(None)
    ensures (forall row :: TimeHolds(host, plan, parsed, row)) <==> Dated(plan, parsed)
  {
    if ParsedClause(parsed).Some? {
      OneTimeAtom(host, plan, parsed, ParsedClause(parsed).value, Row(map[], None, None));
    } else {
      assert TimeAtoms(plan, parsed) == [];
    }
  }

  /** An example: a question with a phrase in it and a plan without a range, on a row without a period. */
  lemma PhraseOnlyInOracle(host: Host, parsed: TimeFilter)
    requires ParsedClause(parsed).Some?
    ensures var plan, row, admin := Plan([], None), Row(map[], None, None), Principal({"admin"}, "");
            && CubeKeeps(host, "sales", [], plan, row)
            && !SqlCompiler.Selects(host, WhereAtoms(host, plan, admin, parsed), WhereParams(host, plan, admin), row)
  {
    PhraseNarrows(host, "sales", [], Plan([], None), Principal({"admin"}, ""), parsed, Row(map[], None, None));
  }

  lemma DatedIsQuotable(plan: Plan, parsed: TimeFilter)
    requires Dated(plan, parsed)
    ensures QuotableTime(plan)
  {
    if plan.time.Some? && Bounded(plan.time.value) {
      var start, end := plan.time.value.start.value, plan.time.value.end.value;
      IsoExact(start);
      IsoExact(end);
      IsoQuotable(FromIsoFormat(start).value);
      IsoQuotable(FromIsoFormat(end).value);
    }
  }

  /** The same of the text that is sent to the database, as a reader of it understands it. */
  lemma EmittedTextAgrees(
      host: Host, cube: string, catalog: seq<string>, plan: Plan, p: Principal, parsed: TimeFilter, row: Row)
    requires Comparable(host, catalog, plan, parsed)
    ensures TextSelects(host, WhereText(WhereAtoms(host, plan, p, parsed)), WhereParams(host, plan, p), row)
        <==> && InScope(p, row) && CubeKeeps(host, cube, catalog, plan, row)
             && NegationsNotNull(host, plan.filters, |plan.filters|, row)
  {
    DatedIsQuotable(plan, parsed);
    ClauseReadsBack(host, plan, p, parsed);
    BackEndsAgree(host, cube, catalog, plan, p, parsed, row);
  }

  /** Every dimension that the plan filters is filled in. */
  predicate Filled(host: Host, plan: Plan, row: Row) {
    forall i :: 0 <= i < |plan.filters| && Kept(host, plan.filters[i]) ==>
      CellOf(host, row, plan.filters[i].column).Some?
  }

  /** On rows whose filtered dimensions are not null the two back ends select the same rows. */
  lemma BackEndsAgreeOnFilledRows(
      host: Host, cube: string, catalog: seq<string>, plan: Plan, p: Principal, parsed: TimeFilter, row: Row)
    requires Comparable(host, catalog, plan, parsed) && Filled(host, plan, row)
    ensures SqlCompiler.Selects(host, WhereAtoms(host, plan, p, parsed), WhereParams(host, plan, p), row)
        <==> InScope(p, row) && CubeKeeps(host, cube, catalog, plan, row)
  {
    BackEndsAgree(host, cube, catalog, plan, p, parsed, row);
  }

  /** A plan with one negated comparison, on a row that has no value in that column. */
  lemma NegatedNull(host: Host, cube: string, column: string, value: string, parsed: TimeFilter)
    requires IsIdentifier(column) && !IsTimeColumn(host, column) && host.Upper(value) == value
    ensures var plan := Plan([Filter(column, Ne, [TextValue(value)])], Some(TimeRange(None, None)));
            var row := Row(map[], Some(0), None);
            var admin := Principal({"admin"}, "");
            && Comparable(host, [column], plan, parsed)
            && CubeKeeps(host, cube, [column], plan, row)
            && !SqlCompiler.Selects(host, WhereAtoms(host, plan, admin, parsed), WhereParams(host, plan, admin), row)
  {
    var f := Filter(column, Ne, [TextValue(value)]);
    var plan := Plan([f], Some(TimeRange(None, None)));
    var row := Row(map[], Some(0), None);
    OneNegationComparable(host, f, value, parsed);
    assert CubeFiltersUpTo(host, cube, plan.filters, 1) == CubeFiltersOf(cube, f);
    OneFilterKeeps(host, cube, [column], f, row);
    assert plan.filters[0] == f;
    BackEndsAgree(host, cube, [column], plan, Principal({"admin"}, ""), parsed, row);
  }

  lemma OneNegationComparable(host: Host, f: Filter, value: string, parsed: TimeFilter)
    requires f == Filter(f.column, Ne, [TextValue(value)]) && IsIdentifier(f.column)
    requires !IsTimeColumn(host, f.column) && host.Upper(value) == value
    ensures Aligned(host, f) && Kept(host, f) && InCatalog(host, [f.column], f.column)
    ensures Comparable(host, [f.column], Plan([f], Some(TimeRange(None, None))), parsed)
  {
    assert f.values[0] in f.values && UpperText(host, f.values[0]) == value;
    assert PlainTexts(f.values) == {value};
    assert SameColumn(host, [f.column][0], f.column);
  }

  /** The example of a null under a negation: Cube keeps the row, SQL does not. */
  lemma NullUnderNegation(host: Host, parsed: TimeFilter)
    requires host.Upper("REGION_CODE") == "REGION_CODE" && host.Upper("HCM") == "HCM"
    ensures var plan := Plan([Filter("REGION_CODE", Ne, [TextValue("HCM")])], Some(TimeRange(None, None)));
            var row := Row(map[], Some(0), None);
            var admin := Principal({"admin"}, "");
            && Comparable(host, ["REGION_CODE"], plan, parsed)
            && CubeKeeps(host, "sales", ["REGION_CODE"], plan, row)
            && !SqlCompiler.Selects(host, WhereAtoms(host, plan, admin, parsed), WhereParams(host, plan, admin), row)
  {
    assert "REGION_CODE" !in TIME_COLUMNS;
    NegatedNull(host, "sales", "REGION_CODE", "HCM", parsed);
  }
}
