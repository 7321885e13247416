/** What a compiled plan selects, told of the plan, the caller and the row alone: no conjunct, bind variable or
    Cube filter is mentioned on this side of the statements. */
module PlanMeaning {
  import opened Wrappers
  import opened Text
  import opened Calendar
  import opened TimeRanges
  import opened QueryDsl
  import opened SqlCompiler
  import opened SqlText
  import opened CubeCompiler
  import opened PlanEquivalence

  // ---- Departments ------------------------------------------------------------------------

  /** A caller who is no administrator and has a department is shown rows of that department only, by the conjuncts
      and by their text wherever it reads as a conjunction, whatever the plan holds. */
  lemma DepartmentSeen(host: Host, plan: Plan, p: Principal, parsed: TimeFilter, row: Row)
    requires "admin" !in p.roles && p.department != ""
    ensures SqlCompiler.Selects(host, WhereAtoms(host, plan, p, parsed), WhereParams(host, plan, p), row)
        ==> row.department == Some(p.department)
    ensures TextSelects(host, WhereText(WhereAtoms(host, plan, p, parsed)), WhereParams(host, plan, p), row)
        ==> row.department == Some(p.department)
  {
    var atoms, params := WhereAtoms(host, plan, p, parsed), WhereParams(host, plan, p);
    ScopeNotOverwritten(host, plan.filters, |plan.filters|, p);
    assert DEPARTMENT_BIND in ScopeParams(p) && params[DEPARTMENT_BIND] == TextBind(p.department);
    assert atoms[1] == DepartmentIs(DEPARTMENT_BIND);
    SecondIsRead(atoms, DepartmentIs(DEPARTMENT_BIND));
    OnlyThatDepartment(host, DEPARTMENT_BIND, params, p.department, row);
  }

  lemma OnlyThatDepartment(host: Host, bind: string, params: Parameters, department: string, row: Row)
    requires bind in params && params[bind] == TextBind(department)
    ensures AtomTruth(host, DepartmentIs(bind), params, row) == True ==> row.department == Some(department)
  {
  }

  /** Whatever follows, a text that starts with two readable conjuncts is read with them in it. */
  lemma SecondIsRead(atoms: seq<Atom>, second: Atom)
    requires |atoms| > 1 && atoms[0] == AlwaysTrue && atoms[1] == second && Readable(second)
    ensures var read := ReadWhere(WhereText(atoms)); read.Some? ==> second in read.value
  {
    WhereTextFirst(atoms);
    ReadBehind(AlwaysTrue, WhereText(atoms[1..]), WhereText(atoms));
    FirstIsRead(atoms[1..], second);
  }

  lemma FirstIsRead(atoms: seq<Atom>, first: Atom)
    requires atoms != [] && atoms[0] == first && Readable(first)
    ensures var read := ReadWhere(WhereText(atoms)); read.Some? ==> first in read.value
  {
    WhereTextFirst(atoms);
    if |atoms| == 1 { ReadOnly(first); } else { ReadBehind(first, WhereText(atoms[1..]), WhereText(atoms)); }
  }

  /** What a text reads as behind its first conjunct. */
  lemma ReadBehind(first: Atom, tail: string, text: string)
    requires Readable(first) && text == AtomText(first) + " AND " + tail
    ensures ReadWhere(text).Some? ==>
              ReadWhere(tail).Some? && ReadWhere(text).value == [first] + ReadWhere(tail).value
  {
    Associative(AtomText(first), " AND ", tail);
    ReadAtomOf(first, " AND " + tail);
    EatPrefix(" AND ", tail);
  }

  /** An administrator, and a caller without a department, is shown rows without regard to their department. */
  lemma DepartmentIgnored(
      host: Host, plan: Plan, p: Principal, parsed: TimeFilter, row: Row, department: Option<string>)
    requires "admin" in p.roles || p.department == ""
    ensures var (atoms, params, other) :=
              (WhereAtoms(host, plan, p, parsed), WhereParams(host, plan, p), row.(department := department));
            && (SqlCompiler.Selects(host, atoms, params, row) <==> SqlCompiler.Selects(host, atoms, params, other))
            && (TextSelects(host, WhereText(atoms), params, row)
                <==> TextSelects(host, WhereText(atoms), params, other))
  {
    var atoms, params := WhereAtoms(host, plan, p, parsed), WhereParams(host, plan, p);
    NoDepartmentBind(host, plan.filters, |plan.filters|, ScopeParams(p));
    NoDepartmentAtom(host, plan.filters, |plan.filters|);
    assert forall a :: a in atoms ==> !a.DepartmentIs?;
    SameForAll(host, atoms, params, row, department);
    ReadDepartments(WhereText(atoms));
    if ReadWhere(WhereText(atoms)).Some? {
      SameForAll(host, ReadWhere(WhereText(atoms)).value, params, row, department);
    }
  }

  lemma SameForAll(host: Host, atoms: seq<Atom>, params: Parameters, row: Row, department: Option<string>)
    requires forall a :: a in atoms && a.DepartmentIs? ==> a.bind !in params
    ensures SqlCompiler.Selects(host, atoms, params, row)
        <==> SqlCompiler.Selects(host, atoms, params, row.(department := department))
  {
    forall a | a in atoms
      ensures AtomTruth(host, a, params, row) == AtomTruth(host, a, params, row.(department := department))
    {
    }
  }

  lemma {:induction false} NoDepartmentBind(host: Host, filters: seq<Filter>, n: nat, base: Parameters)
    requires n <= |filters| && DEPARTMENT_BIND !in base
    ensures DEPARTMENT_BIND !in ParamsUpTo(host, filters, n, base)
  {
    if n > 0 {
      NoDepartmentBind(host, filters, n - 1, base);
      BindsApart(host, filters[n - 1], n - 1, filters[n - 1], n);
    }
  }

  lemma {:induction false} NoDepartmentAtom(host: Host, filters: seq<Filter>, n: nat)
    requires n <= |filters|
    ensures forall a :: a in AtomsUpTo(host, filters, n) ==> !a.DepartmentIs?
  {
    if n > 0 { NoDepartmentAtom(host, filters, n - 1); }
  }

  /** The reader takes an equality for the department condition only with the bind variable of that condition. */
  lemma {:induction false} ReadDepartments(s: string)
    ensures ReadWhere(s).Some? ==> forall a :: a in ReadWhere(s).value && a.DepartmentIs? ==> a.bind == DEPARTMENT_BIND
    decreases |s|
  {
    var n := Span(s);
    ReadOperatorDepartment(s[..n], s[n..]);
    if ReadWhere(s).Some? {
      var (atom, rest) := ReadAtom(s).value;
      if rest != "" { ReadDepartments(Eat(" AND ", rest).value); }
    }
  }

  lemma ReadOperatorDepartment(column: string, s: string)
    ensures var read := ReadOperator(column, s);
            read.Some? && read.value.0.DepartmentIs? ==> read.value.0.bind == DEPARTMENT_BIND
  {
  }

  // ---- Filters ------------------------------------------------------------------------------

  /** The column is one of the five that only the time range may restrict. */
  predicate LeftToTime(host: Host, column: string) {
    var name := host.Upper(column);
    || name == "PERIOD_DATE" || name == "PERIOD_MONTH" || name == "PERIOD_WEEK"
    || name == "PERIOD_QUARTER" || name == "PERIOD_YEAR"
  }

  /** The cell is at least the literal, as text or as a number. */
  predicate NotUnder(host: Host, v: Literal, cell: string) {
    match v
    case TextValue(text) => host.AtMost(text, cell)
    case NumberValue(_, n) => host.ToNumber(cell).Some? && n <= host.ToNumber(cell).value
  }

  predicate NotOver(host: Host, v: Literal, cell: string) {
    match v
    case TextValue(text) => host.AtMost(cell, text)
    case NumberValue(_, n) => host.ToNumber(cell).Some? && host.ToNumber(cell).value <= n
  }

  /** A filter of the plan, as Oracle is made to apply it: values in upper case, a null never passes a comparison,
      and a filter without its values passes everything. */
  predicate Passes(host: Host, f: Filter, dimensions: map<string, string>) {
    var name := host.Upper(f.column);
    var given := name in dimensions;
    match f.op
    case Eq => f.values == [] || (given && dimensions[name] == host.Upper(f.values[0].text))
    case Ne => f.values == [] || (given && dimensions[name] != host.Upper(f.values[0].text))
    case In =>
      f.values == []
      || (given && exists j :: 0 <= j < |f.values| && dimensions[name] == host.Upper(f.values[j].text))
    case NotIn =>
      f.values == []
      || (given && forall j :: 0 <= j < |f.values| ==> dimensions[name] != host.Upper(f.values[j].text))
    case Between =>
      |f.values| != 2
      || (given && NotUnder(host, f.values[0], dimensions[name]) && NotOver(host, f.values[1], dimensions[name]))
    case Like => f.values == [] || (given && host.LikeMatch("%" + f.values[0].text + "%", dimensions[name]))
    case IsNull => !given
    case NotNull => given
  }

  lemma PassesIsTruth(host: Host, f: Filter, row: Row)
    ensures FilterTruth(host, f, CellOf(host, row, f.column)) == True <==> Passes(host, f, row.dimensions)
  {
    if (f.op == In || f.op == NotIn) && f.values != [] && CellOf(host, row, f.column).Some? {
      SomeValue(host, f.values, CellOf(host, row, f.column).value);
    }
  }

  lemma SomeValue(host: Host, values: seq<Literal>, cell: string)
    ensures (exists v :: v in values && cell == UpperText(host, v))
        <==> exists j :: 0 <= j < |values| && cell == host.Upper(values[j].text)
  {
    if v :| v in values && cell == UpperText(host, v) {
      var j :| 0 <= j < |values| && values[j] == v;
      assert cell == host.Upper(values[j].text);
    }
    if j :| 0 <= j < |values| && cell == host.Upper(values[j].text) {
      assert values[j] in values && cell == UpperText(host, values[j]);
    }
  }

  predicate AllPass(host: Host, filters: seq<Filter>, row: Row) {
    forall i :: 0 <= i < |filters| && !LeftToTime(host, filters[i].column) && IsIdentifier(filters[i].column) ==>
      Passes(host, filters[i], row.dimensions)
  }

  lemma AllPassIsHold(host: Host, filters: seq<Filter>, row: Row)
    ensures FiltersHold(host, filters, |filters|, row) <==> AllPass(host, filters, row)
  {
    forall i | 0 <= i < |filters|
      ensures Kept(host, filters[i]) <==> !LeftToTime(host, filters[i].column) && IsIdentifier(filters[i].column)
      ensures FilterTruth(host, filters[i], CellOf(host, row, filters[i].column)) == True
          <==> Passes(host, filters[i], row.dimensions)
    {
      PassesIsTruth(host, filters[i], row);
    }
  }

  // ---- Time ---------------------------------------------------------------------------------

  /** The instant lies on or after the first day and before the second; days have 86,400 seconds. */
  predicate OnDays(from: Date, to: Date, period: Option<int>) {
    period.Some? && 86_400 * Ordinal(from) <= period.value < 86_400 * Ordinal(to)
  }

  /** The range of the plan if both of its ends are given and not empty, none if the plan has a range that lacks an
      end, and without a range in the plan that of the phrase in the question. */
  predicate InTime(plan: Plan, parsed: TimeFilter, period: Option<int>) {
    match plan.time
    case Some(TimeRange(Some(start), Some(end))) =>
      start == "" || end == ""
      || (FromIsoFormat(start).Some? && FromIsoFormat(end).Some?
          && OnDays(FromIsoFormat(start).value, FromIsoFormat(end).value, period))
    case Some(_) => true
    case None =>
      match parsed
      case TimeFilter(kind, Some(from), Some(to)) =>
        kind == "none" || kind == "latest_record" || !Valid(from) || !Valid(to) || OnDays(from, to, period)
      case _ => true
  }

  lemma PlanTime(host: Host, plan: Plan, t: TimeRange, parsed: TimeFilter, row: Row)
    requires plan.time == Some(t)
    ensures TimeHolds(host, plan, parsed, row) <==> InTime(plan, parsed, row.period)
  {
    if Bounded(t) {
      BoundedAtom(plan, t, parsed);
      OneTimeAtom(host, plan, parsed, PeriodWithin(t.start.value, t.end.value), row);
      AtomIsPeriod(host, t.start.value, t.end.value, row);
    } else {
      assert TimeAtoms(plan, parsed) == [];
    }
  }

  lemma PrintedDays(from: Date, to: Date, period: Option<int>)
    requires Valid(from) && Valid(to)
    ensures PeriodTruth(IsoFormat(from), IsoFormat(to), period) == True <==> OnDays(from, to, period)
  {
    IsoReads(from);
    IsoReads(to);
  }

  lemma PhraseTime(host: Host, plan: Plan, parsed: TimeFilter, row: Row)
    requires plan.time.None?
    ensures TimeHolds(host, plan, parsed, row) <==> InTime(plan, parsed, row.period)
  {
    if ParsedClause(parsed).Some? {
      var start, end := IsoFormat(parsed.start.value), IsoFormat(parsed.end.value);
      OneTimeAtom(host, plan, parsed, PeriodWithin(start, end), row);
      AtomIsPeriod(host, start, end, row);
      PrintedDays(parsed.start.value, parsed.end.value, row.period);
    } else {
      assert TimeAtoms(plan, parsed) == [];
    }
  }

  lemma InTimeIsHold(host: Host, plan: Plan, parsed: TimeFilter, row: Row)
    ensures TimeHolds(host, plan, parsed, row) <==> InTime(plan, parsed, row.period)
  {
    if plan.time.Some? { PlanTime(host, plan, plan.time.value, parsed, row); }
    else { PhraseTime(host, plan, parsed, row); }
  }

  // ---- The whole plan -------------------------------------------------------------------------

  /** Which rows Oracle returns for a plan: those of the caller's department if the caller is bound to one, that pass
      every filter on a plain column and lie within the time range. */
  lemma SelectedInFull(host: Host, plan: Plan, p: Principal, parsed: TimeFilter, row: Row)
    ensures SqlCompiler.Selects(host, WhereAtoms(host, plan, p, parsed), WhereParams(host, plan, p), row)
        <==> && ("admin" !in p.roles && p.department != "" ==> row.department == Some(p.department))
             && AllPass(host, plan.filters, row)
             && InTime(plan, parsed, row.period)
  {
    WhereMeaning(host, plan, p, parsed, row);
    AllPassIsHold(host, plan.filters, row);
    InTimeIsHold(host, plan, parsed, row);
  }

  /** So does the text, read back, when its dates hold no quote. */
  lemma TextSelectsInFull(host: Host, plan: Plan, p: Principal, parsed: TimeFilter, row: Row)
    requires plan.time.Some? && plan.time.value.start.Some? && plan.time.value.end.Some? ==>
               '\'' !in plan.time.value.start.value && '\'' !in plan.time.value.end.value
    ensures TextSelects(host, WhereText(WhereAtoms(host, plan, p, parsed)), WhereParams(host, plan, p), row)
        <==> && ("admin" !in p.roles && p.department != "" ==> row.department == Some(p.department))
             && AllPass(host, plan.filters, row)
             && InTime(plan, parsed, row.period)
  {
    ClauseReadsBack(host, plan, p, parsed);
    SelectedInFull(host, plan, p, parsed, row);
  }

  /** The text of the only conjunct behind `1 = 1`, in an administrator's plan with one filter and no time. */
  lemma OneFilterText(host: Host, f: Filter, parsed: TimeFilter, p: Principal, plan: Plan, text: string)
    requires "admin" in p.roles && !LeftToTime(host, f.column) && IsIdentifier(f.column)
    requires plan == Plan([f], Some(TimeRange(None, None))) && text == WhereText(WhereAtoms(host, plan, p, parsed))
    ensures FilterAtom(f, 0).Some? ==> text == "1 = 1" + " AND " + AtomText(FilterAtom(f, 0).value)
    ensures FilterAtom(f, 0).None? ==> text == "1 = 1"
  {
    if FilterAtom(f, 0).Some? {
      var atom := FilterAtom(f, 0).value;
      assert AtomsUpTo(host, plan.filters, 1) == [atom] by { assert AtomsUpTo(host, plan.filters, 0) == []; }
      assert WhereAtoms(host, plan, p, parsed) == [AlwaysTrue, atom];
      TwoConjuncts(AlwaysTrue, atom);
    } else {
      assert AtomsUpTo(host, plan.filters, 1) == [] by { assert AtomsUpTo(host, plan.filters, 0) == []; }
      assert WhereAtoms(host, plan, p, parsed) == [AlwaysTrue];
    }
  }

  /** The text of each operator; a filter without its values has none. */
  lemma OperatorTexts(f: Filter, index: nat)
    ensures var (atom, c, first) := (FilterAtom(f, index), f.column, BindName(f.column, index, Nth(0)));
            var empty := match f.op
                         case IsNull => false
                         case NotNull => false
                         case Between => |f.values| != 2
                         case _ => f.values == [];
            && (atom.None? <==> empty)
            && (!empty ==>
                  match f.op
                  case Eq => AtomText(atom.value) == c + " = :" + first
                  case Ne => AtomText(atom.value) == c + " != :" + first
                  case In => |f.values| == 1 ==> AtomText(atom.value) == c + " IN (" + (":" + first) + ")"
                  case NotIn => |f.values| == 1 ==> AtomText(atom.value) == c + " NOT IN (" + (":" + first) + ")"
                  case Like => AtomText(atom.value) == c + " LIKE :" + first
                  case Between =>
                    AtomText(atom.value)
                    == c + " BETWEEN :" + BindName(c, index, Low) + " AND :" + BindName(c, index, High)
                  case IsNull => AtomText(atom.value) == c + " IS NULL"
                  case NotNull => AtomText(atom.value) == c + " IS NOT NULL")
  {
    OnePlaceholder(f, index);
  }

  /** The text and the parameters of a plan without filters, for a caller bound to a department. */
  lemma ScopedRangeText(host: Host, p: Principal, start: string, end: string, parsed: TimeFilter)
    requires "admin" !in p.roles && p.department != "" && start != "" && end != ""
    ensures var plan := Plan([], Some(TimeRange(Some(start), Some(end))));
            && WhereText(WhereAtoms(host, plan, p, parsed))
               == "1 = 1" + " AND " + ("DEPARTMENT_SCOPE = :department_scope" + " AND "
                  + ("PERIOD_DATE >= DATE '" + start + "' AND PERIOD_DATE < DATE '" + end + "'"))
            && WhereParams(host, plan, p) == map["department_scope" := TextBind(p.department)]
  {
    var plan := Plan([], Some(TimeRange(Some(start), Some(end))));
    var scope, time := DepartmentIs("department_scope"), PeriodWithin(start, end);
    assert WhereAtoms(host, plan, p, parsed) == [AlwaysTrue, scope, time];
    ThreeConjuncts(AlwaysTrue, scope, time);
    ScopeText();
  }

  lemma ThreeConjuncts(a: Atom, b: Atom, c: Atom)
    ensures WhereText([a, b, c]) == AtomText(a) + " AND " + (AtomText(b) + " AND " + AtomText(c))
  {
    WhereTextFirst([a, b, c]);
    assert [a, b, c][1..] == [b, c];
    TwoConjuncts(b, c);
  }

  lemma ScopeText()
    ensures AtomText(DepartmentIs("department_scope")) == "DEPARTMENT_SCOPE = :department_scope"
  {
    assert "DEPARTMENT_SCOPE = :" + "department_scope" == "DEPARTMENT_SCOPE = :department_scope";
  }

  lemma TwoConjuncts(a: Atom, b: Atom)
    ensures WhereText([a, b]) == AtomText(a) + " AND " + AtomText(b)
  {
    WhereTextFirst([a, b]);
    WhereTextFirst([b]);
    assert [a, b][1..] == [b];
  }

  lemma OnePlaceholder(f: Filter, index: nat)
    ensures |f.values| == 1 ==>
              Join(", ", Placeholders(Binds(f, index, |f.values|))) == ":" + BindName(f.column, index, Nth(0))
  {
  }

  // ---- The Cube query ---------------------------------------------------------------------------

  /** A filter of the plan as Cube is made to apply it: all values count, as they were written. */
  predicate CubePasses(host: Host, f: Filter, dimensions: map<string, string>) {
    var name := host.Upper(f.column);
    var given := name in dimensions;
    match f.op
    case Eq => given && exists j :: 0 <= j < |f.values| && dimensions[name] == f.values[j].text
    case Ne => !given || forall j :: 0 <= j < |f.values| ==> dimensions[name] != f.values[j].text
    case In => given && exists j :: 0 <= j < |f.values| && dimensions[name] == f.values[j].text
    case NotIn => !given || forall j :: 0 <= j < |f.values| ==> dimensions[name] != f.values[j].text
    case Between =>
      |f.values| != 2
      || (given && host.AtMost(f.values[0].text, dimensions[name]) && host.AtMost(dimensions[name], f.values[1].text))
    case Like => given && exists j :: 0 <= j < |f.values| && host.ContainsMatch(f.values[j].text, dimensions[name])
    case IsNull => !given
    case NotNull => given
  }

  /** The Cube filters written for one filter: their member, and operator and values by case. */
  lemma CubeFiltersWritten(cube: string, f: Filter)
    ensures var member := cube + "." + SafeName(f.column);
            && (f.op == Eq || f.op == In ==> CubeFiltersOf(cube, f) == [CubeFilter(member, Equals, Texts(f.values))])
            && (f.op == Ne || f.op == NotIn ==>
                  CubeFiltersOf(cube, f) == [CubeFilter(member, NotEquals, Texts(f.values))])
            && (f.op == Like ==> CubeFiltersOf(cube, f) == [CubeFilter(member, Contains, Texts(f.values))])
            && (f.op == IsNull ==> CubeFiltersOf(cube, f) == [CubeFilter(member, NotSet, [])])
            && (f.op == NotNull ==> CubeFiltersOf(cube, f) == [CubeFilter(member, IsSet, [])])
            && (f.op == Between && |f.values| == 2 ==>
                  CubeFiltersOf(cube, f) == [CubeFilter(member, Gte, [f.values[0].text]),
                                             CubeFilter(member, Lte, [f.values[1].text])])
  {
  }

  lemma CubePassesIsKeep(host: Host, cube: string, f: Filter, row: Row)
    ensures AllKeep(host, cube, f, CellOf(host, row, f.column)) <==> CubePasses(host, f, row.dimensions)
  {
    var gs, texts, cell := CubeFiltersOf(cube, f), Texts(f.values), CellOf(host, row, f.column);
    if f.op == Between {
      if |f.values| == 2 { assert gs[0] in gs && gs[1] in gs; }
    } else {
      assert gs[0] in gs;
      if f.op == Like { SomeContained(host, f.values, cell); }
    }
    assert forall j :: 0 <= j < |f.values| ==> texts[j] == f.values[j].text;
  }

  lemma SomeContained(host: Host, values: seq<Literal>, cell: Option<string>)
    ensures OperatorKeeps(host, Contains, Texts(values), cell)
        <==> cell.Some? && exists j :: 0 <= j < |values| && host.ContainsMatch(values[j].text, cell.value)
  {
    var texts := Texts(values);
    assert forall j :: 0 <= j < |values| ==> texts[j] == values[j].text;
    if j :| cell.Some? && 0 <= j < |values| && host.ContainsMatch(values[j].text, cell.value) {
      assert texts[j] in texts;
    }
  }

  /** Half-open in the plan, inclusive in the query: the same days. A plan that ends on the first day of the calendar
      has no query. */
  predicate InCubeTime(plan: Plan, period: Option<int>) {
    match plan.time
    case Some(TimeRange(Some(start), Some(end))) =>
      start == "" || end == ""
      || (FromIsoFormat(start).Some? && FromIsoFormat(end).Some? && FromIsoFormat(end) != Some(Date(1, 1, 1))
          && OnDays(FromIsoFormat(start).value, FromIsoFormat(end).value, period))
    case _ => true
  }

  lemma CubeDays(plan: Plan, start: string, end: string, period: Option<int>)
    requires plan.time == Some(TimeRange(Some(start), Some(end))) && start != "" && end != ""
    ensures var range := CubeDateRange(plan);
            range.Ok? && range.value.Some? && DateRangeKeeps(range.value.value, period) <==> InCubeTime(plan, period)
  {
    InclusiveEndFails(end);
    if FromIsoFormat(start).Some? && FromIsoFormat(end).Some? && !IsFirst(FromIsoFormat(end).value) {
      DatesAgree(start, end, period);
    }
  }

  lemma InCubeTimeIsKeep(plan: Plan, period: Option<int>)
    ensures var range := CubeDateRange(plan);
            range.Ok? && (range.value.Some? ==> DateRangeKeeps(range.value.value, period)) <==> InCubeTime(plan, period)
  {
    if plan.time.Some? && Bounded(plan.time.value) {
      CubeDays(plan, plan.time.value.start.value, plan.time.value.end.value, period);
    }
  }

  predicate CubeAllPass(host: Host, filters: seq<Filter>, row: Row) {
    forall i :: 0 <= i < |filters| && !LeftToTime(host, filters[i].column) ==>
      CubePasses(host, filters[i], row.dimensions)
  }

  predicate AllInCatalog(host: Host, catalog: seq<string>, filters: seq<Filter>) {
    forall i :: 0 <= i < |filters| && !LeftToTime(host, filters[i].column) ==>
      InCatalog(host, catalog, filters[i].column)
  }

  lemma OneKeepIsPass(host: Host, cube: string, catalog: seq<string>, f: Filter, row: Row)
    requires Faithful(catalog) && InCatalog(host, catalog, f.column)
    ensures OwnFiltersKeep(host, cube, catalog, f, row) <==> CubePasses(host, f, row.dimensions)
  {
    OneFilterKeeps(host, cube, catalog, f, row);
    CubePassesIsKeep(host, cube, f, row);
  }

  lemma AllKeepIsPass(host: Host, cube: string, catalog: seq<string>, filters: seq<Filter>, row: Row, keep: bool)
    requires Faithful(catalog) && AllInCatalog(host, catalog, filters)
    requires keep <==> forall i :: 0 <= i < |filters| && !IsTimeColumn(host, filters[i].column) ==>
                         OwnFiltersKeep(host, cube, catalog, filters[i], row)
    ensures keep <==> CubeAllPass(host, filters, row)
  {
    forall i | 0 <= i < |filters| && !LeftToTime(host, filters[i].column)
      ensures OwnFiltersKeep(host, cube, catalog, filters[i], row) <==> CubePasses(host, filters[i], row.dimensions)
    {
      OneKeepIsPass(host, cube, catalog, filters[i], row);
    }
    assert forall i :: 0 <= i < |filters| ==>
      (IsTimeColumn(host, filters[i].column) <==> LeftToTime(host, filters[i].column));
  }

  /** Which rows Cube returns for a plan whose columns are columns of its model. */
  lemma CubeKeepsInFull(host: Host, cube: string, catalog: seq<string>, plan: Plan, row: Row)
    requires Faithful(catalog) && AllInCatalog(host, catalog, plan.filters)
    ensures CubeKeeps(host, cube, catalog, plan, row)
        <==> CubeAllPass(host, plan.filters, row) && InCubeTime(plan, row.period)
  {
    var n := |plan.filters|;
    var keep := CubeFiltersKeep(host, cube, catalog, plan.filters, n, row);
    KeepAll(host, cube, catalog, plan.filters, n, row, keep);
    AllKeepIsPass(host, cube, catalog, plan.filters, row, keep);
    InCubeTimeIsKeep(plan, row.period);
  }
}
