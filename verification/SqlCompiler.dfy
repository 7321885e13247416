/** First back end: a query plan to the WHERE clause of an Oracle query with bind variables. */
module SqlCompiler {
  import opened Wrappers
  import opened Text
  import opened Calendar
  import opened QueryDsl
  import opened TimeRanges

  // ---- The clause ---------------------------------------------------------------------

  datatype BindValue = TextBind(text: string) | NumberBind(number: real)

  type Parameters = map<string, BindValue>

  datatype Atom =
    | AlwaysTrue
    | DepartmentIs(bind: string)
    | EqBind(column: string, bind: string)
    | NeBind(column: string, bind: string)
    | InBinds(column: string, binds: seq<string>)
    | NotInBinds(column: string, binds: seq<string>)
    | BetweenBinds(column: string, low: string, high: string)
    | LikeBind(column: string, bind: string)
    | IsNullTest(column: string)
    | NotNullTest(column: string)
    | PeriodWithin(start: string, end: string)

  /** The three truth values of SQL; a WHERE clause keeps a row only on True. */
  datatype Truth = True | False | Unknown

  function Truly(b: bool): Truth { if b then True else False }

  function TextOf(params: Parameters, bind: string): Option<string> {
    if bind in params && params[bind].TextBind? then Some(params[bind].text) else None
  }

  function TextsOf(params: Parameters, binds: seq<string>): (texts: seq<Option<string>>)
    ensures |texts| == |binds|
  {
    seq(|binds|, i requires 0 <= i < |binds| => TextOf(params, binds[i]))
  }

  function NotAbove(host: Host, bound: BindValue, cell: string): Truth {
    match bound
    case TextBind(text) => Truly(host.AtMost(text, cell))
    case NumberBind(n) => (match host.ToNumber(cell) case None => Unknown case Some(c) => Truly(n <= c))
  }

  function NotBelow(host: Host, bound: BindValue, cell: string): Truth {
    match bound
    case TextBind(text) => Truly(host.AtMost(cell, text))
    case NumberBind(n) => (match host.ToNumber(cell) case None => Unknown case Some(c) => Truly(c <= n))
  }

  function And(a: Truth, b: Truth): Truth {
    if a == False || b == False then False
    else if a == Unknown || b == Unknown then Unknown
    else True
  }

  /** The instant of midnight at the start of a date. */
  function Midnight(d: Date): int { SECONDS_PER_DAY * Ordinal(d) }

  function PeriodTruth(start: string, end: string, period: Option<int>): Truth {
    var from, to := FromIsoFormat(start), FromIsoFormat(end);
    if from.None? || to.None? || period.None? then Unknown
    else Truly(Midnight(from.value) <= period.value < Midnight(to.value))
  }

  function AtomTruth(host: Host, atom: Atom, params: Parameters, row: Row): Truth {
    match atom
    case AlwaysTrue => True
    case DepartmentIs(bind) =>
      var v := TextOf(params, bind);
      if v.None? || row.department.None? then Unknown else Truly(row.department == v)
    case EqBind(column, bind) =>
      var cell, v := CellOf(host, row, column), TextOf(params, bind);
      if cell.None? || v.None? then Unknown else Truly(cell == v)
    case NeBind(column, bind) =>
      var cell, v := CellOf(host, row, column), TextOf(params, bind);
      if cell.None? || v.None? then Unknown else Truly(cell != v)
    case InBinds(column, binds) =>
      var cell, vs := CellOf(host, row, column), TextsOf(params, binds);
      if cell.None? || None in vs then Unknown else Truly(cell in vs)
    case NotInBinds(column, binds) =>
      var cell, vs := CellOf(host, row, column), TextsOf(params, binds);
      if cell.None? || None in vs then Unknown else Truly(cell !in vs)
    case BetweenBinds(column, low, high) =>
      var cell := CellOf(host, row, column);
      if cell.None? || low !in params || high !in params then Unknown
      else And(NotAbove(host, params[low], cell.value), NotBelow(host, params[high], cell.value))
    case LikeBind(column, bind) =>
      var cell, v := CellOf(host, row, column), TextOf(params, bind);
      if cell.None? || v.None? then Unknown else Truly(host.LikeMatch(v.value, cell.value))
    case IsNullTest(column) => Truly(CellOf(host, row, column).None?)
    case NotNullTest(column) => Truly(CellOf(host, row, column).Some?)
    case PeriodWithin(start, end) => PeriodTruth(start, end, row.period)
  }

  /** A row is selected when every conjunct is true. */
  predicate Selects(host: Host, atoms: seq<Atom>, params: Parameters, row: Row) {
    forall a :: a in atoms ==> AtomTruth(host, a, params, row) == True
  }

  // ---- Bind names ------------------------------------------------------------------------

  datatype Slot = Nth(j: nat) | Low | High

  function SlotText(s: Slot): string {
    match s case Nth(j) => Dec(j) case Low => "lo" case High => "hi"
  }

  function BindName(column: string, index: nat, slot: Slot): string {
    Lower(column) + "_f" + Dec(index) + "_" + SlotText(slot)
  }

  const DEPARTMENT_BIND := "department_scope"

  /** Where two texts agree, the runs of `keep` characters behind their last other character agree. */
  lemma LastRun(keep: char -> bool, a: string, x: char, b: string, c: string, y: char, d: string)
    requires a + [x] + b == c + [y] + d
    requires !keep(x) && !keep(y)
    requires forall i :: 0 <= i < |b| ==> keep(b[i])
    requires forall i :: 0 <= i < |d| ==> keep(d[i])
    ensures a == c && x == y && b == d
  {
    var s, t := a + [x] + b, c + [y] + d;
    assert s[|a|] == x && t[|c|] == y;
    assert forall i :: |a| < i < |s| ==> s[i] == b[i - |a| - 1];
    assert forall i :: |c| < i < |t| ==> t[i] == d[i - |c| - 1];
    assert |a| == |c|;
    assert a == s[..|a|] && c == t[..|c|];
    assert b == s[|a| + 1..] && d == t[|c| + 1..];
  }

  lemma SlotTextInjective(s: Slot, t: Slot)
    requires SlotText(s) == SlotText(t)
    ensures s == t
  {
    if s.Nth? && t.Nth? { DecInjective(s.j, t.j); }
    if s.Nth? { assert IsDigit(SlotText(s)[0]); }
    if t.Nth? { assert IsDigit(SlotText(t)[0]); }
  }

  lemma SlotTextPlain(s: Slot)
    ensures forall i :: 0 <= i < |SlotText(s)| ==> SlotText(s)[i] != '_'
  {
  }

  /** A bind name is read from the right: it determines its slot, its filter and its column up to case. */
  lemma BindNameInjective(c: string, i: nat, s: Slot, d: string, j: nat, t: Slot)
    requires BindName(c, i, s) == BindName(d, j, t)
    ensures Lower(c) == Lower(d) && i == j && s == t
  {
    SlotTextPlain(s);
    SlotTextPlain(t);
    var head, head' := Lower(c) + "_f" + Dec(i), Lower(d) + "_f" + Dec(j);
    LastRun(ch => ch != '_', head, '_', SlotText(s), head', '_', SlotText(t));
    SlotTextInjective(s, t);
    assert Lower(c) + "_" + ['f'] + Dec(i) == head;
    assert Lower(d) + "_" + ['f'] + Dec(j) == head';
    LastRun(IsDigit, Lower(c) + "_", 'f', Dec(i), Lower(d) + "_", 'f', Dec(j));
    DecInjective(i, j);
    assert (Lower(c) + "_")[..|Lower(c) + "_"| - 1] == Lower(c);
    assert (Lower(d) + "_")[..|Lower(d) + "_"| - 1] == Lower(d);
  }

  lemma BindNameNotDepartment(c: string, i: nat, s: Slot)
    ensures BindName(c, i, s) != DEPARTMENT_BIND
  {
    SlotTextPlain(s);
    assert SlotText(s) != "scope" by { assert IsDigit(SlotText(s)[0]) || SlotText(s)[0] in "lh"; }
    if BindName(c, i, s) == DEPARTMENT_BIND {
      assert DEPARTMENT_BIND == "department" + ['_'] + "scope";
      LastRun(ch => ch != '_', Lower(c) + "_f" + Dec(i), '_', SlotText(s), "department", '_', "scope");
    }
  }

  // ---- One filter ----------------------------------------------------------------------------

  function Binds(f: Filter, index: nat, count: nat): (names: seq<string>)
    ensures |names| == count
  {
    seq(count, j requires 0 <= j < count => BindName(f.column, index, Nth(j)))
  }

  function UpperText(host: Host, v: Literal): string { host.Upper(v.text) }

  /** The parameters of an IN list after its first `n` values. */
  function ListParams(host: Host, f: Filter, index: nat, n: nat): Parameters
    requires n <= |f.values|
  {
    if n == 0 then map[]
    else ListParams(host, f, index, n - 1)
         [BindName(f.column, index, Nth(n - 1)) := TextBind(UpperText(host, f.values[n - 1]))]
  }

  function AsBind(v: Literal): BindValue {
    match v case TextValue(t) => TextBind(t) case NumberValue(_, n) => NumberBind(n)
  }

  /** The fragment of one filter; None is the empty fragment of a filter that is dropped. */
  function FilterAtom(f: Filter, index: nat): Option<Atom> {
    var first := BindName(f.column, index, Nth(0));
    if f.op == Eq && f.values != [] then Some(EqBind(f.column, first))
    else if f.op == Ne && f.values != [] then Some(NeBind(f.column, first))
    else if f.op == In && f.values != [] then Some(InBinds(f.column, Binds(f, index, |f.values|)))
    else if f.op == NotIn && f.values != [] then Some(NotInBinds(f.column, Binds(f, index, |f.values|)))
    else if f.op == Between && |f.values| == 2 then
      Some(BetweenBinds(f.column, BindName(f.column, index, Low), BindName(f.column, index, High)))
    else if f.op == Like && f.values != [] then Some(LikeBind(f.column, first))
    else if f.op == IsNull then Some(IsNullTest(f.column))
    else if f.op == NotNull then Some(NotNullTest(f.column))
    else None
  }

  function FilterParams(host: Host, f: Filter, index: nat): Parameters {
    var first := BindName(f.column, index, Nth(0));
    if (f.op == Eq || f.op == Ne) && f.values != [] then
      map[first := TextBind(UpperText(host, f.values[0]))]
    else if (f.op == In || f.op == NotIn) && f.values != [] then
      ListParams(host, f, index, |f.values|)
    else if f.op == Between && |f.values| == 2 then
      map[BindName(f.column, index, Low) := AsBind(f.values[0]),
          BindName(f.column, index, High) := AsBind(f.values[1])]
    else if f.op == Like && f.values != [] then
      map[first := TextBind("%" + f.values[0].text + "%")]
    else map[]
  }

  /** Fills the local dictionary of one filter as the source does. */
  method CompileFilter(host: Host, f: Filter, index: nat) returns (atom: Option<Atom>, params: Parameters)
    ensures atom == FilterAtom(f, index)
    ensures params == FilterParams(host, f, index)
  {
    params := map[];
    var first := BindName(f.column, index, Nth(0));
    match f.op {
      case Eq =>
        if f.values == [] { return None, map[]; }
        params := params[first := TextBind(UpperText(host, f.values[0]))];
        atom := Some(EqBind(f.column, first));
      case Ne =>
        if f.values == [] { return None, map[]; }
        params := params[first := TextBind(UpperText(host, f.values[0]))];
        atom := Some(NeBind(f.column, first));
      case In =>
        if f.values == [] { return None, map[]; }
        for j := 0 to |f.values|
          invariant params == ListParams(host, f, index, j)
        {
          params := params[BindName(f.column, index, Nth(j)) := TextBind(UpperText(host, f.values[j]))];
        }
        atom := Some(InBinds(f.column, Binds(f, index, |f.values|)));
      case NotIn =>
        if f.values == [] { return None, map[]; }
        for j := 0 to |f.values|
          invariant params == ListParams(host, f, index, j)
        {
          params := params[BindName(f.column, index, Nth(j)) := TextBind(UpperText(host, f.values[j]))];
        }
        atom := Some(NotInBinds(f.column, Binds(f, index, |f.values|)));
      case Between =>
        if |f.values| != 2 { return None, map[]; }
        var low, high := BindName(f.column, index, Low), BindName(f.column, index, High);
        params := params[low := AsBind(f.values[0])];
        params := params[high := AsBind(f.values[1])];
        atom := Some(BetweenBinds(f.column, low, high));
      case Like =>
        if f.values == [] { return None, map[]; }
        params := params[first := TextBind("%" + f.values[0].text + "%")];
        atom := Some(LikeBind(f.column, first));
      case IsNull => atom := Some(IsNullTest(f.column));
      case NotNull => atom := Some(NotNullTest(f.column));
    }
  }

  /** What one filter says about a cell, without any bind variable. */
  function FilterTruth(host: Host, f: Filter, cell: Option<string>): Truth {
    match f.op
    case Eq =>
      if f.values == [] then True
      else if cell.None? then Unknown
      else Truly(cell.value == UpperText(host, f.values[0]))
    case Ne =>
      if f.values == [] then True
      else if cell.None? then Unknown
      else Truly(cell.value != UpperText(host, f.values[0]))
    case In =>
      if f.values == [] then True
      else if cell.None? then Unknown
      else Truly(exists v :: v in f.values && cell.value == UpperText(host, v))
    case NotIn =>
      if f.values == [] then True
      else if cell.None? then Unknown
      else Truly(forall v :: v in f.values ==> cell.value != UpperText(host, v))
    case Between =>
      if |f.values| != 2 then True
      else if cell.None? then Unknown
      else And(NotAbove(host, AsBind(f.values[0]), cell.value), NotBelow(host, AsBind(f.values[1]), cell.value))
    case Like =>
      if f.values == [] then True
      else if cell.None? then Unknown
      else Truly(host.LikeMatch("%" + f.values[0].text + "%", cell.value))
    case IsNull => Truly(cell.None?)
    case NotNull => Truly(cell.Some?)
  }

  /** `k` is a bind name that the filter at `index` may use. */
  ghost predicate IsBindOf(k: string, column: string, index: nat) {
    exists s :: k == BindName(column, index, s)
  }

  lemma {:induction false} ListParamsKeys(host: Host, f: Filter, index: nat, n: nat)
    requires n <= |f.values|
    ensures forall k :: k in ListParams(host, f, index, n) ==> IsBindOf(k, f.column, index)
  {
    if n > 0 {
      ListParamsKeys(host, f, index, n - 1);
      assert IsBindOf(BindName(f.column, index, Nth(n - 1)), f.column, index);
    }
  }

  lemma {:induction false} ListParamsAt(host: Host, f: Filter, index: nat, n: nat, j: nat)
    requires j < n <= |f.values|
    ensures TextOf(ListParams(host, f, index, n), BindName(f.column, index, Nth(j)))
         == Some(UpperText(host, f.values[j]))
  {
    if j < n - 1 {
      ListParamsAt(host, f, index, n - 1, j);
      if BindName(f.column, index, Nth(j)) == BindName(f.column, index, Nth(n - 1)) {
        BindNameInjective(f.column, index, Nth(j), f.column, index, Nth(n - 1));
      }
    }
  }

  /** Every key a filter adds is one of its own bind names. */
  lemma FilterParamsKeys(host: Host, f: Filter, index: nat)
    ensures forall k :: k in FilterParams(host, f, index) ==> IsBindOf(k, f.column, index)
  {
    if (f.op == In || f.op == NotIn) && f.values != [] {
      ListParamsKeys(host, f, index, |f.values|);
    }
  }

  lemma LowIsNotHigh(column: string, index: nat)
    ensures BindName(column, index, Low) != BindName(column, index, High)
  {
    if BindName(column, index, Low) == BindName(column, index, High) {
      BindNameInjective(column, index, Low, column, index, High);
    }
  }

  predicate Agrees(params: Parameters, all: Parameters) {
    forall k :: k in params ==> k in all && all[k] == params[k]
  }

  /** Under any parameters that keep its own, a filter's fragment says what the filter says. */
  lemma FilterMeaning(host: Host, f: Filter, index: nat, all: Parameters, row: Row)
    requires Agrees(FilterParams(host, f, index), all)
    ensures FilterAtom(f, index).Some? ==>
              AtomTruth(host, FilterAtom(f, index).value, all, row)
              == FilterTruth(host, f, CellOf(host, row, f.column))
    ensures FilterAtom(f, index).None? ==> FilterTruth(host, f, CellOf(host, row, f.column)) == True
  {
    if (f.op == In || f.op == NotIn) && f.values != [] {
      ListMeaning(host, f, index, all, row);
    } else if f.op == Between && |f.values| == 2 {
      BetweenMeaning(host, f, index, all, row);
    } else if (f.op == Eq || f.op == Ne || f.op == Like) && f.values != [] {
      FirstValueMeaning(host, f, index, all, row);
    }
  }

  lemma BetweenMeaning(host: Host, f: Filter, index: nat, all: Parameters, row: Row)
    requires f.op == Between && |f.values| == 2 && Agrees(FilterParams(host, f, index), all)
    ensures AtomTruth(host, FilterAtom(f, index).value, all, row) == FilterTruth(host, f, CellOf(host, row, f.column))
  {
    var low, high := BindName(f.column, index, Low), BindName(f.column, index, High);
    LowIsNotHigh(f.column, index);
    assert low in all && all[low] == AsBind(f.values[0]);
    assert high in all && all[high] == AsBind(f.values[1]);
  }

  lemma FirstValueMeaning(host: Host, f: Filter, index: nat, all: Parameters, row: Row)
    requires (f.op == Eq || f.op == Ne || f.op == Like) && f.values != []
    requires Agrees(FilterParams(host, f, index), all)
    ensures AtomTruth(host, FilterAtom(f, index).value, all, row) == FilterTruth(host, f, CellOf(host, row, f.column))
  {
    var first := BindName(f.column, index, Nth(0));
    assert first in FilterParams(host, f, index) && first in all;
  }

  /** The values that an IN list reads back are the upper-cased values of the filter. */
  lemma ListTexts(host: Host, f: Filter, index: nat, all: Parameters)
    requires Agrees(ListParams(host, f, index, |f.values|), all)
    ensures TextsOf(all, Binds(f, index, |f.values|))
         == seq(|f.values|, j requires 0 <= j < |f.values| => Some(UpperText(host, f.values[j])))
  {
    forall j | 0 <= j < |f.values|
      ensures TextsOf(all, Binds(f, index, |f.values|))[j] == Some(UpperText(host, f.values[j]))
    {
      ListParamsAt(host, f, index, |f.values|, j);
    }
  }

  lemma ListMeaning(host: Host, f: Filter, index: nat, all: Parameters, row: Row)
    requires (f.op == In || f.op == NotIn) && f.values != []
    requires Agrees(FilterParams(host, f, index), all)
    ensures AtomTruth(host, FilterAtom(f, index).value, all, row)
         == FilterTruth(host, f, CellOf(host, row, f.column))
  {
    ListTexts(host, f, index, all);
    var texts := TextsOf(all, Binds(f, index, |f.values|));
    var cell := CellOf(host, row, f.column);
    if cell.Some? {
      if cell in texts {
        var j :| 0 <= j < |texts| && texts[j] == cell;
        assert f.values[j] in f.values && cell.value == UpperText(host, f.values[j]);
      } else {
        forall v | v in f.values
          ensures cell.value != UpperText(host, v)
        {
          var j :| 0 <= j < |f.values| && f.values[j] == v;
          assert texts[j] == Some(UpperText(host, v));
        }
      }
    }
  }

  // ---- Text of the clause ----------------------------------------------------------------------

  function Placeholders(binds: seq<string>): (r: seq<string>)
    ensures |r| == |binds|
  {
    seq(|binds|, i requires 0 <= i < |binds| => ":" + binds[i])
  }

  function AtomText(a: Atom): string {
    match a
    case AlwaysTrue => "1 = 1"
    case DepartmentIs(bind) => "DEPARTMENT_SCOPE = :" + bind
    case EqBind(column, bind) => column + " = :" + bind
    case NeBind(column, bind) => column + " != :" + bind
    case InBinds(column, binds) => column + " IN (" + Join(", ", Placeholders(binds)) + ")"
    case NotInBinds(column, binds) => column + " NOT IN (" + Join(", ", Placeholders(binds)) + ")"
    case BetweenBinds(column, low, high) => column + " BETWEEN :" + low + " AND :" + high
    case LikeBind(column, bind) => column + " LIKE :" + bind
    case IsNullTest(column) => column + " IS NULL"
    case NotNullTest(column) => column + " IS NOT NULL"
    case PeriodWithin(start, end) =>
      "PERIOD_DATE >= DATE '" + start + "' AND PERIOD_DATE < DATE '" + end + "'"
  }

  function AtomTexts(atoms: seq<Atom>): (r: seq<string>)
    ensures |r| == |atoms|
  {
    seq(|atoms|, i requires 0 <= i < |atoms| => AtomText(atoms[i]))
  }

  function WhereText(atoms: seq<Atom>): string { Join(" AND ", AtomTexts(atoms)) }

  // ---- The whole clause ----------------------------------------------------------------------------

  /** The caller: department scoping is skipped for administrators and without a department. */
  datatype Principal = Principal(roles: set<string>, department: string)

  predicate Scoped(p: Principal) { "admin" !in p.roles && p.department != "" }

  /** Filters on time columns and on columns that are not identifiers are passed over. */
  predicate Kept(host: Host, f: Filter) { !IsTimeColumn(host, f.column) && IsIdentifier(f.column) }

  function ScopeAtoms(p: Principal): seq<Atom> {
    if Scoped(p) then [DepartmentIs(DEPARTMENT_BIND)] else []
  }

  function ScopeParams(p: Principal): Parameters {
    if Scoped(p) then map[DEPARTMENT_BIND := TextBind(p.department)] else map[]
  }

  function AtomsUpTo(host: Host, filters: seq<Filter>, n: nat): seq<Atom>
    requires n <= |filters|
  {
    if n == 0 then []
    else
      var before := AtomsUpTo(host, filters, n - 1);
      var f := filters[n - 1];
      if Kept(host, f) && FilterAtom(f, n - 1).Some? then before + [FilterAtom(f, n - 1).value] else before
  }

  function ParamsUpTo(host: Host, filters: seq<Filter>, n: nat, base: Parameters): Parameters
    requires n <= |filters|
  {
    if n == 0 then base
    else
      var before := ParamsUpTo(host, filters, n - 1, base);
      var f := filters[n - 1];
      if Kept(host, f) && FilterAtom(f, n - 1).Some? then before + FilterParams(host, f, n - 1) else before
  }

  /** `ParsedTimeFilter.to_sql_clause`, used when the plan has no time range. */
  function ParsedClause(parsed: TimeFilter): Option<Atom> {
    if parsed.kind == "none" || parsed.kind == "latest_record" || parsed.start.None? || parsed.end.None? then None
    else if Valid(parsed.start.value) && Valid(parsed.end.value) then
      Some(PeriodWithin(IsoFormat(parsed.start.value), IsoFormat(parsed.end.value)))
    else None
  }

  function TimeAtoms(plan: Plan, parsed: TimeFilter): (r: seq<Atom>)
    ensures |r| <= 1
  {
    match plan.time
    case Some(t) => if Bounded(t) then [PeriodWithin(t.start.value, t.end.value)] else []
    case None => (match ParsedClause(parsed) case Some(a) => [a] case None => [])
  }

  function WhereAtoms(host: Host, plan: Plan, p: Principal, parsed: TimeFilter): seq<Atom> {
    [AlwaysTrue] + ScopeAtoms(p) + AtomsUpTo(host, plan.filters, |plan.filters|) + TimeAtoms(plan, parsed)
  }

  function WhereParams(host: Host, plan: Plan, p: Principal): Parameters {
    ParamsUpTo(host, plan.filters, |plan.filters|, ScopeParams(p))
  }

  /** Appends to the list of conjuncts and updates the parameter dictionary filter by filter. */
  method BuildWhere(host: Host, plan: Plan, p: Principal, parsed: TimeFilter)
    returns (text: string, parameters: Parameters)
    ensures text == WhereText(WhereAtoms(host, plan, p, parsed))
    ensures parameters == WhereParams(host, plan, p)
  {
    parameters := map[];
    ghost var atoms := [AlwaysTrue];
    var parts := ["1 = 1"];
    assert parts == AtomTexts(atoms);
    if "admin" !in p.roles && p.department != "" {
      TextsAppend(atoms, DepartmentIs(DEPARTMENT_BIND));
      atoms := atoms + [DepartmentIs(DEPARTMENT_BIND)];
      parts := parts + ["DEPARTMENT_SCOPE = :" + DEPARTMENT_BIND];
      parameters := parameters[DEPARTMENT_BIND := TextBind(p.department)];
    }
    ghost var head := atoms;
    assert head == [AlwaysTrue] + ScopeAtoms(p);
    for i := 0 to |plan.filters|
      invariant atoms == head + AtomsUpTo(host, plan.filters, i)
      invariant parts == AtomTexts(atoms)
      invariant parameters == ParamsUpTo(host, plan.filters, i, ScopeParams(p))
    {
      var f := plan.filters[i];
      UpToNext(host, plan.filters, i, i + 1, head, ScopeParams(p));
      if !IsTimeColumn(host, f.column) && IsIdentifier(f.column) {
        var fragment, params := CompileFilter(host, f, i);
        if fragment.Some? {
          TextsAppend(atoms, fragment.value);
          atoms := atoms + [fragment.value];
          parts := parts + [AtomText(fragment.value)];
          parameters := parameters + params;
        }
      }
    }
    var time := TimeAtoms(plan, parsed);
    if time != [] {
      TextsAppend(atoms, time[0]);
      atoms := atoms + [time[0]];
      parts := parts + [AtomText(time[0])];
    }
    assert atoms == head + AtomsUpTo(host, plan.filters, |plan.filters|) + time;
    text := Join(" AND ", parts);
  }

  /** What one more filter adds to the conjuncts and to the dictionary. */
  lemma UpToNext(host: Host, filters: seq<Filter>, i: nat, n: nat, head: seq<Atom>, base: Parameters)
    requires i + 1 == n <= |filters|
    ensures var f := filters[i];
            var added := Kept(host, f) && FilterAtom(f, i).Some?;
            && head + AtomsUpTo(host, filters, n)
               == head + AtomsUpTo(host, filters, i) + (if added then [FilterAtom(f, i).value] else [])
            && ParamsUpTo(host, filters, n, base)
               == (if added then ParamsUpTo(host, filters, i, base) + FilterParams(host, f, i)
                   else ParamsUpTo(host, filters, i, base))
  {
  }

  lemma TextsAppend(atoms: seq<Atom>, a: Atom)
    ensures AtomTexts(atoms + [a]) == AtomTexts(atoms) + [AtomText(a)]
  {
  }

  lemma BindsApart(host: Host, f: Filter, i: nat, g: Filter, j: nat)
    requires i != j
    ensures FilterParams(host, f, i).Keys !! FilterParams(host, g, j).Keys
    ensures DEPARTMENT_BIND !in FilterParams(host, f, i)
  {
    FilterParamsKeys(host, f, i);
    FilterParamsKeys(host, g, j);
    forall k | k in FilterParams(host, f, i)
      ensures k !in FilterParams(host, g, j) && k != DEPARTMENT_BIND
    {
      var s :| k == BindName(f.column, i, s);
      BindNameNotDepartment(f.column, i, s);
      if k in FilterParams(host, g, j) {
        var t :| k == BindName(g.column, j, t);
        BindNameInjective(f.column, i, s, g.column, j, t);
      }
    }
  }

  /** `parameters.update` never overwrites: every filter finds its own values at the end. */
  lemma {:induction false} NothingOverwritten(host: Host, filters: seq<Filter>, n: nat, p: Principal, i: nat)
    requires i < n <= |filters| && Kept(host, filters[i])
    ensures Agrees(FilterParams(host, filters[i], i), ParamsUpTo(host, filters, n, ScopeParams(p)))
    decreases n
  {
    if i < n - 1 {
      NothingOverwritten(host, filters, n - 1, p, i);
      BindsApart(host, filters[i], i, filters[n - 1], n - 1);
      AgreesStill(FilterParams(host, filters[i], i), ParamsUpTo(host, filters, n - 1, ScopeParams(p)),
                  FilterParams(host, filters[n - 1], n - 1));
    } else {
      LastAgrees(host, filters, n, ScopeParams(p));
    }
  }

  lemma AgreesStill(params: Parameters, all: Parameters, more: Parameters)
    requires Agrees(params, all) && params.Keys !! more.Keys
    ensures Agrees(params, all + more)
  {
  }

  lemma LastAgrees(host: Host, filters: seq<Filter>, n: nat, base: Parameters)
    requires 0 < n <= |filters| && Kept(host, filters[n - 1])
    ensures Agrees(FilterParams(host, filters[n - 1], n - 1), ParamsUpTo(host, filters, n, base))
  {
  }

  lemma {:induction false} ScopeNotOverwritten(host: Host, filters: seq<Filter>, n: nat, p: Principal)
    requires n <= |filters|
    ensures Agrees(ScopeParams(p), ParamsUpTo(host, filters, n, ScopeParams(p)))
  {
    if n > 0 {
      var i, f := n - 1, filters[n - 1];
      ScopeNotOverwritten(host, filters, i, p);
      BindsApart(host, f, i, f, n);
      AgreesStill(ScopeParams(p), ParamsUpTo(host, filters, i, ScopeParams(p)), FilterParams(host, f, i));
      UpToNext(host, filters, i, n, [], ScopeParams(p));
    }
  }

  /** The row may be seen by the caller: the department conjunct. */
  predicate InScope(p: Principal, row: Row) { Scoped(p) ==> row.department == Some(p.department) }

  /** Every kept filter holds of its cell. */
  predicate FiltersHold(host: Host, filters: seq<Filter>, n: nat, row: Row)
    requires n <= |filters|
  {
    forall i :: 0 <= i < n && Kept(host, filters[i]) ==>
      FilterTruth(host, filters[i], CellOf(host, row, filters[i].column)) == True
  }

  predicate TimeHolds(host: Host, plan: Plan, parsed: TimeFilter, row: Row) {
    forall a :: a in TimeAtoms(plan, parsed) ==> AtomTruth(host, a, map[], row) == True
  }

  lemma {:induction false} FilterAtomsMeaning(
      host: Host, filters: seq<Filter>, n: nat, all: Parameters, row: Row)
    requires n <= |filters|
    requires forall i :: 0 <= i < n && Kept(host, filters[i]) ==> Agrees(FilterParams(host, filters[i], i), all)
    ensures Selects(host, AtomsUpTo(host, filters, n), all, row) <==> FiltersHold(host, filters, n, row)
  {
    if n > 0 {
      FilterAtomsMeaning(host, filters, n - 1, all, row);
      HoldNext(host, filters, n, row);
      LastAtomMeaning(host, filters, n - 1, n, all, row);
    }
  }

  /** What filter `i`, the last of the first `n`, adds to the meaning of the conjuncts. */
  lemma LastAtomMeaning(host: Host, filters: seq<Filter>, i: nat, n: nat, all: Parameters, row: Row)
    requires i + 1 == n <= |filters|
    requires Kept(host, filters[i]) ==> Agrees(FilterParams(host, filters[i], i), all)
    ensures var f := filters[i];
            Selects(host, AtomsUpTo(host, filters, n), all, row)
            <==> Selects(host, AtomsUpTo(host, filters, i), all, row)
                 && (Kept(host, f) ==> FilterTruth(host, f, CellOf(host, row, f.column)) == True)
  {
    var f := filters[i];
    if Kept(host, f) {
      FilterMeaning(host, f, i, all, row);
      if FilterAtom(f, i).Some? {
        SelectsNext(host, AtomsUpTo(host, filters, i), FilterAtom(f, i).value, all, row);
      }
    }
  }

  lemma HoldNext(host: Host, filters: seq<Filter>, n: nat, row: Row)
    requires 0 < n <= |filters|
    ensures var f := filters[n - 1];
            FiltersHold(host, filters, n, row)
            <==> FiltersHold(host, filters, n - 1, row)
                 && (Kept(host, f) ==> FilterTruth(host, f, CellOf(host, row, f.column)) == True)
  {
  }

  lemma SelectsNext(host: Host, before: seq<Atom>, atom: Atom, params: Parameters, row: Row)
    ensures Selects(host, before + [atom], params, row)
        <==> Selects(host, before, params, row) && AtomTruth(host, atom, params, row) == True
  {
    SelectsAppend(host, before, [atom], params, row);
  }

  lemma SelectsAppend(host: Host, a: seq<Atom>, b: seq<Atom>, params: Parameters, row: Row)
    ensures Selects(host, a + b, params, row)
        <==> Selects(host, a, params, row) && Selects(host, b, params, row)
  {
    assert forall x :: x in a + b <==> x in a || x in b;
  }

  /** The final clause under the final parameters is the conjunction of what the department scope,
      each filter and the time range mean on their own. */
  lemma WhereMeaning(host: Host, plan: Plan, p: Principal, parsed: TimeFilter, row: Row)
    ensures Selects(host, WhereAtoms(host, plan, p, parsed), WhereParams(host, plan, p), row)
        <==> InScope(p, row) && FiltersHold(host, plan.filters, |plan.filters|, row)
             && TimeHolds(host, plan, parsed, row)
  {
    var n, all := |plan.filters|, WhereParams(host, plan, p);
    forall i | 0 <= i < n && Kept(host, plan.filters[i])
      ensures Agrees(FilterParams(host, plan.filters[i], i), all)
    {
      NothingOverwritten(host, plan.filters, n, p, i);
    }
    ScopeNotOverwritten(host, plan.filters, n, p);
    FilterAtomsMeaning(host, plan.filters, n, all, row);
    var front := [AlwaysTrue] + ScopeAtoms(p);
    SelectsAppend(host, [AlwaysTrue], ScopeAtoms(p), all, row);
    SelectsAppend(host, front, AtomsUpTo(host, plan.filters, n), all, row);
    SelectsAppend(host, front + AtomsUpTo(host, plan.filters, n), TimeAtoms(plan, parsed), all, row);
    ScopeMeaning(host, p, all, row);
    TimeIgnoresParams(host, plan, parsed, all, row);
  }

  lemma ScopeMeaning(host: Host, p: Principal, all: Parameters, row: Row)
    requires Agrees(ScopeParams(p), all)
    ensures Selects(host, ScopeAtoms(p), all, row) <==> InScope(p, row)
    ensures Selects(host, [AlwaysTrue], all, row)
  {
    if Scoped(p) { assert DepartmentIs(DEPARTMENT_BIND) in ScopeAtoms(p); }
  }

  lemma TimeIgnoresParams(host: Host, plan: Plan, parsed: TimeFilter, all: Parameters, row: Row)
    ensures Selects(host, TimeAtoms(plan, parsed), all, row) <==> TimeHolds(host, plan, parsed, row)
  {
  }

  // ---- Placeholders and parameters match one to one ------------------------------------------------

  function AtomBinds(a: Atom): set<string> {
    match a
    case DepartmentIs(b) => {b}
    case EqBind(_, b) => {b}
    case NeBind(_, b) => {b}
    case InBinds(_, bs) => set b | b in bs
    case NotInBinds(_, bs) => set b | b in bs
    case BetweenBinds(_, low, high) => {low, high}
    case LikeBind(_, b) => {b}
    case _ => {}
  }

  function ClauseBinds(atoms: seq<Atom>): set<string> {
    set a, b | a in atoms && b in AtomBinds(a) :: b
  }

  lemma {:induction false} ListParamsDomain(host: Host, f: Filter, index: nat, n: nat)
    requires n <= |f.values|
    ensures ListParams(host, f, index, n).Keys == set b | b in Binds(f, index, n)
  {
    if n > 0 {
      ListParamsDomain(host, f, index, n - 1);
      assert Binds(f, index, n) == Binds(f, index, n - 1) + [BindName(f.column, index, Nth(n - 1))];
    }
  }

  lemma FilterBinds(host: Host, f: Filter, index: nat)
    requires FilterAtom(f, index).Some?
    ensures AtomBinds(FilterAtom(f, index).value) == FilterParams(host, f, index).Keys
  {
    if f.op == In || f.op == NotIn { ListParamsDomain(host, f, index, |f.values|); }
  }

  lemma ClauseBindsAppend(a: seq<Atom>, b: seq<Atom>)
    ensures ClauseBinds(a + b) == ClauseBinds(a) + ClauseBinds(b)
  {
    assert forall x :: x in a + b <==> x in a || x in b;
  }

  lemma ClauseBindsOne(a: Atom)
    ensures ClauseBinds([a]) == AtomBinds(a)
  {
    assert a in [a];
  }

  lemma {:induction false} FilterClauseBinds(host: Host, filters: seq<Filter>, n: nat, p: Principal)
    requires n <= |filters|
    ensures ClauseBinds(ScopeAtoms(p)) + ClauseBinds(AtomsUpTo(host, filters, n))
         == ParamsUpTo(host, filters, n, ScopeParams(p)).Keys
  {
    if n > 0 {
      FilterClauseBinds(host, filters, n - 1, p);
      var f := filters[n - 1];
      if Kept(host, f) && FilterAtom(f, n - 1).Some? {
        FilterBinds(host, f, n - 1);
        var atom := FilterAtom(f, n - 1).value;
        ClauseBindsAppend(AtomsUpTo(host, filters, n - 1), [atom]);
        ClauseBindsOne(atom);
      }
    } else if Scoped(p) {
      ClauseBindsOne(DepartmentIs(DEPARTMENT_BIND));
    }
  }

  /** Every placeholder of the clause has a parameter and every parameter has a placeholder. */
  lemma BindsComplete(host: Host, plan: Plan, p: Principal, parsed: TimeFilter)
    ensures ClauseBinds(WhereAtoms(host, plan, p, parsed)) == WhereParams(host, plan, p).Keys
  {
    var front, middle := [AlwaysTrue] + ScopeAtoms(p), AtomsUpTo(host, plan.filters, |plan.filters|);
    var last := TimeAtoms(plan, parsed);
    ClauseBindsAppend([AlwaysTrue], ScopeAtoms(p));
    ClauseBindsAppend(front, middle);
    ClauseBindsAppend(front + middle, last);
    FilterClauseBinds(host, plan.filters, |plan.filters|, p);
    ClauseBindsOne(AlwaysTrue);
    TimeBinds(plan, parsed);
    assert WhereAtoms(host, plan, p, parsed) == front + middle + last;
  }

  lemma TimeBinds(plan: Plan, parsed: TimeFilter)
    ensures ClauseBinds(TimeAtoms(plan, parsed)) == {}
  {
    var last := TimeAtoms(plan, parsed);
    if last != [] { ClauseBindsOne(last[0]); assert last == [last[0]]; }
  }
}
