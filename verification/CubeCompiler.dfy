/** Second back end: a query plan to the filters and the date range of a Cube REST query. */
module CubeCompiler {
  import opened Wrappers
  import opened Text
  import opened Calendar
  import opened QueryDsl

  datatype CubeOperator = Equals | NotEquals | Gte | Lte | Contains | NotSet | IsSet

  datatype CubeFilter = CubeFilter(member: string, operator: CubeOperator, values: seq<string>)

  datatype CubeError = DateOverflow

  // ---- Member names -----------------------------------------------------------------------

  predicate IsWordChar(c: char) { 'a' <= c <= 'z' || IsDigit(c) }

  /** Every run of other characters becomes one underscore. */
  function Squeeze(s: string): string {
    if s == "" then ""
    else if IsWordChar(s[0]) then [s[0]] + Squeeze(s[1..])
    else if |s| > 1 && !IsWordChar(s[1]) then Squeeze(s[1..])
    else "_" + Squeeze(s[1..])
  }

  function StripLeft(s: string): string
    decreases |s|
  {
    if s != "" && s[0] == '_' then StripLeft(s[1..]) else s
  }

  function StripRight(s: string): string
    decreases |s|
  {
    if s != "" && s[|s| - 1] == '_' then StripRight(s[..|s| - 1]) else s
  }

  /** `_safe_name` on ASCII text. */
  function SafeName(s: string): string {
    var cleaned := StripRight(StripLeft(Squeeze(Lower(s))));
    if cleaned == "" then "metric"
    else if IsDigit(cleaned[0]) then "m_" + cleaned
    else cleaned
  }

  function Member(cube: string, column: string): string { cube + "." + SafeName(column) }

  /** Identifiers that start with a letter and use underscores only one at a time, between words. */
  predicate IsPlain(s: string) {
    && IsIdentifier(s) && s[0] != '_' && s[|s| - 1] != '_'
    && forall i :: 0 <= i < |s| - 1 ==> !(s[i] == '_' && s[i + 1] == '_')
  }

  lemma {:induction false} SqueezePlain(s: string)
    requires forall i :: 0 <= i < |s| ==> IsWordChar(s[i]) || s[i] == '_'
    requires forall i :: 0 <= i < |s| - 1 ==> !(s[i] == '_' && s[i + 1] == '_')
    ensures Squeeze(s) == s
  {
    if s != "" {
      SqueezePlain(s[1..]);
      assert s == [s[0]] + s[1..];
    }
  }

  /** The member name of a plain column is the column in lower case. */
  lemma SafeNamePlain(s: string)
    requires IsPlain(s)
    ensures SafeName(s) == Lower(s)
  {
    SqueezePlain(Lower(s));
  }

  /** So plain columns share a member name only when they differ in letter case alone; other columns
      may share one. */
  lemma MemberNamesApart(a: string, b: string)
    requires IsPlain(a) && IsPlain(b)
    ensures SafeName(a) == SafeName(b) <==> Lower(a) == Lower(b)
  {
    SafeNamePlain(a);
    SafeNamePlain(b);
  }

  lemma MemberNamesCollide()
    ensures IsIdentifier("A__B") && IsIdentifier("A_B") && "A__B" != "A_B" && SafeName("A__B") == SafeName("A_B")
  {
    assert Lower("A__B") == "a__b" && Lower("A_B") == "a_b";
    assert Squeeze("b") == "b" by { assert Squeeze("") == ""; }
    assert "a__b"[1..] == "__b" && "__b"[1..] == "_b" && "_b"[1..] == "b" && "a_b"[1..] == "_b";
    assert Squeeze("_b") == "_b";
    assert Squeeze("__b") == "_b";
    assert Squeeze("a__b") == Squeeze("a_b");
  }

  /** The letters and digits of a text, in order. */
  function WordChars(s: string): string {
    if s == "" then "" else (if IsWordChar(s[0]) then [s[0]] else "") + WordChars(s[1..])
  }

  /** Single underscores between letters and digits, and nothing else. */
  predicate IsSqueezed(s: string) {
    && (forall i :: 0 <= i < |s| ==> IsWordChar(s[i]) || s[i] == '_')
    && forall i :: 0 <= i < |s| - 1 ==> !(s[i] == '_' && s[i + 1] == '_')
  }

  lemma {:induction false} SqueezeShape(s: string, t: string)
    requires t == Squeeze(s)
    ensures IsSqueezed(t) && WordChars(t) == WordChars(s)
    ensures t != "" ==> (t[0] == '_' <==> !IsWordChar(s[0]))
    ensures t == "" <==> s == ""
  {
    if s != "" {
      var rest := Squeeze(s[1..]);
      SqueezeShape(s[1..], rest);
      if t != rest { assert t[1..] == rest; }
    }
  }

  lemma {:induction false} StripLeftShape(s: string, t: string)
    requires IsSqueezed(s) && t == StripLeft(s)
    ensures IsSqueezed(t) && WordChars(t) == WordChars(s) && (t != "" ==> t[0] != '_')
    decreases |s|
  {
    if s != "" && s[0] == '_' { StripLeftShape(s[1..], t); }
  }

  lemma {:induction false} WordCharsFront(s: string, n: nat)
    requires |s| == n + 1 && !IsWordChar(s[n])
    ensures WordChars(s[..n]) == WordChars(s)
  {
    if n > 0 {
      WordCharsFront(s[1..], n - 1);
      assert s[..n][1..] == s[1..][..n - 1];
    } else {
      assert s[1..] == "";
    }
  }

  lemma {:induction false} StripRightShape(s: string, t: string)
    requires IsSqueezed(s) && t == StripRight(s)
    ensures IsSqueezed(t) && WordChars(t) == WordChars(s) && t <= s && (t != "" ==> t[|t| - 1] != '_')
    decreases |s|
  {
    if s != "" && s[|s| - 1] == '_' {
      WordCharsFront(s, |s| - 1);
      StripRightShape(s[..|s| - 1], t);
    }
  }

  /** Any text gets the name of a member: plain, in lower case, with the letters and digits of the text in their
      order; a text without any is called a metric, and a leading digit is put behind a letter. */
  lemma SafeNameShape(s: string)
    ensures IsPlain(SafeName(s)) && IsSqueezed(SafeName(s))
    ensures var words := WordChars(Lower(s));
            WordChars(SafeName(s))
            == if words == "" then "metric" else if IsDigit(words[0]) then "m" + words else words
  {
    var squeezed := Squeeze(Lower(s));
    var left := StripLeft(squeezed);
    var cleaned := StripRight(left);
    SqueezeShape(Lower(s), squeezed);
    StripLeftShape(squeezed, left);
    StripRightShape(left, cleaned);
    if cleaned == "" { MetricWord(); } else { CleanedShape(cleaned, WordChars(cleaned)); }
  }

  lemma CleanedShape(cleaned: string, words: string)
    requires cleaned != "" && IsSqueezed(cleaned) && cleaned[0] != '_' && cleaned[|cleaned| - 1] != '_'
    requires words == WordChars(cleaned)
    ensures words != "" && words[0] == cleaned[0]
    ensures var name := if IsDigit(cleaned[0]) then "m_" + cleaned else cleaned;
            && IsPlain(name) && IsSqueezed(name)
            && WordChars(name) == if IsDigit(cleaned[0]) then "m" + words else words
  {
    if IsDigit(cleaned[0]) { PrefixedShape(cleaned, words); }
  }

  lemma PrefixedShape(cleaned: string, words: string)
    requires cleaned != "" && IsSqueezed(cleaned) && cleaned[0] != '_' && cleaned[|cleaned| - 1] != '_'
    requires words == WordChars(cleaned)
    ensures IsPlain("m_" + cleaned) && IsSqueezed("m_" + cleaned) && WordChars("m_" + cleaned) == "m" + words
  {
    PrefixedPlain("m_" + cleaned, cleaned);
    PrefixedWords("m_" + cleaned, cleaned, words);
  }

  lemma PrefixedWords(name: string, cleaned: string, words: string)
    requires name == "m_" + cleaned && words == WordChars(cleaned)
    ensures WordChars(name) == "m" + words
  {
    var tail := "_" + cleaned;
    WordCharsCons('_', cleaned);
    WordCharsCons('m', tail);
    assert name == ['m'] + tail;
  }

  lemma PrefixedPlain(name: string, cleaned: string)
    requires cleaned != "" && IsSqueezed(cleaned) && cleaned[0] != '_' && cleaned[|cleaned| - 1] != '_'
    requires name == "m_" + cleaned
    ensures IsPlain(name) && IsSqueezed(name)
  {
    assert name[0] == 'm' && name[1] == '_' && forall i :: 2 <= i < |name| ==> name[i] == cleaned[i - 2];
  }

  lemma WordCharsCons(c: char, s: string)
    ensures WordChars([c] + s) == (if IsWordChar(c) then [c] else "") + WordChars(s)
  {
    assert ([c] + s)[1..] == s;
  }

  lemma {:induction false} WordCharsOnly(s: string)
    requires forall i :: 0 <= i < |s| ==> IsWordChar(s[i])
    ensures WordChars(s) == s && IsSqueezed(s)
    ensures s != "" && !IsDigit(s[0]) ==> IsPlain(s)
  {
    if s != "" { WordCharsOnly(s[1..]); }
  }

  lemma MetricWord()
    ensures IsPlain("metric") && IsSqueezed("metric") && WordChars("metric") == "metric" && WordChars("") == ""
  {
    WordCharsOnly("metric");
  }

  // ---- Compilation ----------------------------------------------------------------------------

  function Texts(values: seq<Literal>): (r: seq<string>)
    ensures |r| == |values|
  {
    seq(|values|, i requires 0 <= i < |values| => values[i].text)
  }

  function CubeFiltersOf(cube: string, f: Filter): seq<CubeFilter> {
    var member := Member(cube, f.column);
    match f.op
    case Eq => [CubeFilter(member, Equals, Texts(f.values))]
    case Ne => [CubeFilter(member, NotEquals, Texts(f.values))]
    case In => [CubeFilter(member, Equals, Texts(f.values))]
    case NotIn => [CubeFilter(member, NotEquals, Texts(f.values))]
    case Between =>
      if |f.values| != 2 then []
      else [CubeFilter(member, Gte, [f.values[0].text]), CubeFilter(member, Lte, [f.values[1].text])]
    case Like => [CubeFilter(member, Contains, Texts(f.values))]
    case IsNull => [CubeFilter(member, NotSet, [])]
    case NotNull => [CubeFilter(member, IsSet, [])]
  }

  function CubeFiltersUpTo(host: Host, cube: string, filters: seq<Filter>, n: nat): seq<CubeFilter>
    requires n <= |filters|
  {
    if n == 0 then []
    else
      var before := CubeFiltersUpTo(host, cube, filters, n - 1);
      if IsTimeColumn(host, filters[n - 1].column) then before
      else before + CubeFiltersOf(cube, filters[n - 1])
  }

  method CompileCubeFilters(host: Host, cube: string, plan: Plan) returns (filters: seq<CubeFilter>)
    ensures filters == CubeFiltersUpTo(host, cube, plan.filters, |plan.filters|)
  {
    filters := [];
    for i := 0 to |plan.filters|
      invariant filters == CubeFiltersUpTo(host, cube, plan.filters, i)
    {
      var f := plan.filters[i];
      if !IsTimeColumn(host, f.column) {
        filters := filters + CubeFiltersOf(cube, f);
      }
    }
  }

  /** One day back; a text that is no date is passed through, and the first date overflows. */
  function InclusiveEnd(end: string): Result<string, CubeError> {
    match FromIsoFormat(end)
    case None => Ok(end)
    case Some(d) => (match AddDays(d, -1) case None => Err(DateOverflow) case Some(e) => Ok(IsoFormat(e)))
  }

  datatype DateRange = DateRange(first: string, last: string)

  function CubeDateRange(plan: Plan): Result<Option<DateRange>, CubeError> {
    if plan.time.None? || !Bounded(plan.time.value) then Ok(None)
    else match InclusiveEnd(plan.time.value.end.value)
      case Err(e) => Err(e)
      case Ok(last) => Ok(Some(DateRange(plan.time.value.start.value, last)))
  }

  // ---- What Cube does with a query --------------------------------------------------------------

  /** The column behind a member: the first one of the model that was given that name. */
  function ColumnOf(cube: string, catalog: seq<string>, member: string): Option<string> {
    if catalog == [] then None
    else if Member(cube, catalog[0]) == member then Some(catalog[0])
    else ColumnOf(cube, catalog[1..], member)
  }

  predicate OperatorKeeps(host: Host, operator: CubeOperator, values: seq<string>, cell: Option<string>) {
    match operator
    case Equals => cell.Some? && cell.value in values
    case NotEquals => cell.None? || cell.value !in values
    case Gte => cell.Some? && values != [] && host.AtMost(values[0], cell.value)
    case Lte => cell.Some? && values != [] && host.AtMost(cell.value, values[0])
    case Contains => cell.Some? && exists v :: v in values && host.ContainsMatch(v, cell.value)
    case NotSet => cell.None?
    case IsSet => cell.Some?
  }

  predicate CubeFilterKeeps(host: Host, cube: string, catalog: seq<string>, f: CubeFilter, row: Row) {
    var column := ColumnOf(cube, catalog, f.member);
    column.Some? && OperatorKeeps(host, f.operator, f.values, CellOf(host, row, column.value))
  }

  /** Both days belong to the range, the last one up to its last second. */
  predicate DateRangeKeeps(range: DateRange, period: Option<int>) {
    var first, last := FromIsoFormat(range.first), FromIsoFormat(range.last);
    && first.Some? && last.Some? && period.Some?
    && SECONDS_PER_DAY * Ordinal(first.value) <= period.value
    && period.value <= SECONDS_PER_DAY * Ordinal(last.value) + (SECONDS_PER_DAY - 1)
  }

  predicate CubeKeeps(host: Host, cube: string, catalog: seq<string>, plan: Plan, row: Row) {
    var range := CubeDateRange(plan);
    && (forall f :: f in CubeFiltersUpTo(host, cube, plan.filters, |plan.filters|) ==>
          CubeFilterKeeps(host, cube, catalog, f, row))
    && range.Ok? && (range.value.Some? ==> DateRangeKeeps(range.value.value, row.period))
  }
}
