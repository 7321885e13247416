/** The emitted WHERE text, read back: it determines the conjuncts that were written. */
module SqlText {
  import opened Wrappers
  import opened Text
  import opened Calendar
  import opened TimeRanges
  import opened QueryDsl
  import opened SqlCompiler

  // ---- Reader -------------------------------------------------------------------------

  /** Length of the leading run of identifier characters. */
  function Span(s: string): (n: nat)
    ensures n <= |s|
  {
    if s == "" || !IsIdentifierChar(s[0]) then 0 else 1 + Span(s[1..])
  }

  /** Length of the text in front of the first quote. */
  function QuoteSpan(s: string): (n: nat)
    ensures n <= |s|
  {
    if s == "" || s[0] == '\'' then 0 else 1 + QuoteSpan(s[1..])
  }

  /** What is left behind an expected literal. */
  function Eat(literal: string, s: string): Option<string> {
    if literal <= s then Some(s[|literal|..]) else None
  }

  function ReadBind(s: string): Option<(string, string)> {
    var rest := Eat(":", s);
    if rest.None? then None
    else
      var n := Span(rest.value);
      Some((rest.value[..n], rest.value[n..]))
  }

  /** `:a, :b)` */
  function ReadBinds(s: string): (r: Option<(seq<string>, string)>)
    decreases |s|
  {
    var first := ReadBind(s);
    if first.None? then None
    else
      var (bind, rest) := first.value;
      if Eat(")", rest).Some? then Some(([bind], rest[1..]))
      else if Eat(", ", rest).Some? && |rest| < |s| then
        (match ReadBinds(rest[2..])
         case None => None
         case Some((binds, after)) => Some(([bind] + binds, after)))
      else None
  }

  function OneBind(column: string, after: Option<string>, make: (string, string) -> Atom): Option<(Atom, string)> {
    if after.None? then None
    else match ReadBind(after.value)
      case None => None
      case Some((bind, rest)) => Some((make(column, bind), rest))
  }

  function ManyBinds(column: string, after: Option<string>, make: (string, seq<string>) -> Atom)
    : Option<(Atom, string)>
  {
    if after.None? then None
    else match ReadBinds(after.value)
      case None => None
      case Some((binds, rest)) => Some((make(column, binds), rest))
  }

  function ReadBetween(column: string, after: Option<string>): Option<(Atom, string)> {
    if after.None? then None
    else match ReadBind(after.value)
      case None => None
      case Some((low, rest)) =>
        var second := Eat(" AND ", rest);
        if second.None? then None
        else match ReadBind(second.value)
          case None => None
          case Some((high, end)) => Some((BetweenBinds(column, low, high), end))
  }

  function ReadPeriod(after: Option<string>): Option<(Atom, string)> {
    if after.None? then None
    else
      var n := QuoteSpan(after.value);
      var second := Eat("' AND PERIOD_DATE < DATE '", after.value[n..]);
      if second.None? then None
      else
        var m := QuoteSpan(second.value);
        var rest := Eat("'", second.value[m..]);
        if rest.None? then None
        else Some((PeriodWithin(after.value[..n], second.value[..m]), rest.value))
  }

  function Equality(column: string, bind: string): Atom {
    if column == "DEPARTMENT_SCOPE" && bind == DEPARTMENT_BIND then DepartmentIs(bind) else EqBind(column, bind)
  }

  /** The rest of a conjunct behind its column; the second character tells the operators apart. */
  function ReadOperator(column: string, s: string): Option<(Atom, string)> {
    if |s| < 5 then None
    else if s[1] == '=' then OneBind(column, Eat(" = ", s), Equality)
    else if s[1] == '!' then OneBind(column, Eat(" != ", s), (c, b) => NeBind(c, b))
    else if s[1] == 'L' then OneBind(column, Eat(" LIKE ", s), (c, b) => LikeBind(c, b))
    else if s[1] == 'B' then ReadBetween(column, Eat(" BETWEEN ", s))
    else if s[1] == 'N' then ManyBinds(column, Eat(" NOT IN (", s), (c, bs) => NotInBinds(c, bs))
    else if s[1] == '>' then (if column == "PERIOD_DATE" then ReadPeriod(Eat(" >= DATE '", s)) else None)
    else if s[2] == 'N' then ManyBinds(column, Eat(" IN (", s), (c, bs) => InBinds(c, bs))
    else if Eat(" IS NULL", s).Some? then Some((IsNullTest(column), Eat(" IS NULL", s).value))
    else if Eat(" IS NOT NULL", s).Some? then Some((NotNullTest(column), Eat(" IS NOT NULL", s).value))
    else None
  }

  function ReadAtom(s: string): Option<(Atom, string)> {
    if Eat("1 = 1", s).Some? then Some((AlwaysTrue, Eat("1 = 1", s).value))
    else
      var n := Span(s);
      ReadOperator(s[..n], s[n..])
  }

  function ReadWhere(s: string): Option<seq<Atom>>
    decreases |s|
  {
    match ReadAtom(s)
    case None => None
    case Some((atom, rest)) =>
      if rest == "" then Some([atom])
      else
        var next := Eat(" AND ", rest);
        if next.None? || |next.value| >= |s| then None
        else match ReadWhere(next.value)
          case None => None
          case Some(atoms) => Some([atom] + atoms)
  }

  // ---- Well-formed conjuncts ---------------------------------------------------------------

  predicate IsBindText(s: string) { s != "" && forall i :: 0 <= i < |s| ==> IsIdentifierChar(s[i]) }

  predicate Quotable(s: string) { '\'' !in s }

  predicate Readable(a: Atom) {
    match a
    case AlwaysTrue => true
    case DepartmentIs(b) => b == DEPARTMENT_BIND
    case EqBind(c, b) => IsIdentifier(c) && IsBindText(b) && b != DEPARTMENT_BIND
    case NeBind(c, b) => IsIdentifier(c) && IsBindText(b)
    case InBinds(c, bs) => IsIdentifier(c) && bs != [] && forall b :: b in bs ==> IsBindText(b)
    case NotInBinds(c, bs) => IsIdentifier(c) && bs != [] && forall b :: b in bs ==> IsBindText(b)
    case BetweenBinds(c, low, high) => IsIdentifier(c) && IsBindText(low) && IsBindText(high)
    case LikeBind(c, b) => IsIdentifier(c) && IsBindText(b)
    case IsNullTest(c) => IsIdentifier(c)
    case NotNullTest(c) => IsIdentifier(c)
    case PeriodWithin(start, end) => Quotable(start) && Quotable(end)
  }

  /** What may follow a name without running into it. */
  predicate Stops(s: string) { s == "" || !IsIdentifierChar(s[0]) }

  lemma {:induction false} SpanOf(name: string, rest: string)
    requires forall i :: 0 <= i < |name| ==> IsIdentifierChar(name[i])
    requires Stops(rest)
    ensures Span(name + rest) == |name|
  {
    if name == "" {
      assert name + rest == rest;
    } else {
      SpanOf(name[1..], rest);
      assert (name + rest)[1..] == name[1..] + rest;
    }
  }

  lemma {:induction false} QuoteSpanOf(text: string, rest: string)
    requires Quotable(text) && rest != "" && rest[0] == '\''
    ensures QuoteSpan(text + rest) == |text|
  {
    if text == "" {
      assert text + rest == rest;
    } else {
      QuoteSpanOf(text[1..], rest);
      assert (text + rest)[1..] == text[1..] + rest;
    }
  }

  lemma EatPrefix(literal: string, rest: string)
    ensures Eat(literal, literal + rest) == Some(rest)
  {
    assert (literal + rest)[|literal|..] == rest;
  }

  lemma ReadBindOf(bind: string, rest: string)
    requires IsBindText(bind) && Stops(rest)
    ensures ReadBind(":" + bind + rest) == Some((bind, rest))
  {
    assert ":" + bind + rest == ":" + (bind + rest);
    EatPrefix(":", bind + rest);
    SpanOf(bind, rest);
    assert (bind + rest)[..|bind|] == bind && (bind + rest)[|bind|..] == rest;
  }

  /** The placeholders of a list with what follows them. */
  function ListText(binds: seq<string>, rest: string): string
    requires binds != []
  {
    if |binds| == 1 then ":" + binds[0] + (")" + rest)
    else ":" + binds[0] + (", " + ListText(binds[1..], rest))
  }

  lemma {:induction false} ListTextIsJoin(binds: seq<string>, rest: string)
    requires binds != []
    ensures Join(", ", Placeholders(binds)) + (")" + rest) == ListText(binds, rest)
  {
    if |binds| > 1 {
      assert Placeholders(binds)[1..] == Placeholders(binds[1..]);
      ListTextIsJoin(binds[1..], rest);
      var first, tail := ":" + binds[0], Join(", ", Placeholders(binds[1..]));
      Associative(first + ", ", tail, ")" + rest);
      Associative(first, ", ", tail + (")" + rest));
    }
  }

  lemma {:induction false} ReadListText(binds: seq<string>, rest: string)
    requires binds != [] && forall b :: b in binds ==> IsBindText(b)
    ensures ReadBinds(ListText(binds, rest)) == Some((binds, rest))
  {
    var first := binds[0];
    assert first in binds;
    if |binds| == 1 {
      ReadBindOf(first, ")" + rest);
      EatPrefix(")", rest);
      assert (")" + rest)[1..] == rest;
      assert binds == [first];
    } else {
      var after := ListText(binds[1..], rest);
      ReadBindOf(first, ", " + after);
      EatPrefix(", ", after);
      NotParenthesis(after);
      ReadListText(binds[1..], rest);
      assert binds == [first] + binds[1..];
    }
  }

  lemma NotParenthesis(after: string)
    ensures Eat(")", ", " + after).None?
    ensures (", " + after)[2..] == after
  {
    assert (", " + after)[0] == ',';
  }

  // ---- Reading each conjunct back --------------------------------------------------------------

  lemma ReadOne(column: string, operator: string, bind: string, rest: string, make: (string, string) -> Atom)
    requires IsBindText(bind) && Stops(rest)
    ensures OneBind(column, Eat(operator, operator + (":" + bind + rest)), make) == Some((make(column, bind), rest))
  {
    EatPrefix(operator, ":" + bind + rest);
    ReadBindOf(bind, rest);
  }

  lemma ReadMany(column: string, operator: string, binds: seq<string>, rest: string,
                 make: (string, seq<string>) -> Atom)
    requires binds != [] && forall b :: b in binds ==> IsBindText(b)
    ensures ManyBinds(column, Eat(operator, operator + ListText(binds, rest)), make)
         == Some((make(column, binds), rest))
  {
    EatPrefix(operator, ListText(binds, rest));
    ReadListText(binds, rest);
  }

  lemma ReadBetweenOf(column: string, low: string, high: string, rest: string)
    requires IsBindText(low) && IsBindText(high) && Stops(rest)
    ensures ReadBetween(column, Some(":" + low + (" AND " + (":" + high + rest))))
         == Some((BetweenBinds(column, low, high), rest))
  {
    ReadBindOf(low, " AND " + (":" + high + rest));
    EatPrefix(" AND ", ":" + high + rest);
    ReadBindOf(high, rest);
  }

  lemma ReadPeriodOf(start: string, end: string, rest: string)
    requires Quotable(start) && Quotable(end)
    ensures ReadPeriod(Some(start + ("' AND PERIOD_DATE < DATE '" + (end + ("'" + rest)))))
         == Some((PeriodWithin(start, end), rest))
  {
    var tail := end + ("'" + rest);
    var middle := "' AND PERIOD_DATE < DATE '" + tail;
    QuoteSpanOf(start, middle);
    assert (start + middle)[..|start|] == start && (start + middle)[|start|..] == middle;
    EatPrefix("' AND PERIOD_DATE < DATE '", tail);
    QuoteSpanOf(end, "'" + rest);
    assert tail[..|end|] == end && tail[|end|..] == "'" + rest;
    EatPrefix("'", rest);
  }

  /** The text of a conjunct behind its column, together with what follows. */
  function OperatorText(a: Atom, rest: string): string {
    match a
    case AlwaysTrue => rest
    case DepartmentIs(bind) => " = " + (":" + bind + rest)
    case EqBind(_, bind) => " = " + (":" + bind + rest)
    case NeBind(_, bind) => " != " + (":" + bind + rest)
    case LikeBind(_, bind) => " LIKE " + (":" + bind + rest)
    case InBinds(_, binds) => if binds == [] then "" else " IN (" + ListText(binds, rest)
    case NotInBinds(_, binds) => if binds == [] then "" else " NOT IN (" + ListText(binds, rest)
    case BetweenBinds(_, low, high) => " BETWEEN " + (":" + low + (" AND " + (":" + high + rest)))
    case IsNullTest(_) => " IS NULL" + rest
    case NotNullTest(_) => " IS NOT NULL" + rest
    case PeriodWithin(start, end) =>
      " >= DATE '" + (start + ("' AND PERIOD_DATE < DATE '" + (end + ("'" + rest))))
  }

  function ColumnText(a: Atom): string {
    match a
    case AlwaysTrue => "1 = 1"
    case DepartmentIs(_) => "DEPARTMENT_SCOPE"
    case EqBind(c, _) => c
    case NeBind(c, _) => c
    case InBinds(c, _) => c
    case NotInBinds(c, _) => c
    case BetweenBinds(c, _, _) => c
    case LikeBind(c, _) => c
    case IsNullTest(c) => c
    case NotNullTest(c) => c
    case PeriodWithin(_, _) => "PERIOD_DATE"
  }

  lemma BindText(c: string, operator: string, bind: string, rest: string)
    ensures c + (operator + ":") + bind + rest == c + (operator + (":" + bind + rest))
  {
  }

  lemma BetweenText(c: string, low: string, high: string, rest: string)
    ensures c + " BETWEEN :" + low + " AND :" + high + rest
         == c + (" BETWEEN " + (":" + low + (" AND " + (":" + high + rest))))
  {
    var tail := ":" + high + rest;
    assert " AND :" + high + rest == " AND " + tail;
    assert c + " BETWEEN :" == c + " BETWEEN " + ":";
    var head := ":" + low + (" AND " + tail);
    assert c + " BETWEEN :" + low + " AND :" + high + rest == c + " BETWEEN " + head;
  }

  lemma ListTextOf(c: string, operator: string, binds: seq<string>, rest: string)
    requires binds != []
    ensures c + operator + Join(", ", Placeholders(binds)) + ")" + rest == c + (operator + ListText(binds, rest))
  {
    ListTextIsJoin(binds, rest);
    var list := Join(", ", Placeholders(binds));
    assert c + operator + list + ")" + rest == c + (operator + (list + (")" + rest)));
  }

  lemma PeriodText(start: string, end: string, rest: string)
    ensures "PERIOD_DATE >= DATE '" + start + "' AND PERIOD_DATE < DATE '" + end + "'" + rest
         == "PERIOD_DATE" + (" >= DATE '" + (start + ("' AND PERIOD_DATE < DATE '" + (end + ("'" + rest)))))
  {
    var tail := "' AND PERIOD_DATE < DATE '" + (end + ("'" + rest));
    assert "PERIOD_DATE >= DATE '" == "PERIOD_DATE" + " >= DATE '";
    assert start + "' AND PERIOD_DATE < DATE '" + end + "'" + rest == start + tail;
    var head := "PERIOD_DATE >= DATE '";
    assert head + start + "' AND PERIOD_DATE < DATE '" + end + "'" + rest
        == head + (start + "' AND PERIOD_DATE < DATE '" + end + "'" + rest);
    Associative("PERIOD_DATE", " >= DATE '", start + tail);
  }

  lemma TextSplits(a: Atom, rest: string)
    requires Readable(a)
    ensures AtomText(a) + rest == ColumnText(a) + OperatorText(a, rest)
  {
    match a
    case AlwaysTrue =>
    case DepartmentIs(b) =>
      BindText("DEPARTMENT_SCOPE", " = ", b, rest);
      assert "DEPARTMENT_SCOPE = :" == "DEPARTMENT_SCOPE" + (" = " + ":");
    case EqBind(c, b) => BindText(c, " = ", b, rest); assert " = :" == " = " + ":";
    case NeBind(c, b) => BindText(c, " != ", b, rest); assert " != :" == " != " + ":";
    case LikeBind(c, b) => BindText(c, " LIKE ", b, rest); assert " LIKE :" == " LIKE " + ":";
    case InBinds(c, bs) => ListTextOf(c, " IN (", bs, rest);
    case NotInBinds(c, bs) => ListTextOf(c, " NOT IN (", bs, rest);
    case BetweenBinds(c, low, high) => BetweenText(c, low, high, rest);
    case IsNullTest(c) => Associative(c, " IS NULL", rest);
    case NotNullTest(c) => Associative(c, " IS NOT NULL", rest);
    case PeriodWithin(start, end) => PeriodText(start, end, rest);
  }

  lemma DispatchBinds(column: string, tail: string)
    requires |tail| >= 2
    ensures ReadOperator(column, " = " + tail) == OneBind(column, Eat(" = ", " = " + tail), Equality)
    ensures ReadOperator(column, " != " + tail) == OneBind(column, Eat(" != ", " != " + tail), (c, b) => NeBind(c, b))
    ensures ReadOperator(column, " LIKE " + tail)
         == OneBind(column, Eat(" LIKE ", " LIKE " + tail), (c, b) => LikeBind(c, b))
  {
    assert (" = " + tail)[1] == '=' && (" != " + tail)[1] == '!' && (" LIKE " + tail)[1] == 'L';
  }

  lemma DispatchLists(column: string, tail: string)
    requires |tail| >= 1
    ensures ReadOperator(column, " IN (" + tail)
         == ManyBinds(column, Eat(" IN (", " IN (" + tail), (c, bs) => InBinds(c, bs))
    ensures ReadOperator(column, " NOT IN (" + tail)
         == ManyBinds(column, Eat(" NOT IN (", " NOT IN (" + tail), (c, bs) => NotInBinds(c, bs))
  {
    assert (" IN (" + tail)[1] == 'I' && (" IN (" + tail)[2] == 'N' && (" NOT IN (" + tail)[1] == 'N';
  }

  lemma DispatchNulls(column: string, rest: string)
    ensures ReadOperator(column, " IS NULL" + rest) == Some((IsNullTest(column), rest))
    ensures ReadOperator(column, " IS NOT NULL" + rest) == Some((NotNullTest(column), rest))
  {
    var s, t := " IS NULL" + rest, " IS NOT NULL" + rest;
    assert s[1] == 'I' && s[2] == 'S' && t[1] == 'I' && t[2] == 'S' && t[5] == 'O';
    EatPrefix(" IS NULL", rest);
    EatPrefix(" IS NOT NULL", rest);
    assert " IS NULL"[5] == 'U';
  }

  lemma DispatchBetween(column: string, tail: string)
    ensures ReadOperator(column, " BETWEEN " + tail) == ReadBetween(column, Some(tail))
  {
    assert (" BETWEEN " + tail)[1] == 'B';
    EatPrefix(" BETWEEN ", tail);
  }

  lemma DispatchPeriod(tail: string)
    ensures ReadOperator("PERIOD_DATE", " >= DATE '" + tail) == ReadPeriod(Some(tail))
  {
    assert (" >= DATE '" + tail)[1] == '>';
    EatPrefix(" >= DATE '", tail);
  }

  lemma ReadOperatorOf(a: Atom, rest: string)
    requires Readable(a) && a != AlwaysTrue && Stops(rest)
    ensures ReadOperator(ColumnText(a), OperatorText(a, rest)) == Some((a, rest))
  {
    var c := ColumnText(a);
    match a
    case DepartmentIs(b) => ReadOne(c, " = ", b, rest, Equality); DispatchBinds(c, ":" + b + rest);
    case EqBind(_, b) => ReadOne(c, " = ", b, rest, Equality); DispatchBinds(c, ":" + b + rest);
    case NeBind(_, b) =>
      ReadOne(c, " != ", b, rest, (c, b) => NeBind(c, b));
      DispatchBinds(c, ":" + b + rest);
    case LikeBind(_, b) =>
      ReadOne(c, " LIKE ", b, rest, (c, b) => LikeBind(c, b));
      DispatchBinds(c, ":" + b + rest);
    case InBinds(_, bs) =>
      ReadMany(c, " IN (", bs, rest, (c, bs) => InBinds(c, bs));
      DispatchLists(c, ListText(bs, rest));
    case NotInBinds(_, bs) =>
      ReadMany(c, " NOT IN (", bs, rest, (c, bs) => NotInBinds(c, bs));
      DispatchLists(c, ListText(bs, rest));
    case BetweenBinds(_, low, high) =>
      DispatchBetween(c, ":" + low + (" AND " + (":" + high + rest)));
      ReadBetweenOf(c, low, high, rest);
    case IsNullTest(_) => DispatchNulls(c, rest);
    case NotNullTest(_) => DispatchNulls(c, rest);
    case PeriodWithin(start, end) =>
      DispatchPeriod(start + ("' AND PERIOD_DATE < DATE '" + (end + ("'" + rest))));
      ReadPeriodOf(start, end, rest);
  }

  // ---- The whole clause ----------------------------------------------------------------------------

  lemma ColumnIsName(a: Atom)
    requires Readable(a) && a != AlwaysTrue
    ensures IsIdentifier(ColumnText(a))
  {
  }

  lemma OperatorStops(a: Atom, rest: string)
    requires Readable(a) && a != AlwaysTrue
    ensures OperatorText(a, rest) != "" && OperatorText(a, rest)[0] == ' '
  {
  }

  lemma ReadAtomOf(a: Atom, rest: string)
    requires Readable(a) && Stops(rest)
    ensures ReadAtom(AtomText(a) + rest) == Some((a, rest))
  {
    if a == AlwaysTrue {
      EatPrefix("1 = 1", rest);
    } else {
      var c, tail := ColumnText(a), OperatorText(a, rest);
      TextSplits(a, rest);
      ColumnIsName(a);
      OperatorStops(a, rest);
      NameIsNotOne(c, tail);
      SpanOf(c, tail);
      assert (c + tail)[..|c|] == c && (c + tail)[|c|..] == tail;
      ReadOperatorOf(a, rest);
    }
  }

  lemma NameIsNotOne(c: string, tail: string)
    requires IsIdentifier(c)
    ensures Eat("1 = 1", c + tail).None?
  {
    assert (c + tail)[0] == c[0] != '1';
  }

  lemma AtomTextNotEmpty(a: Atom)
    requires Readable(a)
    ensures AtomText(a) != ""
  {
    TextSplits(a, "");
    if a != AlwaysTrue { OperatorStops(a, ""); }
  }

  lemma WhereTextFirst(atoms: seq<Atom>)
    requires atoms != []
    ensures WhereText(atoms)
         == if |atoms| == 1 then AtomText(atoms[0]) else AtomText(atoms[0]) + " AND " + WhereText(atoms[1..])
  {
    assert |atoms| > 1 ==> AtomTexts(atoms)[1..] == AtomTexts(atoms[1..]);
  }

  lemma ReadOnly(a: Atom)
    requires Readable(a)
    ensures ReadWhere(AtomText(a)) == Some([a])
  {
    assert AtomText(a) + "" == AtomText(a);
    ReadAtomOf(a, "");
  }

  lemma {:induction false} ReadWhereOf(atoms: seq<Atom>)
    requires atoms != [] && forall a :: a in atoms ==> Readable(a)
    ensures ReadWhere(WhereText(atoms)) == Some(atoms)
  {
    var first := atoms[0];
    assert first in atoms;
    WhereTextFirst(atoms);
    if |atoms| == 1 {
      ReadOnly(first);
      assert atoms == [first];
    } else {
      ReadWhereOf(atoms[1..]);
      ReadWhereNext(first, WhereText(atoms[1..]), atoms[1..]);
      assert atoms == [first] + atoms[1..];
    }
  }

  lemma ReadWhereNext(first: Atom, tail: string, rest: seq<Atom>)
    requires Readable(first) && ReadWhere(tail) == Some(rest)
    ensures ReadWhere(AtomText(first) + " AND " + tail) == Some([first] + rest)
  {
    Associative(AtomText(first), " AND ", tail);
    assert Stops(" AND " + tail);
    ReadAtomOf(first, " AND " + tail);
    EatPrefix(" AND ", tail);
    AtomTextNotEmpty(first);
  }

  lemma LowerIsName(c: string)
    requires IsIdentifier(c)
    ensures forall i :: 0 <= i < |Lower(c)| ==> IsIdentifierChar(Lower(c)[i])
  {
  }

  lemma BindNameReadable(c: string, index: nat, slot: Slot)
    requires IsIdentifier(c)
    ensures IsBindText(BindName(c, index, slot)) && BindName(c, index, slot) != DEPARTMENT_BIND
  {
    BindNameNotDepartment(c, index, slot);
    LowerIsName(c);
    var a, b, d := Lower(c), "_f" + Dec(index), "_" + SlotText(slot);
    assert BindName(c, index, slot) == a + b + d;
    assert forall i :: 0 <= i < |b| ==> IsIdentifierChar(b[i]);
    assert forall i :: 0 <= i < |d| ==> IsIdentifierChar(d[i]);
  }

  lemma FilterAtomReadable(f: Filter, index: nat)
    requires IsIdentifier(f.column) && FilterAtom(f, index).Some?
    ensures Readable(FilterAtom(f, index).value)
  {
    BindNameReadable(f.column, index, Nth(0));
    BindNameReadable(f.column, index, Low);
    BindNameReadable(f.column, index, High);
    if f.op == In || f.op == NotIn {
      var binds := Binds(f, index, |f.values|);
      assert binds[0] == BindName(f.column, index, Nth(0));
      forall b | b in binds
        ensures IsBindText(b)
      {
        var j :| 0 <= j < |f.values| && binds[j] == b;
        BindNameReadable(f.column, index, Nth(j));
      }
    }
  }

  lemma {:induction false} FilterAtomsReadable(host: Host, filters: seq<Filter>, n: nat)
    requires n <= |filters|
    ensures forall a :: a in AtomsUpTo(host, filters, n) ==> Readable(a)
  {
    if n > 0 {
      FilterAtomsReadable(host, filters, n - 1);
      var f := filters[n - 1];
      if Kept(host, f) && FilterAtom(f, n - 1).Some? { FilterAtomReadable(f, n - 1); }
    }
  }

  lemma IsoQuotable(d: Date)
    requires Valid(d)
    ensures Quotable(IsoFormat(d))
  {
    assert forall i :: 0 <= i < |IsoFormat(d)| ==> IsDigit(IsoFormat(d)[i]) || IsoFormat(d)[i] == '-';
  }

  /** The bounds of the plan's time range contain no quote, as dates do not. */
  predicate QuotableTime(plan: Plan) {
    plan.time.Some? && Bounded(plan.time.value) ==>
      Quotable(plan.time.value.start.value) && Quotable(plan.time.value.end.value)
  }

  lemma AtomsReadable(host: Host, plan: Plan, p: Principal, parsed: TimeFilter)
    requires QuotableTime(plan)
    ensures forall a :: a in WhereAtoms(host, plan, p, parsed) ==> Readable(a)
  {
    FilterAtomsReadable(host, plan.filters, |plan.filters|);
    forall a | a in TimeAtoms(plan, parsed)
      ensures Readable(a)
    {
      if plan.time.None? {
        IsoQuotable(parsed.start.value);
        IsoQuotable(parsed.end.value);
      }
    }
  }

  // ---- The reader never finds a quote inside a bound -----------------------------------------------

  /** The bounds of a time condition hold no quote. */
  predicate PlainBounds(a: Atom) { a.PeriodWithin? ==> Quotable(a.start) && Quotable(a.end) }

  lemma {:induction false} QuoteSpanQuotable(s: string)
    ensures Quotable(s[..QuoteSpan(s)])
  {
    if s != "" && s[0] != '\'' {
      QuoteSpanQuotable(s[1..]);
      var n := QuoteSpan(s[1..]);
      assert s[..n + 1] == [s[0]] + s[1..][..n];
    }
  }

  lemma ReadOperatorPlain(column: string, s: string)
    ensures ReadOperator(column, s).Some? ==> PlainBounds(ReadOperator(column, s).value.0)
  {
    var after := Eat(" >= DATE '", s);
    if after.Some? {
      QuoteSpanQuotable(after.value);
      var second := Eat("' AND PERIOD_DATE < DATE '", after.value[QuoteSpan(after.value)..]);
      if second.Some? { QuoteSpanQuotable(second.value); }
    }
  }

  lemma {:induction false} ReadWherePlain(s: string)
    ensures ReadWhere(s).Some? ==> forall a :: a in ReadWhere(s).value ==> PlainBounds(a)
    decreases |s|
  {
    var n := Span(s);
    ReadOperatorPlain(s[..n], s[n..]);
    if ReadWhere(s).Some? {
      var (atom, rest) := ReadAtom(s).value;
      if rest != "" { ReadWherePlain(Eat(" AND ", rest).value); }
    }
  }

  /** The text that is sent to the database reads back as the conjuncts that were compiled, for any filters,
      columns and values, if and only if the bounds of the time range hold no quote. */
  lemma ClauseReadsBack(host: Host, plan: Plan, p: Principal, parsed: TimeFilter)
    ensures ReadWhere(WhereText(WhereAtoms(host, plan, p, parsed))) == Some(WhereAtoms(host, plan, p, parsed))
        <==> QuotableTime(plan)
  {
    var atoms := WhereAtoms(host, plan, p, parsed);
    if QuotableTime(plan) {
      AtomsReadable(host, plan, p, parsed);
      ReadWhereOf(atoms);
    } else {
      var bad := PeriodWithin(plan.time.value.start.value, plan.time.value.end.value);
      assert TimeAtoms(plan, parsed) == [bad] && !PlainBounds(bad);
      assert bad in atoms;
      ReadWherePlain(WhereText(atoms));
    }
  }

  /** A row is selected by a text when the text reads as a conjunction, and every conjunct is true. */
  predicate TextSelects(host: Host, text: string, params: Parameters, row: Row) {
    ReadWhere(text).Some? && SqlCompiler.Selects(host, ReadWhere(text).value, params, row)
  }

  /** The emitted text, under the emitted parameters, means the conjunction of the department scope, the filters and
      the time range, provided that the bounds hold no quote. */
  lemma TextMeaning(host: Host, plan: Plan, p: Principal, parsed: TimeFilter, row: Row)
    requires QuotableTime(plan)
    ensures var text := WhereText(WhereAtoms(host, plan, p, parsed));
            && ReadWhere(text).Some?
            && (TextSelects(host, text, WhereParams(host, plan, p), row)
                <==> InScope(p, row) && FiltersHold(host, plan.filters, |plan.filters|, row)
                     && TimeHolds(host, plan, parsed, row))
  {
    ClauseReadsBack(host, plan, p, parsed);
    WhereMeaning(host, plan, p, parsed, row);
  }

  const QUOTED := "'" + " OR " + "1 = 1" + " OR " + "PERIOD_DATE < DATE '"

  /** A plan whose start holds a quote between two dates, as in
      2026-01-01' OR 1 = 1 OR PERIOD_DATE < DATE '2026-01-01. */
  function QuotedPlan(date: string, end: string): Plan {
    Plan([], Some(TimeRange(Some(date + QUOTED + date), Some(end))))
  }

  function ScopedFront(date: string): string {
    "1 = 1" + " AND " + (AtomText(DepartmentIs(DEPARTMENT_BIND)) + " AND " + ("PERIOD_DATE >= DATE '" + date + "'"))
  }

  function UnscopedBack(date: string, end: string): string {
    "PERIOD_DATE < DATE '" + date + "' AND PERIOD_DATE < DATE '" + end + "'"
  }

  /** A bound with a quote: the conjuncts that were compiled select no row at all, but the text they print is a
      disjunction, one side of which is always true and carries no department, and does not read back as them. */
  lemma QuotedBound(host: Host, p: Principal, parsed: TimeFilter, row: Row, date: string, end: string)
    requires Scoped(p) && end != ""
    ensures var plan := QuotedPlan(date, end);
            var atoms := WhereAtoms(host, plan, p, parsed);
            && !SqlCompiler.Selects(host, atoms, WhereParams(host, plan, p), row)
            && ReadWhere(WhereText(atoms)) != Some(atoms)
            && WhereText(atoms) == ScopedFront(date) + " OR " + AtomText(AlwaysTrue) + " OR " + UnscopedBack(date, end)
  {
    QuotedAtoms(host, p, parsed, date, end);
    QuotedSelectsNothing(host, p, row, date, end);
    QuotedNotRead(host, p, parsed, date, end);
    ThreeTexts(AlwaysTrue, DepartmentIs(DEPARTMENT_BIND), PeriodWithin(date + QUOTED + date, end));
    QuotedText(AtomText(DepartmentIs(DEPARTMENT_BIND)), date, end);
  }

  lemma QuotedAtoms(host: Host, p: Principal, parsed: TimeFilter, date: string, end: string)
    requires Scoped(p) && end != ""
    ensures WhereAtoms(host, QuotedPlan(date, end), p, parsed)
         == [AlwaysTrue, DepartmentIs(DEPARTMENT_BIND), PeriodWithin(date + QUOTED + date, end)]
  {
    HoldsQuote(date);
  }

  lemma QuotedSelectsNothing(host: Host, p: Principal, row: Row, date: string, end: string)
    ensures !SqlCompiler.Selects(
              host, [AlwaysTrue, DepartmentIs(DEPARTMENT_BIND), PeriodWithin(date + QUOTED + date, end)],
              WhereParams(host, QuotedPlan(date, end), p), row)
  {
    var atoms := [AlwaysTrue, DepartmentIs(DEPARTMENT_BIND), PeriodWithin(date + QUOTED + date, end)];
    HoldsQuote(date);
    NotADate(date + QUOTED + date);
    assert atoms[2] in atoms;
  }

  lemma QuotedNotRead(host: Host, p: Principal, parsed: TimeFilter, date: string, end: string)
    requires end != ""
    ensures var atoms := WhereAtoms(host, QuotedPlan(date, end), p, parsed); ReadWhere(WhereText(atoms)) != Some(atoms)
  {
    HoldsQuote(date);
    ClauseReadsBack(host, QuotedPlan(date, end), p, parsed);
  }

  lemma HoldsQuote(date: string)
    ensures !Quotable(date + QUOTED + date) && |date + QUOTED + date| > 10
  {
    var start := date + QUOTED + date;
    assert |QUOTED| > 10 && QUOTED[0] == '\'';
    assert start[|date|] == QUOTED[0];
  }

  lemma QuotedText(scope: string, date: string, end: string)
    ensures "1 = 1" + " AND " + (scope + " AND " + AtomText(PeriodWithin(date + QUOTED + date, end)))
         == "1 = 1" + " AND " + (scope + " AND " + ("PERIOD_DATE >= DATE '" + date + "'")) + " OR " + "1 = 1" + " OR "
            + UnscopedBack(date, end)
  {
    Regroup("PERIOD_DATE >= DATE '", "' AND PERIOD_DATE < DATE '", "PERIOD_DATE < DATE '", "'", " OR ", "1 = 1", date,
            end);
    Hoist("1 = 1", " AND ", scope, "PERIOD_DATE >= DATE '" + date + "'", " OR ", UnscopedBack(date, end));
  }

  lemma Regroup(a: string, b: string, c: string, q: string, o: string, t: string, date: string, end: string)
    ensures a + (date + (q + o + t + o + c) + date) + b + end + q
         == (a + date + q) + o + t + o + (c + date + b + end + q)
  {
    var tail := b + end + q;
    assert date + (q + o + t + o + c) + date == date + (q + o + t + o) + (c + date);
    Associative(a, date + (q + o + t + o), c + date);
    assert a + (date + (q + o + t + o)) == (a + date + q) + o + t + o;
    var front := (a + date + q) + o + t + o;
    assert front + (c + date) + b + end + q == front + (c + date + b + end + q);
  }

  lemma Hoist(t: string, n: string, scope: string, x: string, o: string, z: string)
    ensures t + n + (scope + n + (x + o + t + o + z)) == t + n + (scope + n + x) + o + t + o + z
  {
    var head := scope + n;
    var y := o + t + o + z;
    assert x + o + t + o + z == x + y;
    Associative(head, x, y);
    Associative(t + n, head + x, y);
    var all := t + n + (head + x);
    assert all + y == all + o + t + o + z;
  }

  lemma NotADate(s: string)
    requires |s| != 10
    ensures FromIsoFormat(s).None?
  {
    if FromIsoFormat(s).Some? { IsoExact(s); }
  }

  lemma ThreeTexts(a: Atom, b: Atom, c: Atom)
    ensures WhereText([a, b, c]) == AtomText(a) + " AND " + (AtomText(b) + " AND " + AtomText(c))
  {
    var x, y, z := AtomText(a), AtomText(b), AtomText(c);
    assert AtomTexts([a, b, c]) == [x, y, z];
    assert [x, y, z][1..] == [y, z] && [y, z][1..] == [z];
    assert Join(" AND ", [y, z]) == y + " AND " + z;
  }
}
