/** Column security and masking of personal data on the rows of a result. */
module Masking {

  // ----- rows -----

  datatype Value = Text(text: string) | Other(code: int)

  datatype Cell = Cell(column: string, value: Value)

  /** A row is a dictionary in insertion order. */
  type Row = seq<Cell>

  predicate DistinctColumns(row: Row) { forall i, j :: 0 <= i < j < |row| ==> row[i].column != row[j].column }

  datatype Sensitivity = Public | Internal | Confidential | Secret

  type Schema = map<string, Sensitivity>

  function Level(s: Sensitivity): nat {
    match s case Public => 0 case Internal => 1 case Confidential => 2 case Secret => 3
  }

  /** A column without a tag is public. */
  function SensitivityOf(schema: Schema, column: string): Sensitivity {
    if column in schema then schema[column] else Public
  }

  /** Sensitivity at or below the clearance; public columns are visible to anybody. */
  predicate IsVisible(schema: Schema, column: string, clearance: int) {
    SensitivityOf(schema, column).Public? || Level(SensitivityOf(schema, column)) <= clearance
  }

  predicate IsExcluded(schema: Schema, column: string, clearance: int) {
    SensitivityOf(schema, column).Secret? && !IsVisible(schema, column, clearance)
  }

  // ----- column security -----

  datatype AuditAction = Excluded | Masked

  datatype AuditRecord = AuditRecord(field: string, action: AuditAction)

  /** The branches of `apply_column_security`, for one cell. */
  function SecureCell(cell: Cell, schema: Schema, clearance: int): Row {
    var s := SensitivityOf(schema, cell.column);
    if s.Secret? && clearance < 3 then []
    else if s.Confidential? && clearance < 2 then [Cell(cell.column, Text("***"))]
    else if s.Internal? && clearance < 1 then [Cell(cell.column, Text("***"))]
    else [cell]
  }

  function AuditCell(cell: Cell, schema: Schema, clearance: int): seq<AuditRecord> {
    if IsExcluded(schema, cell.column, clearance) then [AuditRecord(cell.column, Excluded)]
    else if !IsVisible(schema, cell.column, clearance) then [AuditRecord(cell.column, Masked)]
    else []
  }

  function SecureRow(row: Row, schema: Schema, clearance: int): Row {
    if row == [] then []
    else SecureRow(row[..|row| - 1], schema, clearance) + SecureCell(row[|row| - 1], schema, clearance)
  }

  function AuditRow(row: Row, schema: Schema, clearance: int): seq<AuditRecord> {
    if row == [] then []
    else AuditRow(row[..|row| - 1], schema, clearance) + AuditCell(row[|row| - 1], schema, clearance)
  }

  function SecureRows(rows: seq<Row>, schema: Schema, clearance: int): (r: seq<Row>)
    ensures |r| == |rows|
  {
    seq(|rows|, i requires 0 <= i < |rows| => SecureRow(rows[i], schema, clearance))
  }

  function AuditRows(rows: seq<Row>, schema: Schema, clearance: int): seq<AuditRecord> {
    if rows == [] then []
    else AuditRows(rows[..|rows| - 1], schema, clearance) + AuditRow(rows[|rows| - 1], schema, clearance)
  }

  lemma NextCell(row: Row, i: nat, schema: Schema, clearance: int)
    requires i < |row|
    ensures SecureRow(row[..i + 1], schema, clearance)
         == SecureRow(row[..i], schema, clearance) + SecureCell(row[i], schema, clearance)
    ensures AuditRow(row[..i + 1], schema, clearance)
         == AuditRow(row[..i], schema, clearance) + AuditCell(row[i], schema, clearance)
  {
    assert row[..i + 1][..i] == row[..i];
  }

  lemma RecordsAssociative(a: seq<AuditRecord>, b: seq<AuditRecord>, c: seq<AuditRecord>)
    ensures a + b + c == a + (b + c)
    ensures a + [] == a
  {
  }

  method SecureOneRow(row: Row, schema: Schema, clearance: int, audit: seq<AuditRecord>)
    returns (newRow: Row, records: seq<AuditRecord>)
    ensures newRow == SecureRow(row, schema, clearance)
    ensures records == audit + AuditRow(row, schema, clearance)
  {
    newRow, records := [], audit;
    ghost var added: seq<AuditRecord> := [];
    var i := 0;
    while i < |row|
      invariant 0 <= i <= |row|
      invariant newRow == SecureRow(row[..i], schema, clearance)
      invariant records == audit + added && added == AuditRow(row[..i], schema, clearance)
    {
      var cell := row[i];
      var s := SensitivityOf(schema, cell.column);
      if s.Secret? && clearance < 3 {
        records := records + [AuditRecord(cell.column, Excluded)];
      } else if s.Confidential? && clearance < 2 {
        newRow := newRow + [Cell(cell.column, Text("***"))];
        records := records + [AuditRecord(cell.column, Masked)];
      } else if s.Internal? && clearance < 1 {
        newRow := newRow + [Cell(cell.column, Text("***"))];
        records := records + [AuditRecord(cell.column, Masked)];
      } else {
        newRow := newRow + [cell];
      }
      added := added + AuditCell(cell, schema, clearance);
      RecordsAssociative(audit, AuditRow(row[..i], schema, clearance), AuditCell(cell, schema, clearance));
      NextCell(row, i, schema, clearance);
      i := i + 1;
    }
    assert row[..i] == row;
  }

  /** `apply_column_security`. */
  method ApplyColumnSecurity(rows: seq<Row>, schema: Schema, clearance: int)
    returns (processed: seq<Row>, audit: seq<AuditRecord>)
    ensures processed == SecureRows(rows, schema, clearance)
    ensures audit == AuditRows(rows, schema, clearance)
  {
    processed, audit := [], [];
    var i := 0;
    while i < |rows|
      invariant 0 <= i <= |rows|
      invariant processed == SecureRows(rows[..i], schema, clearance)
      invariant audit == AuditRows(rows[..i], schema, clearance)
    {
      var newRow;
      newRow, audit := SecureOneRow(rows[i], schema, clearance, audit);
      processed := processed + [newRow];
      assert rows[..i + 1][..i] == rows[..i];
      i := i + 1;
    }
    assert rows[..i] == rows;
  }

  // ----- what a user may learn -----

  /** The cells of a row that are not excluded. */
  function Remaining(row: Row, schema: Schema, clearance: int): Row {
    if row == [] then []
    else Remaining(row[..|row| - 1], schema, clearance)
         + (if IsExcluded(schema, row[|row| - 1].column, clearance) then [] else [row[|row| - 1]])
  }

  /** Same columns in the same order, and the same values where the user may see them. */
  predicate SameForUser(a: Row, b: Row, schema: Schema, clearance: int) {
    && |a| == |b|
    && forall i :: 0 <= i < |a| ==>
         a[i].column == b[i].column && (IsVisible(schema, a[i].column, clearance) ==> a[i].value == b[i].value)
  }

  /** The two results agree on everything at or below the clearance. */
  predicate Indistinguishable(a: seq<Row>, b: seq<Row>, schema: Schema, clearance: int) {
    && |a| == |b|
    && forall i :: 0 <= i < |a| ==>
         SameForUser(Remaining(a[i], schema, clearance), Remaining(b[i], schema, clearance), schema, clearance)
  }

  /** A cell as shown: itself where visible, three stars otherwise. */
  function ShownCell(cell: Cell, schema: Schema, clearance: int): Cell {
    if IsVisible(schema, cell.column, clearance) then cell else Cell(cell.column, Text("***"))
  }

  lemma {:induction false} SecureRowShows(row: Row, schema: Schema, clearance: int)
    ensures var kept := Remaining(row, schema, clearance);
            && |SecureRow(row, schema, clearance)| == |kept|
            && forall i :: 0 <= i < |kept| ==>
                 SecureRow(row, schema, clearance)[i] == ShownCell(kept[i], schema, clearance)
  {
    if row != [] {
      SecureRowShows(row[..|row| - 1], schema, clearance);
      var cell := row[|row| - 1];
      assert SecureCell(cell, schema, clearance)
          == if IsExcluded(schema, cell.column, clearance) then [] else [ShownCell(cell, schema, clearance)];
    }
  }

  lemma RowsShowSame(a: Row, b: Row, schema: Schema, clearance: int)
    ensures SecureRow(a, schema, clearance) == SecureRow(b, schema, clearance)
        <==> SameForUser(Remaining(a, schema, clearance), Remaining(b, schema, clearance), schema, clearance)
  {
    SecureRowShows(a, schema, clearance);
    SecureRowShows(b, schema, clearance);
    var p, q := Remaining(a, schema, clearance), Remaining(b, schema, clearance);
    var s, t := SecureRow(a, schema, clearance), SecureRow(b, schema, clearance);
    if s == t {
      forall i | 0 <= i < |p|
        ensures p[i].column == q[i].column && (IsVisible(schema, p[i].column, clearance) ==> p[i].value == q[i].value)
      {
        assert s[i] == t[i];
      }
    }
  }

  /** Column security lets through exactly what the user may see: the secured rows are equal if and only if the
      results agree on it. */
  lemma SecuredExactly(a: seq<Row>, b: seq<Row>, schema: Schema, clearance: int)
    ensures SecureRows(a, schema, clearance) == SecureRows(b, schema, clearance)
        <==> Indistinguishable(a, b, schema, clearance)
  {
    var s, t := SecureRows(a, schema, clearance), SecureRows(b, schema, clearance);
    forall i | 0 <= i < |a| && i < |b|
      ensures s[i] == t[i] <==>
              SameForUser(Remaining(a[i], schema, clearance), Remaining(b[i], schema, clearance), schema, clearance)
    {
      RowsShowSame(a[i], b[i], schema, clearance);
    }
  }

  // ----- masking text cells -----

  const CellLimit := 10_000
  const Bypass := 3

  /** Any text masker whatever. */
  type Masker = string -> string

  function MaskText(mask: Masker, text: string, clearance: int): string {
    if clearance >= Bypass then text else mask(text)
  }

  function MaskCell(cell: Cell, column: string, mask: Masker): Cell {
    if cell.column == column && cell.value.Text? then Cell(column, Text(mask(cell.value.text))) else cell
  }

  function MaskColumn(row: Row, column: string, mask: Masker): (r: Row)
    ensures |r| == |row| && forall i :: 0 <= i < |r| ==> r[i] == MaskCell(row[i], column, mask)
  {
    seq(|row|, i requires 0 <= i < |row| => MaskCell(row[i], column, mask))
  }

  /** One column after the other, so that a column listed twice is masked twice. */
  function MaskColumns(row: Row, columns: seq<string>, mask: Masker): Row {
    if columns == [] then row
    else MaskColumn(MaskColumns(row, columns[..|columns| - 1], mask), columns[|columns| - 1], mask)
  }

  function MaskRows(rows: seq<Row>, columns: seq<string>, mask: Masker): (r: seq<Row>)
    ensures |r| == |rows|
  {
    seq(|rows|, i requires 0 <= i < |rows| => MaskColumns(rows[i], columns, mask))
  }

  /** The place of a column in a row. */
  method Position(row: Row, column: string) returns (at: int)
    ensures at == -1 ==> forall i :: 0 <= i < |row| ==> row[i].column != column
    ensures at != -1 ==> 0 <= at < |row| && row[at].column == column
  {
    at := 0;
    while at < |row|
      invariant 0 <= at <= |row|
      invariant forall i :: 0 <= i < at ==> row[i].column != column
    {
      if row[at].column == column { return; }
      at := at + 1;
    }
    at := -1;
  }

  lemma {:induction false} MaskColumnsKeepsColumns(row: Row, columns: seq<string>, mask: Masker)
    ensures var r := MaskColumns(row, columns, mask);
            |r| == |row| && forall i :: 0 <= i < |r| ==> r[i].column == row[i].column
  {
    if columns != [] { MaskColumnsKeepsColumns(row, columns[..|columns| - 1], mask); }
  }

  /** The inner loops of `scan_rows` and of the pending branch. */
  method OverwriteText(row: Row, columns: seq<string>, mask: Masker) returns (newRow: Row)
    requires DistinctColumns(row)
    ensures newRow == MaskColumns(row, columns, mask)
  {
    newRow := row;
    var k := 0;
    while k < |columns|
      invariant 0 <= k <= |columns|
      invariant newRow == MaskColumns(row, columns[..k], mask)
    {
      MaskColumnsKeepsColumns(row, columns[..k], mask);
      ghost var before := newRow;
      var at := Position(newRow, columns[k]);
      if at != -1 && newRow[at].value.Text? {
        newRow := newRow[at := Cell(columns[k], Text(mask(newRow[at].value.text)))];
      }
      assert newRow == MaskColumn(before, columns[k], mask);
      assert columns[..k + 1][..k] == columns[..k];
      k := k + 1;
    }
    assert columns[..k] == columns;
  }

  method OverwriteAll(rows: seq<Row>, columns: seq<string>, mask: Masker) returns (newRows: seq<Row>)
    requires forall i :: 0 <= i < |rows| ==> DistinctColumns(rows[i])
    ensures newRows == MaskRows(rows, columns, mask)
  {
    newRows := [];
    var i := 0;
    while i < |rows|
      invariant 0 <= i <= |rows|
      invariant newRows == MaskRows(rows[..i], columns, mask)
    {
      var newRow := OverwriteText(rows[i], columns, mask);
      newRows := newRows + [newRow];
      i := i + 1;
    }
    assert rows[..i] == rows;
  }

  // ----- which columns hold text -----

  predicate Less(a: string, b: string) {
    if b == "" then false
    else if a == "" then true
    else if a[0] != b[0] then a[0] < b[0]
    else Less(a[1..], b[1..])
  }

  lemma {:induction false} LessTotal(a: string, b: string)
    ensures a == b || Less(a, b) || Less(b, a)
  {
    if a != "" && b != "" && a[0] == b[0] {
      LessTotal(a[1..], b[1..]);
      if a[1..] == b[1..] { assert a == [a[0]] + a[1..] && b == [b[0]] + b[1..]; }
    }
  }

  lemma {:induction false} LessTransitive(a: string, b: string, c: string)
    requires Less(a, b) && Less(b, c)
    ensures Less(a, c)
  {
    if a != "" && a[0] == b[0] && b[0] == c[0] { LessTransitive(a[1..], b[1..], c[1..]); }
  }

  lemma {:induction false} LessIrreflexive(a: string)
    ensures !Less(a, a)
  {
    if a != "" { LessIrreflexive(a[1..]); }
  }

  predicate Increasing(xs: seq<string>) { forall i, j :: 0 <= i < j < |xs| ==> Less(xs[i], xs[j]) }

  /** Adds a member to a set kept as an increasing sequence. */
  function WithColumn(xs: seq<string>, x: string): seq<string> {
    if xs == [] || Less(x, xs[0]) then [x] + xs
    else if x == xs[0] then xs
    else [xs[0]] + WithColumn(xs[1..], x)
  }

  lemma {:induction false} WithColumnAdds(xs: seq<string>, x: string)
    requires Increasing(xs)
    ensures Increasing(WithColumn(xs, x))
    ensures forall y :: y in WithColumn(xs, x) <==> y in xs || y == x
  {
    if xs == [] {
    } else if Less(x, xs[0]) {
      forall j | 0 <= j < |xs|
        ensures Less(x, xs[j])
      {
        if j > 0 { LessTransitive(x, xs[0], xs[j]); }
      }
    } else if x != xs[0] {
      LessTotal(x, xs[0]);
      WithColumnAdds(xs[1..], x);
      var rest := WithColumn(xs[1..], x);
      forall j | 0 <= j < |rest|
        ensures Less(xs[0], rest[j])
      {
        assert rest[j] in rest;
        if rest[j] != x {
          var k :| 0 <= k < |xs| - 1 && xs[1..][k] == rest[j];
        }
      }
      assert xs == [xs[0]] + xs[1..];
    }
  }

  function TextColumnsOfRow(xs: seq<string>, row: Row): seq<string> {
    if row == [] then xs
    else
      var before := TextColumnsOfRow(xs, row[..|row| - 1]);
      if row[|row| - 1].value.Text? then WithColumn(before, row[|row| - 1].column) else before
  }

  /** `_infer_free_text_columns`: sorted, each once. */
  function TextColumns(rows: seq<Row>): seq<string> {
    if rows == [] then [] else TextColumnsOfRow(TextColumns(rows[..|rows| - 1]), rows[|rows| - 1])
  }

  predicate HasText(row: Row, column: string) {
    exists i :: 0 <= i < |row| && row[i].column == column && row[i].value.Text?
  }

  lemma HasTextLast(row: Row, column: string)
    requires row != []
    ensures HasText(row, column) <==>
            HasText(row[..|row| - 1], column) || (row[|row| - 1].value.Text? && row[|row| - 1].column == column)
  {
    var front := row[..|row| - 1];
    if i :| 0 <= i < |front| && front[i].column == column && front[i].value.Text? {
      assert row[i].column == column && row[i].value.Text?;
    }
  }

  lemma {:induction false} TextColumnsOfRowAdds(xs: seq<string>, row: Row, column: string)
    requires Increasing(xs)
    ensures Increasing(TextColumnsOfRow(xs, row))
    ensures column in TextColumnsOfRow(xs, row) <==> column in xs || HasText(row, column)
  {
    if row != [] {
      var front, last := row[..|row| - 1], row[|row| - 1];
      TextColumnsOfRowAdds(xs, front, column);
      HasTextLast(row, column);
      WithColumnAdds(TextColumnsOfRow(xs, front), last.column);
    }
  }

  /** Exactly the columns in which some row holds text, in increasing order. */
  lemma {:induction false} TextColumnsExactly(rows: seq<Row>, column: string)
    ensures Increasing(TextColumns(rows))
    ensures column in TextColumns(rows) <==> exists i :: 0 <= i < |rows| && HasText(rows[i], column)
  {
    if rows != [] {
      var front, last := rows[..|rows| - 1], rows[|rows| - 1];
      TextColumnsExactly(front, column);
      TextColumnsOfRowAdds(TextColumns(front), last, column);
      if i :| 0 <= i < |rows| && HasText(rows[i], column) {
        if i < |front| { assert HasText(front[i], column); }
      }
      if i :| 0 <= i < |front| && HasText(front[i], column) { assert HasText(rows[i], column); }
    }
  }

  method InferFreeTextColumns(rows: seq<Row>) returns (columns: seq<string>)
    ensures columns == TextColumns(rows)
  {
    columns := [];
    var i := 0;
    while i < |rows|
      invariant 0 <= i <= |rows|
      invariant columns == TextColumns(rows[..i])
    {
      var j := 0;
      ghost var before := columns;
      assert rows[i][..0] == [];
      while j < |rows[i]|
        invariant 0 <= j <= |rows[i]|
        invariant columns == TextColumnsOfRow(before, rows[i][..j])
      {
        if rows[i][j].value.Text? { columns := WithColumn(columns, rows[i][j].column); }
        assert rows[i][..j + 1][..j] == rows[i][..j];
        j := j + 1;
      }
      assert rows[i][..j] == rows[i];
      assert rows[..i + 1][..i] == rows[..i];
      i := i + 1;
    }
    assert rows[..i] == rows;
  }

  // ----- the whole pipeline -----

  datatype Mode = Inline | Async

  const Pending := "<PII_SCAN_PENDING>"

  function ModeOf(rows: seq<Row>, columns: seq<string>): Mode {
    if |rows| * |columns| > CellLimit then Async else Inline
  }

  function FreeText(secured: seq<Row>, declared: seq<string>): seq<string> {
    if declared != [] then declared else TextColumns(secured)
  }

  /** What replaces a text cell. */
  function Replacement(mode: Mode, mask: Masker, clearance: int): Masker {
    if mode.Async? then _ => Pending else t => MaskText(mask, t, clearance)
  }

  function Final(rows: seq<Row>, schema: Schema, clearance: int, declared: seq<string>, mask: Masker): seq<Row> {
    var secured := SecureRows(rows, schema, clearance);
    var columns := FreeText(secured, declared);
    MaskRows(secured, columns, Replacement(ModeOf(secured, columns), mask, clearance))
  }

  lemma {:induction false} SecureRowDistinct(row: Row, schema: Schema, clearance: int)
    requires DistinctColumns(row)
    ensures DistinctColumns(SecureRow(row, schema, clearance))
    ensures forall i :: 0 <= i < |SecureRow(row, schema, clearance)| ==>
              exists j :: 0 <= j < |row| && row[j].column == SecureRow(row, schema, clearance)[i].column
  {
    if row != [] {
      var front, last := row[..|row| - 1], row[|row| - 1];
      SecureRowDistinct(front, schema, clearance);
      var before, now := SecureRow(front, schema, clearance), SecureRow(row, schema, clearance);
      forall i | 0 <= i < |now|
        ensures exists j :: 0 <= j < |row| && row[j].column == now[i].column
      {
        if i < |before| {
          var j :| 0 <= j < |front| && front[j].column == before[i].column;
          assert row[j].column == now[i].column;
        } else {
          assert row[|row| - 1].column == now[i].column;
        }
      }
      forall i | 0 <= i < |before|
        ensures before[i].column != last.column
      {
        var j :| 0 <= j < |front| && front[j].column == before[i].column;
        assert row[j].column != last.column;
      }
    }
  }

  /** `_apply_runtime_security`. An empty or absent declaration of free-text columns means that they are inferred. */
  method ApplyRuntimeSecurity(rows: seq<Row>, schema: Schema, clearance: int, declared: seq<string>, mask: Masker)
    returns (finalRows: seq<Row>, mode: Mode)
    requires forall i :: 0 <= i < |rows| ==> DistinctColumns(rows[i])
    ensures finalRows == Final(rows, schema, clearance, declared, mask)
    ensures rows == [] ==> finalRows == [] && mode == Inline
    ensures rows != [] ==>
              (var secured := SecureRows(rows, schema, clearance); mode == ModeOf(secured, FreeText(secured, declared)))
  {
    if rows == [] { return [], Inline; }
    var secured, _ := ApplyColumnSecurity(rows, schema, clearance);
    forall i | 0 <= i < |rows|
      ensures DistinctColumns(secured[i])
    {
      SecureRowDistinct(rows[i], schema, clearance);
    }
    var columns := declared;
    if columns == [] { columns := InferFreeTextColumns(secured); }
    if |secured| * |columns| > CellLimit {
      mode := Async;
      finalRows := OverwriteAll(secured, columns, Replacement(Async, mask, clearance));
    } else {
      mode := Inline;
      finalRows := OverwriteAll(secured, columns, Replacement(Inline, mask, clearance));
    }
  }

  /** Non-interference: results that agree on all a user may see give that user the same final rows, inline and
      pending, with declared and with inferred columns, for any masker. */
  lemma FinalRowsHideTheRest(
      a: seq<Row>, b: seq<Row>, schema: Schema, clearance: int, declared: seq<string>, mask: Masker)
    requires Indistinguishable(a, b, schema, clearance)
    ensures Final(a, schema, clearance, declared, mask) == Final(b, schema, clearance, declared, mask)
    ensures var s, t := SecureRows(a, schema, clearance), SecureRows(b, schema, clearance);
            ModeOf(s, FreeText(s, declared)) == ModeOf(t, FreeText(t, declared))
  {
    SecuredExactly(a, b, schema, clearance);
  }

  lemma {:induction false} MaskedOnce(row: Row, columns: seq<string>, mask: Masker, i: nat)
    requires Increasing(columns) && i < |row|
    ensures |MaskColumns(row, columns, mask)| == |row|
    ensures MaskColumns(row, columns, mask)[i]
         == if row[i].column in columns && row[i].value.Text?
            then Cell(row[i].column, Text(mask(row[i].value.text))) else row[i]
  {
    MaskColumnsKeepsColumns(row, columns, mask);
    if columns != [] {
      var front, last := columns[..|columns| - 1], columns[|columns| - 1];
      MaskedOnce(row, front, mask, i);
      if last in front {
        var k :| 0 <= k < |front| && front[k] == last;
        assert Less(columns[k], columns[|columns| - 1]);
        LessIrreflexive(last);
      }
      assert columns == front + [last];
    }
  }

  /** With inferred columns every text a user gets went through the replacement, once, and nothing else was changed. */
  lemma InferredMissesNothing(rows: seq<Row>, schema: Schema, clearance: int, mask: Masker, i: nat, j: nat)
    requires i < |rows| && j < |SecureRow(rows[i], schema, clearance)|
    ensures var secured := SecureRows(rows, schema, clearance);
            var mode := ModeOf(secured, TextColumns(secured));
            var cell := secured[i][j];
            && |Final(rows, schema, clearance, [], mask)| == |rows|
            && |Final(rows, schema, clearance, [], mask)[i]| == |secured[i]|
            && Final(rows, schema, clearance, [], mask)[i][j]
               == match cell.value
                  case Other(_) => cell
                  case Text(t) => Cell(cell.column, Text(Replacement(mode, mask, clearance)(t)))
  {
    var secured := SecureRows(rows, schema, clearance);
    var cell: Cell := secured[i][j];
    TextColumnsExactly(secured, cell.column);
    assert cell.value.Text? ==> HasText(secured[i], cell.column);
    var columns := TextColumns(secured);
    MaskedOnce(secured[i], columns, Replacement(ModeOf(secured, columns), mask, clearance), j);
  }
}
