/** What a user gets to see, cell by cell, told of the raw rows, the tags and the clearance. */
module MaskedRows {
  import opened Masking

  // ----- column security -----

  /** A cell is left out of the row of a user below clearance 3 when its column is tagged secret. */
  predicate LeftOut(schema: Schema, column: string, clearance: int) {
    column in schema && schema[column] == Secret && clearance < 3
  }

  /** Confidential columns need clearance 2, and internal ones 1. */
  predicate Starred(schema: Schema, column: string, clearance: int) {
    && column in schema
    && ((schema[column] == Confidential && clearance < 2) || (schema[column] == Internal && clearance < 1))
  }

  function Seen(row: Row, schema: Schema, clearance: int): Row {
    if row == [] then []
    else if LeftOut(schema, row[0].column, clearance) then Seen(row[1..], schema, clearance)
    else if Starred(schema, row[0].column, clearance) then
      [Cell(row[0].column, Text("***"))] + Seen(row[1..], schema, clearance)
    else [row[0]] + Seen(row[1..], schema, clearance)
  }

  function Told(row: Row, schema: Schema, clearance: int): seq<AuditRecord> {
    if row == [] then []
    else if LeftOut(schema, row[0].column, clearance) then
      [AuditRecord(row[0].column, Excluded)] + Told(row[1..], schema, clearance)
    else if Starred(schema, row[0].column, clearance) then
      [AuditRecord(row[0].column, Masked)] + Told(row[1..], schema, clearance)
    else Told(row[1..], schema, clearance)
  }

  function ToldAll(rows: seq<Row>, schema: Schema, clearance: int): seq<AuditRecord> {
    if rows == [] then [] else Told(rows[0], schema, clearance) + ToldAll(rows[1..], schema, clearance)
  }

  lemma OneCell(cell: Cell, schema: Schema, clearance: int)
    ensures SecureCell(cell, schema, clearance)
         == if LeftOut(schema, cell.column, clearance) then []
            else if Starred(schema, cell.column, clearance) then [Cell(cell.column, Text("***"))] else [cell]
    ensures AuditCell(cell, schema, clearance)
         == if LeftOut(schema, cell.column, clearance) then [AuditRecord(cell.column, Excluded)]
            else if Starred(schema, cell.column, clearance) then [AuditRecord(cell.column, Masked)] else []
  {
  }

  lemma {:induction false} SeenAppend(row: Row, last: Cell, schema: Schema, clearance: int)
    ensures Seen(row + [last], schema, clearance) == Seen(row, schema, clearance) + Seen([last], schema, clearance)
  {
    if row == [] {
      assert row + [last] == [last];
    } else {
      SeenAppend(row[1..], last, schema, clearance);
      assert (row + [last])[1..] == row[1..] + [last];
    }
  }

  lemma {:induction false} ToldAppend(row: Row, last: Cell, schema: Schema, clearance: int)
    ensures Told(row + [last], schema, clearance) == Told(row, schema, clearance) + Told([last], schema, clearance)
  {
    if row == [] {
      assert row + [last] == [last];
    } else {
      ToldAppend(row[1..], last, schema, clearance);
      assert (row + [last])[1..] == row[1..] + [last];
    }
  }

  lemma OnlyCell(cell: Cell, schema: Schema, clearance: int)
    ensures Seen([cell], schema, clearance) == SecureCell(cell, schema, clearance)
    ensures Told([cell], schema, clearance) == AuditCell(cell, schema, clearance)
  {
    OneCell(cell, schema, clearance);
    assert [cell][1..] == [];
  }

  /** A row as secured: secret cells are missing, protected ones show three stars, and all others are themselves, in
      order; and the audit tells of just those that are missing or starred. */
  lemma {:induction false} SecuredInFull(row: Row, schema: Schema, clearance: int)
    ensures SecureRow(row, schema, clearance) == Seen(row, schema, clearance)
    ensures AuditRow(row, schema, clearance) == Told(row, schema, clearance)
  {
    if row != [] {
      var front, last := row[..|row| - 1], row[|row| - 1];
      SecuredInFull(front, schema, clearance);
      SeenAppend(front, last, schema, clearance);
      ToldAppend(front, last, schema, clearance);
      OnlyCell(last, schema, clearance);
      assert row == front + [last];
    }
  }

  /** The records of all rows, in their order. */
  lemma {:induction false} AuditInFull(rows: seq<Row>, schema: Schema, clearance: int)
    ensures AuditRows(rows, schema, clearance) == ToldAll(rows, schema, clearance)
  {
    if rows != [] {
      var front, last := rows[..|rows| - 1], rows[|rows| - 1];
      AuditInFull(front, schema, clearance);
      SecuredInFull(last, schema, clearance);
      ToldAllAppend(front, last, schema, clearance);
      assert rows == front + [last];
    }
  }

  lemma {:induction false} ToldAllAppend(rows: seq<Row>, last: Row, schema: Schema, clearance: int)
    ensures ToldAll(rows + [last], schema, clearance)
         == ToldAll(rows, schema, clearance) + Told(last, schema, clearance)
  {
    if rows == [] {
      assert rows + [last] == [last] && [last][1..] == [];
    } else {
      ToldAllAppend(rows[1..], last, schema, clearance);
      assert (rows + [last])[1..] == rows[1..] + [last];
      RecordsAssociative(Told(rows[0], schema, clearance), ToldAll(rows[1..], schema, clearance),
                         Told(last, schema, clearance));
    }
  }

  // ----- masking -----

  /** A masker applied `n` times over. */
  function Times(mask: Masker, n: nat, text: string): string {
    if n == 0 then text else mask(Times(mask, n - 1, text))
  }

  lemma {:induction false} MaskedTimes(row: Row, columns: seq<string>, mask: Masker, i: nat)
    requires i < |row|
    ensures |MaskColumns(row, columns, mask)| == |row|
    ensures var cell := row[i];
            MaskColumns(row, columns, mask)[i]
            == match cell.value
               case Other(_) => cell
               case Text(t) => Cell(cell.column, Text(Times(mask, multiset(columns)[cell.column], t)))
  {
    MaskColumnsKeepsColumns(row, columns, mask);
    if columns != [] {
      var front, last := columns[..|columns| - 1], columns[|columns| - 1];
      MaskedTimes(row, front, mask, i);
      assert columns == front + [last];
      assert multiset(columns) == multiset(front) + multiset{last};
    }
  }

  lemma {:induction false} TimesSame(mask: Masker, n: nat, text: string)
    requires mask(text) == text
    ensures Times(mask, n, text) == text
  {
    if n > 0 { TimesSame(mask, n - 1, text); }
  }

  lemma {:induction false} TimesEqual(mask: Masker, other: Masker, n: nat, text: string)
    requires forall t :: mask(t) == other(t)
    ensures Times(mask, n, text) == Times(other, n, text)
  {
    if n > 0 { TimesEqual(mask, other, n - 1, text); }
  }

  /** A text of a free-text column in the final rows, of which there are `cells` cells to scan and which is listed `n`
      times: not scanned yet above 10,000 cells, itself from clearance 3 on, and otherwise masked. */
  predicate IsTreated(t: string, shown: string, n: nat, cells: int, clearance: int, mask: Masker) {
    && (cells > 10_000 && n > 0 ==> shown == "<PII_SCAN_PENDING>")
    && (cells <= 10_000 && clearance >= 3 ==> shown == t)
    && (cells <= 10_000 && clearance < 3 && n == 1 ==> shown == mask(t))
    && (cells <= 10_000 && clearance < 3 ==> shown == Times(mask, n, t))
    && (n == 0 ==> shown == t)
  }

  lemma Treated(t: string, n: nat, rows: seq<Row>, columns: seq<string>, clearance: int, mask: Masker)
    ensures var all := Replacement(ModeOf(rows, columns), mask, clearance);
            IsTreated(t, Times(all, n, t), n, |rows| * |columns|, clearance, mask)
  {
    var all := Replacement(ModeOf(rows, columns), mask, clearance);
    if |rows| * |columns| <= 10_000 {
      if clearance >= 3 { TimesSame(all, n, t); } else { TimesEqual(all, mask, n, t); }
      if n == 1 { assert Times(mask, 0, t) == t; }
    }
  }

  /** With declared columns: every cell the user may see is itself when it holds no text or its column is not declared,
      and treated text otherwise. */
  lemma DeclaredInFull(
      rows: seq<Row>, schema: Schema, clearance: int, declared: seq<string>, mask: Masker, i: nat, j: nat)
    requires declared != [] && i < |rows| && j < |Seen(rows[i], schema, clearance)|
    ensures var final: seq<Row> := Final(rows, schema, clearance, declared, mask);
            var cell: Cell := Seen(rows[i], schema, clearance)[j];
            && |final| == |rows| && |final[i]| == |Seen(rows[i], schema, clearance)|
            && final[i][j].column == cell.column
            && match cell.value
               case Other(_) => final[i][j] == cell
               case Text(t) =>
                 final[i][j].value.Text?
                 && IsTreated(t, final[i][j].value.text, multiset(declared)[cell.column], |rows| * |declared|,
                              clearance, mask)
  {
    var secured := SecureRows(rows, schema, clearance);
    SecuredInFull(rows[i], schema, clearance);
    MaskedTimes(secured[i], declared, Replacement(ModeOf(secured, declared), mask, clearance), j);
    if secured[i][j].value.Text? {
      Treated(secured[i][j].value.text, multiset(declared)[secured[i][j].column], secured, declared, clearance, mask);
    }
  }

  /** The columns in which some secured row holds text. */
  function TextNames(rows: seq<Row>, schema: Schema, clearance: int): set<string> {
    set i, j | 0 <= i < |rows| && 0 <= j < |Seen(rows[i], schema, clearance)|
               && Seen(rows[i], schema, clearance)[j].value.Text?
      :: Seen(rows[i], schema, clearance)[j].column
  }

  lemma {:induction false} IncreasingCount(xs: seq<string>, names: set<string>)
    requires Increasing(xs) && forall x :: x in names <==> x in xs
    ensures |names| == |xs| && forall x :: x in xs ==> multiset(xs)[x] == 1
  {
    if xs == [] {
      assert names == {};
    } else {
      var front, last := xs[..|xs| - 1], xs[|xs| - 1];
      assert xs == front + [last];
      if last in front {
        var k :| 0 <= k < |front| && front[k] == last;
        assert Less(xs[k], xs[|xs| - 1]);
        LessIrreflexive(last);
      }
      IncreasingCount(front, names - {last});
      assert multiset(xs) == multiset(front) + multiset{last};
    }
  }

  lemma InTextNames(rows: seq<Row>, schema: Schema, clearance: int, column: string)
    ensures column in TextColumns(SecureRows(rows, schema, clearance)) <==> column in TextNames(rows, schema, clearance)
  {
    var secured := SecureRows(rows, schema, clearance);
    TextColumnsExactly(secured, column);
    forall i | 0 <= i < |rows|
      ensures secured[i] == Seen(rows[i], schema, clearance)
    {
      SecuredInFull(rows[i], schema, clearance);
    }
    if i :| 0 <= i < |secured| && HasText(secured[i], column) {
      var j :| 0 <= j < |secured[i]| && secured[i][j].column == column && secured[i][j].value.Text?;
      assert Seen(rows[i], schema, clearance)[j].column == column;
    }
    if column in TextNames(rows, schema, clearance) {
      var i, j :| 0 <= i < |rows| && 0 <= j < |Seen(rows[i], schema, clearance)|
                  && Seen(rows[i], schema, clearance)[j].value.Text?
                  && Seen(rows[i], schema, clearance)[j].column == column;
      assert HasText(secured[i], column);
    }
  }

  /** With inferred columns: every text the user may see is treated once, and nothing else is changed. The cells to scan
      are those of the columns that hold text somewhere. */
  lemma InferredInFull(rows: seq<Row>, schema: Schema, clearance: int, mask: Masker, i: nat, j: nat)
    requires i < |rows| && j < |Seen(rows[i], schema, clearance)|
    ensures var final: seq<Row> := Final(rows, schema, clearance, [], mask);
            var cell: Cell := Seen(rows[i], schema, clearance)[j];
            && |final| == |rows| && |final[i]| == |Seen(rows[i], schema, clearance)|
            && final[i][j].column == cell.column
            && match cell.value
               case Other(_) => final[i][j] == cell
               case Text(t) =>
                 final[i][j].value.Text?
                 && IsTreated(t, final[i][j].value.text, 1, |rows| * |TextNames(rows, schema, clearance)|, clearance,
                              mask)
  {
    var secured := SecureRows(rows, schema, clearance);
    var columns := TextColumns(secured);
    SecuredInFull(rows[i], schema, clearance);
    var cell: Cell := secured[i][j];
    forall c
      ensures c in columns <==> c in TextNames(rows, schema, clearance)
    {
      InTextNames(rows, schema, clearance, c);
    }
    TextColumnsExactly(secured, cell.column);
    IncreasingCount(columns, TextNames(rows, schema, clearance));
    MaskedTimes(secured[i], columns, Replacement(ModeOf(secured, columns), mask, clearance), j);
    if cell.value.Text? {
      assert HasText(secured[i], cell.column);
      Treated(cell.value.text, 1, secured, columns, clearance, mask);
    }
  }

  /** A result counts as scanned unless it has more than 10,000 cells to scan. */
  lemma ModeInFull(rows: seq<Row>, schema: Schema, clearance: int, declared: seq<string>)
    ensures var secured := SecureRows(rows, schema, clearance);
            var columns := if declared != [] then |declared| else |TextNames(rows, schema, clearance)|;
            ModeOf(secured, FreeText(secured, declared)) == if |rows| * columns > 10_000 then Async else Inline
  {
    var secured := SecureRows(rows, schema, clearance);
    var columns := TextColumns(secured);
    forall c
      ensures c in columns <==> c in TextNames(rows, schema, clearance)
    {
      InTextNames(rows, schema, clearance, c);
    }
    TextColumnsExactly(secured, "");
    IncreasingCount(columns, TextNames(rows, schema, clearance));
  }
}
