/** Column names and cell references of the spreadsheet export: ST_CellRef, section 18.18.7 of ECMA-376 Part 1. */
module Worksheet {
  import opened Wrappers
  import opened Text

  predicate IsColumnName(s: string) { s != "" && forall i :: 0 <= i < |s| ==> 'A' <= s[i] <= 'Z' }

  function Letter(n: nat): char
    requires n < 26
  {
    (65 + n) as char
  }

  /** The column with a number, as the loop builds it from the right; "" for zero. */
  function ColumnName(index: nat): (s: string)
    ensures index > 0 ==> IsColumnName(s)
    ensures index == 0 ==> s == ""
    decreases index
  {
    if index == 0 then ""
    else
      var front := ColumnName((index - 1) / 26);
      front + [Letter((index - 1) % 26)]
  }

  /** Letters read as digits from 1 to 26, base 26. */
  function ColumnNumber(s: string): nat
    requires s == "" || IsColumnName(s)
  {
    if s == "" then 0 else 26 * ColumnNumber(s[..|s| - 1]) + (s[|s| - 1] as int - 64)
  }

  /** `_excel_column_name`. */
  method ExcelColumnName(index: int) returns (name: string)
    ensures name == if index > 0 then ColumnName(index) else ""
  {
    name := "";
    var current := index;
    while current > 0
      invariant current >= 0 || current == index
      invariant index > 0 ==> current >= 0 && ColumnName(index) == ColumnName(current) + name
      invariant index <= 0 ==> name == ""
      decreases current
    {
      var remainder := (current - 1) % 26;
      ghost var was := name;
      name := [Letter(remainder)] + name;
      Associative(ColumnName((current - 1) / 26), [Letter(remainder)], was);
      current := (current - 1) / 26;
    }
  }

  /** Every number has a name that reads back as it. */
  lemma {:induction false} NumberOfName(index: nat)
    ensures ColumnNumber(ColumnName(index)) == index
    decreases index
  {
    if index > 0 {
      NumberOfName((index - 1) / 26);
      var s := ColumnName(index);
      assert s[..|s| - 1] == ColumnName((index - 1) / 26);
    }
  }

  /** Every run of capital letters is the name of its number: no name is left out. */
  lemma {:induction false} NameOfNumber(s: string)
    requires s == "" || IsColumnName(s)
    ensures ColumnName(ColumnNumber(s)) == s
  {
    if s != "" {
      var front, n := s[..|s| - 1], ColumnNumber(s);
      NameOfNumber(front);
      var d := s[|s| - 1] as int - 65;
      assert n - 1 == 26 * ColumnNumber(front) + d && 0 <= d < 26;
      assert (n - 1) / 26 == ColumnNumber(front) && (n - 1) % 26 == d;
      assert front + [s[|s| - 1]] == s;
    }
  }

  /** The first 26 columns are A to Z, and each name is followed by 26 that are one letter longer. */
  lemma NamesFollow(front: nat, letter: nat, index: nat)
    requires 1 <= letter <= 26 && index == 26 * front + letter
    ensures ColumnName(index) == ColumnName(front) + [(64 + letter) as char]
    ensures front == 0 ==> ColumnName(index) == [(64 + letter) as char]
  {
    assert (index - 1) / 26 == front && (index - 1) % 26 == letter - 1;
  }

  function CellRef(column: nat, row: nat): string { ColumnName(column) + Dec(row) }

  /** How many letters a reference starts with. */
  function Letters(s: string): (n: nat)
    ensures n <= |s|
    ensures forall i :: 0 <= i < n ==> 'A' <= s[i] <= 'Z'
  {
    if s == "" || !('A' <= s[0] <= 'Z') then 0 else 1 + Letters(s[1..])
  }

  /** Reads a reference: the letters are the column, the digits the row. */
  function ReadRef(s: string): Option<(nat, nat)> {
    var n := Letters(s);
    if n == 0 || n == |s| || !AllDigits(s[n..]) then None
    else Some((ColumnNumber(s[..n]), Value(s[n..])))
  }

  lemma {:induction false} LettersThenDigits(a: string, b: string)
    requires (a == "" || IsColumnName(a)) && AllDigits(b)
    ensures Letters(a + b) == |a|
  {
    if a != "" {
      assert (a + b)[1..] == a[1..] + b;
      LettersThenDigits(a[1..], b);
    } else {
      assert a + b == b;
    }
  }

  lemma ReadsBack(column: nat, row: nat)
    requires column > 0
    ensures ReadRef(CellRef(column, row)) == Some((column, row))
  {
    var a, b := ColumnName(column), Dec(row);
    LettersThenDigits(a, b);
    assert (a + b)[..|a|] == a && (a + b)[|a|..] == b;
    NumberOfName(column);
    ValueDec(row);
  }

  datatype Cell = Cell(ref: string, header: string, row: nat)

  /** The cell of row `r` and column `c`, both counted from zero. */
  function MakeCell(header: string, r: nat, c: nat): Cell { Cell(CellRef(c + 1, r + 1), header, r) }

  /** It stands in its place, under its reference and header. */
  predicate CellAt(cells: seq<Cell>, headers: seq<string>, r: nat, c: nat)
    requires c < |headers|
  {
    var n := r * |headers| + c;
    0 <= n < |cells| && cells[n] == MakeCell(headers[c], r, c)
  }

  /** Its reference reads as its column and row, counted from one; it holds the value of its header in its row. */
  predicate CellSays(cells: seq<Cell>, headers: seq<string>, r: nat, c: nat)
    requires c < |headers|
  {
    var n := r * |headers| + c;
    && 0 <= n < |cells| && ReadRef(cells[n].ref) == Some((c + 1, r + 1))
    && cells[n].header == headers[c] && cells[n].row == r
  }

  lemma CellReads(cells: seq<Cell>, headers: seq<string>, r: nat, c: nat)
    requires c < |headers| && CellAt(cells, headers, r, c)
    ensures CellSays(cells, headers, r, c)
  {
    ReadsBack(c + 1, r + 1);
  }

  predicate RowsDone(cells: seq<Cell>, headers: seq<string>, r: nat) {
    && |cells| == r * |headers|
    && forall i, c :: 0 <= i < r && 0 <= c < |headers| ==> CellAt(cells, headers, i, c)
  }

  /** The cells of row `r`, column by column. */
  function RowOf(headers: seq<string>, r: nat): (row: seq<Cell>)
    ensures |row| == |headers|
  {
    seq(|headers|, c requires 0 <= c < |headers| => MakeCell(headers[c], r, c))
  }

  lemma PrefixGrows<T>(part: seq<T>, whole: seq<T>)
    requires part < whole
    ensures part + [whole[|part|]] <= whole
  {
  }

  lemma Place(i: nat, c: nat, r: nat, width: nat)
    requires i < r && c < width
    ensures i * width + c < r * width
  {
    assert r * width == (r - 1 - i) * width + i * width + width;
  }

  lemma EarlierRow(before: seq<Cell>, row: seq<Cell>, headers: seq<string>, r: nat, i: nat, c: nat)
    requires RowsDone(before, headers, r) && i < r && c < |headers|
    ensures CellAt(before + row, headers, i, c)
  {
    Place(i, c, r, |headers|);
    assert CellAt(before, headers, i, c);
  }

  lemma LastRow(before: seq<Cell>, row: seq<Cell>, headers: seq<string>, r: nat, c: nat)
    requires |before| == r * |headers| && row == RowOf(headers, r) && c < |headers|
    ensures CellAt(before + row, headers, r, c)
  {
    assert (before + row)[|before| + c] == row[c];
  }

  lemma RowDone(before: seq<Cell>, row: seq<Cell>, headers: seq<string>, r: nat)
    requires RowsDone(before, headers, r) && row == RowOf(headers, r)
    ensures RowsDone(before + row, headers, r + 1)
  {
    assert (r + 1) * |headers| == r * |headers| + |headers|;
    forall i, c | 0 <= i < r + 1 && 0 <= c < |headers|
      ensures CellAt(before + row, headers, i, c)
    {
      if i < r { EarlierRow(before, row, headers, r, i, c); } else { LastRow(before, row, headers, r, c); }
    }
  }

  /** The inner loop of `_worksheet_xml`. */
  method RowCells(headers: seq<string>, r: nat) returns (row: seq<Cell>)
    ensures row == RowOf(headers, r)
  {
    row := [];
    var c := 0;
    while c < |headers|
      invariant |row| == c && row <= RowOf(headers, r)
    {
      var name := ExcelColumnName(c + 1);
      PrefixGrows(row, RowOf(headers, r));
      row := row + [Cell(name + Dec(r + 1), headers[c], r)];
      c := c + 1;
    }
  }

  /** The outer loop: the header row and `rows` rows of data. */
  method WorksheetCells(headers: seq<string>, rows: nat) returns (cells: seq<Cell>)
    ensures |cells| == (rows + 1) * |headers|
    ensures forall r, c :: 0 <= r <= rows && 0 <= c < |headers| ==> CellAt(cells, headers, r, c)
    ensures forall r, c :: 0 <= r <= rows && 0 <= c < |headers| ==> CellSays(cells, headers, r, c)
  {
    cells := [];
    var r := 0;
    while r <= rows
      invariant 0 <= r <= rows + 1
      invariant RowsDone(cells, headers, r)
    {
      var row := RowCells(headers, r);
      RowDone(cells, row, headers, r);
      cells := cells + row;
      r := r + 1;
    }
    forall r, c | 0 <= r <= rows && 0 <= c < |headers|
      ensures CellSays(cells, headers, r, c)
    {
      CellReads(cells, headers, r, c);
    }
  }

  /** No two cells of a worksheet of any size share a reference. */
  lemma RefsApart(column: nat, row: nat, otherColumn: nat, otherRow: nat)
    requires column > 0 && otherColumn > 0
    ensures CellRef(column, row) == CellRef(otherColumn, otherRow) <==> column == otherColumn && row == otherRow
  {
    ReadsBack(column, row);
    ReadsBack(otherColumn, otherRow);
  }
}
