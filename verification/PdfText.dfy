/** The text of a PDF page: lines escaped as literal strings, and a reader of literal strings.
    Section 7.3.4.2 of ISO 32000-1. Bytes are characters below 256. */
module PdfText {
  import opened Wrappers
  import opened Text

  // ----- text -----

  /** `s.replace(c, with)` for one character. */
  function ReplaceChar(s: string, c: char, with: string): string {
    if s == "" then "" else (if s[0] == c then with else [s[0]]) + ReplaceChar(s[1..], c, with)
  }

  function EscapeChar(c: char): string {
    if c == '\\' then "\\\\" else if c == '(' then "\\(" else if c == ')' then "\\)" else [c]
  }

  /** Escaping in one pass. */
  function Escape(s: string): string {
    if s == "" then "" else EscapeChar(s[0]) + Escape(s[1..])
  }

  /** The three replacements of the source, one after the other. */
  function EscapeInTurn(s: string): string {
    ReplaceChar(ReplaceChar(ReplaceChar(s, '\\', "\\\\"), '(', "\\("), ')', "\\)")
  }

  lemma {:induction false} ReplaceAppend(a: string, b: string, c: char, with: string)
    ensures ReplaceChar(a + b, c, with) == ReplaceChar(a, c, with) + ReplaceChar(b, c, with)
  {
    if a == "" {
      assert a + b == b;
    } else {
      assert (a + b)[0] == a[0] && (a + b)[1..] == a[1..] + b;
      ReplaceAppend(a[1..], b, c, with);
      Associative(if a[0] == c then with else [a[0]], ReplaceChar(a[1..], c, with), ReplaceChar(b, c, with));
    }
  }

  lemma ReplaceShort(c: char, with: string)
    ensures forall d: char :: ReplaceChar([d], c, with) == if d == c then with else [d]
    ensures forall d: char, e: char :: ReplaceChar([d, e], c, with)
              == (if d == c then with else [d]) + (if e == c then with else [e])
  {
    assert forall d: char :: [d][1..] == "";
    forall d: char, e: char
      ensures ReplaceChar([d, e], c, with) == (if d == c then with else [d]) + (if e == c then with else [e])
    {
      assert [d, e][1..] == [e];
      assert ReplaceChar([e], c, with) == (if e == c then with else [e]) + "";
    }
  }

  lemma EscapeCharInTurn(c: char)
    ensures EscapeInTurn([c]) == EscapeChar(c)
  {
    ReplaceShort('\\', "\\\\");
    ReplaceShort('(', "\\(");
    ReplaceShort(')', "\\)");
  }

  /** The order of the replacements is right: together they escape each character once. */
  lemma {:induction false} EscapesOnce(s: string)
    ensures EscapeInTurn(s) == Escape(s)
  {
    if s != "" {
      EscapesOnce(s[1..]);
      EscapeCharInTurn(s[0]);
      assert s == [s[0]] + s[1..];
      ReplaceAppend([s[0]], s[1..], '\\', "\\\\");
      var a, b := ReplaceChar([s[0]], '\\', "\\\\"), ReplaceChar(s[1..], '\\', "\\\\");
      ReplaceAppend(a, b, '(', "\\(");
      ReplaceAppend(ReplaceChar(a, '(', "\\("), ReplaceChar(b, '(', "\\("), ')', "\\)");
    }
  }

  predicate IsOctal(c: char) { '0' <= c <= '7' }

  function OctalDigit(c: char): nat
    requires IsOctal(c)
  {
    c as int - '0' as int
  }

  /** How many octal digits, at most three, follow a backslash. */
  function OctalRun(s: string): (n: nat)
    ensures n <= |s| && n <= 3
  {
    if s == "" || !IsOctal(s[0]) then 0
    else if |s| == 1 || !IsOctal(s[1]) then 1
    else if |s| == 2 || !IsOctal(s[2]) then 2
    else 3
  }

  function OctalValue(s: string): nat
    requires |s| <= 3 && forall i :: 0 <= i < |s| ==> IsOctal(s[i])
  {
    if s == "" then 0 else 8 * OctalValue(s[..|s| - 1]) + OctalDigit(s[|s| - 1])
  }

  /** What a backslash and the text after it stand for, and what remains. */
  function ReadEscape(s: string): (r: (string, string))
    ensures |r.1| <= |s|
  {
    if s == "" then ("", "")
    else
      var c, rest := s[0], s[1..];
      var n := OctalRun(s);
      if n > 0 then ([(OctalValue(s[..n]) % 256) as char], s[n..])
      else if c == 'n' then ("\n", rest)
      else if c == 'r' then ("\r", rest)
      else if c == 't' then ("\t", rest)
      else if c == 'b' then ([8 as char], rest)
      else if c == 'f' then ([12 as char], rest)
      else if c == '\n' then ("", rest)
      else if c == '\r' then ("", if rest != "" && rest[0] == '\n' then rest[1..] else rest)
      else ([c], rest)
  }

  /** Reads a literal string after its opening parenthesis: balanced parentheses stand for themselves, an end of
      line of any kind is read as a line feed. The result is the text and what follows the closing parenthesis. */
  function ReadLiteral(s: string, depth: nat): (r: Option<(string, string)>)
    ensures r.Some? ==> |r.value.1| < |s|
    decreases |s|
  {
    if s == "" then None
    else if s[0] == ')' && depth == 0 then Some(("", s[1..]))
    else
      var (text, rest) :=
        if s[0] == '\\' then ReadEscape(s[1..])
        else if s[0] == '\r' then ("\n", if |s| > 1 && s[1] == '\n' then s[2..] else s[1..])
        else ([s[0]], s[1..]);
      var inner := if s[0] == '(' then depth + 1 else if s[0] == ')' then depth - 1 else depth;
      match ReadLiteral(rest, inner)
      case Some((more, after)) => Some((text + more, after))
      case None => None
  }

  /** The line with every end of line, a carriage return with or without a line feed, as one line feed. */
  function Normalised(line: string): string
    decreases |line|
  {
    if line == "" then ""
    else if line[0] == '\r' then "\n" + Normalised(if |line| > 1 && line[1] == '\n' then line[2..] else line[1..])
    else [line[0]] + Normalised(line[1..])
  }

  lemma {:induction false} NoReturnLeft(line: string)
    ensures '\r' !in Normalised(line)
    decreases |line|
  {
    if line != "" {
      NoReturnLeft(if line[0] == '\r' && |line| > 1 && line[1] == '\n' then line[2..] else line[1..]);
    }
  }

  lemma {:induction false} NothingToNormalise(line: string)
    requires '\r' !in line
    ensures Normalised(line) == line
  {
    if line != "" {
      NothingToNormalise(line[1..]);
      assert [line[0]] + line[1..] == line;
    }
  }

  /** An escaped line after its opening parenthesis, and what follows it. */
  function Literal(line: string, after: string): string { Escape(line) + ")" + after }

  lemma LiteralParts(line: string, after: string)
    ensures line == "" ==> Literal(line, after) == ")" + after
    ensures line != "" ==> Literal(line, after) == EscapeChar(line[0]) + Literal(line[1..], after)
  {
    if line != "" {
      var first, rest := EscapeChar(line[0]), Escape(line[1..]);
      assert first + rest + ")" + after == first + (rest + ")" + after);
    }
  }

  /** It reads as the line with its ends of line normalised. */
  lemma {:induction false} EscapedReads(line: string, after: string)
    ensures ReadLiteral(Literal(line, after), 0) == Some((Normalised(line), after))
    decreases |line|
  {
    LiteralParts(line, after);
    if line == "" {
      assert (")" + after)[1..] == after;
    } else if line[0] != '\r' {
      EscapedReads(line[1..], after);
      OneCharReads(line[0], Literal(line[1..], after), Normalised(line[1..]), after);
    } else if |line| > 1 && line[1] == '\n' {
      EscapedReads(line[2..], after);
      LiteralParts(line[1..], after);
      assert line[1..][1..] == line[2..];
      ReturnReads(Literal(line[1..], after), Literal(line[2..], after), Normalised(line[2..]), after);
    } else {
      EscapedReads(line[1..], after);
      NoFeedFirst(line[1..], after);
      ReturnReads(Literal(line[1..], after), Literal(line[1..], after), Normalised(line[1..]), after);
    }
  }

  lemma NoFeedFirst(line: string, after: string)
    requires line == "" || line[0] != '\n'
    ensures Literal(line, after)[0] != '\n'
  {
    LiteralParts(line, after);
  }

  lemma OneCharReads(c: char, tail: string, text: string, after: string)
    requires c != '\r' && ReadLiteral(tail, 0) == Some((text, after))
    ensures ReadLiteral(EscapeChar(c) + tail, 0) == Some(([c] + text, after))
  {
    var s := EscapeChar(c) + tail;
    if |EscapeChar(c)| == 2 {
      assert s[1..] == [c] + tail;
      assert ([c] + tail)[1..] == tail;
      assert ReadEscape(s[1..]) == ([c], tail);
    } else {
      assert s[1..] == tail;
    }
  }

  lemma ReturnReads(tail: string, rest: string, text: string, after: string)
    requires ReadLiteral(rest, 0) == Some((text, after))
    requires (tail == rest && (tail == "" || tail[0] != '\n')) || tail == "\n" + rest
    ensures ReadLiteral(EscapeChar('\r') + tail, 0) == Some(("\n" + text, after))
  {
    var s := EscapeChar('\r') + tail;
    assert s[1..] == tail;
    if tail == "\n" + rest { assert s[2..] == rest; }
  }

  /** It reads back as the line itself if and only if the line holds no carriage return. */
  lemma EscapedReadsBack(line: string, after: string)
    ensures ReadLiteral(Literal(line, after), 0) == Some((line, after)) <==> '\r' !in line
  {
    EscapedReads(line, after);
    NoReturnLeft(line);
    if '\r' !in line { NothingToNormalise(line); }
  }

  /** The shortest line that does not: a carriage return comes back as a line feed. */
  lemma ReturnIsLost()
    ensures ReadLiteral(Literal("\r", ""), 0) == Some(("\n", ""))
  {
    EscapedReads("\r", "");
    assert "\r"[1..] == "" && "\n" + "" == "\n";
  }

  // ----- the page -----

  const Start := "BT /F1 10 Tf 50 790 Td 12 TL "

  function Shown(line: string): string { "(" + Escape(line) + ") Tj T*" }

  function ShownAll(lines: seq<string>): string {
    if lines == [] then "" else if |lines| == 1 then Shown(lines[0]) else Shown(lines[0]) + " " + ShownAll(lines[1..])
  }

  function Content(lines: seq<string>): string { Start + ShownAll(lines) + " ET" }

  /** `encode("latin-1", errors="replace")`. */
  function Latin1(s: string): (r: string)
    ensures |r| == |s|
  {
    seq(|s|, i requires 0 <= i < |s| => if s[i] as int < 256 then s[i] else '?')
  }

  /** Characters up to 255 are kept, and every other becomes a question mark. */
  lemma Latin1InFull(s: string, i: nat)
    requires i < |s|
    ensures Latin1(s)[i] == if s[i] <= '\U{FF}' then s[i] else '?'
  {
  }

  /** All literal strings of a content stream, in order. */
  function Texts(s: string): Option<seq<string>>
    decreases |s|
  {
    if s == "" then Some([])
    else if s[0] != '(' then Texts(s[1..])
    else match ReadLiteral(s[1..], 0)
         case None => None
         case Some((text, rest)) =>
           match Texts(rest)
           case None => None
           case Some(more) => Some([text] + more)
  }

  lemma {:induction false} TextsSkip(prefix: string, s: string)
    requires '(' !in prefix
    ensures Texts(prefix + s) == Texts(s)
  {
    if prefix == "" {
      assert prefix + s == s;
    } else {
      assert (prefix + s)[1..] == prefix[1..] + s;
      TextsSkip(prefix[1..], s);
    }
  }

  function NormalisedAll(lines: seq<string>): (r: seq<string>)
    ensures |r| == |lines|
  {
    seq(|lines|, i requires 0 <= i < |lines| => Normalised(lines[i]))
  }

  lemma TextsShown(line: string, after: string)
    requires Texts(after).Some?
    ensures Texts(Shown(line) + after) == Some([Normalised(line)] + Texts(after).value)
  {
    var rest := " Tj T*" + after;
    var s := Shown(line) + after;
    assert s == "(" + Literal(line, rest);
    assert s[1..] == Literal(line, rest);
    EscapedReads(line, rest);
    TextsSkip(" Tj T*", after);
  }

  lemma {:induction false} TextsShownAll(lines: seq<string>, after: string)
    requires Texts(after) == Some([])
    ensures Texts(ShownAll(lines) + after) == Some(NormalisedAll(lines))
  {
    if lines == [] {
      assert ShownAll(lines) + after == after;
    } else if |lines| == 1 {
      TextsShown(lines[0], after);
      assert NormalisedAll(lines) == [Normalised(lines[0])] + [];
    } else {
      TextsShownAll(lines[1..], after);
      TextsNext(lines[0], ShownAll(lines[1..]), after, NormalisedAll(lines[1..]));
      assert NormalisedAll(lines) == [Normalised(lines[0])] + NormalisedAll(lines[1..]);
    }
  }

  lemma TextsNext(line: string, others: string, after: string, texts: seq<string>)
    requires Texts(others + after) == Some(texts)
    ensures Texts(Shown(line) + " " + others + after) == Some([Normalised(line)] + texts)
  {
    TextsSkip(" ", others + after);
    TextsShown(line, " " + (others + after));
    assert Shown(line) + " " + others + after == Shown(line) + (" " + (others + after));
  }

  lemma {:induction false} Latin1Append(a: string, b: string)
    ensures Latin1(a + b) == Latin1(a) + Latin1(b)
  {
  }

  lemma {:induction false} Latin1Escape(s: string)
    ensures Latin1(Escape(s)) == Escape(Latin1(s))
  {
    if s != "" {
      Latin1Escape(s[1..]);
      Latin1Append(EscapeChar(s[0]), Escape(s[1..]));
      assert Latin1(s)[1..] == Latin1(s[1..]);
      assert Latin1(EscapeChar(s[0])) == EscapeChar(Latin1(s)[0]);
    }
  }

  function Latin1All(lines: seq<string>): (r: seq<string>)
    ensures |r| == |lines|
  {
    seq(|lines|, i requires 0 <= i < |lines| => Latin1(lines[i]))
  }

  lemma Latin1Shown(line: string)
    ensures Latin1(Shown(line)) == Shown(Latin1(line))
  {
    Latin1Escape(line);
    Latin1Append("(" + Escape(line), ") Tj T*");
    Latin1Append("(", Escape(line));
  }

  lemma {:induction false} Latin1ShownAll(lines: seq<string>)
    ensures Latin1(ShownAll(lines)) == ShownAll(Latin1All(lines))
  {
    if lines != [] {
      Latin1Shown(lines[0]);
      if |lines| > 1 {
        Latin1ShownAll(lines[1..]);
        assert Latin1All(lines)[1..] == Latin1All(lines[1..]);
        Latin1Append(Shown(lines[0]) + " ", ShownAll(lines[1..]));
        Latin1Append(Shown(lines[0]), " ");
      }
    }
  }

  lemma NoParenthesis()
    ensures '(' !in Start && Latin1(Start) == Start && Latin1(" ET") == " ET"
  {
  }

  /** The page shows the lines, with '?' for what Latin-1 cannot hold and ends of line normalised. */
  lemma PageShowsLines(lines: seq<string>)
    ensures Texts(Latin1(Content(lines))) == Some(NormalisedAll(Latin1All(lines)))
  {
    NoParenthesis();
    Latin1Append(Start + ShownAll(lines), " ET");
    Latin1Append(Start, ShownAll(lines));
    Latin1ShownAll(lines);
    var shown := ShownAll(Latin1All(lines));
    assert Texts(" ET") == Some([]) by {
      TextsSkip(" ET", "");
      assert " ET" + "" == " ET";
    }
    TextsShownAll(Latin1All(lines), " ET");
    TextsSkip(Start, shown + " ET");
    Associative(Start, shown, " ET");
  }

  /** It shows exactly the lines if and only if none of them holds a carriage return. */
  lemma PageShowsExactly(lines: seq<string>)
    ensures Texts(Latin1(Content(lines))) == Some(Latin1All(lines))
        <==> forall i :: 0 <= i < |lines| ==> '\r' !in lines[i]
  {
    PageShowsLines(lines);
    var shown := Latin1All(lines);
    forall i | 0 <= i < |lines|
      ensures Normalised(shown[i]) == shown[i] <==> '\r' !in lines[i]
    {
      Latin1KeepsReturns(lines[i]);
      NoReturnLeft(shown[i]);
      if '\r' !in shown[i] { NothingToNormalise(shown[i]); }
    }
    if forall i :: 0 <= i < |lines| ==> '\r' !in lines[i] {
      assert NormalisedAll(shown) == shown;
    } else {
      var i :| 0 <= i < |lines| && '\r' in lines[i];
      assert NormalisedAll(shown)[i] != shown[i];
    }
  }

  lemma Latin1KeepsReturns(line: string)
    ensures '\r' in Latin1(line) <==> '\r' in line
  {
    if '\r' in line {
      var k :| 0 <= k < |line| && line[k] == '\r';
      assert Latin1(line)[k] == '\r';
    }
  }
}
