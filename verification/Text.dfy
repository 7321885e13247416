/** Decimal printing and the few character classes that the rest of the model needs. */
module Text {
  import opened Wrappers

  predicate IsDigit(c: char) { '0' <= c <= '9' }

  predicate IsIdentifierStart(c: char) { 'a' <= c <= 'z' || 'A' <= c <= 'Z' || c == '_' }

  predicate IsIdentifierChar(c: char) { IsIdentifierStart(c) || IsDigit(c) }

  /** `^[A-Za-z_][A-Za-z0-9_]*$` with a full match. */
  predicate IsIdentifier(s: string) {
    s != "" && IsIdentifierStart(s[0]) && forall i :: 0 <= i < |s| ==> IsIdentifierChar(s[i])
  }

  predicate AllDigits(s: string) { forall i :: 0 <= i < |s| ==> IsDigit(s[i]) }

  function LowerChar(c: char): char {
    if 'A' <= c <= 'Z' then ((c as int) + 32) as char else c
  }

  /** `str.lower` on an identifier; identifiers are ASCII. */
  function Lower(s: string): (r: string)
    ensures |r| == |s|
  {
    seq(|s|, i requires 0 <= i < |s| => LowerChar(s[i]))
  }

  function Digit(n: nat): (c: char)
    requires n < 10
    ensures IsDigit(c)
  {
    ('0' as int + n) as char
  }

  function DigitValue(c: char): (n: nat)
    requires IsDigit(c)
    ensures n < 10
  {
    c as int - '0' as int
  }

  /** Decimal text of a natural number, as `str(n)` prints it. */
  function Dec(n: nat): (s: string)
    ensures s != "" && AllDigits(s)
  {
    if n < 10 then [Digit(n)] else Dec(n / 10) + [Digit(n % 10)]
  }

  /** The digits, most significant first. */
  lemma DecInFull(tens: nat, ones: nat)
    requires ones < 10
    ensures Dec(ones) == ["0123456789"[ones]]
    ensures tens > 0 ==> Dec(10 * tens + ones) == Dec(tens) + ["0123456789"[ones]]
  {
    assert "0123456789"[ones] == Digit(ones);
  }

  /** `int(s)` on a run of digits. */
  function Value(s: string): (n: nat)
    requires AllDigits(s)
  {
    if s == "" then 0 else 10 * Value(s[..|s| - 1]) + DigitValue(s[|s| - 1])
  }

  lemma {:induction false} ValueDec(n: nat)
    ensures Value(Dec(n)) == n
  {
    if n >= 10 {
      ValueDec(n / 10);
      assert Dec(n)[..|Dec(n)| - 1] == Dec(n / 10);
    }
  }

  lemma DecInjective(m: nat, n: nat)
    requires Dec(m) == Dec(n)
    ensures m == n
  {
    ValueDec(m);
    ValueDec(n);
  }

  function Zeros(n: nat): (s: string)
    ensures |s| == n && AllDigits(s)
  {
    seq(n, i => '0')
  }

  /** Zero padding to a minimum width: `f"{n:0{width}d}"`. */
  function ZeroPad(n: nat, width: nat): (s: string)
    ensures AllDigits(s)
  {
    var s := Dec(n);
    if |s| >= width then s else Zeros(width - |s|) + s
  }

  function Pow10(k: nat): (p: nat)
    ensures p > 0
  {
    if k == 0 then 1 else 10 * Pow10(k - 1)
  }

  lemma {:induction false} DecWidth(n: nat, width: nat)
    requires width > 0
    ensures |Dec(n)| <= width <==> n < Pow10(width)
  {
    if n >= 10 {
      if width == 1 {
        assert |Dec(n / 10)| >= 1;
        assert Pow10(1) == 10 by { assert Pow10(0) == 1; }
      } else {
        DecWidth(n / 10, width - 1);
      }
    } else {
      PowGrows(width);
    }
  }

  lemma {:induction false} PowGrows(k: nat)
    requires k > 0
    ensures Pow10(k) >= 10
  {
    if k > 1 { PowGrows(k - 1); } else { assert Pow10(0) == 1; }
  }

  lemma {:induction false} ValueZeros(k: nat, s: string)
    requires AllDigits(s)
    ensures AllDigits(Zeros(k) + s) && Value(Zeros(k) + s) == Value(s)
  {
    var t := Zeros(k) + s;
    if s == "" {
      if k > 0 {
        ValueZeros(k - 1, "");
        assert t[..|t| - 1] == Zeros(k - 1) + "";
      }
    } else {
      ValueZeros(k, s[..|s| - 1]);
      assert t[..|t| - 1] == Zeros(k) + s[..|s| - 1];
    }
  }

  /** A padded number has the padded width exactly when it fits, and reads back as itself. */
  lemma ZeroPadReads(n: nat, width: nat)
    requires width > 0
    ensures Value(ZeroPad(n, width)) == n
    ensures |ZeroPad(n, width)| == width <==> n < Pow10(width)
    ensures |ZeroPad(n, width)| >= width
  {
    ValueDec(n);
    DecWidth(n, width);
    if |Dec(n)| < width { ValueZeros(width - |Dec(n)|, Dec(n)); }
  }

  /** Concatenation of pieces, `"".join`. */
  function Concat(parts: seq<string>): string {
    if parts == [] then "" else parts[0] + Concat(parts[1..])
  }

  lemma Associative(a: string, b: string, c: string)
    ensures (a + b) + c == a + (b + c)
  {
  }

  lemma {:induction false} ConcatAppend(a: seq<string>, b: seq<string>)
    ensures Concat(a + b) == Concat(a) + Concat(b)
  {
    if a == [] {
      assert a + b == b;
    } else {
      assert (a + b)[0] == a[0] && (a + b)[1..] == a[1..] + b;
      ConcatAppend(a[1..], b);
      Associative(a[0], Concat(a[1..]), Concat(b));
    }
  }

  /** `separator.join(parts)`. */
  function Join(separator: string, parts: seq<string>): string {
    if parts == [] then ""
    else if |parts| == 1 then parts[0]
    else parts[0] + separator + Join(separator, parts[1..])
  }
}
