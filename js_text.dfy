/**
 * The JavaScript string built-ins the client relies on (split, join, trim,
 * global single-character replace, number-to-decimal conversion), over
 * strings as sequences of characters.
 */
module JsText {

  /** The characters `.` refuses in a regular expression without the `s` flag. */
  predicate IsLineTerminator(c: char) {
    c == '\n' || c == '\r' || c == '\U{2028}' || c == '\U{2029}'
  }

  /**
   * The characters `\s` matches in a regular expression; the same set is what
   * String.prototype.trim strips (WhiteSpace and LineTerminator).
   */
  predicate IsWhitespace(c: char) {
    || IsLineTerminator(c)
    || c == '\t' || c == '\U{000B}' || c == '\U{000C}' || c == ' '
    || c == '\U{00A0}' || c == '\U{FEFF}' || c == '\U{1680}'
    || ('\U{2000}' <= c <= '\U{200A}')
    || c == '\U{202F}' || c == '\U{205F}' || c == '\U{3000}'
  }

  /** Number of occurrences of `c` in `s`. */
  function Count(s: string, c: char): nat {
    if s == [] then 0 else (if s[0] == c then 1 else 0) + Count(s[1..], c)
  }

  lemma {:induction false} CountAppend(a: string, b: string, c: char)
    ensures Count(a + b, c) == Count(a, c) + Count(b, c)
  {
    if a == [] {
      assert a + b == b;
    } else {
      assert (a + b)[1..] == a[1..] + b;
      CountAppend(a[1..], b, c);
    }
  }

  lemma {:induction false} CountAbsent(s: string, c: char)
    requires c !in s
    ensures Count(s, c) == 0
  {
    if s != [] {
      assert c !in s[1..];
      CountAbsent(s[1..], c);
    }
  }

  /** String.prototype.startsWith. */
  predicate StartsWith(s: string, prefix: string) {
    |prefix| <= |s| && s[..|prefix|] == prefix
  }

  /** String.prototype.endsWith. */
  predicate EndsWith(s: string, suffix: string) {
    |suffix| <= |s| && s[|s| - |suffix|..] == suffix
  }

  /** Array.prototype.join: the parts with `sep` between neighbours. */
  function Join(parts: seq<string>, sep: string): string {
    if |parts| == 0 then ""
    else if |parts| == 1 then parts[0]
    else parts[0] + sep + Join(parts[1..], sep)
  }

  /** Joining with the empty separator is plain concatenation, which splits at any point. */
  lemma {:induction false} ConcatAppend(a: seq<string>, b: seq<string>)
    ensures Join(a + b, "") == Join(a, "") + Join(b, "")
  {
    if a == [] {
      assert a + b == b;
    } else if |a| == 1 {
      if b != [] {
        assert (a + b)[1..] == b;
      }
    } else {
      assert (a + b)[1..] == a[1..] + b;
      ConcatAppend(a[1..], b);
    }
  }

  /**
   * Number of `c` in a joined string whose parts hold none: the separator's
   * count once between each pair of neighbours.
   */
  lemma {:induction false} CountJoin(parts: seq<string>, sep: string, c: char)
    requires |parts| >= 1
    requires forall i :: 0 <= i < |parts| ==> c !in parts[i]
    ensures Count(Join(parts, sep), c) == (|parts| - 1) * Count(sep, c)
  {
    CountAbsent(parts[0], c);
    if |parts| > 1 {
      var n, k := |parts|, Count(sep, c);
      CountJoin(parts[1..], sep, c);
      CountAppend(parts[0], sep, c);
      CountAppend(parts[0] + sep, Join(parts[1..], sep), c);
      assert (n - 1) * k == k + (n - 2) * k;
    }
  }

  /**
   * String.prototype.split with a one-character separator: the pieces
   * between separators, one more than there are separators, none holding
   * the separator, and joining them back gives the input.
   */
  function Split(s: string, sep: char): (parts: seq<string>)
    ensures |parts| == Count(s, sep) + 1
    ensures forall i :: 0 <= i < |parts| ==> sep !in parts[i]
    ensures Join(parts, [sep]) == s
  {
    if s == [] then [""]
    else
      var rest := Split(s[1..], sep);
      if s[0] == sep then
        assert s == [sep] + s[1..];
        [""] + rest
      else
        assert s == [s[0]] + s[1..];
        [[s[0]] + rest[0]] + rest[1..]
  }

  /** `s.replace(/c/g, rep)`: every occurrence of `c` becomes `rep`. */
  function ReplaceChar(s: string, c: char, rep: string): (r: string)
    ensures c !in s ==> r == s
    ensures c !in rep ==> c !in r
  {
    if s == [] then ""
    else (if s[0] == c then rep else [s[0]]) + ReplaceChar(s[1..], c, rep)
  }

  /** A character that neither survives the replace nor is inserted by it is absent afterwards. */
  lemma {:induction false} ReplaceCharAbsent(s: string, c: char, rep: string, x: char)
    requires x !in rep && (x == c || x !in s)
    ensures x !in ReplaceChar(s, c, rep)
  {
    if s != [] {
      assert x !in s[1..] || x == c;
      ReplaceCharAbsent(s[1..], c, rep, x);
    }
  }

  /** Replacing characters one at a time commutes with concatenation. */
  lemma {:induction false} ReplaceCharAppend(a: string, b: string, c: char, rep: string)
    ensures ReplaceChar(a + b, c, rep) == ReplaceChar(a, c, rep) + ReplaceChar(b, c, rep)
  {
    if a == [] {
      assert a + b == b;
    } else {
      assert (a + b)[1..] == a[1..] + b;
      ReplaceCharAppend(a[1..], b, c, rep);
    }
  }

  /** Index of the first character at or after `lo` that is not whitespace, or |s|. */
  function SkipWhitespace(s: string, lo: nat): (a: nat)
    requires lo <= |s|
    ensures lo <= a <= |s|
    ensures forall i :: lo <= i < a ==> IsWhitespace(s[i])
    ensures a == |s| || !IsWhitespace(s[a])
    decreases |s| - lo
  {
    if lo < |s| && IsWhitespace(s[lo]) then SkipWhitespace(s, lo + 1) else lo
  }

  /** Index just past the last character before `hi` and not before `lo` that is not whitespace, or `lo`. */
  function SkipWhitespaceBack(s: string, lo: nat, hi: nat): (e: nat)
    requires lo <= hi <= |s|
    ensures lo <= e <= hi
    ensures forall i :: e <= i < hi ==> IsWhitespace(s[i])
    ensures e == lo || !IsWhitespace(s[e - 1])
    decreases hi
  {
    if lo < hi && IsWhitespace(s[hi - 1]) then SkipWhitespaceBack(s, lo, hi - 1) else hi
  }

  /** String.prototype.trim: drops the leading and the trailing whitespace. */
  function Trim(s: string): string {
    var a := SkipWhitespace(s, 0);
    s[a..SkipWhitespaceBack(s, a, |s|)]
  }

  /**
   * Trim removes exactly a whitespace prefix and a whitespace suffix and
   * keeps the middle, which neither starts nor ends with whitespace.
   */
  lemma TrimIsInfix(s: string)
    ensures var r, a := Trim(s), SkipWhitespace(s, 0);
      && a + |r| <= |s| && r == s[a..a + |r|]
      && (forall i :: 0 <= i < a ==> IsWhitespace(s[i]))
      && (forall i :: a + |r| <= i < |s| ==> IsWhitespace(s[i]))
      && (r == [] || (!IsWhitespace(r[0]) && !IsWhitespace(r[|r| - 1])))
  {
  }

  /** Trimming twice changes nothing more. */
  lemma TrimIdempotent(s: string)
    ensures Trim(Trim(s)) == Trim(s)
  {
    var r := Trim(s);
    TrimIsInfix(s);
    assert SkipWhitespace(r, 0) == 0;
    assert SkipWhitespaceBack(r, 0, |r|) == |r|;
    assert r[0..|r|] == r;
  }

  function Digit(d: nat): (c: char)
    requires d < 10
    ensures '0' <= c <= '9'
  {
    ('0' as int + d) as char
  }

  /** The decimal numeral of `n`, as Number's toString and template literals write it. */
  function Decimal(n: nat): (r: string)
    ensures |r| >= 1
    ensures forall i :: 0 <= i < |r| ==> '0' <= r[i] <= '9'
  {
    if n < 10 then [Digit(n)] else Decimal(n / 10) + [Digit(n % 10)]
  }

  predicate AllDigits(s: string) {
    forall i :: 0 <= i < |s| ==> '0' <= s[i] <= '9'
  }

  /** The value of a numeral: the inverse of Decimal. */
  function ParseDecimal(s: string): nat
    requires AllDigits(s)
  {
    if s == [] then 0
    else ParseDecimal(s[..|s| - 1]) * 10 + (s[|s| - 1] as int - '0' as int)
  }

  lemma {:induction false} DecimalRoundTrip(n: nat)
    ensures ParseDecimal(Decimal(n)) == n
  {
    if n >= 10 {
      var r := Decimal(n);
      assert r[..|r| - 1] == Decimal(n / 10);
      DecimalRoundTrip(n / 10);
    }
  }

  /** Different numbers have different numerals. */
  lemma DecimalInjective(m: nat, n: nat)
    requires m != n
    ensures Decimal(m) != Decimal(n)
  {
    DecimalRoundTrip(m);
    DecimalRoundTrip(n);
  }
}
