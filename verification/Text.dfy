/** The string operations of the standard library that the router relies on. */
module Text {
  // ----- str::replace -----

  /** `str::replace`: every non-overlapping occurrence of `pat`, from the left. */
  function ReplaceAll(s: string, pat: string, rep: string): string
    requires pat != ""
    decreases |s|
  {
    if s == "" then ""
    else if pat <= s then rep + ReplaceAll(s[|pat|..], pat, rep)
    else [s[0]] + ReplaceAll(s[1..], pat, rep)
  }

  lemma ReplaceMiss(c: char, s: string, p: string, v: string)
    requires p != "" && !(p <= [c] + s)
    ensures ReplaceAll([c] + s, p, v) == [c] + ReplaceAll(s, p, v)
  {
    assert ([c] + s)[1..] == s;
  }

  /** A prefix that holds no copy of the pattern's first character is copied. */
  lemma {:induction false} ReplaceSkips(a: string, s: string, pat: string, rep: string)
    requires pat != "" && pat[0] !in a
    ensures ReplaceAll(a + s, pat, rep) == a + ReplaceAll(s, pat, rep)
  {
    if a == "" {
      assert a + s == s;
    } else {
      hide ReplaceAll;
      ReplaceSkips(a[1..], s, pat, rep);
      assert a + s == [a[0]] + (a[1..] + s);
      assert (a + s)[0] == a[0];
      ReplaceMiss(a[0], a[1..] + s, pat, rep);
      assert [a[0]] + (a[1..] + ReplaceAll(s, pat, rep)) == a + ReplaceAll(s, pat, rep);
    }
  }

  lemma {:induction false} ReplaceHit(s: string, pat: string, rep: string)
    requires pat != ""
    ensures ReplaceAll(pat + s, pat, rep) == rep + ReplaceAll(s, pat, rep)
  {
    assert pat <= pat + s && (pat + s)[|pat|..] == s;
  }

  // ----- Decimal numbers -----

  const DIGITS := "0123456789"

  predicate IsDigit(c: char) {
    '0' <= c <= '9'
  }

  predicate AllDigits(s: string) {
    forall i :: 0 <= i < |s| ==> IsDigit(s[i])
  }

  /** How `{}` formats an unsigned number. */
  function Decimal(n: nat): (s: string)
    ensures |s| > 0 && AllDigits(s)
  {
    if n < 10 then [DIGITS[n]] else Decimal(n / 10) + [DIGITS[n % 10]]
  }

  /** The number a string of digits denotes. */
  function DecimalValue(s: string): nat
    requires AllDigits(s)
  {
    if s == "" then 0
    else 10 * DecimalValue(s[..|s| - 1]) + (s[|s| - 1] as int - '0' as int)
  }

  lemma {:induction false} DecimalRoundTrip(n: nat)
    ensures DecimalValue(Decimal(n)) == n
  {
    if n >= 10 {
      DecimalRoundTrip(n / 10);
      var s := Decimal(n);
      assert s[..|s| - 1] == Decimal(n / 10);
    }
  }

  /** Reading a number back stops at the first character that is not a digit. */
  lemma {:induction false} DigitsThenOther(a: string, b: string, x: string, y: string)
    requires AllDigits(a) && AllDigits(b) && a + x == b + y
    requires x == "" || !IsDigit(x[0])
    requires y == "" || !IsDigit(y[0])
    ensures a == b && x == y
  {
    var k := a + x;
    assert forall i :: 0 <= i < |a| ==> k[i] == a[i];
    assert forall i :: 0 <= i < |b| ==> k[i] == b[i];
    assert x != "" ==> k[|a|] == x[0];
    assert y != "" ==> k[|b|] == y[0];
    assert |a| == |b|;
    assert a == (a + x)[..|a|] && b == (b + y)[..|b|];
    assert x == (a + x)[|a|..] && y == (b + y)[|b|..];
  }

  // ----- host:port keys -----

  /** `format!("{host}:{port}")`. */
  function HostPort(host: string, port: nat): string {
    host + ":" + Decimal(port)
  }

  /** Two different endpoints never share a key, even for hosts that hold colons. */
  lemma HostPortInjective(h1: string, p1: nat, h2: string, p2: nat)
    requires HostPort(h1, p1) == HostPort(h2, p2)
    ensures h1 == h2 && p1 == p2
  {
    var k := HostPort(h1, p1);
    var d1, d2 := Decimal(p1), Decimal(p2);
    assert |k| == |h1| + 1 + |d1| == |h2| + 1 + |d2|;
    assert k[|h1|] == ':' && k[|h2|] == ':';
    assert forall i :: |h1| < i < |k| ==> k[i] == d1[i - |h1| - 1];
    assert forall i :: |h2| < i < |k| ==> k[i] == d2[i - |h2| - 1];
    assert |h1| == |h2|;
    assert h1 == k[..|h1|] && h2 == k[..|h2|];
    assert d1 == k[|h1| + 1..] && d2 == k[|h2| + 1..];
    DecimalRoundTrip(p1);
    DecimalRoundTrip(p2);
  }

  // ----- Letter case -----

  predicate IsAscii(s: string) {
    forall i :: 0 <= i < |s| ==> s[i] as int < 128
  }

  function AsciiUpperChar(c: char): char {
    if 'a' <= c <= 'z' then (c as int - 32) as char else c
  }

  function AsciiUpper(s: string): (u: string)
    ensures |u| == |s|
    ensures forall i :: 0 <= i < |s| ==> u[i] == AsciiUpperChar(s[i])
  {
    seq(|s|, i requires 0 <= i < |s| => AsciiUpperChar(s[i]))
  }

  /** `str::eq_ignore_ascii_case`. */
  predicate EqIgnoreAsciiCase(a: string, b: string) {
    AsciiUpper(a) == AsciiUpper(b)
  }

  /** The same character, or the two cases of one ASCII letter. */
  predicate SameLetter(c: char, d: char) {
    || c == d
    || ('a' <= c <= 'z' && d as int == c as int - 32)
    || ('a' <= d <= 'z' && c as int == d as int - 32)
  }

  /** Two strings are equal without regard to ASCII case if and only if they are so
      letter by letter. */
  lemma FoldIsLetterwise(a: string, b: string)
    ensures EqIgnoreAsciiCase(a, b) <==> |a| == |b| && forall i :: 0 <= i < |a| ==> SameLetter(a[i], b[i])
  {
    if EqIgnoreAsciiCase(a, b) {
      assert |a| == |AsciiUpper(a)| == |AsciiUpper(b)| == |b|;
      forall i | 0 <= i < |a|
        ensures SameLetter(a[i], b[i])
      {
        assert AsciiUpper(a)[i] == AsciiUpper(b)[i];
      }
    }
  }

  /** `str::to_uppercase`: every character is replaced by its own upper-case
      expansion, which the Unicode tables `up` give. */
  function ToUppercase(up: char -> string, s: string): string {
    if s == "" then "" else up(s[0]) + ToUppercase(up, s[1..])
  }

  /** What the Unicode tables promise: ASCII letters map to ASCII letters, and no
      expansion holds a lower-case ASCII letter. */
  ghost predicate UnicodeUpper(up: char -> string) {
    && (forall c: char :: c as int < 128 ==> up(c) == [AsciiUpperChar(c)])
    && (forall c: char, k: nat :: k < |up(c)| ==> AsciiUpperChar(up(c)[k]) == up(c)[k])
  }

  lemma {:induction false} AsciiToUppercase(up: char -> string, s: string)
    requires UnicodeUpper(up) && IsAscii(s)
    ensures ToUppercase(up, s) == AsciiUpper(s)
  {
    if s == "" {
    } else {
      AsciiToUppercase(up, s[1..]);
      assert AsciiUpper(s) == [AsciiUpperChar(s[0])] + AsciiUpper(s[1..]);
    }
  }

  /** Strings that differ only in ASCII case have the same upper-case form. */
  lemma {:induction false} FoldImpliesUppercase(up: char -> string, a: string, b: string)
    requires UnicodeUpper(up) && EqIgnoreAsciiCase(a, b)
    ensures ToUppercase(up, a) == ToUppercase(up, b)
  {
    if a != "" {
      assert |b| == |AsciiUpper(b)| == |a|;
      assert AsciiUpper(a)[0] == AsciiUpper(b)[0];
      assert AsciiUpper(a[1..]) == AsciiUpper(a)[1..] == AsciiUpper(b)[1..] == AsciiUpper(b[1..]);
      FoldImpliesUppercase(up, a[1..], b[1..]);
      SameUpper(up, a[0], b[0]);
    } else {
      assert |b| == |AsciiUpper(b)| == 0;
    }
  }

  lemma SameUpper(up: char -> string, c: char, d: char)
    requires UnicodeUpper(up) && AsciiUpperChar(c) == AsciiUpperChar(d)
    ensures up(c) == up(d)
  {
    if c != d {
      assert c as int < 128 && d as int < 128;
    }
  }

  lemma {:induction false} UppercaseIsUpper(up: char -> string, s: string)
    requires UnicodeUpper(up)
    ensures AsciiUpper(ToUppercase(up, s)) == ToUppercase(up, s)
  {
    if s == "" {
    } else {
      UppercaseIsUpper(up, s[1..]);
      var u, v := up(s[0]), ToUppercase(up, s[1..]);
      forall i: nat | i < |u + v|
        ensures AsciiUpperChar((u + v)[i]) == (u + v)[i]
      {
        assert i >= |u| ==> AsciiUpper(v)[i - |u|] == v[i - |u|];
      }
    }
  }
}
