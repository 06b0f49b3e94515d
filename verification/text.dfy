/** Character and string helpers shared by the formatters: decimal digits,
    zero padding as `%02d` / `%04d` produce it, Kotlin's `isBlank` and
    `contains(..., ignoreCase = true)`. */
module Text {

  predicate IsDigit(c: char) {
    '0' <= c <= '9'
  }

  predicate AllDigits(s: string) {
    forall i :: 0 <= i < |s| ==> IsDigit(s[i])
  }

  function DigitChar(d: nat): (c: char)
    requires d < 10
    ensures IsDigit(c) && DigitValue(c) == d
  {
    ('0' as int + d) as char
  }

  function DigitValue(c: char): (d: nat)
    requires IsDigit(c)
    ensures d < 10
  {
    c as int - '0' as int
  }

  /** The decimal numeral of `n`, without leading zeros ("0" for zero). */
  function Digits(n: nat): (s: string)
    ensures 1 <= |s| && AllDigits(s)
    ensures n < 10 <==> |s| == 1
    decreases n
  {
    if n < 10 then [DigitChar(n)] else Digits(n / 10) + [DigitChar(n % 10)]
  }

  /** The value of a string of decimal digits. */
  function ParseDigits(s: string): nat
    requires AllDigits(s)
  {
    if s == [] then 0 else ParseDigits(s[..|s| - 1]) * 10 + DigitValue(s[|s| - 1])
  }

  lemma {:induction false} ParseDigitsOfDigits(n: nat)
    ensures ParseDigits(Digits(n)) == n
    decreases n
  {
    if n >= 10 {
      var s := Digits(n);
      assert s[..|s| - 1] == Digits(n / 10);
      ParseDigitsOfDigits(n / 10);
    }
  }

  /** Kotlin's `Long.toString()`: a minus sign, then the digits. */
  function ShowInt(n: int): string {
    if n < 0 then "-" + Digits(-n) else Digits(n)
  }

  lemma SignOfShowInt(n: int)
    ensures |ShowInt(n)| >= 1 && (ShowInt(n)[0] == '-' <==> n < 0)
  {
    if n >= 0 {
      assert IsDigit(Digits(n)[0]);
    }
  }

  /** Different numbers have different numerals. */
  lemma ShowIntInjective(a: int, b: int)
    requires ShowInt(a) == ShowInt(b)
    ensures a == b
  {
    SignOfShowInt(a);
    SignOfShowInt(b);
    if a < 0 {
      assert Digits(-a) == ShowInt(a)[1..];
      assert Digits(-b) == ShowInt(b)[1..];
      DigitsInjective(-a, -b);
    } else {
      DigitsInjective(a, b);
    }
  }

  lemma DigitsInjective(m: nat, n: nat)
    requires Digits(m) == Digits(n)
    ensures m == n
  {
    ParseDigitsOfDigits(m);
    ParseDigitsOfDigits(n);
  }

  function Zeros(k: nat): (s: string)
    ensures |s| == k && forall i :: 0 <= i < k ==> s[i] == '0'
  {
    if k == 0 then "" else "0" + Zeros(k - 1)
  }

  /** `String.format("%0<width>d", n)` for a non-negative `n`. */
  function ZeroPad(n: nat, width: nat): (s: string)
    ensures |s| == if |Digits(n)| < width then width else |Digits(n)|
    ensures AllDigits(s)
  {
    var d := Digits(n);
    if |d| < width then Zeros(width - |d|) + d else d
  }

  /** `String.format("%02d", n)` for any `n`: zero padding goes after the
      sign, and a negative number is already two characters wide. */
  function Format02(n: int): string {
    if n < 0 then "-" + Digits(-n) else ZeroPad(n, 2)
  }

  lemma {:induction false} ParseZeroPad(n: nat, width: nat)
    ensures ParseDigits(ZeroPad(n, width)) == n
  {
    var d := Digits(n);
    ParseDigitsOfDigits(n);
    if |d| < width {
      assert ZeroPad(n, width) == Zeros(width - |d|) + d;
      ParseZerosThen(width - |d|, d);
    }
  }

  lemma {:induction false} ParseZerosThen(k: nat, d: string)
    requires AllDigits(d)
    ensures AllDigits(Zeros(k) + d) && ParseDigits(Zeros(k) + d) == ParseDigits(d)
    decreases |d|
  {
    var s := Zeros(k) + d;
    if d != [] {
      assert s[..|s| - 1] == Zeros(k) + d[..|d| - 1];
      ParseZerosThen(k, d[..|d| - 1]);
    } else {
      assert s == Zeros(k);
      ParseZeros(k);
    }
  }

  lemma {:induction false} ParseZeros(k: nat)
    ensures ParseDigits(Zeros(k)) == 0
  {
    if k > 0 {
      assert Zeros(k)[..k - 1] == Zeros(k - 1);
      ParseZeros(k - 1);
    }
  }

  /** Any fixed-width digit string is the zero-padded numeral of its value. */
  lemma {:induction false} ZeroPadOfParseDigits(t: string)
    requires AllDigits(t) && t != []
    ensures ZeroPad(ParseDigits(t), |t|) == t
    decreases |t|
  {
    if |t| == 1 {
      assert t == [] + [t[0]];
      ZeroPadLastDigit(0, t[0]);
    } else {
      var init, c := t[..|t| - 1], t[|t| - 1];
      assert t == init + [c];
      ZeroPadOfParseDigits(init);
      ZeroPadStep(init, c);
    }
  }

  /** The inductive step: one more digit after a zero-padded prefix. */
  lemma ZeroPadStep(init: string, c: char)
    requires AllDigits(init) && init != [] && IsDigit(c)
    requires ZeroPad(ParseDigits(init), |init|) == init
    ensures AllDigits(init + [c])
    ensures ZeroPad(ParseDigits(init + [c]), |init| + 1) == init + [c]
  {
    var t := init + [c];
    assert t[..|t| - 1] == init;
    var n := ParseDigits(init);
    var v := ParseDigits(t);
    assert v == n * 10 + DigitValue(c);
    if n == 0 {
      assert v == DigitValue(c);
      AllZeros(init);
      ZeroPadLastDigit(|init|, c);
      assert ZeroPad(v, |init| + 1) == Zeros(|init|) + [c];
    } else {
      assert |Digits(n)| <= |init|;
      ZeroPadAppendDigit(n, |init|, c);
      assert ZeroPad(v, |init| + 1) == ZeroPad(n, |init|) + [c];
    }
  }

  lemma ZeroPadLastDigit(k: nat, c: char)
    requires IsDigit(c)
    ensures ZeroPad(DigitValue(c), k + 1) == Zeros(k) + [c]
  {
    var v := DigitValue(c);
    assert DigitChar(v) == c;
    assert Digits(v) == [c];
    if k == 0 {
      assert Zeros(0) + [c] == [c];
    }
  }

  lemma ZeroPadAppendDigit(n: nat, width: nat, c: char)
    requires IsDigit(c) && n > 0
    requires |Digits(n)| <= width
    ensures ZeroPad(n * 10 + DigitValue(c), width + 1) == ZeroPad(n, width) + [c]
  {
    var v := n * 10 + DigitValue(c);
    assert v / 10 == n && v % 10 == DigitValue(c);
    assert DigitChar(DigitValue(c)) == c;
    assert Digits(v) == Digits(n) + [c];
    if |Digits(n)| < width {
      assert ZeroPad(v, width + 1) == Zeros(width - |Digits(n)|) + (Digits(n) + [c]);
    }
  }

  /** A digit string whose value is zero is all zeros. */
  lemma {:induction false} AllZeros(t: string)
    requires AllDigits(t) && ParseDigits(t) == 0
    ensures t == Zeros(|t|)
    decreases |t|
  {
    if t != [] {
      var init := t[..|t| - 1];
      assert ParseDigits(t) == ParseDigits(init) * 10 + DigitValue(t[|t| - 1]);
      AllZeros(init);
      assert forall i :: 0 <= i < |t| - 1 ==> t[i] == init[i];
      assert forall i :: 0 <= i < |t| ==> t[i] == '0';
    }
  }

  function Pow10(k: nat): (p: nat)
    ensures p >= 1
  {
    if k == 0 then 1 else 10 * Pow10(k - 1)
  }

  /** A numeral has at most `k` digits exactly when the number is below 10^k. */
  lemma {:induction false} DigitsLength(n: nat, k: nat)
    requires k >= 1
    ensures |Digits(n)| <= k <==> n < Pow10(k)
    decreases n
  {
    assert Pow10(k) == 10 * Pow10(k - 1);
    if n >= 10 && k > 1 {
      DigitsLength(n / 10, k - 1);
    }
  }

  /** The length of the run of ASCII digits at the start of `s`. */
  function DigitRun(s: string): (n: nat)
    ensures n <= |s| && AllDigits(s[..n])
    ensures n < |s| ==> !IsDigit(s[n])
  {
    if s == [] || !IsDigit(s[0]) then 0
    else
      var n := 1 + DigitRun(s[1..]);
      assert s[..n] == [s[0]] + s[1..][..n - 1];
      n
  }

  /** A digit run stops at the first non-digit. */
  lemma {:induction false} DigitRunOf(d: string, rest: string)
    requires AllDigits(d)
    requires rest == [] || !IsDigit(rest[0])
    ensures DigitRun(d + rest) == |d|
    decreases |d|
  {
    if d != [] {
      assert (d + rest)[1..] == d[1..] + rest;
      DigitRunOf(d[1..], rest);
    }
  }

  /** Kotlin's `Char.isWhitespace()`: Java whitespace or a Unicode space
      separator. */
  predicate IsWhitespace(c: char) {
    c == ' ' || c == '\t' || c == '\n' || c == '\U{B}' || c == '\U{C}' || c == '\r'
    || ('\U{1C}' <= c <= '\U{1F}') || c == '\U{A0}' || c == '\U{1680}'
    || ('\U{2000}' <= c <= '\U{200A}') || c == '\U{2028}' || c == '\U{2029}'
    || c == '\U{202F}' || c == '\U{205F}' || c == '\U{3000}'
  }

  /** Kotlin's `isBlank()`: empty or whitespace only. */
  predicate IsBlank(s: string) {
    forall i :: 0 <= i < |s| ==> IsWhitespace(s[i])
  }

  /** The platform's one-character case mappings, left abstract. */
  datatype CaseMapping = CaseMapping(upper: char -> char, lower: char -> char)

  /** Kotlin's `Char.equals(other, ignoreCase = true)`. */
  predicate CharEqualsIgnoreCase(a: char, b: char, cm: CaseMapping) {
    a == b || cm.upper(a) == cm.upper(b) || cm.lower(cm.upper(a)) == cm.lower(cm.upper(b))
  }

  predicate RegionMatches(s: string, start: nat, q: string, cm: CaseMapping)
    requires start + |q| <= |s|
  {
    forall j :: 0 <= j < |q| ==> CharEqualsIgnoreCase(s[start + j], q[j], cm)
  }

  /** Kotlin's `s.contains(q, ignoreCase = true)`: some window of `s` matches
      `q` character by character. */
  predicate ContainsIgnoreCase(s: string, q: string, cm: CaseMapping) {
    exists i: nat :: i + |q| <= |s| && RegionMatches(s, i, q, cm)
  }

  predicate StartsWith(s: string, prefix: string) {
    |prefix| <= |s| && s[..|prefix|] == prefix
  }

  // ---- Integer division as Kotlin does it ----

  /** Kotlin `Int`/`Long` division: the quotient truncated toward zero. */
  function TruncDiv(a: int, b: int): (q: int)
    requires b > 0
    ensures a >= 0 ==> q == a / b
    ensures -b < a < b ==> q == 0
    ensures q * b <= a < q * b + b || (a < 0 && q * b - b < a <= q * b)
  {
    QuotientBounds(if a >= 0 then a else -a, b);
    if a >= 0 then a / b else -((-a) / b)
  }

  /** Floor division of a non-negative number brackets it. */
  lemma QuotientBounds(n: int, b: int)
    requires n >= 0 && b > 0
    ensures (n / b) * b <= n < (n / b) * b + b
    ensures (-(n / b)) * b == -((n / b) * b)
    ensures n < b ==> n / b == 0
  {
    var q, r := n / b, n % b;
    assert n == q * b + r;
  }

  /** Kotlin `%`: the remainder takes the sign of the dividend. */
  function TruncRem(a: int, b: int): (r: int)
    requires b > 0
    ensures a == TruncDiv(a, b) * b + r
    ensures a >= 0 ==> r == a % b
    ensures -b < r < b
  {
    a - TruncDiv(a, b) * b
  }

  // ---- Two-digit pairs ----

  /** Two numbers below 100, each as `%02d`, around a separator: the
      shape of `MM:SS`, `HH:mm` and `MM/dd`. */
  function Pair(a: nat, sep: char, b: nat): string {
    ZeroPad(a, 2) + [sep] + ZeroPad(b, 2)
  }

  /** `s` is a string of digits whose value is `n`. */
  predicate ReadsAs(s: string, n: int) {
    AllDigits(s) && ParseDigits(s) == n
  }

  lemma TwoDigits(n: nat)
    requires n < 100
    ensures |ZeroPad(n, 2)| == 2 && ParseDigits(ZeroPad(n, 2)) == n
  {
    DigitsLength(n, 2);
    ParseZeroPad(n, 2);
  }

  /** A pair of numbers below 100 is five characters, and both numbers
      can be read back from it. */
  lemma PairRoundTrip(a: nat, sep: char, b: nat)
    requires a < 100 && b < 100
    ensures |Pair(a, sep, b)| == 5 && Pair(a, sep, b)[2] == sep
    ensures ReadsAs(Pair(a, sep, b)[..2], a) && ReadsAs(Pair(a, sep, b)[3..], b)
  {
    TwoDigits(a);
    TwoDigits(b);
    var p := Pair(a, sep, b);
    assert p[..2] == ZeroPad(a, 2);
    assert p[3..] == ZeroPad(b, 2);
  }

  /** `"%02d:%02d".format(s / 60, s % 60)` with Kotlin's truncating
      division. */
  function ClockFace(seconds: int): string {
    Format02(TruncDiv(seconds, 60)) + ":" + Format02(TruncRem(seconds, 60))
  }

  /** Below 100 minutes the clock face is `MM:SS` and gives the seconds
      back; from 100 minutes on it is longer. */
  lemma ClockFaceRoundTrip(seconds: int)
    requires 0 <= seconds
    ensures seconds < 6000 ==> ClockFace(seconds) == Pair(seconds / 60, ':', seconds % 60)
    ensures seconds < 6000 ==>
      var f := ClockFace(seconds);
      |f| == 5 && f[2] == ':' && AllDigits(f[..2]) && AllDigits(f[3..])
      && ParseDigits(f[..2]) * 60 + ParseDigits(f[3..]) == seconds
    ensures seconds >= 6000 ==> |ClockFace(seconds)| > 5
  {
    if seconds < 6000 {
      PairRoundTrip(seconds / 60, ':', seconds % 60);
    } else {
      DigitsLength(seconds / 60, 2);
      TwoDigits(seconds % 60);
    }
  }

  /** Two pairs joined by a space (`MM-dd HH:mm`): eleven characters from
      which all four numbers can be read back. */
  lemma TwoPairsRoundTrip(a: nat, sep1: char, b: nat, c: nat, sep2: char, d: nat)
    requires a < 100 && b < 100 && c < 100 && d < 100
    ensures var f := Pair(a, sep1, b) + " " + Pair(c, sep2, d);
      |f| == 11 && f[2] == sep1 && f[5] == ' ' && f[8] == sep2
      && ReadsAs(f[..2], a) && ReadsAs(f[3..5], b) && ReadsAs(f[6..8], c) && ReadsAs(f[9..], d)
  {
    var p, q := Pair(a, sep1, b), Pair(c, sep2, d);
    PairRoundTrip(a, sep1, b);
    PairRoundTrip(c, sep2, d);
    var f := p + " " + q;
    assert f[..2] == p[..2];
    assert f[3..5] == p[3..];
    assert f[6..8] == q[..2];
    assert f[9..] == q[3..];
  }
}
