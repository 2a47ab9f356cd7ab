/**
 * The few pieces of Go's standard library that the scraper's decisions rest
 * on, over strings as sequences of Unicode scalar values:
 * `strings.TrimSpace`, `strings.HasPrefix`, `strings.Contains`,
 * `strings.TrimPrefix`, the first part of `strings.Split(s, "|")`, string `<`,
 * `fmt.Sscanf(s, "%d", &n)` on a 64-bit `int`, and `strconv.ParseBool`.
 */
module GoText {
  import opened Base

  const MinInt64: int := -0x8000_0000_0000_0000
  const MaxInt64: int := 0x7FFF_FFFF_FFFF_FFFF

  /** `unicode.IsSpace`; fmt's scanner uses the same table. */
  predicate IsSpace(c: char)
  {
    || c == ' ' || ('\t' <= c <= '\r')
    || c == '\U{85}' || c == '\U{A0}' || c == '\U{1680}'
    || ('\U{2000}' <= c <= '\U{200A}')
    || c == '\U{2028}' || c == '\U{2029}' || c == '\U{202F}' || c == '\U{205F}' || c == '\U{3000}'
  }

  predicate AllSpace(s: string)
  {
    forall k :: 0 <= k < |s| ==> IsSpace(s[k])
  }

  /** An ASCII digit; Go's `time` and `fmt` packages and RE2's `\d` accept no others. */
  predicate IsDigit(c: char)
  {
    '0' <= c <= '9'
  }

  predicate AllDigits(s: string)
  {
    forall k :: 0 <= k < |s| ==> IsDigit(s[k])
  }

  // ---------------------------------------------------------------- trimming

  /** Drops leading white space. */
  function TrimLeft(s: string): (r: string)
    ensures |r| <= |s| && r == s[|s| - |r|..]
    ensures AllSpace(s[..|s| - |r|])
    ensures r == [] || !IsSpace(r[0])
  {
    if s != [] && IsSpace(s[0]) then
      var r := TrimLeft(s[1..]);
      TrimLeftStep(s, r);
      r
    else s
  }

  /** Drops trailing white space. */
  function TrimRight(s: string): (r: string)
    ensures |r| <= |s| && r == s[..|r|]
    ensures AllSpace(s[|r|..])
    ensures r == [] || !IsSpace(r[|r| - 1])
  {
    if s != [] && IsSpace(s[|s| - 1]) then
      var r := TrimRight(s[..|s| - 1]);
      TrimRightStep(s, r);
      r
    else s
  }

  /** A white-space character before what trimming the rest leaves over is trimmed the same way. */
  lemma TrimLeftStep(s: string, r: string)
    requires s != [] && IsSpace(s[0])
    requires |r| <= |s| - 1 && r == s[1..][|s| - 1 - |r|..] && AllSpace(s[1..][..|s| - 1 - |r|])
    ensures r == s[|s| - |r|..] && AllSpace(s[..|s| - |r|])
  {
    assert forall k :: 1 <= k < |s| - |r| ==> s[k] == s[1..][..|s| - 1 - |r|][k - 1];
  }

  /** A white-space character after what trimming the rest leaves over is trimmed the same way. */
  lemma TrimRightStep(s: string, r: string)
    requires s != [] && IsSpace(s[|s| - 1])
    requires |r| <= |s| - 1 && r == s[..|s| - 1][..|r|] && AllSpace(s[..|s| - 1][|r|..])
    ensures r == s[..|r|] && AllSpace(s[|r|..])
  {
    assert forall k :: |r| <= k < |s| - 1 ==> s[k] == s[..|s| - 1][|r|..][k - |r|];
  }

  /** No white space at either end. */
  predicate Trimmed(s: string)
  {
    s == [] || (!IsSpace(s[0]) && !IsSpace(s[|s| - 1]))
  }

  /** `strings.TrimSpace`: the middle of `s` between leading and trailing white space. */
  function TrimSpace(s: string): (r: string)
    ensures Trimmed(r)
  {
    TrimRight(TrimLeft(s))
  }

  /** TrimSpace cuts `s` into white space, the result, and white space. */
  lemma TrimSpaceSplit(s: string) returns (i: nat, j: nat)
    ensures i <= j <= |s|
    ensures TrimSpace(s) == s[i..j]
    ensures AllSpace(s[..i]) && AllSpace(s[j..])
  {
    var l := TrimLeft(s);
    var r := TrimRight(l);
    i := |s| - |l|;
    j := i + |r|;
    assert s[j..] == l[|r|..];
  }

  /** A string with no white space at either end is its own trim. */
  lemma {:induction false} TrimSpaceOfTrimmed(s: string)
    requires Trimmed(s)
    ensures TrimSpace(s) == s
  {
  }

  /** Trimming keeps only characters of the input. */
  lemma TrimSpaceKeeps(s: string, c: char)
    requires c !in s
    ensures c !in TrimSpace(s)
  {
    var i, j := TrimSpaceSplit(s);
  }

  /** Trimming twice is trimming once. */
  lemma TrimSpaceIdempotent(s: string)
    ensures TrimSpace(TrimSpace(s)) == TrimSpace(s)
  {
    TrimSpaceOfTrimmed(TrimSpace(s));
  }

  lemma {:induction false} TrimLeftPadded(left: string, rest: string)
    requires AllSpace(left)
    requires rest == [] || !IsSpace(rest[0])
    ensures TrimLeft(left + rest) == rest
  {
    if left == [] {
      assert left + rest == rest;
    } else {
      assert (left + rest)[0] == left[0] && (left + rest)[1..] == left[1..] + rest;
      TrimLeftPadded(left[1..], rest);
    }
  }

  lemma {:induction false} TrimRightPadded(rest: string, right: string)
    requires AllSpace(right)
    requires rest == [] || !IsSpace(rest[|rest| - 1])
    ensures TrimRight(rest + right) == rest
  {
    if right == [] {
      assert rest + right == rest;
    } else {
      var s := rest + right;
      assert s[|s| - 1] == right[|right| - 1] && s[..|s| - 1] == rest + right[..|right| - 1];
      TrimRightPadded(rest, right[..|right| - 1]);
    }
  }

  /** TrimSpace removes exactly the white space around a core that has none at its ends. */
  lemma TrimSpacePadded(left: string, core: string, right: string)
    requires AllSpace(left) && AllSpace(right)
    requires Trimmed(core)
    ensures TrimSpace(left + core + right) == core
  {
    if core == [] {
      assert left + core + right == (left + right) + [];
      TrimLeftPadded(left + right, []);
    } else {
      assert left + core + right == left + (core + right);
      TrimLeftPadded(left, core + right);
      TrimRightPadded(core, right);
    }
  }

  // ---------------------------------------------------------------- searching

  /** `strings.HasPrefix`. */
  predicate HasPrefix(s: string, p: string)
  {
    |p| <= |s| && s[..|p|] == p
  }

  /** `strings.Contains`: `sub` occurs somewhere in `s`. */
  predicate Contains(s: string, sub: string)
    decreases |s|
  {
    HasPrefix(s, sub) || (s != [] && Contains(s[1..], sub))
  }

  /** Contains holds exactly when `sub` occurs at some position of `s`. */
  lemma {:induction false} ContainsAt(s: string, sub: string, k: nat)
    requires k + |sub| <= |s| && s[k..k + |sub|] == sub
    ensures Contains(s, sub)
    decreases k
  {
    if k > 0 {
      assert s[1..][k - 1..k - 1 + |sub|] == s[k..k + |sub|];
      ContainsAt(s[1..], sub, k - 1);
    }
  }

  /** `strings.TrimPrefix`: drops one leading `p` if present. */
  function TrimPrefix(s: string, p: string): (r: string)
    ensures HasPrefix(s, p) ==> s == p + r
    ensures !HasPrefix(s, p) ==> r == s
  {
    if HasPrefix(s, p) then s[|p|..] else s
  }

  /** `strings.Split(s, sep)[0]` for a one-character separator: the text before the first `sep`. */
  function BeforeFirst(s: string, sep: char): (r: string)
    ensures sep !in r
    ensures |r| <= |s| && r == s[..|r|]
    ensures |r| < |s| ==> s[|r|] == sep
  {
    if s == [] || s[0] == sep then [] else [s[0]] + BeforeFirst(s[1..], sep)
  }

  /** The text before the first `sep` of `a + b` is `a` when `a` has none and `b` is empty or starts with one. */
  lemma {:induction false} BeforeFirstAt(a: string, b: string, sep: char)
    requires sep !in a
    requires b == [] || b[0] == sep
    ensures BeforeFirst(a + b, sep) == a
  {
    if a == [] {
      assert a + b == b;
    } else {
      assert (a + b)[0] == a[0] && (a + b)[1..] == a[1..] + b;
      BeforeFirstAt(a[1..], b, sep);
      assert a == [a[0]] + a[1..];
    }
  }

  /** Go's `<` on strings: lexicographic on bytes, which for UTF-8 is lexicographic on code points. */
  predicate StrLess(a: string, b: string)
  {
    if a == [] then b != []
    else if b == [] then false
    else if a[0] != b[0] then a[0] < b[0]
    else StrLess(a[1..], b[1..])
  }

  lemma {:induction false} StrLessIrreflexive(a: string)
    ensures !StrLess(a, a)
  {
    if a != [] {
      StrLessIrreflexive(a[1..]);
    }
  }

  lemma {:induction false} StrLessTransitive(a: string, b: string, c: string)
    requires StrLess(a, b) && StrLess(b, c)
    ensures StrLess(a, c)
  {
    if a != [] && a[0] == b[0] && b[0] == c[0] {
      StrLessTransitive(a[1..], b[1..], c[1..]);
    }
  }

  /** Any two different strings are ordered one way or the other. */
  lemma {:induction false} StrLessTotal(a: string, b: string)
    requires a != b
    ensures StrLess(a, b) || StrLess(b, a)
  {
    if a != [] && b != [] && a[0] == b[0] {
      assert a == [a[0]] + a[1..] && b == [b[0]] + b[1..];
      StrLessTotal(a[1..], b[1..]);
    }
  }

  // ---------------------------------------------------------------- decimal numbers

  function DigitValue(c: char): nat
    requires IsDigit(c)
  {
    c as int - '0' as int
  }

  function DigitChar(n: nat): (c: char)
    requires n < 10
    ensures IsDigit(c) && DigitValue(c) == n
  {
    ('0' as int + n) as char
  }

  /** The value of a string of decimal digits, most significant first. */
  function DecimalValue(s: string): (v: nat)
    requires AllDigits(s)
    ensures v < Pow10(|s|)
  {
    if s == [] then 0 else 10 * DecimalValue(s[..|s| - 1]) + DigitValue(s[|s| - 1])
  }

  function Pow10(w: nat): (p: nat)
    ensures p >= 1
  {
    if w == 0 then 1 else 10 * Pow10(w - 1)
  }

  /** `n` written in exactly `w` digits, zero-padded (the last `w` digits if it is wider). */
  function Padded(n: nat, w: nat): (r: string)
    ensures |r| == w && AllDigits(r)
  {
    if w == 0 then [] else Padded(n / 10, w - 1) + [DigitChar(n % 10)]
  }

  /** Reading back a zero-padded number that fits its width gives the number. */
  lemma {:induction false} PaddedValue(n: nat, w: nat)
    requires n < Pow10(w)
    ensures DecimalValue(Padded(n, w)) == n
  {
    if w > 0 {
      var p := Padded(n, w);
      assert p[..w - 1] == Padded(n / 10, w - 1);
      PaddedValue(n / 10, w - 1);
    }
  }

  /** `n` in decimal without leading zeros (`strconv.Itoa` for n >= 0). */
  function DecimalString(n: nat): (r: string)
    ensures r != [] && AllDigits(r)
  {
    if n < 10 then [DigitChar(n)] else DecimalString(n / 10) + [DigitChar(n % 10)]
  }

  lemma {:induction false} DecimalStringValue(n: nat)
    ensures DecimalValue(DecimalString(n)) == n
  {
    if n >= 10 {
      var r := DecimalString(n);
      assert r[..|r| - 1] == DecimalString(n / 10);
      DecimalStringValue(n / 10);
    }
  }

  /** `n` in decimal, with a minus sign when negative (`strconv.Itoa`). */
  function FormatInt(n: int): string
  {
    if n < 0 then "-" + DecimalString(-n) else DecimalString(n)
  }

  /** Length of the run of digits that `s` starts with. */
  function DigitRun(s: string): (n: nat)
    ensures n <= |s| && AllDigits(s[..n])
    ensures n < |s| ==> !IsDigit(s[n])
  {
    if s == [] || !IsDigit(s[0]) then 0
    else
      var n := 1 + DigitRun(s[1..]);
      assert s[..n] == [s[0]] + s[1..][..n - 1];
      n
  }

  /**
   * The integer `fmt`'s `%d` verb reads from the start of an input whose leading
   * space is already skipped: an optional sign, then a maximal run of at least
   * one digit, whose value must fit a 64-bit `int`. Text after the digits is
   * left unread.
   */
  function LeadingInt(t: string): (r: Option<int>)
    ensures r.Some? ==> MinInt64 <= r.value <= MaxInt64
  {
    var signed := t != [] && (t[0] == '+' || t[0] == '-');
    var body := if signed then t[1..] else t;
    var n := DigitRun(body);
    if n == 0 then None
    else
      var magnitude: int := DecimalValue(body[..n]);
      var v := if signed && t[0] == '-' then -magnitude else magnitude;
      if MinInt64 <= v <= MaxInt64 then Some(v) else None
  }

  /** fmt's `SkipSpace` for `Sscanf`: white space is skipped, but a newline is an error. */
  function SkipScanSpace(s: string): (r: Option<string>)
    ensures r.Some? ==> |r.value| <= |s| && r.value == s[|s| - |r.value|..]
    ensures r.Some? ==> r.value == [] || !IsSpace(r.value[0])
    ensures r.Some? ==> AllSpace(s[..|s| - |r.value|])
  {
    if s == [] then Some(s)
    else if s[0] == '\n' then None
    else if IsSpace(s[0]) then SkipScanSpace(s[1..])
    else Some(s)
  }

  /** Sscanf finds no integer in empty text. */
  lemma ScanIntEmpty()
    ensures ScanInt([]) == None
  {
    assert DigitRun([]) == 0;
  }

  /** `fmt.Sscanf(s, "%d", &n)`: the integer read, or None where Sscanf reports an error. */
  function ScanInt(s: string): (r: Option<int>)
    ensures r.Some? ==> MinInt64 <= r.value <= MaxInt64
  {
    match SkipScanSpace(s)
    case None => None
    case Some(t) => LeadingInt(t)
  }

  /** The value an `int` variable holds after `fmt.Sscanf(s, "%d", &v)`: unchanged on failure. */
  function ScanIntInto(s: string, current: int): int
  {
    match ScanInt(s)
    case Some(v) => v
    case None => current
  }

  /** The digit run of digits followed by a non-digit is exactly those digits. */
  lemma DigitRunOfDigits(p: string, rest: string)
    requires AllDigits(p)
    requires rest == [] || !IsDigit(rest[0])
    ensures DigitRun(p + rest) == |p|
  {
    assert rest != [] ==> (p + rest)[|p|] == rest[0];
  }

  /** The sign-and-digits reader takes back a decimal numeral, stopping at the first non-digit. */
  lemma LeadingIntOfFormat(n: int, rest: string)
    requires MinInt64 <= n <= MaxInt64
    requires rest == [] || !IsDigit(rest[0])
    ensures LeadingInt(FormatInt(n) + rest) == Some(n)
  {
    var m: nat := if n < 0 then -n else n;
    var body := DecimalString(m) + rest;
    DigitsReadBack(m, rest);
    assert body[0] == DecimalString(m)[0];
    FormatThen(n, m, rest);
    LeadingIntOfBody(FormatInt(n) + rest, body, n);
  }

  /** A formatted integer followed by text is the sign, if any, before the digits and the text. */
  lemma FormatThen(n: int, m: nat, rest: string)
    requires m == if n < 0 then -n else n
    ensures FormatInt(n) + rest == if n < 0 then "-" + (DecimalString(m) + rest) else DecimalString(m) + rest
  {
    if n < 0 {
      assert ("-" + DecimalString(m)) + rest == "-" + (DecimalString(m) + rest);
    }
  }

  /** A numeral that starts with a digit, with a minus sign before it when negative, is read as its value. */
  lemma LeadingIntOfBody(t: string, body: string, n: int)
    requires t == if n < 0 then "-" + body else body
    requires body != [] && IsDigit(body[0])
    requires DigitRun(body) > 0 && DecimalValue(body[..DigitRun(body)]) == (if n < 0 then -n else n)
    requires MinInt64 <= n <= MaxInt64
    ensures LeadingInt(t) == Some(n)
  {
    var k := DigitRun(body);
    if n < 0 {
      assert t != [] && t[0] == '-' && t[1..] == body;
      assert DecimalValue(body[..k]) == -n;
    } else {
      assert t != [] && t[0] == body[0] && t[0] != '+' && t[0] != '-';
    }
  }

  /** The digit run at the start of a numeral followed by a non-digit is the numeral, and denotes its number. */
  lemma DigitsReadBack(m: nat, rest: string)
    requires rest == [] || !IsDigit(rest[0])
    ensures var body := DecimalString(m) + rest;
      DigitRun(body) == |DecimalString(m)| && DecimalValue(body[..DigitRun(body)]) == m
  {
    var digits := DecimalString(m);
    DigitRunOfDigits(digits, rest);
    assert (digits + rest)[..|digits|] == digits;
    DecimalStringValue(m);
  }

  /** Sscanf reads back every 64-bit integer written in decimal, whatever non-digit text follows it. */
  lemma ScanIntRoundTrip(n: int, rest: string)
    requires MinInt64 <= n <= MaxInt64
    requires rest == [] || !IsDigit(rest[0])
    ensures ScanInt(FormatInt(n) + rest) == Some(n)
  {
    var t := FormatInt(n) + rest;
    var m: nat := if n < 0 then -n else n;
    assert t[0] == (FormatInt(n))[0] == (if n < 0 then '-' else DecimalString(m)[0]);
    assert SkipScanSpace(t) == Some(t);
    LeadingIntOfFormat(n, rest);
  }

  // ---------------------------------------------------------------- booleans

  /** `strconv.ParseBool`. */
  function ParseBool(s: string): Option<bool>
  {
    if s in {"1", "t", "T", "TRUE", "true", "True"} then Some(true)
    else if s in {"0", "f", "F", "FALSE", "false", "False"} then Some(false)
    else None
  }

  /**
   * ParseBool does not trim: a value with white space before or after it is
   * refused, and every value it accepts is non-empty with a letter or digit
   * at each end.
   */
  lemma ParseBoolUnpadded(s: string)
    ensures ParseBool(s).Some? ==> Trimmed(s) && s != [] && !IsSpace(s[0]) && !IsSpace(s[|s| - 1])
    ensures s != [] && (IsSpace(s[0]) || IsSpace(s[|s| - 1])) ==> ParseBool(s).None?
  {
  }
}
