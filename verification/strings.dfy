/**
 * The PHP string builtins the bundle relies on, over `string` (`seq<char>`):
 * `strpos(...) !== false`, `rtrim`/`ltrim`/`trim`, `explode(...)[0]`, `implode`,
 * `empty()` on a string, the `(int)` cast, and decimal formatting of integers.
 */
module Strings {

  predicate IsDigit(c: char) {
    '0' <= c <= '9'
  }

  predicate AllDigits(s: string) {
    forall i :: 0 <= i < |s| ==> IsDigit(s[i])
  }

  predicate StartsWith(s: string, prefix: string) {
    |prefix| <= |s| && s[..|prefix|] == prefix
  }

  /** Text starts with whatever was put in front of it. */
  lemma StartsWithConcat(prefix: string, t: string)
    ensures StartsWith(prefix + t, prefix) && (prefix + t)[|prefix|..] == t
  {
    assert (prefix + t)[..|prefix|] == prefix;
  }

  /** One differing character rules a prefix out. */
  lemma DiffersAt(s: string, prefix: string, k: nat)
    requires k < |prefix| && k < |s| && s[k] != prefix[k]
    ensures !StartsWith(s, prefix)
  {
    if |prefix| <= |s| {
      assert s[..|prefix|][k] != prefix[k];
    }
  }

  predicate EndsWith(s: string, suffix: string) {
    |suffix| <= |s| && s[|s| - |suffix|..] == suffix
  }

  /** `sub` occurs in `s` starting at index `i`. */
  predicate OccursAt(s: string, sub: string, i: int) {
    0 <= i <= |s| - |sub| && s[i..i + |sub|] == sub
  }

  /** `strpos($s, $sub) !== false`. */
  predicate Contains(s: string, sub: string) {
    exists i | 0 <= i <= |s| - |sub| :: OccursAt(s, sub, i)
  }

  /** A string that occurs in `b` still occurs once text is added on either side. */
  lemma ContainsInContext(a: string, b: string, c: string, sub: string)
    requires Contains(b, sub)
    ensures Contains(a + b + c, sub)
  {
    var i :| 0 <= i <= |b| - |sub| && OccursAt(b, sub, i);
    assert b[i..i + |sub|] == sub;
    var j := |a| + i;
    assert (a + b + c)[j..j + |sub|] == b[i..i + |sub|];
    assert OccursAt(a + b + c, sub, j);
  }

  /** PHP's `empty()` on a string: true for `""` and for `"0"`. */
  predicate PhpEmpty(s: string) {
    s == "" || s == "0"
  }

  /** `implode($sep, $parts)`. */
  function Join(parts: seq<string>, sep: string): string
  {
    if |parts| == 0 then ""
    else if |parts| == 1 then parts[0]
    else parts[0] + sep + Join(parts[1..], sep)
  }

  /** Length of the longest prefix of `s` whose characters all satisfy `p`. */
  function Run(s: string, p: char -> bool): (n: nat)
    ensures n <= |s|
    ensures forall i :: 0 <= i < n ==> p(s[i])
    ensures n < |s| ==> !p(s[n])
  {
    if |s| > 0 && p(s[0]) then 1 + Run(s[1..], p) else 0
  }

  /** The run length is the only length with the run's two properties. */
  lemma RunIs(s: string, p: char -> bool, n: nat)
    requires n <= |s|
    requires forall i :: 0 <= i < n ==> p(s[i])
    requires n < |s| ==> !p(s[n])
    ensures Run(s, p) == n
  {
    var m := Run(s, p);
    assert m >= n;
    assert m <= n;
  }

  /** A run that ends inside a common prefix is the same run in both strings. */
  lemma RunLocal(a: string, b: string, p: char -> bool, m: nat)
    requires m <= |a| && m <= |b| && a[..m] == b[..m]
    requires Run(a, p) < m
    ensures Run(b, p) == Run(a, p)
  {
    var n := Run(a, p);
    assert forall i :: 0 <= i < m ==> a[i] == a[..m][i] == b[..m][i] == b[i];
    RunIs(b, p, n);
  }

  /** Removes every trailing character satisfying `drop` (PHP `rtrim` with a character list). */
  function TrimRightWhere(s: string, drop: char -> bool): (r: string)
    ensures |r| <= |s| && r == s[..|r|]
    ensures r == [] || !drop(r[|r| - 1])
    ensures forall i :: |r| <= i < |s| ==> drop(s[i])
    decreases |s|
  {
    if |s| > 0 && drop(s[|s| - 1]) then TrimRightWhere(s[..|s| - 1], drop) else s
  }

  /**
   * The characterisation of a right trim: the kept prefix of length `k` is the
   * result when everything after it is dropped and its last character is not.
   */
  lemma TrimRightWhereIs(s: string, drop: char -> bool, k: nat)
    requires k <= |s|
    requires k == 0 || !drop(s[k - 1])
    requires forall i :: k <= i < |s| ==> drop(s[i])
    ensures TrimRightWhere(s, drop) == s[..k]
  {
    var r := TrimRightWhere(s, drop);
    assert |r| < k ==> drop(s[k - 1]);
    assert |r| > k ==> r[|r| - 1] == s[|r| - 1];
  }

  /** Removes every leading character satisfying `drop` (PHP `ltrim` with a character list). */
  function TrimLeftWhere(s: string, drop: char -> bool): (r: string)
    ensures |r| <= |s| && r == s[|s| - |r|..]
    ensures r == [] || !drop(r[0])
    ensures forall i :: 0 <= i < |s| - |r| ==> drop(s[i])
    decreases |s|
  {
    if |s| > 0 && drop(s[0]) then TrimLeftWhere(s[1..], drop) else s
  }

  /** `rtrim($s, $c)` for a single character `$c`. */
  function TrimRight(s: string, c: char): string
  {
    TrimRightWhere(s, x => x == c)
  }

  /** `ltrim($s, $c)` for a single character `$c`. */
  function TrimLeft(s: string, c: char): string
  {
    TrimLeftWhere(s, x => x == c)
  }

  /** The characters PHP's `trim()` strips by default: space, tab, LF, CR, NUL, vertical tab. */
  predicate IsTrimSpace(c: char) {
    c == ' ' || c == '\t' || c == '\n' || c == '\r' || c == '\0' || c == '\U{000B}'
  }

  /** `trim($s)` with the default character list. */
  function Trim(s: string): string
  {
    TrimLeftWhere(TrimRightWhere(s, IsTrimSpace), IsTrimSpace)
  }

  /** `explode($sep, $s)[0]`: everything before the first `sep`, or all of `s`. */
  function FirstField(s: string, sep: char): (r: string)
    ensures |r| <= |s| && r == s[..|r|]
    ensures forall i :: 0 <= i < |r| ==> r[i] != sep
    ensures |r| < |s| ==> s[|r|] == sep
  {
    if |s| == 0 then ""
    else if s[0] == sep then ""
    else [s[0]] + FirstField(s[1..], sep)
  }

  function DigitChar(d: nat): (c: char)
    requires d < 10
    ensures IsDigit(c)
  {
    ('0' as int + d) as char
  }

  function DigitValue(c: char): nat
    requires IsDigit(c)
  {
    c as int - '0' as int
  }

  /** Decimal text of a natural number, as PHP prints an integer. */
  function NatToString(n: nat): (r: string)
    ensures |r| >= 1 && AllDigits(r)
  {
    if n < 10 then [DigitChar(n)] else NatToString(n / 10) + [DigitChar(n % 10)]
  }

  /** The value of a string of decimal digits. */
  function DecValue(s: string): nat
    requires AllDigits(s)
  {
    if s == [] then 0 else 10 * DecValue(s[..|s| - 1]) + DigitValue(s[|s| - 1])
  }

  /** Reading back the decimal text of `n` gives `n`. */
  lemma {:induction false} DecValueOfNatToString(n: nat)
    ensures DecValue(NatToString(n)) == n
  {
    var s := NatToString(n);
    if n >= 10 {
      assert s[..|s| - 1] == NatToString(n / 10);
      DecValueOfNatToString(n / 10);
    }
  }

  /** Distinct numbers have distinct decimal texts. */
  lemma NatToStringInjective(a: nat, b: nat)
    requires NatToString(a) == NatToString(b)
    ensures a == b
  {
    DecValueOfNatToString(a);
    DecValueOfNatToString(b);
  }

  /** Length of the run of decimal digits at the start of `s`. */
  function DigitRun(s: string): (n: nat)
    ensures n <= |s|
    ensures forall i :: 0 <= i < n ==> IsDigit(s[i])
    ensures n < |s| ==> !IsDigit(s[n])
  {
    if |s| > 0 && IsDigit(s[0]) then 1 + DigitRun(s[1..]) else 0
  }

  /** A digit string followed by a non-digit is exactly one digit run. */
  lemma {:induction false} DigitRunOfDigitsThenOther(a: string, b: string)
    requires AllDigits(a)
    requires b == [] || !IsDigit(b[0])
    ensures DigitRun(a + b) == |a|
  {
    if a != [] {
      assert (a + b)[1..] == a[1..] + b;
      DigitRunOfDigitsThenOther(a[1..], b);
    } else {
      assert a + b == b;
    }
  }

  /** The whitespace PHP skips before the digits of a numeric string. */
  predicate IsNumericLeadingSpace(c: char) {
    c == ' ' || c == '\t' || c == '\n' || c == '\r' || c == '\U{000B}' || c == '\U{000C}'
  }

  /**
   * PHP's `(int)` cast of a string: leading whitespace is skipped, an optional sign
   * is read, then the longest run of decimal digits; no digits gives 0.
   */
  function PhpIntCast(s: string): int
  {
    var t := TrimLeftWhere(s, IsNumericLeadingSpace);
    if |t| > 0 && (t[0] == '-' || t[0] == '+') then
      var u := t[1..];
      var v: int := DecValue(u[..DigitRun(u)]);
      if t[0] == '-' then -v else v
    else
      DecValue(t[..DigitRun(t)])
  }

  /** Casting the decimal text of `n`, followed by anything that is not a digit, gives `n`. */
  lemma PhpIntCastOfDecimal(n: nat, rest: string)
    requires rest == [] || !IsDigit(rest[0])
    ensures PhpIntCast(NatToString(n) + rest) == n
  {
    var s := NatToString(n) + rest;
    assert !IsNumericLeadingSpace(s[0]);
    assert TrimLeftWhere(s, IsNumericLeadingSpace) == s;
    DigitRunOfDigitsThenOther(NatToString(n), rest);
    assert s[..DigitRun(s)] == NatToString(n);
    DecValueOfNatToString(n);
  }

  /** Casting the decimal text of `n` gives `n`. */
  lemma PhpIntCastOfNatString(n: nat)
    ensures PhpIntCast(NatToString(n)) == n
  {
    var d := NatToString(n);
    PhpIntCastOfDecimal(n, []);
    assert d + [] == d;
  }
}
