/**
 * Decimal digits as text: `str(n)` for integers, the zero-padded `%0wd`
 * fields of `datetime.isoformat()`, and the parsers that read them back.
 */
module Digits {
  import opened Wrappers

  function Pow10(n: nat): (r: nat)
    ensures r >= 1
  {
    if n == 0 then 1 else 10 * Pow10(n - 1)
  }

  predicate IsDigit(c: char) {
    '0' <= c <= '9'
  }

  function DigitValue(c: char): (d: nat)
    requires IsDigit(c)
    ensures d < 10
  {
    c as int - '0' as int
  }

  function DigitChar(d: nat): (c: char)
    requires d < 10
    ensures IsDigit(c) && DigitValue(c) == d
  {
    ('0' as int + d) as char
  }

  predicate AllDigits(s: string) {
    forall i :: 0 <= i < |s| ==> IsDigit(s[i])
  }

  /** The number a run of decimal digits denotes (leading zeros allowed). */
  function DigitsValue(s: string): nat
    requires AllDigits(s)
  {
    if s == [] then 0 else 10 * DigitsValue(s[..|s| - 1]) + DigitValue(s[|s| - 1])
  }

  lemma DigitsValueSnoc(s: string, c: char)
    requires AllDigits(s) && IsDigit(c)
    ensures AllDigits(s + [c]) && DigitsValue(s + [c]) == 10 * DigitsValue(s) + DigitValue(c)
  {
    assert (s + [c])[..|s|] == s;
  }

  /** `'%0*d' % (w, n)`: exactly `w` digits, zero-padded on the left. */
  function FixedDigits(n: nat, w: nat): (s: string)
    requires n < Pow10(w)
    ensures |s| == w && AllDigits(s) && DigitsValue(s) == n
  {
    if w == 0 then ""
    else
      var s := FixedDigits(n / 10, w - 1) + [DigitChar(n % 10)];
      DigitsValueSnoc(FixedDigits(n / 10, w - 1), DigitChar(n % 10));
      s
  }

  /** `str(n)` for a natural number: the shortest digit string, no leading zero. */
  function NatStr(n: nat): (s: string)
    ensures |s| >= 1 && AllDigits(s) && DigitsValue(s) == n
    ensures s[0] == '0' ==> n == 0
  {
    if n < 10 then
      var s := [DigitChar(n)];
      assert s == [] + [DigitChar(n)];
      DigitsValueSnoc([], DigitChar(n));
      s
    else
      var s := NatStr(n / 10) + [DigitChar(n % 10)];
      DigitsValueSnoc(NatStr(n / 10), DigitChar(n % 10));
      s
  }

  /** `str(i)` for an integer: a minus sign before the digits of a negative number. */
  function IntStr(i: int): (s: string)
    ensures |s| >= 1 && (i >= 0 ==> AllDigits(s)) && (i < 0 ==> s[0] == '-' && AllDigits(s[1..]))
  {
    if i < 0 then "-" + NatStr(-i) else NatStr(i)
  }

  /** Length of the longest prefix of `s` made of digits. */
  function DigitRun(s: string): (k: nat)
    ensures k <= |s| && AllDigits(s[..k]) && (k < |s| ==> !IsDigit(s[k]))
  {
    if s == [] || !IsDigit(s[0]) then 0
    else
      var k := 1 + DigitRun(s[1..]);
      assert s[..k] == [s[0]] + s[1..][..k - 1];
      k
  }

  /** Reads the digits at the head of `s`; fails when there are none. */
  function ParseNat(s: string): (r: Option<(nat, string)>)
    ensures r.Some? ==> |r.value.1| < |s|
  {
    var k := DigitRun(s);
    if k == 0 then None else Some((DigitsValue(s[..k]), s[k..]))
  }

  /** Reads an optional minus sign and the digits after it. */
  function ParseInt(s: string): (r: Option<(int, string)>)
    ensures r.Some? ==> |r.value.1| < |s|
  {
    if s != [] && s[0] == '-' then
      match ParseNat(s[1..])
      case None => None
      case Some(p) => Some((0 - p.0 as int, p.1))
    else
      match ParseNat(s)
      case None => None
      case Some(p) => Some((p.0 as int, p.1))
  }

  /** Reads exactly `w` digits at the head of `s`. */
  function ParseFixed(s: string, w: nat): Option<(nat, string)> {
    if |s| >= w && AllDigits(s[..w]) then Some((DigitsValue(s[..w]), s[w..])) else None
  }

  /** Text that cannot continue a run of digits. */
  predicate StopsDigits(rest: string) {
    rest == [] || !IsDigit(rest[0])
  }

  lemma {:induction false} DigitRunOfDigits(a: string, rest: string)
    requires AllDigits(a) && StopsDigits(rest)
    ensures DigitRun(a + rest) == |a|
  {
    if a != [] {
      assert (a + rest)[1..] == a[1..] + rest;
      DigitRunOfDigits(a[1..], rest);
    }
  }

  lemma ParseNatStr(n: nat, rest: string)
    requires StopsDigits(rest)
    ensures ParseNat(NatStr(n) + rest) == Some((n, rest))
  {
    var s := NatStr(n) + rest;
    DigitRunOfDigits(NatStr(n), rest);
    assert s[..|NatStr(n)|] == NatStr(n);
    assert s[|NatStr(n)|..] == rest;
  }

  lemma ParseIntStr(i: int, rest: string)
    requires StopsDigits(rest)
    ensures ParseInt(IntStr(i) + rest) == Some((i, rest))
  {
    if i < 0 {
      ParseNegative(-i, rest);
    } else {
      ParseNonNegative(i, rest);
    }
  }

  lemma ParseNonNegative(n: nat, rest: string)
    requires StopsDigits(rest)
    ensures ParseInt(NatStr(n) + rest) == Some((n, rest))
  {
    var t := NatStr(n);
    var s := t + rest;
    ParseNatStr(n, rest);
    assert s[0] == t[0] && IsDigit(t[0]);
  }

  lemma ParseNegative(n: nat, rest: string)
    requires StopsDigits(rest) && n > 0
    ensures ParseInt("-" + NatStr(n) + rest) == Some((0 - n, rest))
  {
    var t := NatStr(n);
    var s := "-" + t + rest;
    assert s[0] == '-';
    assert s[1..] == t + rest;
    ParseNatStr(n, rest);
    assert ParseNat(s[1..]) == Some((n, rest));
  }

  lemma ParseFixedDigits(n: nat, w: nat, rest: string)
    requires n < Pow10(w)
    ensures ParseFixed(FixedDigits(n, w) + rest, w) == Some((n, rest))
  {
    var s := FixedDigits(n, w) + rest;
    assert s[..w] == FixedDigits(n, w);
    assert s[w..] == rest;
  }
}
