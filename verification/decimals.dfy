/** Decimal digits as character codes, shared by the WHERE clause's numbers and the SDK's JSON numbers. */
module Decimals {

  /** The codes of a text's characters. */
  function Codes(s: string): (codes: seq<int>)
    ensures |codes| == |s| && forall i :: 0 <= i < |s| ==> codes[i] == s[i] as int
  {
    seq(|s|, i requires 0 <= i < |s| => s[i] as int)
  }

  predicate IsDigitCode(c: int) {
    0x30 <= c <= 0x39
  }

  /** The number a run of digits denotes. */
  function DigitsValue(s: seq<int>): nat
    decreases |s|
  {
    if s == [] then 0
    else 10 * DigitsValue(s[..|s| - 1]) + (if IsDigitCode(s[|s| - 1]) then s[|s| - 1] - 0x30 else 0)
  }

  function Power10(n: nat): (r: real)
    ensures r > 0.0
  {
    if n == 0 then 1.0 else 10.0 * Power10(n - 1)
  }

  lemma PowersOfTen()
    ensures Power10(0) == 1.0 && Power10(1) == 10.0 && Power10(2) == 100.0 && Power10(3) == 1000.0
  {
    assert Power10(1) == 10.0 * Power10(0) && Power10(2) == 10.0 * Power10(1) && Power10(3) == 10.0 * Power10(2);
  }

  predicate AllDigits(s: seq<int>) {
    forall i :: 0 <= i < |s| ==> IsDigitCode(s[i])
  }

  /** Writing digits behind digits: the first shift left by as many places as there are of the second. */
  lemma {:induction false} DigitsConcat(a: seq<int>, b: seq<int>)
    ensures DigitsValue(a + b) as real == DigitsValue(a) as real * Power10(|b|) + DigitsValue(b) as real
    decreases |b|
  {
    hide DigitsValue, Power10;
    if b == [] {
      assert a + b == a;
      NoDigits();
      PowersOfTen();
    } else {
      var front, last := b[..|b| - 1], b[|b| - 1];
      assert (a + b)[..|a + b| - 1] == a + front && (a + b)[|a + b| - 1] == last;
      DigitsConcat(a, front);
      LastDigit(a + b);
      LastDigit(b);
      NextPower(|b|);
      Shifted(DigitsValue(a) as real, Power10(|b| - 1), DigitsValue(front) as real, DigitOf(last) as real);
    }
  }

  function DigitOf(c: int): nat {
    if IsDigitCode(c) then c - 0x30 else 0
  }

  lemma LastDigit(s: seq<int>)
    requires s != []
    ensures DigitsValue(s) == 10 * DigitsValue(s[..|s| - 1]) + DigitOf(s[|s| - 1])
  {
  }

  lemma NoDigits()
    ensures DigitsValue([]) == 0
  {
  }

  lemma NextPower(n: nat)
    requires n > 0
    ensures Power10(n) == 10.0 * Power10(n - 1)
  {
  }

  lemma Shifted(a: real, p: real, f: real, d: real)
    ensures 10.0 * (a * p + f) + d == a * (10.0 * p) + (10.0 * f + d)
  {
  }

  /** A run of n digits denotes a number below 10^n. */
  lemma {:induction false} DigitsBelow(s: seq<int>)
    ensures DigitsValue(s) as real < Power10(|s|)
    decreases |s|
  {
    hide DigitsValue, Power10;
    if s == [] {
      NoDigits();
      PowersOfTen();
    } else {
      DigitsBelow(s[..|s| - 1]);
      LastDigit(s);
      NextPower(|s|);
      WholeBelow(DigitsValue(s[..|s| - 1]), |s| - 1);
    }
  }

  /** A whole number below 10^n is at most 10^n - 1. */
  lemma WholeBelow(x: nat, n: nat)
    requires x as real < Power10(n)
    ensures x as real + 1.0 <= Power10(n)
  {
    hide Power10;
    var k := WholePower(n);
    assert x < k;
  }

  lemma {:induction false} WholePower(n: nat) returns (k: nat)
    ensures k as real == Power10(n)
    decreases n
  {
    if n == 0 {
      k := 1;
    } else {
      var j := WholePower(n - 1);
      k := 10 * j;
    }
  }

  /** x moved left by a power of ten, plus y. */
  function Lifted(x: real, power: real, y: real): real {
    x * power + y
  }

  lemma DigitsLifted(a: seq<int>, b: seq<int>, n: nat)
    requires n == |b|
    ensures DigitsValue(a + b) as real == Lifted(DigitsValue(a) as real, Power10(n), DigitsValue(b) as real)
  {
    DigitsConcat(a, b);
  }
}
