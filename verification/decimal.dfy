/** Decimal numerals as Rust's `Display` writes unsigned integers (no sign, no
    leading zeros), and the parser that reads exactly those numerals back. */
module Decimal {
  import opened Wrappers

  predicate IsDigit(c: char) {
    '0' <= c <= '9'
  }

  predicate AllDigits(s: string) {
    forall i :: 0 <= i < |s| ==> IsDigit(s[i])
  }

  /** A numeral `NatToString` can produce: non-empty, digits only, and a
      leading `0` only in the numeral `0` itself. */
  predicate IsCanonical(s: string) {
    |s| >= 1 && AllDigits(s) && (s[0] == '0' ==> |s| == 1)
  }

  function DigitValue(c: char): (d: nat)
    requires IsDigit(c)
    ensures d < 10
  {
    c as int - '0' as int
  }

  function DigitChar(d: nat): (c: char)
    requires d < 10
    ensures IsDigit(c) && DigitValue(c) == d
  {
    ('0' as int + d) as char
  }

  /** The number a string of digits denotes, most significant digit first. */
  function DigitsValue(s: string): nat
    requires AllDigits(s)
    decreases |s|
  {
    if |s| == 0 then 0 else DigitsValue(s[..|s| - 1]) * 10 + DigitValue(s[|s| - 1])
  }

  /** `n.to_string()`: the canonical numeral whose value is `n`. */
  function NatToString(n: nat): (s: string)
    ensures IsCanonical(s)
    ensures DigitsValue(s) == n
    ensures s[0] == '0' <==> n == 0
    decreases n
  {
    if n < 10 then [DigitChar(n)]
    else
      var front := NatToString(n / 10);
      var s := front + [DigitChar(n % 10)];
      assert s[..|s| - 1] == front;
      s
  }

  /** Every canonical numeral is the rendering of its own value. */
  lemma {:induction false} NatToStringOfValue(s: string)
    requires IsCanonical(s)
    ensures NatToString(DigitsValue(s)) == s
    decreases |s|
  {
    var last := DigitValue(s[|s| - 1]);
    if |s| == 1 {
      assert DigitChar(last) == s[0];
    } else {
      var front := s[..|s| - 1];
      assert front[0] == s[0];
      NatToStringOfValue(front);
      var v := DigitsValue(front);
      assert v != 0;
      var n := v * 10 + last;
      assert n / 10 == v && n % 10 == last;
      assert DigitChar(last) == s[|s| - 1];
      assert front + [s[|s| - 1]] == s;
    }
  }

  /** Rendering is one-to-one. */
  lemma NatToStringInjective(a: nat, b: nat)
    requires NatToString(a) == NatToString(b)
    ensures a == b
  {
  }

  /** Reads a canonical numeral; anything else (empty, a sign, a non-digit,
      a leading zero) is rejected. */
  function ParseNat(s: string): (r: Option<nat>)
    ensures r.Some? ==> NatToString(r.value) == s
    ensures r.None? ==> forall n: nat :: NatToString(n) != s
  {
    if IsCanonical(s) then
      NatToStringOfValue(s);
      Some(DigitsValue(s))
    else None
  }

  /** Parsing undoes rendering. */
  lemma ParseNatToString(n: nat)
    ensures ParseNat(NatToString(n)) == Some(n)
  {
    var r := ParseNat(NatToString(n));
    NatToStringInjective(r.value, n);
  }

  /** A numeral never contains a character other than a digit. */
  lemma NumeralHasNo(n: nat, c: char)
    requires !IsDigit(c)
    ensures c !in NatToString(n)
  {
  }
}
