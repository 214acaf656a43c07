/** Numbers as digit strings of a fixed width, in a base of up to sixteen. */
module Digits {
  import opened Options

  type Base = b: nat | 2 <= b <= 16 witness 10

  function DigitChar(d: nat): char
    requires d < 16
  {
    if d < 10 then '0' + d as char else 'a' + (d - 10) as char
  }

  /** The value of a digit, in either case; at least 16 for any other character. */
  function DigitValue(c: char): nat {
    if '0' <= c <= '9' then (c - '0') as nat
    else if 'a' <= c <= 'f' then (c - 'a') as nat + 10
    else if 'A' <= c <= 'F' then (c - 'A') as nat + 10
    else 16
  }

  function Power(base: Base, width: nat): (p: nat)
    ensures p >= 1
  {
    if width == 0 then 1 else base * Power(base, width - 1)
  }

  /** The last `width` digits of a number. */
  function Fixed(n: nat, base: Base, width: nat): (s: string)
    ensures |s| == width
  {
    if width == 0 then "" else Fixed(n / base, base, width - 1) + [DigitChar(n % base)]
  }

  /** The number a digit string stands for. */
  function Value(s: string, base: Base): Option<nat> {
    if s == "" then Some(0)
    else
      var before, d := Value(s[..|s| - 1], base), DigitValue(s[|s| - 1]);
      if before.Some? && d < base then Some(before.value * base + d) else None
  }

  predicate IsDigit(c: char) { DigitValue(c) < 16 }

  lemma Rejoin(n: nat, base: Base, quotient: nat, d: nat)
    requires quotient == n / base && d == n % base
    ensures quotient * base + d == n
  {
  }

  /** A number without its last digit, and that digit. */
  lemma Divide(n: nat, base: Base) returns (quotient: nat, d: nat)
    ensures quotient == n / base && d == n % base
  {
    quotient, d := n / base, n % base;
  }

  lemma QuotientBelow(n: nat, base: Base, p: nat, quotient: nat)
    requires n < base * p && quotient == n / base
    ensures quotient < p
  {
    Rejoin(n, base, quotient, n % base);
  }

  lemma {:induction false} FixedIsDigits(n: nat, base: Base, width: nat)
    ensures forall i :: 0 <= i < width ==> IsDigit(Fixed(n, base, width)[i])
    ensures base <= 10 ==> forall i :: 0 <= i < width ==> '0' <= Fixed(n, base, width)[i] <= '9'
  {
    if width > 0 {
      FixedIsDigits(n / base, base, width - 1);
    }
  }

  /** One digit more, by the value of the digits before it. */
  lemma ValueSnoc(s: string, quotient: nat, d: nat, base: Base)
    requires d < base && Value(s, base) == Some(quotient)
    ensures Value(s + [DigitChar(d)], base) == Some(quotient * base + d)
  {
    var more := s + [DigitChar(d)];
    assert more[..|more| - 1] == s;
    assert DigitValue(DigitChar(d)) == d;
  }

  /** How many digits a number has without leading zeros. */
  function DigitCount(n: nat, base: Base): nat { if n < base then 1 else 1 + DigitCount(n / base, base) }

  lemma {:induction false} CountBound(n: nat, base: Base, k: nat)
    requires k >= 1 && n < Power(base, k)
    ensures DigitCount(n, base) <= k
    decreases k
  {
    if n >= base {
      assert Power(base, 0) == 1;
      QuotientBelow(n, base, Power(base, k - 1), n / base);
      CountBound(n / base, base, k - 1);
    }
  }

  /** No digits are left over after `width` of them. */
  predicate Fits(n: nat, base: Base, width: nat)
    decreases width
  {
    if width == 0 then n == 0 else Fits(n / base, base, width - 1)
  }

  lemma {:induction false} BelowPowerFits(n: nat, base: Base, width: nat)
    requires n < Power(base, width)
    ensures Fits(n, base, width)
    decreases width
  {
    if width > 0 {
      var quotient, _ := Divide(n, base);
      QuotientBelow(n, base, Power(base, width - 1), quotient);
      BelowPowerFits(quotient, base, width - 1);
    }
  }

  lemma ReadsOneMore(s: string, n: nat, base: Base, quotient: nat, d: nat)
    requires quotient == n / base && d == n % base && Value(s, base) == Some(quotient)
    ensures Value(s + [DigitChar(d)], base) == Some(n)
  {
    ValueSnoc(s, quotient, d, base);
    Rejoin(n, base, quotient, d);
  }

  lemma {:induction false} FittingReads(n: nat, base: Base, width: nat)
    requires Fits(n, base, width)
    ensures Value(Fixed(n, base, width), base) == Some(n)
    decreases width
  {
    if width > 0 {
      var quotient, d := Divide(n, base);
      FittingReads(quotient, base, width - 1);
      ReadsOneMore(Fixed(quotient, base, width - 1), n, base, quotient, d);
    }
  }

  /** A number that fits the width is read back. */
  lemma FixedReads(n: nat, base: Base, width: nat)
    requires n < Power(base, width)
    ensures Value(Fixed(n, base, width), base) == Some(n)
  {
    BelowPowerFits(n, base, width);
    FittingReads(n, base, width);
  }
}
