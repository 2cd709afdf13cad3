/** Decimal text of array indices and blob numbers. */
module Decimal {
  import opened Wrappers
  import opened Bytes

  function Dec(n: nat): (t: bytes)
    ensures t != []
  {
    if n < 10 then [48 + n] else Dec(n / 10) + [48 + n % 10]
  }

  /** Decimal digit `i` of a number, from the end. */
  function Digit(n: nat, i: nat): nat {
    if i == 0 then n % 10 else Digit(n / 10, i - 1)
  }

  /** The text has the digits of the number, from the last one backwards, and no leading zero. */
  lemma {:induction false} DecDigits(n: nat)
    ensures forall i: nat :: i < |Dec(n)| ==> Digit(n, i) < 10
    ensures forall i: nat :: i < |Dec(n)| ==> Dec(n)[|Dec(n)| - 1 - i] == Ascii("0123456789")[Digit(n, i)]
    ensures |Dec(n)| > 1 ==> Dec(n)[0] != '0' as int
    ensures n >= 10 <==> |Dec(n)| > 1
    decreases n
  {
    if n >= 10 {
      DecDigits(n / 10);
      var t, init := Dec(n), Dec(n / 10);
      assert t[..|t| - 1] == init;
      forall i: nat | i < |t|
        ensures Digit(n, i) < 10 && t[|t| - 1 - i] == Ascii("0123456789")[Digit(n, i)]
      {
        if i > 0 { assert t[|t| - 1 - i] == init[|init| - 1 - (i - 1)]; }
      }
    }
  }

  predicate IsDigit(c: byte) {
    48 <= c <= 57
  }

  function DigitValue(c: byte): nat
    requires IsDigit(c)
  {
    var value: int := c; value - 48
  }

  predicate IsCanonical(t: bytes) {
    t != [] && (forall c <- t :: IsDigit(c)) && (t[0] == 48 ==> |t| == 1)
  }

  function Number(t: bytes): nat
    requires forall c <- t :: IsDigit(c)
  {
    if t == [] then 0 else Number(t[..|t| - 1]) * 10 + DigitValue(t[|t| - 1])
  }

  /** An array index in a JSON pointer: digits only, no leading zero (section 4 of RFC 6901). */
  function ParseIndex(t: bytes): Option<nat> {
    if IsCanonical(t) then Some(Number(t)) else None
  }

  lemma {:induction false} DecCanonical(n: nat)
    ensures var t := Dec(n); IsCanonical(t) && Number(t) == n && (t[0] == 48 ==> n == 0)
  {
    var t := Dec(n);
    if n >= 10 {
      DecCanonical(n / 10);
      assert t[..|t| - 1] == Dec(n / 10);
    }
  }

  lemma DecStep(n: nat, d: nat)
    requires d < 10 && n > 0
    ensures Dec(n * 10 + d) == Dec(n) + [48 + d]
  {
    TenTimes(n, d);
  }

  lemma OneDigit(c: byte)
    requires IsDigit(c)
    ensures Number([c]) == DigitValue(c) && Dec(DigitValue(c)) == [c]
  {
    assert [c][..0] == [];
  }

  lemma {:induction false} DecOfNumber(t: bytes)
    requires IsCanonical(t)
    ensures Dec(Number(t)) == t && (t[0] != 48 ==> Number(t) > 0)
    decreases |t|
  {
    var init, digit := t[..|t| - 1], t[|t| - 1];
    assert t == init + [digit];
    if init == [] {
      OneDigit(digit);
    } else {
      InitIsCanonical(t, init);
      DecOfNumber(init);
      DecStep(Number(init), DigitValue(digit));
    }
  }

  lemma InitIsCanonical(t: bytes, init: bytes)
    requires IsCanonical(t) && init != [] && init == t[..|t| - 1]
    ensures IsCanonical(init) && init[0] == t[0] != 48
  {
  }

  lemma TenTimes(n: nat, d: nat)
    requires d < 10
    ensures (n * 10 + d) / 10 == n && (n * 10 + d) % 10 == d
  {
  }

  /** An index is accepted exactly when it is the decimal text of the number it stands for. */
  lemma IndexTextIsExact(t: bytes, n: nat)
    ensures ParseIndex(t) == Some(n) <==> t == Dec(n)
  {
    DecCanonical(n);
    if IsCanonical(t) { DecOfNumber(t); }
  }
}
