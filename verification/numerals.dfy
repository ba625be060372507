/** Decimal numerals as the block-string decoder reads and writes them: the
    digit strings Python's int() accepts for the integer keys, the
    digits[.digits] strings float() accepts for the ratio keys, kept as exact
    decimals, and their printed forms. */
module Numerals {
  import opened Base

  predicate IsDigit(c: char) { '0' <= c <= '9' }

  predicate AllDigits(s: string) { forall i :: 0 <= i < |s| ==> IsDigit(s[i]) }

  function DigitValue(c: char): (d: nat)
    requires IsDigit(c)
    ensures d < 10
  {
    c as int - '0' as int
  }

  function DigitChar(d: nat): (c: char)
    requires d < 10
    ensures IsDigit(c) && DigitValue(c) == d
  {
    ('0' as int + d) as char
  }

  function Pow10(n: nat): (p: nat)
    ensures p >= 1
  {
    if n == 0 then 1 else 10 * Pow10(n - 1)
  }

  /** The number a digit string denotes (leading zeros allowed, as int() allows them). */
  function NatValue(s: string): nat
    requires AllDigits(s)
  {
    if s == [] then 0 else NatValue(s[..|s| - 1]) * 10 + DigitValue(s[|s| - 1])
  }

  /** Python's str() of a non-negative int. */
  function NatToString(n: nat): (s: string)
    ensures |s| >= 1 && AllDigits(s)
  {
    if n < 10 then [DigitChar(n)] else NatToString(n / 10) + [DigitChar(n % 10)]
  }

  lemma {:induction false} NatToStringRoundTrip(n: nat)
    ensures NatValue(NatToString(n)) == n
  {
    if n >= 10 {
      NatToStringRoundTrip(n / 10);
      var s := NatToString(n);
      assert s[..|s| - 1] == NatToString(n / 10);
    }
  }

  lemma {:induction false} NatToStringLength(n: nat, k: nat)
    requires k >= 1 && n < Pow10(k)
    ensures |NatToString(n)| <= k
  {
    if n >= 10 {
      assert k >= 2;
      NatToStringLength(n / 10, k - 1);
    }
  }

  lemma {:induction false} NatValueAppend(a: string, b: string)
    requires AllDigits(a) && AllDigits(b)
    ensures AllDigits(a + b)
    ensures NatValue(a + b) == NatValue(a) * Pow10(|b|) + NatValue(b)
    decreases |b|
  {
    if b != [] {
      var b' := b[..|b| - 1];
      assert (a + b)[..|a + b| - 1] == a + b';
      NatValueAppend(a, b');
      var d := DigitValue(b[|b| - 1]);
      assert NatValue(a + b) == NatValue(a + b') * 10 + d;
      assert NatValue(b) == NatValue(b') * 10 + d;
      assert Pow10(|b|) == 10 * Pow10(|b'|);
      ShiftDigit(NatValue(a), Pow10(|b'|), NatValue(b'), d);
    } else {
      assert a + b == a;
    }
  }

  /** Appending one digit multiplies by ten what precedes it. */
  lemma ShiftDigit(x: int, p: int, y: int, d: int)
    ensures (x * p + y) * 10 + d == x * (10 * p) + (y * 10 + d)
  {
  }

  function Zeros(n: nat): (s: string)
    ensures |s| == n && AllDigits(s) && NatValue(s) == 0
  {
    if n == 0 then [] else Zeros(n - 1) + ['0']
  }

  /** s preceded by enough zeros to make it at least n long. */
  function PadLeft(s: string, n: nat): (r: string)
    requires AllDigits(s)
    ensures |r| >= n && |r| >= |s|
    ensures |s| <= n ==> |r| == n
    ensures AllDigits(r) && NatValue(r) == NatValue(s)
  {
    if |s| >= n then s
    else
      var r := Zeros(n - |s|) + s;
      NatValueAppend(Zeros(n - |s|), s);
      r
  }

  /** Python's int() on the value text of an integer key. */
  function ParseInt(text: string): (r: Option<nat>)
    ensures r.Some? <==> |text| >= 1 && AllDigits(text)
  {
    if |text| >= 1 && AllDigits(text) then Some(NatValue(text)) else None
  }

  lemma ParseIntOfString(n: nat)
    ensures ParseInt(NatToString(n)) == Some(n)
  {
    NatToStringRoundTrip(n);
  }

  /** An exact decimal: mantissa / 10^scale. */
  datatype Decimal = Decimal(mantissa: nat, scale: nat) {
    function ToRat(): (q: Rat)
      ensures q.Valid() && q.num == mantissa
    {
      Rat(mantissa, Pow10(scale))
    }
  }

  /** Index of the first occurrence of c in s. */
  function Find(s: string, c: char): (r: Option<nat>)
    ensures r.Some? ==> r.value < |s| && s[r.value] == c && c !in s[..r.value]
    ensures r.None? ==> c !in s
  {
    if s == [] then None
    else if s[0] == c then Some(0)
    else
      var t := Find(s[1..], c);
      if t.Some? then Some(t.value + 1) else None
  }

  /** Python's float() on the value text of a ratio key, for the forms
      digits and digits.digits (at least one digit in all). */
  function ParseDecimal(text: string): (r: Option<Decimal>)
    ensures '.' !in text ==> (r.Some? <==> |text| >= 1 && AllDigits(text))
    ensures '.' !in text && r.Some? ==> r.value == Decimal(NatValue(text), 0)
    ensures r.Some? ==> r.value.scale < |text|
  {
    match Find(text, '.')
    case None =>
      if |text| >= 1 && AllDigits(text) then Some(Decimal(NatValue(text), 0)) else None
    case Some(i) =>
      var whole, frac := text[..i], text[i + 1..];
      if |whole| + |frac| >= 1 && AllDigits(whole) && AllDigits(frac) then
        NatValueAppend(whole, frac);
        Some(Decimal(NatValue(whole + frac), |frac|))
      else None
  }

  /** Quotient and remainder of m by a positive divisor. */
  function Quot(m: nat, p: nat): nat
    requires p >= 1
  {
    m / p
  }

  function Rem(m: nat, p: nat): (r: nat)
    requires p >= 1
    ensures r < p
  {
    m % p
  }

  lemma QuotRem(m: nat, p: nat)
    requires p >= 1
    ensures m == Quot(m, p) * p + Rem(m, p)
  {
  }

  /** Printed form of a decimal: its integer part and, when the scale is
      positive, a point and exactly scale fraction digits. */
  function DecimalToString(d: Decimal): (s: string)
    ensures |s| >= 1 && IsDigit(s[0])
  {
    if d.scale == 0 then NatToString(d.mantissa)
    else
      var p := Pow10(d.scale);
      var whole := NatToString(Quot(d.mantissa, p));
      var frac := PadLeft(NatToString(Rem(d.mantissa, p)), d.scale);
      assert (whole + "." + frac)[0] == whole[0];
      whole + "." + frac
  }

  lemma NoPointInDigits(s: string)
    requires AllDigits(s)
    ensures '.' !in s
  {
    forall i | 0 <= i < |s| ensures s[i] != '.' {
      assert IsDigit(s[i]);
    }
  }

  lemma {:induction false} FindAfterDigits(whole: string, rest: string)
    requires '.' !in whole
    ensures Find(whole + "." + rest, '.') == Some(|whole|)
  {
    if whole != [] {
      assert (whole + "." + rest)[1..] == whole[1..] + "." + rest;
      FindAfterDigits(whole[1..], rest);
    }
  }

  /** Reading "whole.frac" gives the decimal whose digits are those of whole then frac. */
  lemma ParsePointed(whole: string, frac: string)
    requires |whole| >= 1 && AllDigits(whole) && AllDigits(frac)
    ensures AllDigits(whole + frac)
    ensures ParseDecimal(whole + "." + frac) == Some(Decimal(NatValue(whole + frac), |frac|))
  {
    var s := whole + "." + frac;
    NoPointInDigits(whole);
    FindAfterDigits(whole, frac);
    assert s[..|whole|] == whole && s[|whole| + 1..] == frac;
    NatValueAppend(whole, frac);
  }

  lemma DecimalRoundTrip(d: Decimal)
    ensures ParseDecimal(DecimalToString(d)) == Some(d)
  {
    var s := DecimalToString(d);
    if d.scale == 0 {
      NoPointInDigits(s);
      NatToStringRoundTrip(d.mantissa);
    } else {
      var p := Pow10(d.scale);
      var q, m := Quot(d.mantissa, p), Rem(d.mantissa, p);
      QuotRem(d.mantissa, p);
      var whole, frac := NatToString(q), NatToString(m);
      NatToStringLength(m, d.scale);
      var padded := PadLeft(frac, d.scale);
      assert s == whole + "." + padded;
      ParsePointed(whole, padded);
      NatValueAppend(whole, padded);
      NatToStringRoundTrip(q);
      NatToStringRoundTrip(m);
    }
  }
}
