/** The numbers that floating-point bit patterns stand for, section 3.4 of IEEE 754. */
module Floats {
  import opened Wire
  import opened Schemas
  import opened Messages

  datatype Number = NaN | Infinite(negative: bool) | Finite(value: real)

  function PowerOfTwo(k: int): (r: real)
    ensures r > 0.0
    decreases if k < 0 then -k else k
  {
    if k == 0 then 1.0 else if k > 0 then 2.0 * PowerOfTwo(k - 1) else PowerOfTwo(k + 1) / 2.0
  }

  /** The sign, the biased exponent and the fraction, each a group of bits; `exponents` and `fractions`
      say how many values the two groups have, `width` is the number of bits of the fraction. */
  function Decoded(bits: nat, exponents: nat, fractions: nat, width: nat): Number
    requires exponents > 1 && fractions > 0
  {
    var fraction := bits % fractions;
    var exponent := bits / fractions % exponents;
    var negative := bits / fractions / exponents % 2 == 1;
    if exponent == exponents - 1 then
      if fraction == 0 then Infinite(negative) else NaN
    else
      var bias := exponents / 2 - 1;
      var magnitude :=
        if exponent == 0 then fraction as real * PowerOfTwo(1 - bias - width)
        else (fractions + fraction) as real * PowerOfTwo(exponent - bias - width);
      Finite(if negative then -magnitude else magnitude)
  }

  /** binary32 and binary64. */
  function NumberOf(k: Kind, bits: nat): Number
    requires k.Float? || k.Double?
  {
    if k.Float? then Decoded(bits, 0x100, 0x80_0000, 23) else Decoded(bits, 0x800, 0x10_0000_0000_0000, 52)
  }

  lemma {:induction false} ZeroBits(bits: nat, exponents: nat, fractions: nat, width: nat)
    requires exponents > 1 && fractions > 0
    ensures Decoded(bits, exponents, fractions, width) == Finite(0.0)
       <==> bits % fractions == 0 && bits / fractions % exponents == 0
  {
    hide PowerOfTwo;
    var fraction, exponent := bits % fractions, bits / fractions % exponents;
    var bias := exponents / 2 - 1;
    Product(fraction, PowerOfTwo(1 - bias - width));
    Product(fractions + fraction, PowerOfTwo(exponent - bias - width));
  }

  lemma {:induction false} Product(n: nat, scale: real)
    requires scale > 0.0
    ensures n as real * scale == 0.0 <==> n == 0
  {
    if n > 0 { assert n as real * scale > 0.0; }
  }

  /** The zero test of floating-point fields is the comparison of the number with zero. */
  lemma ZeroTestIsComparison(k: Kind, bits: nat)
    requires (k.Float? || k.Double?) && InRange(k, bits)
    ensures IsZero(k, Num(bits)) <==> NumberOf(k, bits) == Finite(0.0)
  {
    hide Decoded;
    if k.Float? {
      ZeroBits(bits, 0x100, 0x80_0000, 23);
      TopBit32(bits);
    } else {
      ZeroBits(bits, 0x800, 0x10_0000_0000_0000, 52);
      TopBit64(bits);
    }
  }

  /** All bits below the sign are zero in two patterns only. */
  lemma {:induction false} TopBit32(bits: nat)
    requires bits < TWO_TO_32
    ensures bits % 0x80_0000 == 0 && bits / 0x80_0000 % 0x100 == 0 <==> bits == 0 || bits == TWO_TO_31
  {
  }

  lemma {:induction false} TopBit64(bits: nat)
    requires bits < TWO_TO_64
    ensures bits % 0x10_0000_0000_0000 == 0 && bits / 0x10_0000_0000_0000 % 0x800 == 0
       <==> bits == 0 || bits == TWO_TO_63
  {
  }
}
