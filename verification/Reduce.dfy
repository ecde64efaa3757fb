/** The two scalar reductions of mlkem/reduce.c. */
module Reduce {
  import opened Modular

  const QINV: int := -3327

  /** `montgomery_reduce`. The right shift is arithmetic, i.e. floor division. */
  function MontgomeryReduce(a: int): (r: int16)
    requires -Q * 0x8000 <= a < Q * 0x8000
    ensures Cong(0x1_0000 * r, a)
    ensures -Q < r < Q
    ensures -Q * 0x8000 <= 0x1_0000 * r - a <= Q * 0x8000
  {
    var t := I16(I16(a) * QINV);
    assert (a - t * Q) % 0x1_0000 == 0 by { MontgomeryExact(a, t); }
    I16((a - t * Q) / 0x1_0000)
  }

  /** QINV is the inverse of Q modulo 2^16, so the subtraction clears the low half. */
  lemma MontgomeryExact(a: int, t: int)
    requires t == I16(I16(a) * QINV)
    ensures (a - t * Q) % 0x1_0000 == 0
  {
    var l: int := I16(a);
    var h := Wrapped(a);
    var g := Wrapped(l * -3327);
    hide I16;
    assert a - t * 3329 == 0x1_0000 * (h + 169 * l + 3329 * g);
    Divides(a - t * 3329, h + 169 * l + 3329 * g);
  }

  /** What wrapping takes away. */
  lemma Wrapped(x: int) returns (h: int)
    ensures x == 0x1_0000 * h + I16(x)
  {
    h := (x + 0x8000) / 0x1_0000;
  }

  lemma Divides(x: int, y: int)
    requires x == 0x1_0000 * y
    ensures x % 0x1_0000 == 0
  {
  }

  /** `barrett_reduce`. The product `t * Q` may leave the int16 range; the code stores it wrapped. */
  function BarrettReduce(a: int16): (r: int16)
    ensures r == Centred(a)
  {
    var t := I16((20159 * a + 0x200_0000) / 0x400_0000);
    BarrettQuotient(a, t);
    I16(a - I16(t * Q))
  }

  /** The multiplier 20159 = round(2^26 / Q) is close enough for every int16; only `t * Q` needs the wrap. */
  lemma BarrettQuotient(a: int16, t: int)
    requires t == I16((20159 * a + 0x200_0000) / 0x400_0000)
    ensures -1664 <= a - t * Q <= 1664
    ensures I16(a - I16(t * Q)) == a - t * Q == Centred(a)
  {
    var q := (20159 * a + 0x200_0000) / 0x400_0000;
    assert 0x400_0000 * q <= 20159 * a + 0x200_0000 < 0x400_0000 * (q + 1);
    assert t == q;
    CongBy(a - t * Q, a, -t);
    CentredUnique(a - t * Q, a);
    I16Sub(a, t * Q);
  }

  /** Wrapping an intermediate result is harmless when the final one fits. */
  lemma I16Sub(a: int, b: int)
    requires -0x8000 <= a - b < 0x8000
    ensures I16(a - I16(b)) == a - b
  {
  }

  /** `fqmul`: every product of a reduced factor and an int16 is in Montgomery's range. */
  function FqMul(a: int16, b: int16): (r: int16)
    requires -Q * 0x8000 <= a * b < Q * 0x8000
    ensures Cong(0x1_0000 * r, a * b)
    ensures -Q < r < Q
    ensures -Q * 0x8000 <= 0x1_0000 * r - a * b <= Q * 0x8000
  {
    MontgomeryReduce(a * b)
  }
}
