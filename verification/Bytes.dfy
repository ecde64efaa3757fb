/** Bytes, and the integer operations the packing code applies to them. */
module Bytes {
  import opened Zetas  // Pow2

  type byte = bv8

  // ----- positional notation, least significant digit first

  lemma DivModStep(n: nat, base: nat)
    requires base > 0
    ensures (n + base) % base == n % base && (n + base) / base == n / base + 1
  {
    var q, r, u, t := n / base, n % base, (n + base) / base, (n + base) % base;
    assert n == base * q + r && n + base == base * u + t;
    if u > q + 1 {
      MulLess(base, q + 1, u);
    } else if u < q + 1 {
      MulLess(base, u, q + 1);
    }
  }

  lemma ModShift(y: int, x: nat, w: nat, q: int)
    requires x < w && y == x - w * q
    ensures y % w == x
  {
    NegativeMultiple(w, q);
    Remainder(y, x, w, -q);
  }

  lemma Remainder(y: int, x: nat, w: nat, q: int)
    requires x < w && y == w * q + x
    ensures y % w == x
  {
    var a, b := y / w, y % w;
    assert y == w * a + b;
    SameRemainder(w, a, b, q, x);
  }

  lemma NegativeMultiple(w: nat, q: int)
    ensures w * -q == -(w * q)
  {
  }

  lemma SameRemainder(w: nat, a: int, b: nat, c: int, d: nat)
    requires b < w && d < w && w * a + b == w * c + d
    ensures b == d
  {
    if a < c {
      Spaced(w, a, c);
    } else if a > c {
      Spaced(w, c, a);
    }
  }

  lemma Spaced(w: nat, a: int, c: int)
    requires a < c
    ensures w * a + w <= w * c
  {
    assert w * c == w * a + w + w * (c - a - 1);
  }

  function Power(b: nat, e: nat): (p: nat)
    ensures b > 0 ==> p > 0
  {
    if e == 0 then 1 else b * Power(b, e - 1)
  }

  function Value(s: seq<nat>, base: nat): nat {
    if |s| == 0 then 0 else s[0] + base * Value(s[1..], base)
  }

  function Digits(v: nat, base: nat, len: nat): (s: seq<nat>)
    requires base > 0
    ensures |s| == len
    decreases len
  {
    if len == 0 then [] else [v % base] + Digits(v / base, base, len - 1)
  }

  ghost predicate Below(s: seq<nat>, base: nat) {
    forall i :: 0 <= i < |s| ==> s[i] < base
  }

  lemma DivModUnique(d: nat, base: nat, q: nat)
    requires d < base
    ensures (d + base * q) % base == d && (d + base * q) / base == q
    decreases q
  {
    if q > 0 {
      DivModUnique(d, base, q - 1);
      assert base * q == base * (q - 1) + base;
      DivModStep(d + base * (q - 1), base);
    }
  }

  lemma MulLess(base: nat, v: nat, p: nat)
    requires v < p
    ensures base * v + base <= base * p
  {
    assert base * (v + 1) <= base * p;
  }

  lemma MulAtLeast(base: nat, v: nat, p: nat)
    requires v >= p
    ensures base * v >= base * p
  {
  }

  lemma DivLess(v: nat, base: nat, p: nat)
    requires base > 0 && v < base * p
    ensures v / base < p && v == base * (v / base) + v % base
  {
    if v / base >= p {
      assert base * (v / base) >= base * p by { MulAtLeast(base, v / base, p); }
    }
  }

  /** A number below base^len is determined by its digits, and the digits by the number. */
  lemma {:induction false} DigitsOfValue(s: seq<nat>, base: nat)
    requires Below(s, base) && base > 0
    ensures Digits(Value(s, base), base, |s|) == s
    ensures Value(s, base) < Power(base, |s|)
    decreases |s|
  {
    if |s| > 0 {
      assert forall i :: 0 <= i < |s[1..]| ==> s[1..][i] == s[i + 1];
      DigitsOfValue(s[1..], base);
      var v := Value(s[1..], base);
      DivModUnique(s[0], base, v);
      MulLess(base, v, Power(base, |s| - 1));
    }
  }

  lemma {:induction false} ValueOfDigits(v: nat, base: nat, len: nat)
    requires base > 0 && v < Power(base, len)
    ensures Value(Digits(v, base, len), base) == v
    ensures Below(Digits(v, base, len), base)
    decreases len
  {
    if len > 0 {
      DivLess(v, base, Power(base, len - 1));
      ValueOfDigits(v / base, base, len - 1);
      var d := Digits(v, base, len);
      assert d[1..] == Digits(v / base, base, len - 1);
    }
  }

  // ----- bytes and numbers

  function BitsOf(b: byte): (s: seq<nat>)
    ensures |s| == 8
  {
    [if b & 1 != 0 then 1 else 0, if b & 2 != 0 then 1 else 0, if b & 4 != 0 then 1 else 0, if b & 8 != 0 then 1 else 0,
     if b & 16 != 0 then 1 else 0, if b & 32 != 0 then 1 else 0, if b & 64 != 0 then 1 else 0, if b & 128 != 0 then 1
     else 0]
  }

  function Masked(bit: nat, mask: byte): byte {
    if bit == 1 then mask else 0
  }

  function ByteOfBits(s: seq<nat>): byte
    requires |s| == 8
  {
    Masked(s[0], 1) | Masked(s[1], 2) | Masked(s[2], 4) | Masked(s[3], 8)
    | Masked(s[4], 16) | Masked(s[5], 32) | Masked(s[6], 64) | Masked(s[7], 128)
  }

  lemma ByteOfItsBits(b: byte)
    ensures ByteOfBits(BitsOf(b)) == b && Below(BitsOf(b), 2)
  {
  }

  lemma BitsOfByte(s: seq<nat>)
    requires |s| == 8 && Below(s, 2)
    ensures BitsOf(ByteOfBits(s)) == s
  {
    hide Masked;
    MaskedBits(s[0], s[1], s[2], s[3], s[4], s[5], s[6], s[7]);
    assert s[0] < 2 && s[1] < 2 && s[2] < 2 && s[3] < 2 && s[4] < 2 && s[5] < 2 && s[6] < 2 && s[7] < 2;
    hide Below;
  }

  lemma MaskedBits(x0: nat, x1: nat, x2: nat, x3: nat, x4: nat, x5: nat, x6: nat, x7: nat)
    ensures var b := Masked(x0, 1) | Masked(x1, 2) | Masked(x2, 4) | Masked(x3, 8)
                     | Masked(x4, 16) | Masked(x5, 32) | Masked(x6, 64) | Masked(x7, 128);
            (b & 1 != 0 <==> x0 == 1) && (b & 2 != 0 <==> x1 == 1) &&
            (b & 4 != 0 <==> x2 == 1) && (b & 8 != 0 <==> x3 == 1) &&
            (b & 16 != 0 <==> x4 == 1) && (b & 32 != 0 <==> x5 == 1) &&
            (b & 64 != 0 <==> x6 == 1) && (b & 128 != 0 <==> x7 == 1)
  {
  }

  /** The value of a `uint8_t`. */
  function Value8(b: byte): (n: nat)
    ensures n < 256
  {
    Value8Range(b);
    Value(BitsOf(b), 2)
  }

  lemma Value8Range(b: byte)
    ensures Value(BitsOf(b), 2) < 256
  {
    hide BitsOf, Value;
    ByteOfItsBits(b);
    DigitsOfValue(BitsOf(b), 2);
    assert Power(2, 8) == 256;
  }

  /** Conversion to `uint8_t`. */
  function Byte(n: nat): byte {
    ByteOfBits(Digits(n % 256, 2, 8))
  }

  lemma ByteOfValue(b: byte)
    ensures Byte(Value8(b)) == b
  {
    hide BitsOf, ByteOfBits, Value, Digits;
    ByteOfItsBits(b);
    DigitsOfValue(BitsOf(b), 2);
  }

  lemma ValueOfByte(n: nat)
    ensures Value8(Byte(n)) == n % 256
  {
    hide BitsOf, ByteOfBits, Value, Digits;
    assert Power(2, 8) == 256;
    ValueOfDigits(n % 256, 2, 8);
    BitsOfByte(Digits(n % 256, 2, 8));
  }

  // ----- bitwise or

  /** Bitwise or of unsigned integers. */
  function Or(a: nat, b: nat): nat
    decreases a + b
  {
    if a == 0 then b
    else if b == 0 then a
    else 2 * Or(a / 2, b / 2) + (if a % 2 == 1 || b % 2 == 1 then 1 else 0)
  }

  /** Fields that do not overlap can be added. */
  lemma {:induction false} OrDisjoint(a: nat, b: nat, n: nat)
    requires a < Pow2(n) && b % Pow2(n) == 0
    ensures Or(a, b) == a + b
    decreases n
  {
    if a > 0 && b > 0 {
      EvenMultiple(b, n);
      OrDisjoint(a / 2, b / 2, n - 1);
    }
  }

  lemma EvenMultiple(b: nat, n: nat)
    requires n > 0 && b % Pow2(n) == 0
    ensures b % 2 == 0 && b / 2 % Pow2(n - 1) == 0
  {
    var p := Pow2(n - 1);
    var q := b / (2 * p);
    assert b == 2 * (p * q);
    MultipleMod(q, p);
  }

  lemma MultipleMod(q: nat, p: nat)
    requires p > 0
    ensures (p * q) % p == 0
    decreases q
  {
    if q > 0 {
      MultipleMod(q - 1, p);
      var m := p * (q - 1);
      DivModStep(m, p);
      assert p * q == m + p;
    }
  }
}
