/** Keccak-f[1600] on bit strings: section 3 of FIPS 202. */
module KeccakSpec {

  type Bits = seq<bool>

  /** Where bit (x, y, z) of the state array is in the state string (section 3.1.2). */
  function Index(x: nat, y: nat, z: nat): (k: nat)
    requires x < 5 && y < 5 && z < 64
    ensures k < 1600 && X(k) == x && Y(k) == y && Z(k) == z
  {
    64 * (5 * y + x) + z
  }

  function X(k: nat): (x: nat)
    ensures x < 5
  {
    k / 64 % 5
  }

  function Y(k: nat): (y: nat)
    ensures k < 1600 ==> y < 5
  {
    k / 320
  }

  function Z(k: nat): (z: nat)
    ensures z < 64
  {
    k % 64
  }

  function Xor(a: bool, b: bool): bool {
    a != b
  }

  // ----- the step mappings

  function Parity(s: Bits, x: nat, z: nat): bool
    requires |s| == 1600 && x < 5 && z < 64
  {
    Xor(Xor(Xor(Xor(s[Index(x, 0, z)], s[Index(x, 1, z)]), s[Index(x, 2, z)]), s[Index(x, 3, z)]), s[Index(x, 4, z)])
  }

  function ThetaEffect(s: Bits, x: nat, z: nat): bool
    requires |s| == 1600 && x < 5 && z < 64
  {
    Xor(Parity(s, (x + 4) % 5, z), Parity(s, (x + 1) % 5, (z + 63) % 64))
  }

  function Theta(s: Bits): (t: Bits)
    requires |s| == 1600
    ensures |t| == 1600
  {
    seq(1600, k requires 0 <= k < 1600 => Xor(s[k], ThetaEffect(s, X(k), Z(k))))
  }

  /** The offsets of rho modulo 64, by lane 5 * y + x. */
  function Offset(l: nat): (n: nat)
    requires l < 25
    ensures n < 63
  {
    if l == 0 then 0 else if l == 1 then 1 else if l == 2 then 62 else if l == 3 then 28 else if l == 4 then 27
    else if l == 5 then 36 else if l == 6 then 44 else if l == 7 then 6 else if l == 8 then 55 else if l == 9 then 20
    else if l == 10 then 3 else if l == 11 then 10 else if l == 12 then 43 else if l == 13 then 25
    else if l == 14 then 39
    else if l == 15 then 41 else if l == 16 then 45 else if l == 17 then 15 else if l == 18 then 21
    else if l == 19 then 8
    else if l == 20 then 18 else if l == 21 then 2 else if l == 22 then 61 else if l == 23 then 56 else 14
  }

  function Rho(s: Bits): (t: Bits)
    requires |s| == 1600
    ensures |t| == 1600
  {
    seq(1600, k requires 0 <= k < 1600 => s[Index(X(k), Y(k), (Z(k) + 64 - Offset(5 * Y(k) + X(k))) % 64)])
  }

  function Pi(s: Bits): (t: Bits)
    requires |s| == 1600
    ensures |t| == 1600
  {
    seq(1600, k requires 0 <= k < 1600 => s[Index((X(k) + 3 * Y(k)) % 5, X(k), Z(k))])
  }

  function Chi(s: Bits): (t: Bits)
    requires |s| == 1600
    ensures |t| == 1600
  {
    seq(1600, k requires 0 <= k < 1600 =>
      Xor(s[k], !s[Index((X(k) + 1) % 5, Y(k), Z(k))] && s[Index((X(k) + 2) % 5, Y(k), Z(k))]))
  }

  function Iota(s: Bits, ir: nat): (t: Bits)
    requires |s| == 1600
    ensures |t| == 1600
  {
    seq(1600, k requires 0 <= k < 1600 => Xor(s[k], k < 64 && RoundBit(ir, k)))
  }

  function Round(s: Bits, ir: nat): (t: Bits)
    requires |s| == 1600
    ensures |t| == 1600
  {
    Iota(Chi(Pi(Rho(Theta(s)))), ir)
  }

  function Rounds(s: Bits, n: nat): (t: Bits)
    requires |s| == 1600
    ensures |t| == 1600
  {
    if n == 0 then s else Round(Rounds(s, n - 1), n - 1)
  }

  function KeccakF(s: Bits): (t: Bits)
    requires |s| == 1600
    ensures |t| == 1600
  {
    Rounds(s, 24)
  }

  // ----- where the constants come from

  /** The shift register of Algorithm 5; its leftmost bit R[0] is bit 0 here. */
  function Lfsr(t: nat): bv8 {
    if t == 0 then 1 else LfsrStep(Lfsr(t - 1))
  }

  function LfsrStep(r: bv8): bv8 {
    if r & 0x80 != 0 then (r << 1) ^ 0x71 else r << 1
  }

  function Rc(t: nat): bool {
    Lfsr(t) & 1 != 0
  }

  /** Bit z of the round constant: bits 2^j - 1 are taken from the register (Algorithm 6). */
  function RoundBit(ir: nat, z: nat): bool {
    if z == 0 then Rc(7 * ir)
    else if z == 1 then Rc(7 * ir + 1)
    else if z == 3 then Rc(7 * ir + 2)
    else if z == 7 then Rc(7 * ir + 3)
    else if z == 15 then Rc(7 * ir + 4)
    else if z == 31 then Rc(7 * ir + 5)
    else if z == 63 then Rc(7 * ir + 6)
    else false
  }

  /** The lanes in the order in which Algorithm 2 visits them. */
  function Walk(t: nat): (p: (nat, nat))
    ensures p.0 < 5 && p.1 < 5
  {
    if t == 0 then (1, 0) else
      var (x, y) := Walk(t - 1);
      (y, (2 * x + 3 * y) % 5)
  }

  lemma WalkStep(t: nat, x: nat, y: nat)
    requires Walk(t) == (x, y)
    ensures Walk(t + 1) == (y, (2 * x + 3 * y) % 5)
  {
  }

  lemma Walk0()
    ensures Walk(0) == (1, 0) && Walk(1) == (0, 2) && Walk(2) == (2, 1) && Walk(3) == (1, 2) && Walk(4) == (2, 3)
        && Walk(5) == (3, 3)
  {
    assert Walk(0) == (1, 0);
    hide *;
    WalkStep(0, 1, 0); WalkStep(1, 0, 2); WalkStep(2, 2, 1); WalkStep(3, 1, 2); WalkStep(4, 2, 3);
  }

  lemma Walk6()
    ensures Walk(6) == (3, 0) && Walk(7) == (0, 1) && Walk(8) == (1, 3) && Walk(9) == (3, 1) && Walk(10) == (1, 4)
        && Walk(11) == (4, 4)
  {
    hide *;
    Walk0();
    WalkStep(5, 3, 3);
    WalkStep(6, 3, 0); WalkStep(7, 0, 1); WalkStep(8, 1, 3); WalkStep(9, 3, 1); WalkStep(10, 1, 4);
  }

  lemma Walk12()
    ensures Walk(12) == (4, 0) && Walk(13) == (0, 3) && Walk(14) == (3, 4) && Walk(15) == (4, 3) && Walk(16) == (3, 2)
        && Walk(17) == (2, 2)
  {
    hide *;
    Walk6();
    WalkStep(11, 4, 4);
    WalkStep(12, 4, 0); WalkStep(13, 0, 3); WalkStep(14, 3, 4); WalkStep(15, 4, 3); WalkStep(16, 3, 2);
  }

  lemma Walk18()
    ensures Walk(18) == (2, 0) && Walk(19) == (0, 4) && Walk(20) == (4, 2) && Walk(21) == (2, 4) && Walk(22) == (4, 1)
        && Walk(23) == (1, 1)
  {
    hide *;
    Walk12();
    WalkStep(17, 2, 2);
    WalkStep(18, 2, 0); WalkStep(19, 0, 4); WalkStep(20, 4, 2); WalkStep(21, 2, 4); WalkStep(22, 4, 1);
  }

  /** The offsets of rho are the triangular numbers along that walk, and 0 at the origin. */
  lemma OffsetsAreTriangular(t: nat)
    requires t < 24
    ensures Offset(5 * Walk(t).1 + Walk(t).0) == (t + 1) * (t + 2) / 2 % 64 && Offset(0) == 0
  {
    hide Walk;
    Walk0(); Walk6(); Walk12(); Walk18();
    if t < 8 {
      if t == 0 {} else if t == 1 {} else if t == 2 {} else if t == 3 {} else if t == 4 {} else if t == 5 {}
      else if t == 6 {} else {}
    } else if t < 16 {
      if t == 8 {} else if t == 9 {} else if t == 10 {} else if t == 11 {} else if t == 12 {} else if t == 13 {}
      else if t == 14 {} else {}
    } else {
      if t == 16 {} else if t == 17 {} else if t == 18 {} else if t == 19 {} else if t == 20 {} else if t == 21 {}
      else if t == 22 {} else {}
    }
  }
}
