/**
 Keccak-f[1600] on 32-bit words: every lane is kept as the word of its even-numbered bits and
 the word of its odd-numbered bits, and rotations act on the two words.
 */
module Halves {
  import opened KeccakSpec

  /** A `uint32_t`, as its bits from the least significant up; the code only uses bitwise operations. */
  type Word = w: seq<bool> | |w| == 32 witness seq(32, _ => false)

  function WordXor(a: Word, b: Word): Word {
    seq(32, i requires 0 <= i < 32 => Xor(a[i], b[i]))
  }

  function WordAnd(a: Word, b: Word): Word {
    seq(32, i requires 0 <= i < 32 => a[i] && b[i])
  }

  function WordNot(a: Word): Word {
    seq(32, i requires 0 <= i < 32 => !a[i])
  }

  function Shl(a: Word, n: nat): Word {
    seq(32, i requires 0 <= i < 32 => if i < n then false else a[i - n])
  }

  function Shr(a: Word, n: nat): Word {
    seq(32, i requires 0 <= i < 32 => if i + n < 32 then a[i + n] else false)
  }

  /** `ROL32`. */
  function Rol32(a: Word, n: nat): Word
    requires n < 32
  {
    WordXor(Shl(a, n), Shr(a, 32 - n))
  }

  lemma RolAt(a: Word, n: nat, i: nat)
    requires n < 32 && i < 32
    ensures Rol32(a, n)[i] == a[(i + 32 - n) % 32]
  {
  }

  // ----- states of 50 words

  /** The even (p = 0) or odd (p = 1) word of lane (x, y). */
  function Half(x: nat, y: nat, p: nat): (j: nat)
    requires x < 5 && y < 5 && p < 2
    ensures j < 50
  {
    2 * (5 * y + x) + p
  }

  lemma HalfParts(x: nat, y: nat, p: nat)
    requires x < 5 && y < 5 && p < 2
    ensures var j := Half(x, y, p); j % 2 == p && j / 2 % 5 == x && j / 10 == y
  {
    assert Half(x, y, p) / 2 == 5 * y + x;
  }

  /** The state string that 50 words stand for. */
  function StateOf(h: seq<Word>): (s: Bits)
    requires |h| == 50
    ensures |s| == 1600
  {
    seq(1600, k requires 0 <= k < 1600 => h[2 * (k / 64) + k % 2][k % 64 / 2])
  }

  // ----- one round

  function ColumnSum(h: seq<Word>, x: nat, p: nat): Word
    requires |h| == 50 && x < 5 && p < 2
  {
    WordXor(WordXor(WordXor(WordXor(h[Half(x, 0, p)], h[Half(x, 1, p)]), h[Half(x, 2, p)]), h[Half(x, 3, p)]),
        h[Half(x, 4, p)])
  }

  /** What theta adds to the words of column x: an odd bit moves to an even position and back. */
  function Effect(h: seq<Word>, x: nat, p: nat): Word
    requires |h| == 50 && x < 5 && p < 2
  {
    if p == 0 then WordXor(ColumnSum(h, (x + 4) % 5, 0), Rol32(ColumnSum(h, (x + 1) % 5, 1), 1))
    else WordXor(ColumnSum(h, (x + 4) % 5, 1), ColumnSum(h, (x + 1) % 5, 0))
  }

  /** The lane that pi moves to (x, y). */
  function SourceX(x: nat, y: nat): (u: nat)
    ensures u < 5
  {
    (x + 3 * y) % 5
  }

  /** Which of its words feeds word p after rotation by n ... */
  function SourceHalf(n: nat, p: nat): (q: nat)
    ensures q < 2
  {
    (p + n) % 2
  }

  /** ... and how far that word is rotated. */
  function WordOffset(n: nat, p: nat): (m: nat)
    requires n < 63 && p < 2
    ensures m < 32
  {
    if n % 2 == 0 then n / 2 else if p == 0 then (n + 1) / 2 else (n - 1) / 2
  }

  /** Word p of lane (x, y) after theta, rho and pi. */
  function Moved(h: seq<Word>, x: nat, y: nat, p: nat): Word
    requires |h| == 50 && x < 5 && y < 5 && p < 2
  {
    var u, n := SourceX(x, y), Offset(5 * x + SourceX(x, y));
    var q := SourceHalf(n, p);
    Rol32(WordXor(h[Half(u, x, q)], Effect(h, u, q)), WordOffset(n, p))
  }

  function ChiWord(a: Word, b: Word, c: Word): Word {
    WordXor(a, WordAnd(WordNot(b), c))
  }

  /** Word p of lane (x, y) after a round with constant words rc. */
  function NextWord(h: seq<Word>, rc: seq<Word>, x: nat, y: nat, p: nat): Word
    requires |h| == 50 && |rc| == 2 && x < 5 && y < 5 && p < 2
  {
    var c := ChiWord(Moved(h, x, y, p), Moved(h, (x + 1) % 5, y, p), Moved(h, (x + 2) % 5, y, p));
    if x == 0 && y == 0 then WordXor(c, rc[p]) else c
  }

  function NextHalves(h: seq<Word>, rc: seq<Word>): (t: seq<Word>)
    requires |h| == 50 && |rc| == 2
    ensures |t| == 50
  {
    seq(50, j requires 0 <= j < 50 => NextWord(h, rc, j / 2 % 5, j / 10, j % 2))
  }

  // ----- refinement

  lemma IndexSplit(x: nat, y: nat, z: nat)
    requires x < 5 && y < 5 && z < 64
    ensures var k := Index(x, y, z); 2 * (k / 64) + k % 2 == Half(x, y, z % 2) && k % 64 / 2 == z / 2
  {
    var k, l := 64 * (5 * y + x) + z, 5 * y + x;
    assert k / 64 == l && k % 64 == z && k % 2 == z % 2;
  }

  lemma StateAt(h: seq<Word>, x: nat, y: nat, z: nat)
    requires |h| == 50 && x < 5 && y < 5 && z < 64
    ensures StateOf(h)[Index(x, y, z)] == h[Half(x, y, z % 2)][z / 2]
  {
    IndexSplit(x, y, z);
    hide Index, Half;
  }

  lemma ColumnBit(h: seq<Word>, x: nat, z: nat)
    requires |h| == 50 && x < 5 && z < 64
    ensures ColumnSum(h, x, z % 2)[z / 2] == Parity(StateOf(h), x, z)
  {
    hide StateOf, Index, Half, Xor;
    StateAt(h, x, 0, z);
    StateAt(h, x, 1, z);
    StateAt(h, x, 2, z);
    StateAt(h, x, 3, z);
    StateAt(h, x, 4, z);
  }

  lemma EffectBit(h: seq<Word>, x: nat, z: nat)
    requires |h| == 50 && x < 5 && z < 64
    ensures Effect(h, x, z % 2)[z / 2] == ThetaEffect(StateOf(h), x, z)
  {
    hide StateOf, ColumnSum, Parity, Xor;
    ColumnBit(h, (x + 4) % 5, z);
    var w := (z + 63) % 64;
    ColumnBit(h, (x + 1) % 5, w);
    if z % 2 == 0 {
      RolAt(ColumnSum(h, (x + 1) % 5, 1), 1, z / 2);
      assert w % 2 == 1 && w / 2 == (z / 2 + 31) % 32;
    } else {
      assert w % 2 == 0 && w / 2 == z / 2;
    }
    hide Rol32;
  }

  lemma ThetaAt(s: Bits, x: nat, y: nat, z: nat)
    requires |s| == 1600 && x < 5 && y < 5 && z < 64
    ensures Theta(s)[Index(x, y, z)] == Xor(s[Index(x, y, z)], ThetaEffect(s, x, z))
  {
    hide Xor, ThetaEffect;
  }

  lemma RhoAt(s: Bits, x: nat, y: nat, z: nat)
    requires |s| == 1600 && x < 5 && y < 5 && z < 64
    ensures Rho(s)[Index(x, y, z)] == s[Index(x, y, (z + 64 - Offset(5 * y + x)) % 64)]
  {
    hide Offset, Index, X, Y, Z;
    var k := Index(x, y, z);
  }

  lemma PiAt(s: Bits, x: nat, y: nat, z: nat)
    requires |s| == 1600 && x < 5 && y < 5 && z < 64
    ensures Pi(s)[Index(x, y, z)] == s[Index(SourceX(x, y), x, z)]
  {
    hide Index, X, Y, Z;
    var k := Index(x, y, z);
  }

  /** Where a rotation by n puts bit z of a lane, word by word. */
  lemma Rotated(n: nat, z: nat)
    requires n < 63 && z < 64
    ensures var w := (z + 64 - n) % 64;
            w % 2 == SourceHalf(n, z % 2) && w / 2 == (z / 2 + 32 - WordOffset(n, z % 2)) % 32
  {
    var i, p := z / 2, z % 2;
    var m := WordOffset(n, p);
    var j := if i >= m then i - m else i + 32 - m;
    var q := SourceHalf(n, p);
    RotatedWord(i, p, n, m, q);
    assert (z + 64 - n) % 64 == 2 * j + q;
    assert (i + 32 - m) % 32 == j;
  }

  lemma RotatedWord(i: nat, p: nat, n: nat, m: nat, q: nat)
    requires i < 32 && p < 2 && n < 63 && m == WordOffset(n, p) && q == SourceHalf(n, p)
    ensures 2 * i + p - n == 2 * (i - m) + q
  {
  }

  lemma MovedBit(h: seq<Word>, x: nat, y: nat, z: nat)
    requires |h| == 50 && x < 5 && y < 5 && z < 64
    ensures Moved(h, x, y, z % 2)[z / 2] == Pi(Rho(Theta(StateOf(h))))[Index(x, y, z)]
  {
    hide StateOf, Effect, ThetaEffect, Xor, Index, Half, Rol32, Offset, Rho, Pi, Theta, SourceX, SourceHalf, WordOffset;
    var s := StateOf(h);
    var u := SourceX(x, y);
    var n := Offset(5 * x + u);
    var w := (z + 64 - n) % 64;
    var q, m := SourceHalf(n, z % 2), WordOffset(n, z % 2);
    Rotated(n, z);
    PiAt(Rho(Theta(s)), x, y, z);
    RhoAt(Theta(s), u, x, z);
    ThetaAt(s, u, x, w);
    StateAt(h, u, x, w);
    EffectBit(h, u, w);
    RolAt(WordXor(h[Half(u, x, q)], Effect(h, u, q)), m, z / 2);
  }

  lemma ChiAt(s: Bits, x: nat, y: nat, z: nat)
    requires |s| == 1600 && x < 5 && y < 5 && z < 64
    ensures Chi(s)[Index(x, y, z)]
         == Xor(s[Index(x, y, z)], !s[Index((x + 1) % 5, y, z)] && s[Index((x + 2) % 5, y, z)])
  {
    hide Index, X, Y, Z, Xor;
    var k := Index(x, y, z);
  }

  lemma IotaAt(s: Bits, ir: nat, x: nat, y: nat, z: nat)
    requires |s| == 1600 && x < 5 && y < 5 && z < 64
    ensures Iota(s, ir)[Index(x, y, z)] == Xor(s[Index(x, y, z)], x == 0 && y == 0 && RoundBit(ir, z))
  {
    hide Xor, RoundBit;
    var k := Index(x, y, z);
    assert k < 64 <==> x == 0 && y == 0;
  }

  /** The words of a round constant. */
  predicate IsConstant(rc: seq<Word>, ir: nat) {
    |rc| == 2 && forall z :: 0 <= z < 64 ==> rc[z % 2][z / 2] == RoundBit(ir, z)
  }

  lemma NextBit(h: seq<Word>, rc: seq<Word>, ir: nat, x: nat, y: nat, z: nat)
    requires |h| == 50 && IsConstant(rc, ir) && x < 5 && y < 5 && z < 64
    ensures NextWord(h, rc, x, y, z % 2)[z / 2] == Round(StateOf(h), ir)[Index(x, y, z)]
  {
    hide StateOf, Moved, Index, Iota, Chi, Pi, Rho, Theta, RoundBit;
    var s := Pi(Rho(Theta(StateOf(h))));
    MovedBit(h, x, y, z);
    MovedBit(h, (x + 1) % 5, y, z);
    MovedBit(h, (x + 2) % 5, y, z);
    ChiAt(s, x, y, z);
    IotaAt(Chi(s), ir, x, y, z);
  }

  lemma NextHalvesAt(h: seq<Word>, rc: seq<Word>, x: nat, y: nat, p: nat)
    requires |h| == 50 && |rc| == 2 && x < 5 && y < 5 && p < 2
    ensures NextHalves(h, rc)[Half(x, y, p)] == NextWord(h, rc, x, y, p)
  {
    hide NextWord;
    HalfSplit(Half(x, y, p), x, y, p);
  }

  lemma HalfSplit(j: nat, x: nat, y: nat, p: nat)
    requires j == 2 * (5 * y + x) + p && x < 5 && y < 5 && p < 2
    ensures j / 2 % 5 == x && j / 10 == y && j % 2 == p
  {
    assert j / 2 == 5 * y + x;
  }

  lemma LaneRow(k: nat, q: nat, z: nat, y: nat, x: nat)
    requires k < 1600 && k == 64 * q + z && z < 64 && q == 5 * y + x && x < 5
    ensures X(k) == x && Y(k) == y < 5 && Z(k) == z
  {
    assert k / 64 == q;
  }

  lemma IndexBack(k: nat)
    requires k < 1600
    ensures X(k) < 5 && Y(k) < 5 && Z(k) < 64 && Index(X(k), Y(k), Z(k)) == k
  {
    var q, z := k / 64, k % 64;
    assert k == 64 * q + z;
    var x, y := q % 5, q / 5;
    assert q == 5 * y + x;
    assert X(k) == x && Y(k) == y && Z(k) == z by { LaneRow(k, q, z, y, x); }
    hide X, Y, Z;
  }

  /** A round on words is a round on the state. */
  lemma HalvesRefineRound(h: seq<Word>, rc: seq<Word>, ir: nat)
    requires |h| == 50 && |rc| == 2 && IsConstant(rc, ir)
    ensures StateOf(NextHalves(h, rc)) == Round(StateOf(h), ir)
  {
    hide StateOf, NextWord, Round, IsConstant, Index, X, Y, Z, NextHalves, Half;
    var t, r := StateOf(NextHalves(h, rc)), Round(StateOf(h), ir);
    forall k | 0 <= k < 1600 ensures t[k] == r[k] {
      var x, y, z := X(k), Y(k), Z(k);
      IndexBack(k);
      StateAt(NextHalves(h, rc), x, y, z);
      NextHalvesAt(h, rc, x, y, z % 2);
      NextBit(h, rc, ir, x, y, z);
    }
  }
}
