/** What the step mappings of Keccak-f do to a single bit, and a round as one formula: laws that fix KeccakSpec. */
module KeccakLaws {
  import opened Bytes  // Power
  import opened KeccakSpec
  import opened Halves  // ThetaAt, RhoAt, PiAt, ChiAt, IotaAt, IndexBack

  /** The state with one bit negated. */
  function Flip(s: Bits, k: nat): (t: Bits)
    requires k < |s|
    ensures |t| == |s|
  {
    s[k := !s[k]]
  }

  lemma IndexInjective(x: nat, y: nat, z: nat, u: nat, v: nat, w: nat)
    requires x < 5 && y < 5 && z < 64 && u < 5 && v < 5 && w < 64
    ensures Index(x, y, z) == Index(u, v, w) <==> x == u && y == v && z == w
  {
    hide Index;
  }

  lemma FlipAt(s: Bits, x: nat, y: nat, z: nat, u: nat, v: nat, w: nat)
    requires |s| == 1600 && x < 5 && y < 5 && z < 64 && u < 5 && v < 5 && w < 64
    ensures Flip(s, Index(x, y, z))[Index(u, v, w)] == (s[Index(u, v, w)] != (x == u && y == v && z == w))
  {
    IndexInjective(x, y, z, u, v, w);
    hide Index;
  }

  // ----- theta

  lemma ColumnIndices(x: nat, z: nat)
    requires x < 5 && z < 64
    ensures forall y :: 0 <= y < 5 ==> Index(x, y, z) == 320 * y + 64 * x + z
  {
  }

  /** How many bits of a column are set. */
  function Ones(s: Bits, x: nat, z: nat, n: nat): (c: nat)
    requires |s| == 1600 && x < 5 && z < 64 && n <= 5
  {
    if n == 0 then 0 else Ones(s, x, z, n - 1) + (if s[320 * (n - 1) + 64 * x + z] then 1 else 0)
  }

  /** The parity is the oddness of the number of set bits among all five of the column. */
  lemma ParityIsOddness(s: Bits, x: nat, z: nat)
    requires |s| == 1600 && x < 5 && z < 64
    ensures Parity(s, x, z) == (Ones(s, x, z, 5) % 2 == 1)
  {
    ColumnIndices(x, z);
    hide Index;
    assert Ones(s, x, z, 1) == if s[Index(x, 0, z)] then 1 else 0;
    assert Ones(s, x, z, 2) == Ones(s, x, z, 1) + if s[Index(x, 1, z)] then 1 else 0;
    assert Ones(s, x, z, 3) == Ones(s, x, z, 2) + if s[Index(x, 2, z)] then 1 else 0;
    assert Ones(s, x, z, 4) == Ones(s, x, z, 3) + if s[Index(x, 3, z)] then 1 else 0;
    assert Ones(s, x, z, 5) == Ones(s, x, z, 4) + if s[Index(x, 4, z)] then 1 else 0;
    hide Ones;
  }

  /** Negating any bit of a column negates its parity, and no other. */
  lemma ParityFlips(s: Bits, x: nat, y: nat, z: nat, u: nat, w: nat)
    requires |s| == 1600 && x < 5 && y < 5 && z < 64 && u < 5 && w < 64
    ensures Parity(Flip(s, Index(x, y, z)), u, w) == (Parity(s, u, w) != (u == x && w == z))
  {
    hide Index, Flip;
    FlipAt(s, x, y, z, u, 0, w);
    FlipAt(s, x, y, z, u, 1, w);
    FlipAt(s, x, y, z, u, 2, w);
    FlipAt(s, x, y, z, u, 3, w);
    FlipAt(s, x, y, z, u, 4, w);
  }

  /** Negating one bit changes eleven: itself, the next column of its slice, and the previous one of the next slice. */
  lemma ThetaFlips(s: Bits, x: nat, y: nat, z: nat, u: nat, v: nat, w: nat)
    requires |s| == 1600 && x < 5 && y < 5 && z < 64 && u < 5 && v < 5 && w < 64
    ensures Theta(Flip(s, Index(x, y, z)))[Index(u, v, w)] != Theta(s)[Index(u, v, w)]
       <==> (u == x && v == y && w == z) || (u == (x + 1) % 5 && w == z) || (u == (x + 4) % 5 && w == (z + 1) % 64)
  {
    hide Index, Flip, Theta, Parity;
    var t := Flip(s, Index(x, y, z));
    ThetaAt(s, u, v, w);
    ThetaAt(t, u, v, w);
    FlipAt(s, x, y, z, u, v, w);
    ParityFlips(s, x, y, z, (u + 4) % 5, w);
    ParityFlips(s, x, y, z, (u + 1) % 5, (w + 63) % 64);
    Neighbours(x, z, u, w);
  }

  lemma Neighbours(x: nat, z: nat, u: nat, w: nat)
    requires x < 5 && u < 5 && z < 64 && w < 64
    ensures (u + 4) % 5 == x <==> u == (x + 1) % 5
    ensures (u + 1) % 5 == x <==> u == (x + 4) % 5
    ensures (w + 63) % 64 == z <==> w == (z + 1) % 64
  {
  }

  // ----- rho and pi

  /** Where bit (x, y, z) goes. */
  lemma RhoMoves(s: Bits, x: nat, y: nat, z: nat)
    requires |s| == 1600 && x < 5 && y < 5 && z < 64
    ensures Rho(s)[Index(x, y, (z + Offset(5 * y + x)) % 64)] == s[Index(x, y, z)]
  {
    hide Index, Rho, Offset;
    var n := Offset(5 * y + x);
    RhoAt(s, x, y, (z + n) % 64);
    RotatedBack(z, n);
  }

  lemma RotatedBack(z: nat, n: nat)
    requires z < 64 && n < 63
    ensures ((z + n) % 64 + 64 - n) % 64 == z
  {
  }

  lemma PiMoves(s: Bits, x: nat, y: nat, z: nat)
    requires |s| == 1600 && x < 5 && y < 5 && z < 64
    ensures Pi(s)[Index(y, (2 * x + 3 * y) % 5, z)] == s[Index(x, y, z)]
  {
    hide Index, Pi;
    PiAt(s, y, (2 * x + 3 * y) % 5, z);
    SourceBack(x, y);
  }

  lemma SourceBack(x: nat, y: nat)
    requires x < 5 && y < 5
    ensures SourceX(y, (2 * x + 3 * y) % 5) == x
  {
    var u := 2 * x + 3 * y;
    assert u == 5 * (u / 5) + u % 5;
    assert y + 3 * (u % 5) == 5 * (x + 2 * y - 3 * (u / 5)) + x;
  }

  // ----- chi

  /** Negating a bit changes it, its left neighbour if the right one is set, and the one before if the left is not. */
  lemma ChiFlips(s: Bits, x: nat, y: nat, z: nat, u: nat, v: nat, w: nat)
    requires |s| == 1600 && x < 5 && y < 5 && z < 64 && u < 5 && v < 5 && w < 64
    ensures Chi(Flip(s, Index(x, y, z)))[Index(u, v, w)] != Chi(s)[Index(u, v, w)]
       <==> v == y && w == z && (u == x || (u == (x + 4) % 5 && s[Index((x + 1) % 5, y, z)])
                                        || (u == (x + 3) % 5 && !s[Index((x + 4) % 5, y, z)]))
  {
    hide Index, Flip, Chi;
    var t := Flip(s, Index(x, y, z));
    ChiAt(s, u, v, w);
    ChiAt(t, u, v, w);
    FlipAt(s, x, y, z, u, v, w);
    FlipAt(s, x, y, z, (u + 1) % 5, v, w);
    FlipAt(s, x, y, z, (u + 2) % 5, v, w);
    ChiNeighbours(x, u);
  }

  lemma ChiNeighbours(x: nat, u: nat)
    requires x < 5 && u < 5
    ensures (u + 1) % 5 == x <==> u == (x + 4) % 5
    ensures (u + 2) % 5 == x <==> u == (x + 3) % 5
    ensures u == (x + 4) % 5 ==> (u + 2) % 5 == (x + 1) % 5
    ensures u == (x + 3) % 5 ==> (u + 1) % 5 == (x + 4) % 5
    ensures (x + 4) % 5 != x && (x + 3) % 5 != x && (x + 4) % 5 != (x + 3) % 5
  {
  }

  // ----- iota

  /** The register satisfies the recurrence of x^8 + x^6 + x^5 + x^4 + 1. */
  lemma RegisterRecurs(t: nat)
    ensures Rc(t + 8) == (((Rc(t + 6) != Rc(t + 5)) != Rc(t + 4)) != Rc(t))
  {
    var r := Lfsr(t);
    LfsrUnfold(t);
    hide Lfsr;
    RecursAt(r);
  }

  lemma LfsrUnfold(t: nat)
    ensures Lfsr(t + 4) == LfsrStep(LfsrStep(LfsrStep(LfsrStep(Lfsr(t)))))
    ensures Lfsr(t + 5) == LfsrStep(Lfsr(t + 4)) && Lfsr(t + 6) == LfsrStep(Lfsr(t + 5))
    ensures Lfsr(t + 8) == LfsrStep(LfsrStep(Lfsr(t + 6)))
  {
    hide LfsrStep;
    assert Lfsr(t + 1) == LfsrStep(Lfsr(t)) && Lfsr(t + 2) == LfsrStep(Lfsr(t + 1));
    assert Lfsr(t + 3) == LfsrStep(Lfsr(t + 2)) && Lfsr(t + 4) == LfsrStep(Lfsr(t + 3));
    assert Lfsr(t + 5) == LfsrStep(Lfsr(t + 4)) && Lfsr(t + 6) == LfsrStep(Lfsr(t + 5));
    assert Lfsr(t + 7) == LfsrStep(Lfsr(t + 6)) && Lfsr(t + 8) == LfsrStep(Lfsr(t + 7));
  }

  lemma RecursAt(r: bv8)
    ensures var q := LfsrStep(LfsrStep(LfsrStep(LfsrStep(r))));
            var a := LfsrStep(q);
            var b := LfsrStep(a);
            (LfsrStep(LfsrStep(b)) & 1 != 0) == ((((b & 1 != 0) != (a & 1 != 0)) != (q & 1 != 0)) != (r & 1 != 0))
  {
  }

  /** Its first outputs are one and seven zeros. */
  lemma RegisterStarts(t: nat)
    requires t < 8
    ensures Rc(t) == (t == 0)
  {
    LfsrUnfold(0);
    assert Lfsr(0) == 1 && Lfsr(1) == 2 && Lfsr(2) == 4 && Lfsr(3) == 8;
    LfsrUnfold(3);
  }

  /** Round constants have their seven bits at the places 2^j - 1. */
  lemma ConstantBit(ir: nat, z: nat)
    requires z < 64
    ensures RoundBit(ir, z) <==> exists j: nat :: j <= 6 && z == Power(2, j) - 1 && Rc(7 * ir + j)
  {
    hide Rc;
    assert Power(2, 0) == 1 && Power(2, 1) == 2 && Power(2, 2) == 4 && Power(2, 3) == 8;
    assert Power(2, 4) == 16 && Power(2, 5) == 32 && Power(2, 6) == 64;
  }

  // ----- a whole round

  /** One bit of the state and the oddness of two columns. */
  function Mixed(s: Bits, x: nat, y: nat, z: nat): bool
    requires |s| == 1600 && x < 5 && y < 5 && z < 64
  {
    s[320 * y + 64 * x + z] != ((Ones(s, (x + 4) % 5, z, 5) + Ones(s, (x + 1) % 5, (z + 63) % 64, 5)) % 2 == 1)
  }

  /** Bit (x, y, z) after theta, rho and pi. */
  function Diffused(s: Bits, x: nat, y: nat, z: nat): bool
    requires |s| == 1600 && x < 5 && y < 5 && z < 64
  {
    var u := (x + 3 * y) % 5;
    Mixed(s, u, x, (z + 64 - Offset(5 * x + u)) % 64)
  }

  /** A round, bit by bit. */
  lemma RoundAt(s: Bits, ir: nat, x: nat, y: nat, z: nat)
    requires |s| == 1600 && x < 5 && y < 5 && z < 64
    ensures Round(s, ir)[320 * y + 64 * x + z]
         == ((Diffused(s, x, y, z) != (!Diffused(s, (x + 1) % 5, y, z) && Diffused(s, (x + 2) % 5, y, z)))
             != (x == 0 && y == 0 && RoundBit(ir, z)))
  {
    hide *;
    IndexIs(x, y, z);
    RoundAtIndex(s, ir, x, y, z);
  }

  lemma IndexIs(x: nat, y: nat, z: nat)
    requires x < 5 && y < 5 && z < 64
    ensures Index(x, y, z) == 320 * y + 64 * x + z
  {
  }

  lemma RoundAtIndex(s: Bits, ir: nat, x: nat, y: nat, z: nat)
    requires |s| == 1600 && x < 5 && y < 5 && z < 64
    ensures Round(s, ir)[Index(x, y, z)]
         == ((Diffused(s, x, y, z) != (!Diffused(s, (x + 1) % 5, y, z) && Diffused(s, (x + 2) % 5, y, z)))
             != (x == 0 && y == 0 && RoundBit(ir, z)))
  {
    hide Index, Theta, Rho, Pi, Chi, Iota, Diffused, RoundBit;
    var t := Pi(Rho(Theta(s)));
    IotaAt(Chi(t), ir, x, y, z);
    ChiAt(t, x, y, z);
    DiffusedAt(s, x, y, z);
    DiffusedAt(s, (x + 1) % 5, y, z);
    DiffusedAt(s, (x + 2) % 5, y, z);
  }

  lemma DiffusedAt(s: Bits, x: nat, y: nat, z: nat)
    requires |s| == 1600 && x < 5 && y < 5 && z < 64
    ensures Pi(Rho(Theta(s)))[Index(x, y, z)] == Diffused(s, x, y, z)
  {
    var u := (x + 3 * y) % 5;
    var n := Offset(5 * x + u);
    var w := (z + 64 - n) % 64;
    assert Diffused(s, x, y, z) == Mixed(s, u, x, w) by { hide Mixed, Offset; }
    assert SourceX(x, y) == u;
    hide *;
    DiffusedSteps(s, x, y, z, u, w);
    MixedIs(s, u, x, w);
  }

  lemma MixedIs(s: Bits, x: nat, y: nat, z: nat)
    requires |s| == 1600 && x < 5 && y < 5 && z < 64
    ensures Mixed(s, x, y, z) == (s[Index(x, y, z)] != ThetaEffect(s, x, z))
  {
    hide ThetaEffect, Ones;
    EffectIsOddness(s, x, z);
  }

  lemma DiffusedSteps(s: Bits, x: nat, y: nat, z: nat, u: nat, w: nat)
    requires |s| == 1600 && x < 5 && y < 5 && z < 64 && u == SourceX(x, y) && w == (z + 64 - Offset(5 * x + u)) % 64
    ensures Pi(Rho(Theta(s)))[Index(x, y, z)] == (s[Index(u, x, w)] != ThetaEffect(s, u, w))
  {
    hide Index, Theta, Rho, Pi, ThetaEffect, Offset, SourceX;
    PiAt(Rho(Theta(s)), x, y, z);
    RhoAt(Theta(s), u, x, z);
    ThetaAt(s, u, x, w);
  }

  lemma EffectIsOddness(s: Bits, x: nat, z: nat)
    requires |s| == 1600 && x < 5 && z < 64
    ensures ThetaEffect(s, x, z) == ((Ones(s, (x + 4) % 5, z, 5) + Ones(s, (x + 1) % 5, (z + 63) % 64, 5)) % 2 == 1)
  {
    hide Parity, Ones;
    ParityIsOddness(s, (x + 4) % 5, z);
    ParityIsOddness(s, (x + 1) % 5, (z + 63) % 64);
    OddSum(Ones(s, (x + 4) % 5, z, 5), Ones(s, (x + 1) % 5, (z + 63) % 64, 5));
  }

  lemma OddSum(a: nat, b: nat)
    ensures ((a + b) % 2 == 1) == ((a % 2 == 1) != (b % 2 == 1))
  {
  }
}
