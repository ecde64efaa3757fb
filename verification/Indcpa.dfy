/**
 mlkem/indcpa.c: key generation, encryption, decryption and the comparison that replaces re-encryption,
 with the buffers the code reuses, against the plain scheme in Kpke.
 */
module Indcpa {
  import opened Modular
  import opened Ring
  import opened Compress
  import opened Bytes
  import opened NttMath
  import opened Vectors
  import opened Transform
  import opened Products
  import opened Codec
  import opened Poly
  import opened Cbd
  import opened Sample
  import opened Matacc
  import opened Verify
  import opened Kpke
  import opened Correctness

  // ----- accumulated Montgomery products

  /** Storing the first product; the operands are any representatives modulo Q. */
  lemma AccumulateFirst(r: seq<int16>, x: seq<Vec>, y: seq<Vec>, x0: seq<int16>, y0: seq<int16>, step: int)
    requires |r| == 256 && |x| > 0 && |y| > 0 && IsVector(x) && IsVector(y) && GrowsBy(x0, y0, step)
        && CongSeq(x0, x[0]) && CongSeq(y0, y[0])
    ensures CongSeq(Scale(0x1_0000, MontMul(false, r, x0, y0)), Dot(x, y, 1))
        && Bounded(MontMul(false, r, x0, y0), step)
  {
    hide MontMul, PointMul, CongSeq, Scale, Operands, SmallOperands;
    OperandSizes(x0, y0);
    MontMulMeans(false, r, x0, y0, 0, step);
    PointCong(x0, y0, x[0], y[0]);
    CongSeqTrans(Scale(0x1_0000, MontMul(false, r, x0, y0)), PointMul(x0, y0), PointMul(x[0], y[0]));
    DotStep(x, y, 1);
    DotNone(x, y);
    hide Add;
    AddZero(PointMul(x[0], y[0]));
  }

  /** Adding one more product. */
  lemma AccumulateNext(r: seq<int16>, x: seq<Vec>, y: seq<Vec>, n: nat, xn: seq<int16>, yn: seq<int16>, bound: int,
      step: int)
    requires |r| == 256 && n < |x| && n < |y| && IsVector(x) && IsVector(y) && GrowsBy(xn, yn, step)
    requires CongSeq(xn, x[n]) && CongSeq(yn, y[n])
    requires CongSeq(Scale(0x1_0000, r), Dot(x, y, n)) && Bounded(r, bound) && 0 <= bound && bound + step <= 0x7fff
    ensures CongSeq(Scale(0x1_0000, MontMul(true, r, xn, yn)), Dot(x, y, n + 1))
        && Bounded(MontMul(true, r, xn, yn), bound + step)
  {
    hide MontMul, PointMul, CongSeq, Scale, Add, Bounded, Dot, Operands, SmallOperands;
    OperandSizes(xn, yn);
    MontMulMeans(true, r, xn, yn, bound, step);
    var t := MontMul(true, r, xn, yn);
    DotStep(x, y, n + 1);
    PointCong(xn, yn, x[n], y[n]);
    CongAddSeq(Scale(0x1_0000, r), Dot(x, y, n), PointMul(xn, yn), PointMul(x[n], y[n]));
    CongSeqTrans(Scale(0x1_0000, t), Add(Scale(0x1_0000, r), PointMul(xn, yn)), Dot(x, y, n + 1));
  }

  /** The inverse transform turns 2^-16 times a vector into its inverse transform: the factors cancel. */
  lemma FactorsCancel(s: Vec, d: Vec, t: Vec)
    requires |s| == |d| == |t| == 256 && CongSeq(Scale(0x1_0000, s), d) && CongSeq(t, Scale(0x1_0000, InvNtt(s)))
    ensures CongSeq(t, InvNtt(d))
  {
    hide CongSeq, Scale, InvTree;
    var i := InvTree(s, 1);
    InvScale(0x1_0000, s, 1);
    ScaleScale(0x1_0000, 3303, i);
    ScaleScale(3303, 0x1_0000, i);
    assert InvNtt(Scale(0x1_0000, s)) == Scale(0x1_0000, InvNtt(s));
    CongInvNtt(Scale(0x1_0000, s), d);
    CongSeqTrans(t, InvNtt(Scale(0x1_0000, s)), InvNtt(d));
  }

  /** Sums of small coefficients do not wrap. */
  lemma SumIsAdd(a: seq<int16>, b: seq<int16>, m: int, n: int)
    requires |a| == |b| && Bounded(a, m) && Bounded(b, n) && 0 <= m && 0 <= n && m + n <= 0x7fff
    ensures Sum16(a, b) == Add(a, b) && Difference16(a, b) == Sub(a, b)
    ensures Bounded(Sum16(a, b), m + n) && Bounded(Difference16(a, b), m + n)
  {
    forall i | 0 <= i < |a| ensures Add16(a[i], b[i]) == a[i] + b[i] && Sub16(a[i], b[i]) == a[i] - b[i] {
      Fits16(a[i], b[i]);
    }
  }

  // ----- polynomials and vectors of polynomials

  /** `poly_ntt`. */
  method PolyNtt(r: array<int16>)
    requires r.Length == 256 && Bounded(r[..], 16943)
    modifies r
    ensures CongSeq(r[..], Ntt(old(r[..]))) && Bounded(r[..], 1664)
  {
    hide Ntt, CongSeq, GrownBy;
    ghost var a := r[..];
    NttInPlace(r, 16943);
    ghost var b := r[..];
    PolyReduce(r);
    CongSeqTrans(r[..], b, Ntt(a));
  }

  /** `poly_noise_eta1` and `poly_noise_eta2`. */
  method PolyNoise(r: array<int16>, o: Oracles, eta: nat, seed: seq<byte>, nonce: nat, add: bool)
    requires r.Length == 256 && (eta == 2 || eta == 3)
    modifies r
    ensures r[..] == Noisy(add, old(r[..]), NoisePoly(o, eta, seed, nonce))
  {
    var buf := Take(o.prf(seed, Byte(nonce)), 64 * eta);
    hide Noise;
    if eta == 2 {
      Cbd2(r, buf, add);
    } else {
      Cbd3(r, buf, add);
    }
  }

  /** A `polyvec`: separate polynomials. */
  ghost predicate Polys(v: seq<array<int16>>, k: nat) {
    && |v| == k
    && (forall i :: 0 <= i < k ==> v[i].Length == 256)
    && (forall i, j :: 0 <= i < j < k ==> v[i] != v[j])
  }

  method NewPolys(k: nat) returns (v: seq<array<int16>>)
    ensures Polys(v, k) && forall i :: 0 <= i < k ==> fresh(v[i])
  {
    v := [];
    while |v| < k
      invariant |v| <= k && Polys(v, |v|) && forall i :: 0 <= i < |v| ==> fresh(v[i])
    {
      var p := new int16[256];
      v := v + [p];
    }
  }

  /** The contents of v, transformed and reduced. */
  ghost predicate Holds(v: seq<array<int16>>, x: seq<Vec>)
    reads v
  {
    && Polys(v, |x|) && IsVector(x)
    && forall i :: 0 <= i < |x| ==> Bounded(v[i][..], 1664) && CongSeq(v[i][..], x[i])
  }

  /** A vector of noise under nonces 0, 1, ..., and its transform: how all three operations begin. */
  method NoiseNtt(v: seq<array<int16>>, o: Oracles, k: nat, eta: nat, seed: seq<byte>)
    requires Polys(v, k) && (eta == 2 || eta == 3)
    modifies v
    ensures Holds(v, NttVector(NoiseVector(o, k, eta, seed, 0)))
  {
    hide NoisePoly, Ntt, CongSeq;
    ghost var x := NoiseVector(o, k, eta, seed, 0);
    var i := 0;
    while i < k
      invariant 0 <= i <= k
      invariant forall j :: 0 <= j < i ==> v[j][..] == x[j]
    {
      PolyNoise(v[i], o, eta, seed, i, false);
      i := i + 1;
    }
    i := 0;
    while i < k
      invariant 0 <= i <= k
      invariant forall j :: 0 <= j < i ==> Bounded(v[j][..], 1664) && CongSeq(v[j][..], Ntt(x[j]))
      invariant forall j :: i <= j < k ==> v[j][..] == x[j]
    {
      assert Bounded(NoisePoly(o, eta, seed, i), 16943);
      PolyNtt(v[i]);
      i := i + 1;
    }
  }

  // ----- rows of the matrix

  /** Row i of the matrix or of its transpose, in the order of the absorbed index bytes. */
  ghost function Row(o: Oracles, k: nat, rho: seq<byte>, i: nat, transposed: bool): (x: seq<Vec>)
    requires MatrixReady(o, k, rho) && i < k
    ensures |x| == k && IsVector(x)
  {
    if transposed then Transpose(MatrixA(o, k, rho), k)[i] else MatrixA(o, k, rho)[i]
  }

  /** The order in which `matacc_inner` absorbs the two index bytes. */
  function EntryStream(o: Oracles, rho: seq<byte>, i: nat, j: nat, transposed: bool): Stream {
    if transposed then o.xof(rho, Byte(i), Byte(j)) else o.xof(rho, Byte(j), Byte(i))
  }

  lemma RowAt(o: Oracles, k: nat, rho: seq<byte>, i: nat, j: nat, transposed: bool)
    requires MatrixReady(o, k, rho) && i < k && j < k
    ensures var s := EntryStream(o, rho, i, j, transposed);
            Sampleable(s) && Row(o, k, rho, i, transposed)[j] == SampleNtt(s)
  {
    hide Byte, SampleNtt, Sampleable;
  }

  lemma OneOfK(k: nat, j: nat)
    requires IsRank(k) && j < k
    ensures j <= 3 && 3536 * (j + 1) <= 14144
  {
  }

  /** `matacc`: row i times the vector b, never storing a matrix entry. */
  method MataccRow(r: array<int16>, b: seq<array<int16>>, o: Oracles, k: nat, i: nat, seed: seq<byte>, transposed: bool,
                   ghost y: seq<Vec>)
    requires IsRank(k) && r.Length == 256 && r !in b && |y| == k && Holds(b, y) && MatrixReady(o, k, seed) && i < k
    modifies r
    ensures CongSeq(Scale(0x1_0000, r[..]), Dot(Row(o, k, seed, i, transposed), y, k)) && Bounded(r[..], 14144)
  {
    hide EntryStream, SampleNtt, Sampleable, MontMul, CongSeq, Scale, Dot, Operands, SmallOperands, Row, MatrixReady;
    ghost var x := Row(o, k, seed, i, transposed);
    forall j | 0 <= j < k ensures CongSeq(x[j], x[j]) { CongRefl(x[j]); }
    RowAt(o, k, seed, i, 0, transposed);
    ghost var r0 := r[..];
    MataccInner(r, b[0], EntryStream(o, seed, i, 0, transposed), false);
    AccumulateFirst(r0, x, y, SampleNtt(EntryStream(o, seed, i, 0, transposed)), b[0][..], 3536);
    var j: nat := 1;
    while j < k
      invariant 1 <= j <= k
      invariant CongSeq(Scale(0x1_0000, r[..]), Dot(x, y, j)) && Bounded(r[..], 3536 * j)
    {
      RowAt(o, k, seed, i, j, transposed);
      OneOfK(k, j);
      r0 := r[..];
      MataccInner(r, b[j], EntryStream(o, seed, i, j, transposed), true);
      AccumulateNext(r0, x, y, j, SampleNtt(EntryStream(o, seed, i, j, transposed)), b[j][..], 3536 * j, 3536);
      j := j + 1;
    }
    OneOfK(k, k - 1);
    BoundedMore(r[..], 3536 * k, 14144);
  }

  /** A row product brought back to coefficients, plus noise. */
  method RowPlusNoise(b: array<int16>, v: seq<array<int16>>, o: Oracles, k: nat, i: nat, seed: seq<byte>,
      transposed: bool,
                      eta: nat, coins: seq<byte>, nonce: nat, ghost y: seq<Vec>)
    requires IsRank(k) && b.Length == 256 && b !in v && |y| == k && Holds(v, y) && MatrixReady(o, k, seed) && i < k
    requires eta == 2 || eta == 3
    modifies b
    ensures CongSeq(b[..], Add(InvNtt(Dot(Row(o, k, seed, i, transposed), y, k)), NoisePoly(o, eta, coins, nonce)))
    ensures Bounded(b[..], 3331)
  {
    hide CongSeq, Scale, Dot, Row, InvNtt, MatrixReady, NoisePoly, Add, Sum16;
    ghost var d := Dot(Row(o, k, seed, i, transposed), y, k);
    MataccRow(b, v, o, k, i, seed, transposed, y);
    ghost var s := b[..];
    InvNttInPlace(b);
    FactorsCancel(s, d, b[..]);
    ghost var t, e := b[..], NoisePoly(o, eta, coins, nonce);
    PolyNoise(b, o, eta, coins, nonce, true);
    SumIsAdd(t, e, 3328, 3);
    CongRefl(e);
    CongAddSeq(t, InvNtt(d), e, e);
  }

  /** Row i of u, reduced: the part of `indcpa_enc` and `indcpa_enc_cmp` before the row is used. */
  method ComputeU(b: array<int16>, v: seq<array<int16>>, o: Oracles, k: nat, i: nat, seed: seq<byte>, coins: seq<byte>,
      nonce: nat)
    requires IsRank(k) && b.Length == 256 && b !in v && MatrixReady(o, k, seed) && i < k && nonce == k + i
    requires Holds(v, NttVector(NoiseVector(o, k, Eta1(k), coins, 0)))
    modifies b
    ensures CongSeq(b[..], CipherU(MatrixA(o, k, seed), NoiseVector(o, k, Eta1(k), coins, 0),
        NoiseVector(o, k, 2, coins, k), k)[i])
    ensures Bounded(b[..], 1664)
  {
    hide CongSeq, Dot, InvNtt, MatrixReady, NoisePoly, Add, Holds, MatrixA, Transpose, Centred;
    ghost var y := NoiseVector(o, k, Eta1(k), coins, 0);
    RowPlusNoise(b, v, o, k, i, seed, true, 2, coins, nonce, NttVector(y));
    ghost var s := b[..];
    PolyReduce(b);
    CongSeqTrans(b[..], s, CipherU(MatrixA(o, k, seed), y, NoiseVector(o, k, 2, coins, k), k)[i]);
  }

  /** One polynomial of the public key, loaded and multiplied into r. */
  method KeyMultiply(r: array<int16>, b: array<int16>, a: array<int16>, pk: seq<byte>, i: nat, add: bool)
    requires r.Length == b.Length == a.Length == 256 && b != a && b != r && 384 * i + 384 <= |pk|
        && Bounded(a[..], 1664)
    modifies r, b
    ensures var x := BytesToPoly(pk[384 * i..384 * i + 384]);
            GrowsBy(x, old(a[..]), 3536) && r[..] == MontMul(add, old(r[..]), x, old(a[..]))
  {
    hide Operands, SmallOperands, MontMul, BytesToPoly, Bounded;
    PolyLoad(b, pk, 384 * i);
    OperandsOk(b[..], a[..]);
    PolyBasemul(r, b, a, add);
  }

  /**
   `poly_frombytes` and `poly_basemul` for each polynomial of the public key, summed up in v[0], which is an operand
   too.
   */
  method KeyProduct(v: seq<array<int16>>, b: array<int16>, k: nat, pk: seq<byte>, ghost y: seq<Vec>)
    requires IsRank(k) && b.Length == 256 && b !in v && |pk| >= 384 * k && |y| == k && Holds(v, y)
    modifies v[0], b
    ensures CongSeq(Scale(0x1_0000, v[0][..]), Dot(DecodeVector(pk, k), y, k)) && Bounded(v[0][..], 14144)
  {
    hide CongSeq, Scale, Dot, MontMul, BytesToPoly, DecodeVector, Operands, SmallOperands, Bounded;
    ghost var x := DecodeVector(pk, k);
    forall j | 0 <= j < k ensures CongSeq(x[j], x[j]) { CongRefl(x[j]); }
    KeyPiece(pk, k, 0);
    ghost var r0 := v[0][..];
    KeyMultiply(v[0], b, v[0], pk, 0, false);
    AccumulateFirst(r0, x, y, BytesToPoly(pk[0..384]), r0, 3536);
    var i: nat := 1;
    while i < k
      invariant 1 <= i <= k
      invariant forall j :: 1 <= j < k ==> CongSeq(v[j][..], y[j]) && Bounded(v[j][..], 1664)
      invariant CongSeq(Scale(0x1_0000, v[0][..]), Dot(x, y, i)) && Bounded(v[0][..], 3536 * i)
    {
      KeyPiece(pk, k, i);
      OneOfK(k, i);
      r0 := v[0][..];
      KeyMultiply(v[0], b, v[i], pk, i, true);
      AccumulateNext(r0, x, y, i, BytesToPoly(pk[384 * i..384 * i + 384]), v[i][..], 3536 * i, 3536);
      i := i + 1;
    }
    OneOfK(k, k - 1);
    BoundedMore(v[0][..], 3536 * k, 14144);
  }

  lemma BoundedMore(s: seq<int>, m: int, n: int)
    requires Bounded(s, m) && m <= n
    ensures Bounded(s, n)
  {
  }

  lemma KeyPiece(pk: seq<byte>, k: nat, i: nat)
    requires |pk| >= 384 * k && i < k
    ensures DecodeVector(pk, k)[i] == BytesToPoly(pk[384 * i..384 * i + 384])
  {
    hide BytesToPoly;
  }

  /** The second half of `indcpa_enc` and `indcpa_enc_cmp` up to the use of v, which is v[0]. */
  method ComputeV(v: seq<array<int16>>, b: array<int16>, o: Oracles, k: nat, pk: seq<byte>, m: seq<byte>,
      coins: seq<byte>, nonce: nat)
    requires IsRank(k) && b.Length == 256 && b !in v && |pk| == 384 * k + 32 && |m| == 32 && nonce == 2 * k
    requires Holds(v, NttVector(NoiseVector(o, k, Eta1(k), coins, 0)))
    modifies v[0], b
    ensures CongSeq(v[0][..], CipherV(DecodeVector(pk, k), NoiseVector(o, k, Eta1(k), coins, 0),
        NoisePoly(o, 2, coins, 2 * k), CipherToPoly(1, m)))
    ensures Bounded(v[0][..], 1664)
  {
    hide CongSeq, Scale, Dot, InvNtt, NoisePoly, Add, Sum16, Holds, DecodeVector, CipherToPoly, Centred;
    ghost var y := NoiseVector(o, k, Eta1(k), coins, 0);
    assert Polys(v, k) by { HoldsPolys(v, NttVector(y)); }
    ghost var d := Dot(DecodeVector(pk, k), NttVector(y), k);
    KeyProduct(v, b, k, pk, NttVector(y));
    ghost var s := v[0][..];
    InvNttInPlace(v[0]);
    FactorsCancel(s, d, v[0][..]);
    ghost var t, e := v[0][..], NoisePoly(o, 2, coins, nonce);
    PolyNoise(v[0], o, 2, coins, nonce, true);
    SumIsAdd(t, e, 3328, 3);
    CongRefl(e);
    CongAddSeq(t, InvNtt(d), e, e);
    ghost var w, mu := v[0][..], CipherToPoly(1, m);
    PolyFromMsg(b, m);
    PolyAdd(v[0], v[0], b);
    SumIsAdd(w, mu, 3331, 3328);
    CongRefl(mu);
    CongAddSeq(w, Add(InvNtt(d), e), mu, mu);
    ghost var z := v[0][..];
    PolyReduce(v[0]);
    CongSeqTrans(v[0][..], z, Add(Add(InvNtt(d), e), mu));
  }

  lemma HoldsPolys(v: seq<array<int16>>, x: seq<Vec>)
    requires Holds(v, x)
    ensures Polys(v, |x|)
  {
  }

  // ----- encryption, and the comparison with a given ciphertext

  /** Compression only sees the residue modulo Q. */
  lemma CipherCong(d: nat, a: seq<int>, b: seq<int>)
    requires IsWidth(d) && |a| == |b| == 256 && CongSeq(a, b)
    ensures PolyToCipher(d, a) == PolyToCipher(d, b)
  {
    hide CompressTo, Cong;
    forall i | 0 <= i < 256 ensures a[i] % Q == b[i] % Q { CongIffMod(a[i], b[i]); }
    assert CompressAll(d, a) == CompressAll(d, b);
  }

  ghost function PartsU(u: seq<Vec>, k: nat): (p: seq<seq<byte>>)
    requires IsRank(k) && |u| == k && IsVector(u)
    ensures |p| == k && Pieces(p, 32 * Du(k)) && IsWidth(Du(k)) && forall i :: 0 <= i < k ==>
          p[i] == PolyToCipher(Du(k), u[i])
  {
    Widths(k);
    seq(k, i requires 0 <= i < k => PolyToCipher(Du(k), u[i]))
  }

  lemma EncodeCipherIs(u: seq<Vec>, v: Vec, k: nat)
    requires IsRank(k) && |u| == k && IsVector(u) && |v| == 256
    ensures IsWidth(Dv(k)) && EncodeCipher(u, v, k) == Join(PartsU(u, k), 32 * Du(k)) + PolyToCipher(Dv(k), v)
  {
    hide PolyToCipher, Join;
    assert PartsU(u, k) == seq(k, i requires 0 <= i < k => PolyToCipher(Du(k), u[i]));
  }

  lemma PieceFits(k: nat, i: nat)
    requires IsRank(k) && i < k
    ensures Du(k) in {10, 11} && Dv(k) in {4, 5}
    ensures 32 * Du(k) * i + 32 * Du(k) <= 32 * Du(k) * k && 32 * Du(k) * k + 32 * Dv(k) == CipherBytes(k)
    ensures 32 * Du(k) * (i + 1) == 32 * Du(k) * i + 32 * Du(k)
  {
  }

  /** The u of a ciphertext, as `indcpa_enc` computes it for a public seed. */
  ghost function SentU(o: Oracles, k: nat, seed: seq<byte>, coins: seq<byte>): (u: seq<Vec>)
    requires IsRank(k) && MatrixReady(o, k, seed)
    ensures |u| == k && IsVector(u)
  {
    CipherU(MatrixA(o, k, seed), NoiseVector(o, k, Eta1(k), coins, 0), NoiseVector(o, k, 2, coins, k), k)
  }

  ghost function SentV(o: Oracles, k: nat, pk: seq<byte>, m: seq<byte>, coins: seq<byte>): (v: Vec)
    requires IsRank(k) && |pk| >= 384 * k && |m| == 32
    ensures |v| == 256
  {
    CipherV(DecodeVector(pk, k), NoiseVector(o, k, Eta1(k), coins, 0), NoisePoly(o, 2, coins, 2 * k),
        CipherToPoly(1, m))
  }

  lemma EncryptIs(o: Oracles, k: nat, pk: seq<byte>, m: seq<byte>, coins: seq<byte>)
    requires IsRank(k) && |pk| == 384 * k + 32 && |m| == 32 && MatrixReady(o, k, pk[384 * k..])
    ensures Encrypt(o, k, pk, m, coins) == EncodeCipher(SentU(o, k, pk[384 * k..], coins), SentV(o, k, pk, m, coins), k)
  {
    hide CipherU, CipherV, NoiseVector, NoisePoly, MatrixA, DecodeVector, CipherToPoly, EncodeCipher;
  }

  /** A byte buffer and some polynomials do not overlap: in the C code they are different local or argument arrays. */
  ghost predicate Apart(c: object, b: array<int16>, v: seq<array<int16>>) {
    c != b && forall i :: 0 <= i < |v| ==> c != v[i]
  }

  /** The first loop of `indcpa_enc` after sampling: one row of u at a time goes through b into the ciphertext. */
  method SendU(c: array<byte>, b: array<int16>, sp: seq<array<int16>>, o: Oracles, k: nat, seed: seq<byte>,
      coins: seq<byte>)
    requires IsRank(k) && c.Length == CipherBytes(k) && MatrixReady(o, k, seed)
    requires Polys(sp, k) && b.Length == 256 && b !in sp && Holds(sp, NttVector(NoiseVector(o, k, Eta1(k), coins, 0)))
    requires Apart(c, b, sp)
    modifies c, b
    ensures Spliced(old(c[..]), 0, Join(PartsU(SentU(o, k, seed, coins), k), 32 * Du(k)), c[..])
    ensures Holds(sp, NttVector(NoiseVector(o, k, Eta1(k), coins, 0)))
  {
    hide PolyToCipher, Join, Spliced, CipherU, NoiseVector, NoisePoly, MatrixA, MatrixReady, NttVector, CongSeq, Holds,
        Bounded,
         Du, CipherBytes, PartsU, Polys;
    ghost var y := NoiseVector(o, k, Eta1(k), coins, 0);
    ghost var u := SentU(o, k, seed, coins);
    ghost var p, c0 := PartsU(u, k), c[..];
    SplicedNone(c0, 0);
    JoinNone(p, 32 * Du(k));
    var i: nat := 0;
    while i < k
      invariant i <= k && |Join(p[..i], 32 * Du(k))| == 32 * Du(k) * i
      invariant Spliced(c0, 0, Join(p[..i], 32 * Du(k)), c[..])
      invariant Holds(sp, NttVector(y))
    {
      PieceFits(k, i);
      ComputeU(b, sp, o, k, i, seed, coins, k + i);
      CipherCong(Du(k), b[..], u[i]);
      ghost var s := c[..];
      BoundedMore(b[..], 1664, 3328);
      PolyCompress(c, 32 * Du(k) * i, Du(k), b[..]);
      NextPiece(c0, p, 32 * Du(k), i, s, c[..]);
      i := i + 1;
    }
    assert p[..k] == p;
  }

  /** The second half of `indcpa_enc`: v follows the compressed u. */
  method SendV(c: array<byte>, b: array<int16>, sp: seq<array<int16>>, o: Oracles, k: nat, pk: seq<byte>, m: seq<byte>,
      coins: seq<byte>,
               ghost c0: seq<byte>, ghost u: seq<Vec>)
    requires IsRank(k) && c.Length == |c0| == CipherBytes(k) && |pk| == 384 * k + 32 && |m| == 32 && |u| == k
        && IsVector(u)
    requires Polys(sp, k) && b.Length == 256 && b !in sp && Holds(sp, NttVector(NoiseVector(o, k, Eta1(k), coins, 0)))
    requires Apart(c, b, sp) && Spliced(c0, 0, Join(PartsU(u, k), 32 * Du(k)), c[..])
    modifies c, b, sp[0]
    ensures c[..] == EncodeCipher(u, SentV(o, k, pk, m, coins), k)
  {
    hide PolyToCipher, Join, Spliced, SentV, NoiseVector, NttVector, CongSeq, Holds, Bounded, Du, Dv, CipherBytes,
        EncodeCipher,
         PartsU, CipherV, DecodeVector, NoisePoly, CipherToPoly;
    PieceFits(k, 0);
    ComputeV(sp, b, o, k, pk, m, coins, 2 * k);
    SentVIs(o, k, pk, m, coins);
    ghost var s := c[..];
    BoundedMore(sp[0][..], 1664, 3328);
    PolyCompress(c, 32 * Du(k) * k, Dv(k), sp[0][..]);
    CipherDone(c0, u, SentV(o, k, pk, m, coins), k, s, c[..], sp[0][..]);
  }

  lemma CipherDone(c0: seq<byte>, u: seq<Vec>, v: Vec, k: nat, s: seq<byte>, t: seq<byte>, x: seq<int16>)
    requires IsRank(k) && |c0| == CipherBytes(k) && |u| == k && IsVector(u) && |v| == |x| == 256 && CongSeq(x, v)
    requires Spliced(c0, 0, Join(PartsU(u, k), 32 * Du(k)), s) && |s| == CipherBytes(k)
        && 32 * Du(k) * k + 32 * Dv(k) == |s| && IsWidth(Dv(k))
    requires t == s[..32 * Du(k) * k] + PolyToCipher(Dv(k), x) + s[32 * Du(k) * k + 32 * Dv(k)..]
    ensures t == EncodeCipher(u, v, k)
  {
    hide PolyToCipher, Join, Spliced, CongSeq, Du, Dv, CipherBytes, EncodeCipher, PartsU;
    EncodeCipherIs(u, v, k);
    CipherCong(Dv(k), x, v);
    SplicedMore(c0, 0, Join(PartsU(u, k), 32 * Du(k)), PolyToCipher(Dv(k), v), s, t);
    SplicedAll(c0, EncodeCipher(u, v, k), t);
  }

  /** `indcpa_enc`. */
  method IndcpaEnc(c: array<byte>, o: Oracles, k: nat, m: seq<byte>, pk: seq<byte>, coins: seq<byte>)
    requires IsRank(k) && |pk| == 384 * k + 32 && |m| == 32 && c.Length == CipherBytes(k)
        && MatrixReady(o, k, pk[384 * k..])
    modifies c
    ensures c[..] == Encrypt(o, k, pk, m, coins)
  {
    hide Join, Spliced, SentU, SentV, NoiseVector, MatrixReady, NttVector, Holds, Du, CipherBytes, EncodeCipher,
        Encrypt, PartsU;
    ghost var c0 := c[..];
    var seed := pk[384 * k..];
    var sp := NewPolys(k);
    var b := new int16[256];
    NoiseNtt(sp, o, k, Eta1(k), coins);
    SendU(c, b, sp, o, k, seed, coins);
    SendV(c, b, sp, o, k, pk, m, coins, c0, SentU(o, k, seed, coins));
    EncryptIs(o, k, pk, m, coins);
  }

  lemma SentVIs(o: Oracles, k: nat, pk: seq<byte>, m: seq<byte>, coins: seq<byte>)
    requires IsRank(k) && |pk| >= 384 * k && |m| == 32
    ensures SentV(o, k, pk, m, coins)
         == CipherV(DecodeVector(pk, k), NoiseVector(o, k, Eta1(k), coins, 0), NoisePoly(o, 2, coins, 2 * k),
             CipherToPoly(1, m))
  {
    hide CipherV, DecodeVector, NoiseVector, NoisePoly, CipherToPoly;
  }

  /** A piece stored behind the pieces before it. */
  lemma NextPiece(r0: seq<byte>, p: seq<seq<byte>>, w: nat, i: nat, s: seq<byte>, t: seq<byte>)
    requires Pieces(p, w) && i < |p| && |r0| == |s| && Spliced(r0, 0, Join(p[..i], w), s)
    requires w * i + w <= |s| && t == s[..w * i] + p[i] + s[w * i + w..]
    ensures Spliced(r0, 0, Join(p[..i + 1], w), t)
    ensures |Join(p[..i + 1], w)| == w * (i + 1) == w * i + w
  {
    hide Join, Spliced;
    JoinNext(p, w, i);
    assert |Join(p[..i], w)| == i * w == w * i;
    SplicedMore(r0, 0, Join(p[..i], w), p[i], s, t);
  }

  lemma JoinNone(p: seq<seq<byte>>, m: nat)
    requires Pieces(p, m)
    ensures Join(p[..0], m) == []
  {
  }

  /** `rc |= cmp`, widened. */
  function OrWide(rc: bv64, d: byte): (r: bv64)
    requires rc <= 0xff
    ensures r <= 0xff && (r == 0 <==> rc == 0 && d == 0)
  {
    rc | (d as bv64)
  }

  /** A string is the pieces so far and one more if it is the pieces so far and the rest is that piece. */
  lemma NextPieceEqual(c: seq<byte>, p: seq<seq<byte>>, w: nat, i: nat, e: nat)
    requires Pieces(p, w) && i < |p| && e == w * i && e + w <= |c|
    ensures |Join(p[..i + 1], w)| == w * (i + 1) == e + w
    ensures c[..e + w] == Join(p[..i + 1], w) <==> c[..e] == Join(p[..i], w) && c[e..e + w] == p[i]
  {
    hide Join;
    JoinNext(p, w, i);
    assert |Join(p[..i], w)| == i * w == e && |p[i]| == w;
    SplitEqual(c[..e], Join(p[..i], w), c[e..e + w], p[i]);
    assert c[..e] + c[e..e + w] == c[..e + w];
  }

  /** The first loop of `indcpa_enc_cmp` after sampling: no row of u is ever stored as bytes. */
  method CompareU(ct: seq<byte>, b: array<int16>, sp: seq<array<int16>>, o: Oracles, k: nat, seed: seq<byte>,
      coins: seq<byte>)
    returns (rc: bv64)
    requires IsRank(k) && |ct| == CipherBytes(k) && MatrixReady(o, k, seed)
    requires Polys(sp, k) && b.Length == 256 && b !in sp && Holds(sp, NttVector(NoiseVector(o, k, Eta1(k), coins, 0)))
    modifies b
    ensures rc <= 0xff && 32 * Du(k) * k <= |ct|
    ensures rc == 0 <==> ct[..32 * Du(k) * k] == Join(PartsU(SentU(o, k, seed, coins), k), 32 * Du(k))
    ensures Holds(sp, NttVector(NoiseVector(o, k, Eta1(k), coins, 0)))
  {
    hide PolyToCipher, Join, CipherU, NoiseVector, NoisePoly, MatrixA, MatrixReady, NttVector, CongSeq, Holds, Bounded,
         Du, CipherBytes, PartsU, Polys, OrWide;
    ghost var y := NoiseVector(o, k, Eta1(k), coins, 0);
    ghost var u := SentU(o, k, seed, coins);
    ghost var p := PartsU(u, k);
    JoinNone(p, 32 * Du(k));
    PieceFits(k, 0);
    rc := 0;
    var i: nat := 0;
    while i < k
      invariant i <= k && rc <= 0xff && 0 <= 32 * Du(k) * i <= |ct| && |Join(p[..i], 32 * Du(k))| == 32 * Du(k) * i
      invariant rc == 0 <==> ct[..32 * Du(k) * i] == Join(p[..i], 32 * Du(k))
      invariant Holds(sp, NttVector(y))
    {
      PieceFits(k, i);
      ComputeU(b, sp, o, k, i, seed, coins, k + i);
      CipherCong(Du(k), b[..], u[i]);
      BoundedMore(b[..], 1664, 3328);
      var d := CmpPolyCompress(ct, 32 * Du(k) * i, Du(k), b[..]);
      rc := OrWide(rc, d);
      NextPieceEqual(ct, p, 32 * Du(k), i, 32 * Du(k) * i);
      i := i + 1;
    }
    assert p[..k] == p;
  }

  /** `indcpa_enc_cmp`: 0 exactly if encrypting would produce ct, else 1. */
  method IndcpaEncCmp(ct: seq<byte>, o: Oracles, k: nat, m: seq<byte>, pk: seq<byte>,
      coins: seq<byte>) returns (r: byte)
    requires IsRank(k) && |pk| == 384 * k + 32 && |m| == 32 && |ct| == CipherBytes(k)
        && MatrixReady(o, k, pk[384 * k..])
    ensures r == if ct == Encrypt(o, k, pk, m, coins) then 0 else 1
  {
    hide Join, SentU, SentV, NoiseVector, MatrixReady, NttVector, Holds, Du, Dv, CipherBytes, EncodeCipher, Encrypt,
        PartsU,
         PolyToCipher, CongSeq, Bounded, OrWide, CipherV, DecodeVector, NoisePoly, CipherToPoly;
    var seed := pk[384 * k..];
    var sp := NewPolys(k);
    var b := new int16[256];
    NoiseNtt(sp, o, k, Eta1(k), coins);
    var rc := CompareU(ct, b, sp, o, k, seed, coins);
    PieceFits(k, 0);
    ComputeV(sp, b, o, k, pk, m, coins, 2 * k);
    SentVIs(o, k, pk, m, coins);
    BoundedMore(sp[0][..], 1664, 3328);
    var d := CmpPolyCompress(ct, 32 * Du(k) * k, Dv(k), sp[0][..]);
    CompareDone(SentU(o, k, seed, coins), SentV(o, k, pk, m, coins), k, ct, sp[0][..]);
    EncryptIs(o, k, pk, m, coins);
    rc := OrWide(rc, d);
    r := IsNonzero(rc);
  }

  lemma CompareDone(u: seq<Vec>, v: Vec, k: nat, ct: seq<byte>, x: seq<int16>)
    requires IsRank(k) && |u| == k && IsVector(u) && |v| == |x| == 256 && CongSeq(x, v)
    requires |ct| == CipherBytes(k) && 32 * Du(k) * k + 32 * Dv(k) == |ct| && IsWidth(Dv(k))
    ensures ct == EncodeCipher(u, v, k)
       <==> ct[..32 * Du(k) * k] == Join(PartsU(u, k), 32 * Du(k))
            && ct[32 * Du(k) * k..32 * Du(k) * k + 32 * Dv(k)] == PolyToCipher(Dv(k), x)
  {
    hide PolyToCipher, Join, CongSeq, Du, Dv, CipherBytes, EncodeCipher, PartsU;
    EncodeCipherIs(u, v, k);
    CipherCong(Dv(k), x, v);
    var e := 32 * Du(k) * k;
    SplitEqual(ct[..e], Join(PartsU(u, k), 32 * Du(k)), ct[e..], PolyToCipher(Dv(k), v));
    assert ct == ct[..e] + ct[e..] && ct[e..] == ct[e..e + 32 * Dv(k)];
  }

  // ----- key generation

  /** Storing any centred representative stores the canonical one. */
  lemma StoreCong(x: seq<int16>, t: Vec)
    requires |x| == |t| == 256 && Bounded(x, 1664) && CongSeq(x, t)
    ensures Positivable(x) && PolyToBytes(x) == Encode12(t)
  {
    hide Cong;
    forall i | 0 <= i < 256 ensures ToPositive(x[i]) == ToPositive(t[i] % Q) {
      CongIffMod(x[i], t[i]);
      ToPositiveIs(x[i]);
    }
    assert Positive(x) == Positive(Canonical(t));
  }

  ghost function Parts12(v: seq<Vec>): (p: seq<seq<byte>>)
    requires IsVector(v)
    ensures |p| == |v| && Pieces(p, 384) && forall i :: 0 <= i < |v| ==> p[i] == Encode12(v[i])
  {
    seq(|v|, i requires 0 <= i < |v| => Encode12(v[i]))
  }

  lemma EncodeVectorIs(v: seq<Vec>)
    requires IsVector(v)
    ensures EncodeVector(v) == Join(Parts12(v), 384)
  {
    hide Encode12, Join;
    assert Parts12(v) == seq(|v|, i requires 0 <= i < |v| => Encode12(v[i]));
  }

  /**
   One polynomial of the public key: the inverse transform and the transform cancel, and no Montgomery factor is left.
   */
  method PublicRow(b: array<int16>, v: seq<array<int16>>, o: Oracles, k: nat, i: nat, publicSeed: seq<byte>,
      noiseSeed: seq<byte>, ghost coins: seq<byte>)
    requires publicSeed == Rho(o, coins) && noiseSeed == Sigma(o, coins)
    requires IsRank(k) && b.Length == 256 && b !in v && MatrixReady(o, k, Rho(o, coins)) && i < k
    requires Holds(v, NttVector(SecretS(o, k, coins)))
    modifies b
    ensures CongSeq(b[..], PublicT(MatrixA(o, k, Rho(o, coins)), SecretS(o, k, coins), SecretE(o, k, coins), k)[i])
        && Bounded(b[..], 1664)
  {
    hide CongSeq, Dot, InvNtt, Ntt, MatrixReady, NoisePoly, Add, Holds, MatrixA, Rho, Sigma, Transpose, Centred;
    ghost var s, e := NttVector(SecretS(o, k, coins)), NoisePoly(o, Eta1(k), Sigma(o, coins), k + i);
    ghost var d := Dot(MatrixA(o, k, Rho(o, coins))[i], s, k);
    RowPlusNoise(b, v, o, k, i, publicSeed, false, Eta1(k), noiseSeed, k + i, s);
    ghost var x := b[..];
    BoundedMore(x, 3331, 16943);
    PolyNtt(b);
    ghost var y := b[..];
    CongNtt256(x, Add(InvNtt(d), e));
    NttSums(InvNtt(d), e);
    NttOfInvNtt(d);
    CongRefl(Ntt(e));
    CongAddSeq(Ntt(InvNtt(d)), d, Ntt(e), Ntt(e));
    PolyReduce(b);
    CongSeqTrans(b[..], y, Ntt(x));
    CongSeqTrans(b[..], Ntt(x), Add(Ntt(InvNtt(d)), Ntt(e)));
    CongSeqTrans(b[..], Add(Ntt(InvNtt(d)), Ntt(e)), Add(d, Ntt(e)));
  }

  /** The loop of `indcpa_keypair_derand` over the rows. */
  method StorePublic(pk: array<byte>, b: array<int16>, v: seq<array<int16>>, o: Oracles, k: nat, publicSeed: seq<byte>,
      noiseSeed: seq<byte>, ghost coins: seq<byte>)
    requires publicSeed == Rho(o, coins) && noiseSeed == Sigma(o, coins)
    requires IsRank(k) && pk.Length >= 384 * k && MatrixReady(o, k, Rho(o, coins))
    requires b.Length == 256 && b !in v && Apart(pk, b, v) && Holds(v, NttVector(SecretS(o, k, coins)))
    modifies pk, b
    ensures Spliced(old(pk[..]), 0, EncodeVector(PublicT(MatrixA(o, k, Rho(o, coins)), SecretS(o, k, coins),
        SecretE(o, k, coins), k)), pk[..])
    ensures Holds(v, NttVector(SecretS(o, k, coins)))
  {
    hide Join, Spliced, PublicT, SecretS, SecretE, Rho, Sigma, MatrixA, MatrixReady, NttVector, CongSeq, Holds, Bounded,
        Parts12, EncodeVector,
         Encode12, PolyToBytes, Positivable;
    ghost var t := PublicT(MatrixA(o, k, Rho(o, coins)), SecretS(o, k, coins), SecretE(o, k, coins), k);
    ghost var p, r0 := Parts12(t), pk[..];
    SplicedNone(r0, 0);
    JoinNone(p, 384);
    var i: nat := 0;
    while i < k
      invariant i <= k && |Join(p[..i], 384)| == 384 * i && Spliced(r0, 0, Join(p[..i], 384), pk[..])
      invariant Holds(v, NttVector(SecretS(o, k, coins)))
    {
      PublicRow(b, v, o, k, i, publicSeed, noiseSeed, coins);
      StoreCong(b[..], t[i]);
      ghost var s := pk[..];
      PolyStore(pk, 384 * i, b[..]);
      NextPiece(r0, p, 384, i, s, pk[..]);
      i := i + 1;
    }
    assert p[..k] == p;
    EncodeVectorIs(t);
  }

  /** `polyvec_tobytes`. */
  method StoreVector(r: array<byte>, v: seq<array<int16>>, ghost x: seq<Vec>)
    requires r.Length >= 384 * |x| && Holds(v, x) && forall i :: 0 <= i < |v| ==> r as object != v[i]
    modifies r
    ensures Spliced(old(r[..]), 0, EncodeVector(x), r[..])
  {
    hide Join, Spliced, CongSeq, Bounded, Parts12, EncodeVector, Encode12, PolyToBytes, Positivable;
    ghost var p, r0 := Parts12(x), r[..];
    SplicedNone(r0, 0);
    JoinNone(p, 384);
    var i: nat := 0;
    while i < |v|
      invariant i <= |v| && |Join(p[..i], 384)| == 384 * i && Spliced(r0, 0, Join(p[..i], 384), r[..]) && Holds(v, x)
    {
      StoreCong(v[i][..], x[i]);
      ghost var s := r[..];
      PolyStore(r, 384 * i, v[i][..]);
      NextPiece(r0, p, 384, i, s, r[..]);
      i := i + 1;
    }
    assert p[..|v|] == p;
    EncodeVectorIs(x);
  }

  /** `indcpa_keypair_derand`: the canonical form of A s + e and of s, both transformed. */
  method IndcpaKeypairDerand(pk: array<byte>, sk: array<byte>, o: Oracles, k: nat, coins: seq<byte>)
    requires IsRank(k) && pk != sk && pk.Length == 384 * k + 32 && sk.Length >= 384 * k
        && MatrixReady(o, k, Rho(o, coins))
    modifies pk, sk
    ensures pk[..] == PublicKey(o, k, coins) && pk[384 * k..] == o.g(coins)[..32]
    ensures sk[..] == SecretKey(o, k, coins) + old(sk[384 * k..])
  {
    hide Join, Spliced, PublicT, SecretS, SecretE, Rho, Sigma, MatrixA, MatrixReady, NttVector, Holds, EncodeVector;
    var buf := o.g(coins);
    var publicSeed, noiseSeed := buf[..32], buf[32..];
    SeedsAre(o, coins);
    ghost var pk0, sk0 := pk[..], sk[..];
    var skpv := NewPolys(k);
    var pkp := new int16[256];
    SecretSIs(o, k, coins);
    NoiseNtt(skpv, o, k, Eta1(k), noiseSeed);
    StorePublic(pk, pkp, skpv, o, k, publicSeed, noiseSeed, coins);
    StoreVector(sk, skpv, NttVector(SecretS(o, k, coins)));
    SplicedIs(sk0, 0, SecretKey(o, k, coins), sk[..]);
    SplicedIs(pk0, 0, EncodeVector(PublicT(MatrixA(o, k, Rho(o, coins)), SecretS(o, k, coins), SecretE(o, k, coins),
        k)), pk[..]);
    WriteBytes(pk, 384 * k, publicSeed);
  }

  lemma SeedsAre(o: Oracles, coins: seq<byte>)
    ensures Rho(o, coins) == o.g(coins)[..32] && Sigma(o, coins) == o.g(coins)[32..]
  {
  }

  lemma SecretSIs(o: Oracles, k: nat, coins: seq<byte>)
    ensures SecretS(o, k, coins) == NoiseVector(o, k, Eta1(k), Sigma(o, coins), 0)
  {
  }

  // ----- decryption

  /** t is r with the product of small operands stored or added. */
  ghost predicate Accumulated(add: bool, r: seq<int16>, x: seq<int16>, y: seq<int16>, t: seq<int16>) {
    |r| == 256 && GrowsBy(x, y, 3536) && t == MontMul(add, r, x, y)
  }

  /** One polynomial of u: decompressed, transformed and multiplied with its part of the secret key. */
  method SecretMultiply(r: array<int16>, b: array<int16>, k: nat, c: seq<byte>, sk: seq<byte>, i: nat, add: bool)
    requires IsRank(k) && r.Length == b.Length == 256 && r != b && |c| == CipherBytes(k) && |sk| >= 384 * k && i < k
    modifies r, b
    ensures CongSeq(b[..], NttVector(DecodeU(c, k))[i])
    ensures Accumulated(add, old(r[..]), BytesToPoly(sk[384 * i..384 * i + 384]), b[..], r[..])
  {
    hide CongSeq, Ntt, BytesToPoly, CipherToPoly, Operands, SmallOperands, MontMul, CipherBytes, Du, Bounded;
    PieceFits(k, i);
    PolyDecompress(b, Du(k), c, 32 * Du(k) * i);
    BoundedMore(b[..], 3328, 16943);
    PolyNtt(b);
    PolyLoadBasemul(r, b, sk, 384 * i, add);
  }

  /** `indcpa_dec`, into the first 32 bytes of m. */
  method IndcpaDec(m: array<byte>, k: nat, c: seq<byte>, sk: seq<byte>)
    requires IsRank(k) && m.Length >= 32 && |c| == CipherBytes(k) && |sk| >= 384 * k
    modifies m
    ensures m[..] == Decrypt(k, sk, c) + old(m[32..])
  {
    hide CongSeq, Scale, Dot, DecodeVector, DecodeU, BytesToPoly, Operands, SmallOperands, MontMul, NttVector,
        CipherBytes, Bounded, InvNtt, CipherToPoly,
         PolyToCipher, Du, Dv, Sub, Difference16, Centred;
    ghost var x, y := DecodeVector(sk, k), NttVector(DecodeU(c, k));
    forall j | 0 <= j < k ensures CongSeq(x[j], x[j]) { CongRefl(x[j]); }
    var mp, bp := new int16[256], new int16[256];
    ghost var r0 := mp[..];
    KeyPiece(sk, k, 0);
    SecretMultiply(mp, bp, k, c, sk, 0, false);
    AccumulateFirst(r0, x, y, BytesToPoly(sk[0..384]), bp[..], 3536);
    var i: nat := 1;
    while i < k
      invariant 1 <= i <= k
      invariant CongSeq(Scale(0x1_0000, mp[..]), Dot(x, y, i)) && Bounded(mp[..], 3536 * i) && m[..] == old(m[..])
    {
      KeyPiece(sk, k, i);
      OneOfK(k, i);
      r0 := mp[..];
      SecretMultiply(mp, bp, k, c, sk, i, true);
      AccumulateNext(r0, x, y, i, BytesToPoly(sk[384 * i..384 * i + 384]), bp[..], 3536 * i, 3536);
      i := i + 1;
    }
    OneOfK(k, k - 1);
    BoundedMore(mp[..], 3536 * k, 16383);
    ghost var s := mp[..];
    InvNttInPlace(mp);
    FactorsCancel(s, Dot(x, y, k), mp[..]);
    ghost var t := mp[..];
    PieceFits(k, 0);
    PolyDecompress(bp, Dv(k), c, 32 * Du(k) * k);
    assert c[32 * Du(k) * k..32 * Du(k) * k + 32 * Dv(k)] == c[32 * Du(k) * k..];
    ghost var v := bp[..];
    PolySub(mp, bp, mp);
    SumIsAdd(v, t, 3328, 3328);
    CongRefl(v);
    CongAddSeq(v, v, t, InvNtt(Dot(x, y, k)));
    ghost var w := mp[..];
    PolyReduce(mp);
    CongSeqTrans(mp[..], w, Phase(x, DecodeU(c, k), DecodeV(c, k)));
    CipherCong(1, mp[..], Phase(x, DecodeU(c, k), DecodeV(c, k)));
    PolyToMsg(m, mp[..]);
  }
}
