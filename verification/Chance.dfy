/**
 Hash functions for which decryption fails, and for which the failure goes unnoticed because every message has the same
 shared key: the noise bound matters, and it is not necessary for the two parties to agree.
 */
module Chance {
  import opened Modular
  import opened Ring
  import opened Compress
  import opened Bytes
  import opened NttMath
  import opened Vectors
  import opened Cbd
  import opened Sample
  import opened Kpke
  import opened Correctness
  import opened Kem

  // ----- the hash functions

  function Fill(n: nat, b: byte): (s: seq<byte>)
    ensures |s| == n
  {
    seq(n, _ => b)
  }

  /** Key generation gets one noise seed, and all messages another one, and the same key. */
  function SeedHash(x: seq<byte>): Bytes64 {
    if |x| == 32 then Fill(32, 0) + Fill(32, 1) else Fill(64, 0)
  }

  function NoHash(x: seq<byte>): Bytes32 {
    Fill(32, 0)
  }

  function NoRejection(z: seq<byte>, c: seq<byte>): Bytes32 {
    Fill(32, 0)
  }

  function Quiet(k: nat): byte {
    0
  }

  /** The bits 111000 over and over. */
  function Loud(k: nat): byte {
    if k % 3 == 0 then 0xc7 else if k % 3 == 1 then 0x71 else 0x1c
  }

  /** Only e (nonces 2 and 3 of the first seed) and y (nonces 0 and 1 of the other one) are loud. */
  function SomeNoise(seed: seq<byte>, nonce: byte): Stream {
    if (seed == Fill(32, 1)) == (Value8(nonce) >= 2) then Loud else Quiet
  }

  function NoMatrix(seed: seq<byte>, x: byte, y: byte): Stream {
    Quiet
  }

  function Unlucky(): Oracles {
    Oracles(SeedHash, NoHash, NoRejection, SomeNoise, NoMatrix)
  }

  // ----- what they sample

  lemma {:induction false} QuietAccepted(n: nat)
    ensures |Accepted(Quiet, n)| == n
  {
    hide Candidate;
    if n > 0 {
      QuietAccepted(n - 1);
      QuietCandidate(n - 1);
    }
  }

  lemma QuietCandidate(n: nat)
    ensures Candidate(Quiet, n) == 0
  {
    ValueOfNothing();
    hide Value8;
  }

  lemma ValueOfNothing()
    ensures Value8(0) == 0
  {
    ValueOfByte(0);
    assert Byte(0) == 0 by { ByteOfValue(0); assert BitsOf(0) == [0, 0, 0, 0, 0, 0, 0, 0]; }
  }

  lemma UnluckyReady(k: nat, rho: seq<byte>)
    ensures MatrixReady(Unlucky(), k, rho)
  {
    QuietAccepted(256);
    assert Sampleable(Quiet);
  }

  lemma BitSumZero(b: seq<byte>, o: nat, n: nat)
    requires o + n <= 8 * |b| && forall k :: o <= k < o + n ==> StreamBit(b, k) == 0
    ensures BitSum(b, o, n) == 0
  {
  }

  lemma NoiseAt(eta: nat, b: seq<byte>, i: nat, o: nat)
    requires eta in {2, 3} && |b| == 64 * eta && i < 256 && o == 2 * i * eta
    ensures o + 2 * eta <= 8 * |b| && Noise(eta, b)[i] == BitSum(b, o, eta) - BitSum(b, o + eta, eta)
  {
    hide BitSum;
    NoiseRange(eta, i);
  }

  lemma QuietBit(n: nat, k: nat)
    requires k < 8 * n
    ensures StreamBit(Take(Quiet, n), k) == 0
  {
    assert BitsOf(0) == [0, 0, 0, 0, 0, 0, 0, 0];
    assert Take(Quiet, n)[k / 8] == Quiet(k / 8) == 0;
    hide BitsOf;
  }

  lemma QuietNoise(eta: nat)
    requires eta in {2, 3}
    ensures Noise(eta, Take(Quiet, 64 * eta)) == Zero(256)
  {
    hide StreamBit, BitSum, Noise, Take;
    var b := Take(Quiet, 64 * eta);
    forall k: nat | k < 8 * |b| ensures StreamBit(b, k) == 0 {
      QuietBit(64 * eta, k);
    }
    forall i | 0 <= i < 256 ensures Noise(eta, b)[i] == 0 {
      var o: nat := if eta == 2 then 4 * i else 6 * i;
      NoiseAt(eta, b, i, o);
      BitSumZero(b, o, eta);
      BitSumZero(b, o + eta, eta);
    }
  }

  /** The polynomial with all coefficients 3. */
  function Threes(): (a: Vec)
    ensures |a| == 256
  {
    seq(256, _ => 3)
  }

  lemma LoudBit(k: nat)
    requires k < 1536
    ensures StreamBit(Take(Loud, 192), k) == if k % 6 < 3 then 1 else 0
  {
    assert BitsOf(0xc7) == [1, 1, 1, 0, 0, 0, 1, 1];
    assert BitsOf(0x71) == [1, 0, 0, 0, 1, 1, 1, 0];
    assert BitsOf(0x1c) == [0, 0, 1, 1, 1, 0, 0, 0];
    hide BitsOf;
    var q, j := k / 8, k % 8;
    var u, r := q / 3, q % 3;
    assert q == 3 * u + r && k == 8 * q + j;
    assert k == 24 * u + (8 * r + j);
    SixPart(k, 8 * r + j, u);
    LoudByte(q);
    hide Take;
    SixBits(r, j);
  }

  lemma LoudByte(q: nat)
    requires q < 192
    ensures Take(Loud, 192)[q] == if q % 3 == 0 then 0xc7 else if q % 3 == 1 then 0x71 else 0x1c
  {
    assert Take(Loud, 192)[q] == Loud(q);
  }

  lemma LoudBitAt(i: nat, c: nat)
    requires i < 256 && c < 6
    ensures StreamBit(Take(Loud, 192), 6 * i + c) == if c < 3 then 1 else 0
  {
    hide StreamBit, Take;
    LoudBit(6 * i + c);
    Remainder(6 * i + c, c, 6, i);
  }

  lemma SixPart(k: nat, n: nat, u: nat)
    requires k == 24 * u + n && n < 24
    ensures k % 6 == n % 6
  {
    var v, r := n / 6, n % 6;
    assert n == 6 * v + r;
    SixMore(k, u, v, r);
  }

  lemma SixMore(k: nat, u: nat, v: nat, r: nat)
    requires k == 24 * u + (6 * v + r) && r < 6
    ensures k % 6 == r
  {
    Remainder(k, r, 6, 4 * u + v);
  }

  lemma SixBits(r: nat, j: nat)
    requires r < 3 && j < 8
    ensures ((8 * r + j) % 6 < 3) == (if r == 0 then j in {0, 1, 2, 6, 7} else if r == 1 then j in {0, 4, 5, 6}
    else j in {2, 3, 4})
  {
  }

  lemma LoudCoefficient(b: seq<byte>, i: nat)
    requires b == Take(Loud, 192) && i < 256
    ensures Noise(3, b)[i] == 3
  {
    hide StreamBit, BitSum, Noise, Take;
    LoudBitAt(i, 0);
    LoudBitAt(i, 1);
    LoudBitAt(i, 2);
    LoudBitAt(i, 3);
    LoudBitAt(i, 4);
    LoudBitAt(i, 5);
    var o := 6 * i;
    LoudSums(b, o);
    NoiseAt(3, b, i, o);
  }

  lemma LoudNoise()
    ensures Noise(3, Take(Loud, 192)) == Threes()
  {
    hide Noise, Take;
    var b := Take(Loud, 192);
    forall i | 0 <= i < 256 ensures Noise(3, b)[i] == 3 {
      LoudCoefficient(b, i);
    }
  }

  lemma LoudSums(b: seq<byte>, o: nat)
    requires o + 6 <= 8 * |b|
    requires StreamBit(b, o) == 1 && StreamBit(b, o + 1) == 1 && StreamBit(b, o + 2) == 1
    requires StreamBit(b, o + 3) == 0 && StreamBit(b, o + 4) == 0 && StreamBit(b, o + 5) == 0
    ensures BitSum(b, o, 3) == 3 && BitSum(b, o + 3, 3) == 0
  {
    hide StreamBit;
    BitSum3(b, o);
    BitSum3(b, o + 3);
  }

  lemma NonceIs(n: nat)
    requires n < 256
    ensures Value8(Byte(n)) == n
  {
    hide Value8, Byte;
    ValueOfByte(n);
  }

  lemma PolyIs(eta: nat, seed: seq<byte>, nonce: nat)
    requires eta in {2, 3} && nonce < 256
    ensures (seed == Fill(32, 1)) != (nonce >= 2) ==> NoisePoly(Unlucky(), eta, seed, nonce) == Zero(256)
    ensures (seed == Fill(32, 1)) == (nonce >= 2) && eta == 3 ==> NoisePoly(Unlucky(), eta, seed, nonce) == Threes()
  {
    hide Value8, Byte, Noise, Take;
    NonceIs(nonce);
    QuietNoise(eta);
    LoudNoise();
  }

  lemma SeedsDiffer()
    ensures Fill(32, 0) != Fill(32, 1)
  {
    assert Fill(32, 0)[0] != Fill(32, 1)[0];
  }

  // ----- what becomes of them

  lemma {:induction false} ProductOfThrees(n: nat)
    requires n <= 256
    ensures SchoolbookCoeff(Threes(), Threes(), -1, 255, n) == 9 * n
  {
    if n > 0 {
      ProductOfThrees(n - 1);
    }
  }

  lemma {:induction false} ProductWithZero(a: Vec, k: nat, n: nat)
    requires |a| == 256 && k < 256 && n <= 256
    ensures SchoolbookCoeff(Zero(256), a, -1, k, n) == 0
  {
    if n > 0 {
      ProductWithZero(a, k, n - 1);
    }
  }

  lemma LoudProduct(x: seq<Vec>)
    requires IsVector(x) && x == [Threes(), Threes()]
    ensures DotPoly(x, x, 2)[255] == 4608
  {
    hide PolyMul, SchoolbookCoeff, Threes;
    PolyMulIsSchoolbook(Threes(), Threes());
    ProductOfThrees(256);
    TwoTerms(x, x);
  }

  lemma QuietProduct(x: seq<Vec>, y: seq<Vec>)
    requires IsVector(x) && IsVector(y) && |y| == 2 && x == [Zero(256), Zero(256)]
    ensures DotPoly(x, y, 2)[255] == 0
  {
    hide PolyMul, SchoolbookCoeff, Zero;
    PolyMulIsSchoolbook(Zero(256), y[0]);
    PolyMulIsSchoolbook(Zero(256), y[1]);
    ProductWithZero(y[0], 255, 256);
    ProductWithZero(y[1], 255, 256);
    TwoTerms(x, y);
  }

  lemma TwoTerms(x: seq<Vec>, y: seq<Vec>)
    requires IsVector(x) && IsVector(y) && |x| == |y| == 2
    ensures DotPoly(x, y, 2)[255] == PolyMul(x[0], y[0])[255] + PolyMul(x[1], y[1])[255]
  {
    hide PolyMul;
    assert DotPoly(x, y, 2) == Add(DotPoly(x, y, 1), PolyMul(x[1], y[1]));
    assert DotPoly(x, y, 1) == Add(DotPoly(x, y, 0), PolyMul(x[0], y[0]));
  }

  /** The last coefficient of the noise, but for the compression error of v. */
  lemma LastNoise(s: seq<Vec>, e: seq<Vec>, e1: seq<Vec>, e2: Vec, u: seq<Vec>, uu: seq<Vec>, v: Vec, vv: Vec)
    requires |s| == |e1| == |u| == |uu| == 2 && |v| == |vv| == 256 && IsVector(s) && IsVector(e) && IsVector(e1)
        && IsVector(u) && IsVector(uu)
    requires s == [Zero(256), Zero(256)] && e == [Threes(), Threes()] && e2 == Zero(256)
    ensures DecryptionNoise(s, e, e, e1, e2, u, uu, v, vv)[255] == 4608 + (vv[255] - v[255])
  {
    hide DotPoly;
    LoudProduct(e);
    QuietProduct(s, AddVectors(e1, SubVectors(uu, u)));
  }

  lemma FarOff(x: int, c: int)
    requires x == 4608 + c && -104 <= Centred(c) <= 104
    ensures Centred(x) > 832
  {
    var r := Centred(c);
    CongBy(4608 + r, x, (r - c) / Q);
  }

  lemma VectorIs(o: Oracles, eta: nat, seed: seq<byte>, nonce: nat, a: Vec)
    requires eta in {2, 3} && NoisePoly(o, eta, seed, nonce) == a && NoisePoly(o, eta, seed, nonce + 1) == a
    ensures NoiseVector(o, 2, eta, seed, nonce) == [a, a]
  {
    hide NoisePoly;
    var v: seq<Vec> := NoiseVector(o, 2, eta, seed, nonce);
    assert v[0] == NoisePoly(o, eta, seed, nonce + 0) && v[1] == NoisePoly(o, eta, seed, nonce + 1);
  }

  /** With these hash functions the noise of ML-KEM-512 never fits. */
  lemma NoiseMisses(d: seq<byte>, m: seq<byte>)
    requires |d| == 32 && |m| == 32
    ensures MatrixReady(Unlucky(), 2, Rho(Unlucky(), d)) && !NoiseFits(m, HonestNoise(Unlucky(), 2, d, m, Fill(32, 0)))
  {
    hide Take, Noise, NoisePoly, NoiseVector, Threes, Zero, Encrypt, PublicKey, DecryptionNoise, HonestU, HonestV,
        DecodeU, DecodeV, MatrixReady,
         Centred, MaxError;
    var o, zero := Unlucky(), Fill(32, 0);
    UnluckyReady(2, Rho(o, d));
    SeedsDiffer();
    assert Sigma(o, d) == Fill(32, 1);
    PolyIs(3, Fill(32, 1), 0);
    PolyIs(3, Fill(32, 1), 1);
    PolyIs(3, Fill(32, 1), 2);
    PolyIs(3, Fill(32, 1), 3);
    PolyIs(3, zero, 0);
    PolyIs(3, zero, 1);
    PolyIs(2, zero, 4);
    VectorIs(o, 3, Fill(32, 1), 0, Zero(256));
    VectorIs(o, 3, Fill(32, 1), 2, Threes());
    VectorIs(o, 3, zero, 0, Threes());
    var c := Encrypt(o, 2, PublicKey(o, 2, d), m, zero);
    var v, vv := HonestV(o, 2, d, m, zero), DecodeV(c, 2);
    LastNoise(SecretS(o, 2, d), SecretE(o, 2, d), NoiseVector(o, 2, 2, zero, 2), NoisePoly(o, 2, zero, 4),
              HonestU(o, 2, d, zero), DecodeU(c, 2), v, vv);
    CompressionErrors(o, 2, d, m, zero, 0, 255);
    ErrorOfFour();
    FarOff(HonestNoise(o, 2, d, m, zero)[255], vv[255] - v[255]);
  }

  lemma ErrorOfFour()
    ensures Dv(2) == 4 && MaxError(4) == 104
  {
  }

  /**
   Decryption fails, and still both sides have the same key: the converse of Kem.DecapsulateEncapsulate does not hold.
   */
  lemma KeysAgreeByChance(coins: seq<byte>, m: seq<byte>)
    requires |coins| == 64 && |m| == 32
    ensures var (o, d) := (Unlucky(), coins[..32]);
            && MatrixReady(o, 2, Rho(o, d))
            && !NoiseFits(m, HonestNoise(o, 2, d, m, KeyAndCoins(o, m, o.h(PublicKey(o, 2, d)))[32..]))
    ensures var (o, d) := (Unlucky(), coins[..32]);
            var (ct, ss) := Encapsulate(o, 2, PublicKey(o, 2, d), m);
            Decapsulate(o, 2, ct, DecapsulationKey(o, 2, coins)) == ss
  {
    hide HonestNoise, NoiseFits, MatrixReady, Encrypt, Decrypt, SecretKey, PublicKey;
    var o, d := Unlucky(), coins[..32];
    NoiseMisses(d, m);
    assert KeyAndCoins(o, m, o.h(PublicKey(o, 2, d)))[32..] == Fill(32, 0);
  }
}
