/**
 The public-key encryption scheme underneath ML-KEM, as plain vector algebra (section 5 of FIPS 203,
 with key generation hashing the 32-byte seed alone as the code does), and when decryption succeeds.
 The hash functions are parameters.
 */
module Kpke {
  import opened Modular
  import opened Ring
  import opened Bytes
  import opened NttMath
  import opened Vectors
  import opened Transform
  import opened Codec
  import opened Cbd
  import opened Sample

  type Bytes32 = b: seq<byte> | |b| == 32 witness seq(32, _ => 0)
  type Bytes64 = b: seq<byte> | |b| == 64 witness seq(64, _ => 0)

  /** The symmetric primitives: SHA3-512, SHA3-256, and the three uses of SHAKE. */
  datatype Oracles = Oracles(
    g: seq<byte> -> Bytes64,
    h: seq<byte> -> Bytes32,
    j: (seq<byte>, seq<byte>) -> Bytes32,
    prf: (seq<byte>, byte) -> Stream,
    xof: (seq<byte>, byte, byte) -> Stream)

  // ----- parameter sets (mlkem/params.h)

  predicate IsRank(k: nat) {
    k in {2, 3, 4}
  }

  function Eta1(k: nat): nat {
    if k == 2 then 3 else 2
  }

  function Du(k: nat): nat {
    if k == 4 then 11 else 10
  }

  function Dv(k: nat): nat {
    if k == 4 then 5 else 4
  }

  /** MLKEM_INDCPA_BYTES. */
  function CipherBytes(k: nat): nat {
    32 * (Du(k) * k + Dv(k))
  }

  // ----- sampling

  function Take(s: Stream, n: nat): (b: seq<byte>)
    ensures |b| == n
  {
    seq(n, i requires 0 <= i < n => s(i))
  }

  function NoisePoly(o: Oracles, eta: nat, seed: seq<byte>, nonce: nat): (f: seq<int16>)
    requires eta == 2 || eta == 3
    ensures |f| == 256 && Bounded(f, 3)
  {
    Noise(eta, Take(o.prf(seed, Byte(nonce)), 64 * eta))
  }

  /** k noise polynomials under consecutive nonces. */
  ghost function NoiseVector(o: Oracles, k: nat, eta: nat, seed: seq<byte>, nonce: nat): (v: seq<Vec>)
    requires eta == 2 || eta == 3
    ensures |v| == k && IsVector(v)
  {
    var v: seq<Vec> := seq(k, i requires 0 <= i < k => NoisePoly(o, eta, seed, nonce + i));
    assert forall i :: 0 <= i < k ==> v[i] == NoisePoly(o, eta, seed, nonce + i);
    v
  }

  /** Every matrix entry's stream holds 256 acceptable candidates. */
  ghost predicate MatrixReady(o: Oracles, k: nat, rho: seq<byte>) {
    forall i: nat, j: nat :: i < k && j < k ==> Sampleable(o.xof(rho, Byte(i), Byte(j)))
  }

  /** The public matrix. */
  ghost function MatrixA(o: Oracles, k: nat, rho: seq<byte>): (a: seq<seq<Vec>>)
    requires MatrixReady(o, k, rho)
    ensures IsMatrix(a, k)
  {
    seq(k, i requires 0 <= i < k => seq(k, j requires 0 <= j < k => SampleNtt(o.xof(rho, Byte(j), Byte(i)))))
  }

  ghost function NttVector(v: seq<Vec>): (r: seq<Vec>)
    requires IsVector(v)
    ensures |r| == |v| && IsVector(r)
  {
    seq(|v|, i requires 0 <= i < |v| => Ntt(v[i]))
  }

  // ----- strings of equal pieces

  ghost predicate Pieces(p: seq<seq<byte>>, m: nat) {
    forall i :: 0 <= i < |p| ==> |p[i]| == m
  }

  ghost function Join(p: seq<seq<byte>>, m: nat): (b: seq<byte>)
    requires Pieces(p, m)
    ensures |b| == |p| * m
    decreases |p|
  {
    if |p| == 0 then [] else
      var n := |p| - 1;
      assert |p| * m == n * m + m;
      Join(p[..n], m) + p[n]
  }

  lemma {:induction false} JoinAt(p: seq<seq<byte>>, m: nat, i: nat)
    requires Pieces(p, m) && i < |p|
    ensures i * m + m <= |p| * m && Join(p, m)[i * m..][..m] == p[i]
    decreases |p|
  {
    var n := |p| - 1;
    ScaledLess(i, |p|, m);
    ScaledLess(n, |p|, m);
    var b := Join(p[..n], m);
    assert Join(p, m) == b + p[n];
    if i < n {
      JoinAt(p[..n], m, i);
      assert (b + p[n])[i * m..][..m] == b[i * m..][..m];
    }
  }

  lemma JoinNext(p: seq<seq<byte>>, m: nat, i: nat)
    requires Pieces(p, m) && i < |p|
    ensures Join(p[..i + 1], m) == Join(p[..i], m) + p[i]
  {
    assert p[..i + 1][..i] == p[..i];
  }

  // ----- keys

  /** ByteEncode_12 of the canonical representatives. */
  function Encode12(a: Vec): (b: seq<byte>)
    requires |a| == 256
    ensures |b| == 384
  {
    PolyToBytes(Canonical(a))
  }

  ghost function EncodeVector(v: seq<Vec>): (b: seq<byte>)
    requires IsVector(v)
    ensures |b| == 384 * |v|
  {
    Join(seq(|v|, i requires 0 <= i < |v| => Encode12(v[i])), 384)
  }

  ghost function DecodeVector(b: seq<byte>, k: nat): (v: seq<Vec>)
    requires |b| >= 384 * k
    ensures |v| == k && IsVector(v)
  {
    seq(k, i requires 0 <= i < k => BytesToPoly(b[384 * i..384 * i + 384]))
  }

  function Rho(o: Oracles, coins: seq<byte>): (b: seq<byte>)
    ensures |b| == 32
  {
    o.g(coins)[..32]
  }

  function Sigma(o: Oracles, coins: seq<byte>): (b: seq<byte>)
    ensures |b| == 32
  {
    o.g(coins)[32..]
  }

  ghost function SecretS(o: Oracles, k: nat, coins: seq<byte>): (s: seq<Vec>)
    ensures |s| == k && IsVector(s)
  {
    NoiseVector(o, k, Eta1(k), Sigma(o, coins), 0)
  }

  ghost function SecretE(o: Oracles, k: nat, coins: seq<byte>): (e: seq<Vec>)
    ensures |e| == k && IsVector(e)
  {
    NoiseVector(o, k, Eta1(k), Sigma(o, coins), k)
  }

  /** A s + e, transformed. */
  ghost function PublicT(a: seq<seq<Vec>>, s: seq<Vec>, e: seq<Vec>, k: nat): (t: seq<Vec>)
    requires IsMatrix(a, k) && |s| == |e| == k && IsVector(s) && IsVector(e)
    ensures |t| == k && IsVector(t)
  {
    AddVectors(MatVec(a, NttVector(s), k), NttVector(e))
  }

  ghost function PublicKey(o: Oracles, k: nat, coins: seq<byte>): (pk: seq<byte>)
    requires MatrixReady(o, k, Rho(o, coins))
    ensures |pk| == 384 * k + 32 && pk[384 * k..] == Rho(o, coins)
  {
    EncodeVector(PublicT(MatrixA(o, k, Rho(o, coins)), SecretS(o, k, coins), SecretE(o, k, coins), k)) + Rho(o, coins)
  }

  ghost function SecretKey(o: Oracles, k: nat, coins: seq<byte>): (sk: seq<byte>)
    ensures |sk| == 384 * k
  {
    EncodeVector(NttVector(SecretS(o, k, coins)))
  }

  // ----- encryption and decryption

  /** u = A^T y + e1. */
  ghost function CipherU(a: seq<seq<Vec>>, y: seq<Vec>, e1: seq<Vec>, k: nat): (u: seq<Vec>)
    requires IsMatrix(a, k) && |y| == |e1| == k && IsVector(y) && IsVector(e1)
    ensures |u| == k && IsVector(u)
  {
    seq(k, i requires 0 <= i < k => Add(InvNtt(Dot(Transpose(a, k)[i], NttVector(y), k)), e1[i]))
  }

  /** v = t . y + e2 + mu. */
  ghost function CipherV(t: seq<Vec>, y: seq<Vec>, e2: Vec, mu: Vec): (v: Vec)
    requires |t| == |y| && IsVector(t) && IsVector(y) && |e2| == |mu| == 256
    ensures |v| == 256
  {
    Add(Add(InvNtt(Dot(t, NttVector(y), |t|)), e2), mu)
  }

  ghost function EncodeCipher(u: seq<Vec>, v: Vec, k: nat): (c: seq<byte>)
    requires IsRank(k) && |u| == k && IsVector(u) && |v| == 256
    ensures |c| == CipherBytes(k)
  {
    Join(seq(k, i requires 0 <= i < k => PolyToCipher(Du(k), u[i])), 32 * Du(k)) + PolyToCipher(Dv(k), v)
  }

  ghost function Encrypt(o: Oracles, k: nat, pk: seq<byte>, m: seq<byte>, coins: seq<byte>): (c: seq<byte>)
    requires IsRank(k) && |pk| == 384 * k + 32 && |m| == 32 && MatrixReady(o, k, pk[384 * k..])
    ensures |c| == CipherBytes(k)
  {
    var y := NoiseVector(o, k, Eta1(k), coins, 0);
    EncodeCipher(CipherU(MatrixA(o, k, pk[384 * k..]), y, NoiseVector(o, k, 2, coins, k), k),
                 CipherV(DecodeVector(pk, k), y, NoisePoly(o, 2, coins, 2 * k), CipherToPoly(1, m)), k)
  }

  ghost function DecodeU(c: seq<byte>, k: nat): (u: seq<Vec>)
    requires IsRank(k) && |c| == CipherBytes(k)
    ensures |u| == k && IsVector(u)
  {
    seq(k, i requires 0 <= i < k => CipherToPoly(Du(k), c[32 * Du(k) * i..32 * Du(k) * i + 32 * Du(k)]))
  }

  ghost function DecodeV(c: seq<byte>, k: nat): (v: Vec)
    requires IsRank(k) && |c| == CipherBytes(k)
    ensures |v| == 256
  {
    CipherToPoly(Dv(k), c[32 * Du(k) * k..])
  }

  /** v' - s . u', the message plus noise. */
  ghost function Phase(s: seq<Vec>, u: seq<Vec>, v: Vec): (w: Vec)
    requires |s| == |u| && IsVector(s) && IsVector(u) && |v| == 256
    ensures |w| == 256
  {
    Sub(v, InvNtt(Dot(s, NttVector(u), |u|)))
  }

  ghost function Decrypt(k: nat, sk: seq<byte>, c: seq<byte>): (m: seq<byte>)
    requires IsRank(k) && |sk| >= 384 * k && |c| == CipherBytes(k)
    ensures |m| == 32
  {
    PolyToCipher(1, Phase(DecodeVector(sk, k), DecodeU(c, k), DecodeV(c, k)))
  }
}
