/**
 What the encryption scheme of Kpke says in bytes, numbers and plain polynomials: which bytes are hashed and published,
 how large everything is, and the equations between the noise, the matrix, the keys and the ciphertext.
 */
module KpkeLaws {
  import opened Modular
  import opened Ring
  import opened Compress  // IsWidth
  import opened Bytes
  import opened NttMath
  import opened Vectors
  import opened Transform
  import opened Codec
  import opened Cbd
  import opened Sample
  import opened Kpke
  import opened Correctness
  import opened Indcpa  // Row, PartsU, EncryptIs
  import opened Kem  // SecretKeyBytes

  // ----- sizes

  /** The parameter sets in numbers (mlkem/params.h). */
  lemma ParameterSizes(k: nat)
    requires IsRank(k)
    ensures CipherBytes(k) == if k == 2 then 768 else if k == 3 then 1088 else 1568
    ensures 384 * k + 32 == if k == 2 then 800 else if k == 3 then 1184 else 1568
    ensures SecretKeyBytes(k) == if k == 2 then 1632 else if k == 3 then 2400 else 3168
    ensures 64 * Eta1(k) == if k == 2 then 192 else 128
    ensures 32 * Du(k) == (if k == 4 then 352 else 320) && 32 * Dv(k) == if k == 4 then 160 else 128
  {
  }

  /** Secrets and encryption randomness are as small as the parameter set promises. */
  lemma SecretsAreSmall(o: Oracles, k: nat, d: seq<byte>, i: nat)
    requires IsRank(k) && i < k
    ensures Bounded(SecretS(o, k, d)[i], if k == 2 then 3 else 2)
    ensures Bounded(SecretE(o, k, d)[i], if k == 2 then 3 else 2)
  {
    hide Noise, Take, Sigma, Byte;
    VectorIsDrawn(o, k, Eta1(k), Sigma(o, d), 0, i);
    VectorIsDrawn(o, k, Eta1(k), Sigma(o, d), k, i);
  }

  // ----- seeds

  /** The first half of the hash is published, the second half is the noise seed. */
  lemma SeedHalves(o: Oracles, d: seq<byte>)
    ensures Rho(o, d) + Sigma(o, d) == o.g(d) && |Rho(o, d)| == 32
  {
  }

  lemma PublishedSeed(o: Oracles, k: nat, d: seq<byte>)
    requires MatrixReady(o, k, o.g(d)[..32])
    ensures PublicKey(o, k, d)[384 * k..] == o.g(d)[..32]
  {
    hide MatrixReady;
    SeedHalves(o, d);
    assert o.g(d)[..32] == Rho(o, d);
  }

  // ----- noise

  /** The polynomial drawn with nonce byte b. */
  function Drawn(o: Oracles, eta: nat, seed: seq<byte>, b: byte): (f: Vec)
    requires eta == 2 || eta == 3
    ensures |f| == 256
  {
    Noise(eta, Take(o.prf(seed, b), 64 * eta))
  }

  /** Every nonce byte has its own polynomial. */
  lemma NoiseIsDrawn(o: Oracles, eta: nat, seed: seq<byte>, b: byte)
    requires eta == 2 || eta == 3
    ensures NoisePoly(o, eta, seed, Value8(b)) == Drawn(o, eta, seed, b)
  {
    hide Noise, Take, Byte, Value8;
    ByteOfValue(b);
  }

  lemma VectorIsDrawn(o: Oracles, k: nat, eta: nat, seed: seq<byte>, nonce: nat, i: nat)
    requires (eta == 2 || eta == 3) && i < k
    ensures NoiseVector(o, k, eta, seed, nonce)[i] == Drawn(o, eta, seed, Byte(nonce + i))
  {
    hide Noise, Take, Byte;
    var v := NoiseVector(o, k, eta, seed, nonce);
    assert v[i] == NoisePoly(o, eta, seed, nonce + i);
  }

  /** s[i] is drawn from the second half of the hash with nonce i, e[i] with nonce k + i. */
  lemma SecretsAreDrawn(o: Oracles, k: nat, d: seq<byte>, i: nat)
    requires IsRank(k) && i < k
    ensures SecretS(o, k, d)[i] == Drawn(o, if k == 2 then 3 else 2, o.g(d)[32..], Byte(i))
    ensures SecretE(o, k, d)[i] == Drawn(o, if k == 2 then 3 else 2, o.g(d)[32..], Byte(k + i))
  {
    hide Noise, Take, Byte, NoiseVector;
    SeedsAre(o, d);
    hide Sigma;
    VectorIsDrawn(o, k, Eta1(k), Sigma(o, d), 0, i);
    VectorIsDrawn(o, k, Eta1(k), Sigma(o, d), k, i);
  }

  /** The oracles agree but for the pseudo-random function at one seed and nonce byte. */
  ghost predicate AgreeExcept(o: Oracles, p: Oracles, seed: seq<byte>, b: byte) {
    && o.g == p.g && o.xof == p.xof
    && forall s: seq<byte>, c: byte :: s != seed || c != b ==> o.prf(s, c) == p.prf(s, c)
  }

  /** Changing the output for one nonce changes at most one secret polynomial: s[n] or e[n - k]. */
  lemma NonceIsItsOwn(o: Oracles, p: Oracles, k: nat, d: seq<byte>, b: byte, i: nat)
    requires IsRank(k) && i < k && AgreeExcept(o, p, Sigma(o, d), b)
    ensures i != Value8(b) ==> SecretS(o, k, d)[i] == SecretS(p, k, d)[i]
    ensures k + i != Value8(b) ==> SecretE(o, k, d)[i] == SecretE(p, k, d)[i]
  {
    hide Noise, Take, Byte, Value8, NoiseVector;
    ValueOfByte(i);
    ValueOfByte(k + i);
    VectorIsDrawn(o, k, Eta1(k), Sigma(o, d), 0, i);
    VectorIsDrawn(p, k, Eta1(k), Sigma(o, d), 0, i);
    VectorIsDrawn(o, k, Eta1(k), Sigma(o, d), k, i);
    VectorIsDrawn(p, k, Eta1(k), Sigma(o, d), k, i);
  }

  // ----- the matrix

  /** Column index first for key generation, row index first for encryption. */
  lemma EntryOrder(o: Oracles, k: nat, rho: seq<byte>, i: nat, j: nat)
    requires MatrixReady(o, k, rho) && i < k && j < k
    ensures Sampleable(o.xof(rho, Byte(j), Byte(i))) && Sampleable(o.xof(rho, Byte(i), Byte(j)))
    ensures Row(o, k, rho, i, false)[j] == SampleNtt(o.xof(rho, Byte(j), Byte(i)))
    ensures Row(o, k, rho, i, true)[j] == SampleNtt(o.xof(rho, Byte(i), Byte(j)))
  {
    hide Byte, SampleNtt, Sampleable;
  }

  /** Row i for key generation depends on the streams whose second byte is i, and on no other. */
  lemma RowReads(o: Oracles, p: Oracles, k: nat, rho: seq<byte>, i: nat)
    requires MatrixReady(o, k, rho) && MatrixReady(p, k, rho) && i < k
    requires forall j: nat :: j < k ==> o.xof(rho, Byte(j), Byte(i)) == p.xof(rho, Byte(j), Byte(i))
    ensures Row(o, k, rho, i, false) == Row(p, k, rho, i, false)
  {
    hide MatrixReady, Row, SampleNtt, Byte;
    var x, y := Row(o, k, rho, i, false), Row(p, k, rho, i, false);
    forall j | 0 <= j < k ensures x[j] == y[j] {
      EntryOrder(o, k, rho, i, j);
      EntryOrder(p, k, rho, i, j);
    }
  }

  /** The entries that multiply s in row i of the public key, as polynomials. */
  ghost function KeyRow(o: Oracles, k: nat, rho: seq<byte>, i: nat): (x: seq<Vec>)
    requires MatrixReady(o, k, rho) && i < k
    ensures |x| == k && IsVector(x)
  {
    seq(k, j requires 0 <= j < k => InvNtt(SampleNtt(o.xof(rho, Byte(j), Byte(i)))))
  }

  /** The entries that multiply y in row i of u. */
  ghost function CipherRow(o: Oracles, k: nat, rho: seq<byte>, i: nat): (x: seq<Vec>)
    requires MatrixReady(o, k, rho) && i < k
    ensures |x| == k && IsVector(x)
  {
    seq(k, j requires 0 <= j < k => InvNtt(SampleNtt(o.xof(rho, Byte(i), Byte(j)))))
  }

  ghost function InvVector(x: seq<Vec>): (r: seq<Vec>)
    requires IsVector(x)
    ensures |r| == |x| && IsVector(r)
  {
    seq(|x|, i requires 0 <= i < |x| => InvNtt(x[i]))
  }

  lemma KeyRowIs(o: Oracles, k: nat, rho: seq<byte>, i: nat)
    requires MatrixReady(o, k, rho) && i < k
    ensures KeyRow(o, k, rho, i) == InvVector(Row(o, k, rho, i, false))
    ensures CipherRow(o, k, rho, i) == InvVector(Row(o, k, rho, i, true))
  {
    hide MatrixReady, Row, SampleNtt, Byte, InvNtt;
    forall j | 0 <= j < k
      ensures KeyRow(o, k, rho, i)[j] == InvVector(Row(o, k, rho, i, false))[j]
      ensures CipherRow(o, k, rho, i)[j] == InvVector(Row(o, k, rho, i, true))[j]
    {
      EntryOrder(o, k, rho, i, j);
    }
  }

  // ----- the equations in the ring

  /** Products of transformed vectors are products of polynomials. */
  lemma DotIsDotPoly(x: seq<Vec>, y: seq<Vec>, k: nat)
    requires |x| == |y| == k && IsVector(x) && IsVector(y)
    ensures CongSeq(Ntt(DotPoly(InvVector(x), y, k)), Dot(x, NttVector(y), k))
  {
    hide Ntt, InvNtt, CongSeq, DotPoly, Dot;
    var z := InvVector(x);
    NttDot(z, y, k);
    forall i | 0 <= i < k ensures CongSeq(NttVector(z)[i], x[i]) {
      NttOfInvNtt(x[i]);
    }
    CongVectorRefl(NttVector(y));
    DotCong(NttVector(z), NttVector(y), x, NttVector(y), k);
    CongSeqTrans(Ntt(DotPoly(z, y, k)), Dot(NttVector(z), NttVector(y), k), Dot(x, NttVector(y), k));
  }

  lemma InvDot(x: seq<Vec>, y: seq<Vec>, k: nat)
    requires |x| == |y| == k && IsVector(x) && IsVector(y)
    ensures CongSeq(InvNtt(Dot(x, NttVector(y), k)), DotPoly(InvVector(x), y, k))
  {
    hide Ntt, InvNtt, CongSeq, DotPoly, Dot, InvVector;
    var p, q := DotPoly(InvVector(x), y, k), Dot(x, NttVector(y), k);
    DotIsDotPoly(x, y, k);
    UndoNtt(p, q);
  }

  /** A vector congruent to a transform is its transform. */
  lemma UndoNtt(p: Vec, t: Vec)
    requires |p| == |t| == 256 && CongSeq(Ntt(p), t)
    ensures CongSeq(InvNtt(t), p)
  {
    hide Ntt, InvNtt, CongSeq;
    CongSeqSym(Ntt(p), t);
    CongInvNtt(t, Ntt(p));
    InvNttOfNtt(p);
    CongSeqTrans(InvNtt(t), InvNtt(Ntt(p)), p);
  }

  /** Piece i of the public key, as a polynomial: row i of A, times s, plus e[i]. */
  lemma PublicKeyEquation(o: Oracles, k: nat, d: seq<byte>, i: nat)
    requires IsRank(k) && i < k && MatrixReady(o, k, o.g(d)[..32])
    ensures var t := BytesToPoly(PublicKey(o, k, d)[384 * i..384 * i + 384]);
            CongSeq(InvNtt(t), Add(DotPoly(KeyRow(o, k, o.g(d)[..32], i), SecretS(o, k, d), k), SecretE(o, k, d)[i]))
  {
    hide MatrixReady, KeyRow, SecretS, SecretE, DotPoly, Dot, Ntt, InvNtt, CongSeq, BytesToPoly, EncodeVector, MatrixA,
        Add;
    var rho := o.g(d)[..32];
    SeedHalves(o, d);
    assert rho == Rho(o, d);
    hide Rho, Sigma;
    var s, e := SecretS(o, k, d), SecretE(o, k, d);
    var a := MatrixA(o, k, rho);
    var t := PublicT(a, s, e, k);
    var pk := PublicKey(o, k, d);
    assert pk[..384 * k] == EncodeVector(t);
    DecodeEncodeVector(t, pk);
    KeyPiece(pk, k, i);
    var p := Add(DotPoly(KeyRow(o, k, rho, i), s, k), e[i]);
    KeyRowIs(o, k, rho, i);
    TransformedRow(a[i], s, e[i], k, p);
    var x := BytesToPoly(pk[384 * i..384 * i + 384]);
    CongSeqSym(x, t[i]);
    CongSeqTrans(Ntt(p), t[i], x);
    UndoNtt(p, x);
  }

  lemma TransformedRow(x: seq<Vec>, s: seq<Vec>, e: Vec, k: nat, p: Vec)
    requires |x| == |s| == k && IsVector(x) && IsVector(s) && |e| == 256 && p == Add(DotPoly(InvVector(x), s, k), e)
    ensures CongSeq(Ntt(p), Add(Dot(x, NttVector(s), k), Ntt(e)))
  {
    hide Ntt, CongSeq, DotPoly, Dot, Add, InvVector;
    DotIsDotPoly(x, s, k);
    NttSums(DotPoly(InvVector(x), s, k), e);
    CongRefl(Ntt(e));
    CongAddSeq(Ntt(DotPoly(InvVector(x), s, k)), Dot(x, NttVector(s), k), Ntt(e), Ntt(e));
  }

  /** Piece i of the secret key is the transform of s[i]. */
  lemma SecretKeyEquation(o: Oracles, k: nat, d: seq<byte>, i: nat)
    requires i < k
    ensures CongSeq(BytesToPoly(SecretKey(o, k, d)[384 * i..384 * i + 384]), Ntt(SecretS(o, k, d)[i]))
  {
    hide SecretS, Ntt, CongSeq, BytesToPoly, EncodeVector;
    var v, sk := NttVector(SecretS(o, k, d)), SecretKey(o, k, d);
    assert sk[..384 * k] == EncodeVector(v);
    DecodeEncodeVector(v, sk);
    KeyPiece(sk, k, i);
  }

  /** Row i of the transposed A, times y, plus e1[i]. */
  ghost function PlainU(o: Oracles, k: nat, rho: seq<byte>, coins: seq<byte>, i: nat): (u: Vec)
    requires IsRank(k) && MatrixReady(o, k, rho) && i < k
    ensures |u| == 256
  {
    Add(DotPoly(CipherRow(o, k, rho, i), NoiseVector(o, k, Eta1(k), coins, 0), k), Drawn(o, 2, coins, Byte(k + i)))
  }

  /** t . y + e2 + the message polynomial. */
  ghost function PlainV(o: Oracles, k: nat, pk: seq<byte>, m: seq<byte>, coins: seq<byte>): (v: Vec)
    requires IsRank(k) && |pk| == 384 * k + 32 && |m| == 32
    ensures |v| == 256
  {
    Add(Add(DotPoly(InvVector(DecodeVector(pk, k)), NoiseVector(o, k, Eta1(k), coins, 0), k),
            Drawn(o, 2, coins, Byte(2 * k))), CipherToPoly(1, m))
  }

  /** The bytes of u[i] in a ciphertext. */
  function PieceOf(c: seq<byte>, k: nat, i: nat): (b: seq<byte>)
    requires IsRank(k) && |c| == CipherBytes(k) && i < k
    ensures |b| == 32 * Du(k)
  {
    PieceFits(k, i);
    c[32 * Du(k) * i..32 * Du(k) * i + 32 * Du(k)]
  }

  /** Those of v. */
  function TailOf(c: seq<byte>, k: nat): (b: seq<byte>)
    requires IsRank(k) && |c| == CipherBytes(k)
    ensures |b| == 32 * Dv(k)
  {
    PieceFits(k, 0);
    c[32 * Du(k) * k..]
  }

  /** Piece i of a ciphertext is the compression of that row, whatever its representatives. */
  lemma CipherEquation(o: Oracles, k: nat, pk: seq<byte>, m: seq<byte>, coins: seq<byte>, i: nat, u: Vec)
    requires IsRank(k) && |pk| == 384 * k + 32 && |m| == 32 && MatrixReady(o, k, pk[384 * k..]) && i < k
    requires CongSeq(u, PlainU(o, k, pk[384 * k..], coins, i))
    ensures IsWidth(Du(k)) && PieceOf(Encrypt(o, k, pk, m, coins), k, i) == PolyToCipher(Du(k), u)
  {
    hide MatrixReady, PlainU, InvNtt, CongSeq, PolyToCipher, MatrixA, SentV, SentU, Du, Dv, Join, CipherBytes;
    var rho := pk[384 * k..];
    var us := SentU(o, k, rho, coins);
    var c := Encrypt(o, k, pk, m, coins);
    PieceFits(k, i);
    EncryptIs(o, k, pk, m, coins);
    EncodeCipherIs(us, SentV(o, k, pk, m, coins), k);
    CipherPiece(c, us, SentV(o, k, pk, m, coins), k, i);
    SentRow(o, k, rho, coins, i);
    CongLength(u, PlainU(o, k, rho, coins, i));
    CongSeqSym(u, PlainU(o, k, rho, coins, i));
    CongSeqTrans(us[i], PlainU(o, k, rho, coins, i), u);
    CipherCong(Du(k), us[i], u);
  }

  lemma CongLength(a: Vec, b: Vec)
    requires CongSeq(a, b)
    ensures |a| == |b|
  {
  }

  lemma CipherPiece(c: seq<byte>, us: seq<Vec>, v: Vec, k: nat, i: nat)
    requires IsRank(k) && |us| == k && IsVector(us) && |v| == 256 && i < k && IsWidth(Dv(k)) && Du(k) in {10, 11}
    requires c == Join(PartsU(us, k), 32 * Du(k)) + PolyToCipher(Dv(k), v)
    requires 32 * Du(k) * i + 32 * Du(k) <= 32 * Du(k) * k <= |c|
    ensures c[32 * Du(k) * i..32 * Du(k) * i + 32 * Du(k)] == PolyToCipher(Du(k), us[i])
    ensures c[32 * Du(k) * k..] == PolyToCipher(Dv(k), v)
  {
    hide PolyToCipher, Join, Du, Dv;
    var p, w := PartsU(us, k), 32 * Du(k);
    JoinAt(p, w, i);
    var b := Join(p, w);
    assert |b| == k * w == w * k && i * w == w * i;
    assert c[w * i..w * i + w] == b[i * w..][..w];
  }

  lemma SentRow(o: Oracles, k: nat, rho: seq<byte>, coins: seq<byte>, i: nat)
    requires IsRank(k) && MatrixReady(o, k, rho) && i < k
    ensures CongSeq(SentU(o, k, rho, coins)[i], PlainU(o, k, rho, coins, i))
  {
    hide MatrixReady, CipherRow, NoiseVector, Drawn, DotPoly, Dot, InvNtt, CongSeq, MatrixA, Add, Byte, Transpose;
    var y := NoiseVector(o, k, Eta1(k), coins, 0);
    var x := Row(o, k, rho, i, true);
    VectorIsDrawn(o, k, 2, coins, k, i);
    KeyRowIs(o, k, rho, i);
    InvDot(x, y, k);
    var e := Drawn(o, 2, coins, Byte(k + i));
    CongRefl(e);
    CongAddSeq(InvNtt(Dot(x, NttVector(y), k)), DotPoly(InvVector(x), y, k), e, e);
  }

  /** The rest of a ciphertext is the compression of v. */
  lemma CipherTailEquation(o: Oracles, k: nat, pk: seq<byte>, m: seq<byte>, coins: seq<byte>, v: Vec)
    requires IsRank(k) && |pk| == 384 * k + 32 && |m| == 32 && MatrixReady(o, k, pk[384 * k..])
    requires CongSeq(v, PlainV(o, k, pk, m, coins))
    ensures IsWidth(Dv(k)) && TailOf(Encrypt(o, k, pk, m, coins), k) == PolyToCipher(Dv(k), v)
  {
    hide MatrixReady, PlainV, CongSeq, PolyToCipher, MatrixA, SentU, SentV, Du, Dv, Join, CipherBytes;
    var w := SentV(o, k, pk, m, coins);
    var c := Encrypt(o, k, pk, m, coins);
    PieceFits(k, 0);
    EncryptIs(o, k, pk, m, coins);
    EncodeCipherIs(SentU(o, k, pk[384 * k..], coins), w, k);
    CipherPiece(c, SentU(o, k, pk[384 * k..], coins), w, k, 0);
    SentTail(o, k, pk, m, coins);
    CongLength(v, PlainV(o, k, pk, m, coins));
    CongSeqSym(v, PlainV(o, k, pk, m, coins));
    CongSeqTrans(w, PlainV(o, k, pk, m, coins), v);
    CipherCong(Dv(k), w, v);
  }

  lemma SentTail(o: Oracles, k: nat, pk: seq<byte>, m: seq<byte>, coins: seq<byte>)
    requires IsRank(k) && |pk| == 384 * k + 32 && |m| == 32
    ensures CongSeq(SentV(o, k, pk, m, coins), PlainV(o, k, pk, m, coins))
  {
    hide NoiseVector, DotPoly, Dot, InvNtt, CongSeq, CipherToPoly, Add, Byte, DecodeVector, InvVector, Noise, Take;
    var y, x, mu := NoiseVector(o, k, Eta1(k), coins, 0), DecodeVector(pk, k), CipherToPoly(1, m);
    var e := Drawn(o, 2, coins, Byte(2 * k));
    assert e == NoisePoly(o, 2, coins, 2 * k);
    InvDot(x, y, k);
    CongRefl(e);
    CongRefl(mu);
    CongAddSeq(InvNtt(Dot(x, NttVector(y), k)), DotPoly(InvVector(x), y, k), e, e);
    CongAddSeq(Add(InvNtt(Dot(x, NttVector(y), k)), e), Add(DotPoly(InvVector(x), y, k), e), mu, mu);
  }

  /** Keys hold reduced coefficients. */
  lemma PublicKeyIsCanonical(o: Oracles, k: nat, d: seq<byte>, i: nat, j: nat)
    requires i < k && j < 256 && MatrixReady(o, k, o.g(d)[..32])
    ensures BytesToPoly(PublicKey(o, k, d)[384 * i..384 * i + 384])[j] < 3329
  {
    hide MatrixReady, BytesToPoly, EncodeVector, MatrixA, SecretS, SecretE;
    assert o.g(d)[..32] == Rho(o, d);
    var v := PublicT(MatrixA(o, k, Rho(o, d)), SecretS(o, k, d), SecretE(o, k, d), k);
    var pk := PublicKey(o, k, d);
    assert pk[..384 * k] == EncodeVector(v);
    CanonicalPiece(v, pk, i, j);
  }

  lemma SecretKeyIsCanonical(o: Oracles, k: nat, d: seq<byte>, i: nat, j: nat)
    requires i < k && j < 256
    ensures BytesToPoly(SecretKey(o, k, d)[384 * i..384 * i + 384])[j] < 3329
  {
    hide BytesToPoly, EncodeVector, SecretS;
    var w, sk := NttVector(SecretS(o, k, d)), SecretKey(o, k, d);
    assert sk[..384 * k] == EncodeVector(w);
    CanonicalPiece(w, sk, i, j);
  }

  lemma CanonicalPiece(v: seq<Vec>, b: seq<byte>, i: nat, j: nat)
    requires IsVector(v) && |b| >= 384 * |v| && b[..384 * |v|] == EncodeVector(v) && i < |v| && j < 256
    ensures BytesToPoly(b[384 * i..384 * i + 384])[j] < 3329
  {
    hide BytesToPoly, Encode12, Join;
    var p := seq(|v|, i requires 0 <= i < |v| => Encode12(v[i]));
    JoinAt(p, 384, i);
    assert b[384 * i..384 * i + 384] == b[..384 * |v|][i * 384..][..384];
    Encode12RoundTrip(v[i]);
  }

  /** Decryption rounds v - s . u, computed in the ring from whatever the strings hold. */
  lemma DecryptEquation(k: nat, sk: seq<byte>, c: seq<byte>, w: Vec)
    requires IsRank(k) && |sk| >= 384 * k && |c| == CipherBytes(k)
    requires CongSeq(w, Sub(DecodeV(c, k), DotPoly(InvVector(DecodeVector(sk, k)), DecodeU(c, k), k)))
    ensures |w| == 256 && Decrypt(k, sk, c) == PolyToCipher(1, w)
  {
    hide CongSeq, DotPoly, Dot, InvNtt, PolyToCipher, DecodeVector, DecodeU, DecodeV, InvVector, Sub, CipherBytes;
    var s, u, v := DecodeVector(sk, k), DecodeU(c, k), DecodeV(c, k);
    var p := DotPoly(InvVector(s), u, k);
    CongLength(w, Sub(v, p));
    InvDot(s, u, k);
    CongRefl(v);
    CongAddSeq(v, v, InvNtt(Dot(s, NttVector(u), k)), p);
    CongSeqSym(w, Sub(v, p));
    CongSeqTrans(Phase(s, u, v), Sub(v, p), w);
    CipherCong(1, Phase(s, u, v), w);
  }

  /** Every u[i] and v is read from its own bytes. */
  lemma DecodedFrom(c: seq<byte>, k: nat, i: nat)
    requires IsRank(k) && |c| == CipherBytes(k) && i < k
    ensures IsWidth(Du(k)) && DecodeU(c, k)[i] == CipherToPoly(Du(k), PieceOf(c, k, i))
    ensures IsWidth(Dv(k)) && DecodeV(c, k) == CipherToPoly(Dv(k), TailOf(c, k))
  {
    hide CipherToPoly, CipherBytes;
    PieceFits(k, i);
  }
}
