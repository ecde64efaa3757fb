/** When decryption returns the message: exactly when the accumulated noise stays below a quarter of Q. */
module Correctness {
  import opened Modular
  import opened Ring
  import opened Compress
  import opened Bytes
  import opened Encode
  import opened NttMath
  import opened Vectors
  import opened Codec
  import opened Kpke

  // ----- the phase is message plus noise

  /** The sum of the first n polynomial products. */
  ghost function DotPoly(x: seq<Vec>, y: seq<Vec>, n: nat): (r: Vec)
    requires n <= |x| && n <= |y| && IsVector(x) && IsVector(y)
    ensures |r| == 256
  {
    if n == 0 then Zero(256) else Add(DotPoly(x, y, n - 1), PolyMul(x[n - 1], y[n - 1]))
  }

  lemma NttSums(a: Vec, b: Vec)
    requires |a| == |b| == 256
    ensures Ntt(Add(a, b)) == Add(Ntt(a), Ntt(b)) && Ntt(Sub(a, b)) == Sub(Ntt(a), Ntt(b))
  {
    hide NttTree;
    NttAdd(a, b, 1);
    NttAdd(Sub(a, b), b, 1);
    assert Add(Sub(a, b), b) == a;
    SubOfAdd(Ntt(Sub(a, b)), Ntt(b));
  }

  lemma SubOfAdd(x: Vec, y: Vec)
    requires |x| == |y|
    ensures Sub(Add(x, y), y) == x
  {
  }

  lemma NttZero()
    ensures Ntt(Zero(256)) == Zero(256)
  {
    hide NttTree;
    NttSums(Zero(256), Zero(256));
    assert Sub(Zero(256), Zero(256)) == Zero(256);
    assert forall x: Vec :: Sub(x, x) == Zero(|x|);
  }

  lemma NttInjective(a: Vec, b: Vec)
    requires |a| == |b| == 256 && CongSeq(Ntt(a), Ntt(b))
    ensures CongSeq(a, b)
  {
    hide Ntt, InvNtt, CongSeq;
    CongInvNtt(Ntt(a), Ntt(b));
    InvNttOfNtt(a);
    InvNttOfNtt(b);
    CongSeqSym(InvNtt(Ntt(a)), a);
    CongSeqTrans(a, InvNtt(Ntt(a)), InvNtt(Ntt(b)));
    CongSeqTrans(a, InvNtt(Ntt(b)), b);
  }

  lemma CongNtt256(a: Vec, b: Vec)
    requires |a| == |b| == 256 && CongSeq(a, b)
    ensures CongSeq(Ntt(a), Ntt(b))
  {
    hide NttTree, CongSeq;
    CongNtt(a, b, 1);
  }

  lemma {:induction false} NttDot(x: seq<Vec>, y: seq<Vec>, n: nat)
    requires n <= |x| && n <= |y| && IsVector(x) && IsVector(y)
    ensures CongSeq(Ntt(DotPoly(x, y, n)), Dot(NttVector(x), NttVector(y), n))
  {
    hide Ntt, PolyMul, PointMul, CongSeq, Add;
    if n > 0 {
      var p, d := PolyMul(x[n - 1], y[n - 1]), DotPoly(x, y, n - 1);
      NttDot(x, y, n - 1);
      NttHomomorphism(x[n - 1], y[n - 1]);
      NttSums(d, p);
      CongAddSeq(Ntt(d), Dot(NttVector(x), NttVector(y), n - 1), Ntt(p), PointMul(Ntt(x[n - 1]), Ntt(y[n - 1])));
    } else {
      NttZero();
      CongRefl(Zero(256));
    }
  }

  lemma NttVectorAdd(x: seq<Vec>, y: seq<Vec>)
    requires |x| == |y| && IsVector(x) && IsVector(y)
    ensures NttVector(AddVectors(x, y)) == AddVectors(NttVector(x), NttVector(y))
  {
    hide Ntt, Add;
    forall i | 0 <= i < |x| ensures Ntt(Add(x[i], y[i])) == Add(Ntt(x[i]), Ntt(y[i])) {
      NttSums(x[i], y[i]);
    }
  }

  /** The vector whose sum with u is w. */
  ghost function SubVectors(w: seq<Vec>, u: seq<Vec>): (r: seq<Vec>)
    requires |w| == |u| && IsVector(w) && IsVector(u)
    ensures |r| == |u| && IsVector(r)
  {
    seq(|u|, i requires 0 <= i < |u| => Sub(w[i], u[i]))
  }

  lemma AddBack(u: seq<Vec>, w: seq<Vec>)
    requires |w| == |u| && IsVector(w) && IsVector(u)
    ensures AddVectors(u, SubVectors(w, u)) == w
  {
    forall i | 0 <= i < |u| ensures Add(u[i], Sub(w[i], u[i])) == w[i] { AddSub(u[i], w[i]); }
  }

  lemma AddSub(v: Vec, w: Vec)
    requires |v| == |w|
    ensures Add(v, Sub(w, v)) == w
  {
  }

  /** The transformed ciphertext vector is A^T y + e1, transformed. */
  lemma NttCipherU(a: seq<seq<Vec>>, y: seq<Vec>, e1: seq<Vec>, k: nat)
    requires IsMatrix(a, k) && |y| == |e1| == k && IsVector(y) && IsVector(e1)
    ensures CongVector(NttVector(CipherU(a, y, e1, k)), AddVectors(MatVec(Transpose(a, k), NttVector(y), k),
        NttVector(e1)))
  {
    hide Ntt, InvNtt, CongSeq, Add, Dot, Transpose;
    var u := CipherU(a, y, e1, k);
    var t := Transpose(a, k);
    forall i | 0 <= i < k
      ensures CongSeq(NttVector(u)[i], AddVectors(MatVec(t, NttVector(y), k), NttVector(e1))[i])
    {
      var d := Dot(t[i], NttVector(y), k);
      NttOfInvNtt(d);
      NttSums(InvNtt(d), e1[i]);
      CongRefl(Ntt(e1[i]));
      CongAddSeq(Ntt(InvNtt(d)), d, Ntt(e1[i]), Ntt(e1[i]));
    }
  }

  lemma CongVectorAdd(x: seq<Vec>, u: seq<Vec>, z: seq<Vec>)
    requires CongVector(x, u) && |z| == |x| && IsVector(z)
    ensures CongVector(AddVectors(x, z), AddVectors(u, z))
  {
    hide CongSeq, Add;
    forall i | 0 <= i < |x| ensures CongSeq(Add(x[i], z[i]), Add(u[i], z[i])) {
      CongRefl(z[i]);
      CongAddSeq(x[i], u[i], z[i], z[i]);
    }
  }

  lemma AddVectorsAssoc(x: seq<Vec>, y: seq<Vec>, z: seq<Vec>)
    requires |x| == |y| == |z| && IsVector(x) && IsVector(y) && IsVector(z)
    ensures AddVectors(AddVectors(x, y), z) == AddVectors(x, AddVectors(y, z))
  {
    hide Add;
    forall i | 0 <= i < |x| ensures Add(Add(x[i], y[i]), z[i]) == Add(x[i], Add(y[i], z[i])) {
      AddAssoc(x[i], y[i], z[i]);
    }
  }

  /** s . u' splits into the part the key owner shares with the sender and a noise part. */
  lemma SecretSide(a: seq<seq<Vec>>, s: seq<Vec>, sh: seq<Vec>, y: seq<Vec>, e1: seq<Vec>, uu: seq<Vec>, k: nat)
    requires IsMatrix(a, k) && |s| == |y| == |e1| == |uu| == k && IsVector(s) && IsVector(y) && IsVector(e1)
        && IsVector(uu)
    requires CongVector(sh, NttVector(s))
    ensures CongSeq(Dot(sh, NttVector(uu), k),
                    Add(Dot(MatVec(a, NttVector(s), k), NttVector(y), k),
                        Dot(NttVector(s), NttVector(AddVectors(e1, SubVectors(uu, CipherU(a, y, e1, k)))), k)))
  {
    hide Ntt, CongSeq, Dot, CipherU, MatVec, Transpose, IsMatrix;
    var u := CipherU(a, y, e1, k);
    var cu := SubVectors(uu, u);
    var sv, b := NttVector(s), MatVec(Transpose(a, k), NttVector(y), k);
    AddBack(u, uu);
    NttVectorAdd(u, cu);
    NttVectorAdd(e1, cu);
    hide *;
    NttCipherU(a, y, e1, k);
    CongVectorAdd(NttVector(u), AddVectors(b, NttVector(e1)), NttVector(cu));
    AddVectorsAssoc(b, NttVector(e1), NttVector(cu));
    DotCong(sh, NttVector(uu), sv, AddVectors(b, NttVector(AddVectors(e1, cu))), k);
    DotAdd(sv, b, NttVector(AddVectors(e1, cu)), k);
    TransposeSwap(a, sv, NttVector(y), k);
  }

  /** t . y likewise. */
  lemma PublicSide(a: seq<seq<Vec>>, s: seq<Vec>, e: seq<Vec>, t: seq<Vec>, y: seq<Vec>, k: nat)
    requires IsMatrix(a, k) && |s| == |e| == |y| == k && IsVector(s) && IsVector(e) && IsVector(y)
    requires CongVector(t, PublicT(a, s, e, k))
    ensures CongSeq(Dot(t, NttVector(y), k),
                    Add(Dot(MatVec(a, NttVector(s), k), NttVector(y), k), Ntt(DotPoly(e, y, k))))
  {
    hide Ntt, CongSeq, Dot, MatVec, IsMatrix, Add, DotPoly;
    var yv, m, ev := NttVector(y), MatVec(a, NttVector(s), k), NttVector(e);
    CongVectorRefl(yv);
    DotCong(t, yv, AddVectors(m, ev), yv, k);
    DotComm(AddVectors(m, ev), yv, k);
    DotAdd(yv, m, ev, k);
    DotComm(m, yv, k);
    DotComm(ev, yv, k);
    NttDot(e, y, k);
    CongSeqSym(Ntt(DotPoly(e, y, k)), Dot(ev, yv, k));
    CongRefl(Dot(m, yv, k));
    CongAddSeq(Dot(m, yv, k), Dot(m, yv, k), Dot(ev, yv, k), Ntt(DotPoly(e, y, k)));
    CongSeqTrans(Dot(t, yv, k), Add(Dot(m, yv, k), Dot(ev, yv, k)), Add(Dot(m, yv, k), Ntt(DotPoly(e, y, k))));
  }

  lemma CongVectorRefl(x: seq<Vec>)
    requires IsVector(x)
    ensures CongVector(x, x)
  {
    hide CongSeq;
    forall i | 0 <= i < |x| ensures CongSeq(x[i], x[i]) { CongRefl(x[i]); }
  }

  /** e . y + e2 + c_v - s . (e1 + c_u), where c_u = u' - u and c_v = v' - v are the compression errors. */
  ghost function DecryptionNoise(s: seq<Vec>, e: seq<Vec>, y: seq<Vec>, e1: seq<Vec>, e2: Vec,
                                 u: seq<Vec>, uu: seq<Vec>, v: Vec, vv: Vec): (n: Vec)
    requires |s| == |e| == |y| == |e1| == |u| == |uu| && |e2| == |v| == |vv| == 256
    requires IsVector(s) && IsVector(e) && IsVector(y) && IsVector(e1) && IsVector(u) && IsVector(uu)
    ensures |n| == 256
  {
    var k := |s|;
    Sub(Add(Add(DotPoly(e, y, k), e2), Sub(vv, v)), DotPoly(s, AddVectors(e1, SubVectors(uu, u)), k))
  }

  /** Coefficient arithmetic: the shared part m cancels. */
  lemma Cancels(d: int, m: int, n: int, p: int, q: int, g: int, f: int, h: int, w: int)
    requires Cong(d, m + n) && Cong(p, m + q) && Cong(n, g)
    ensures Cong(p + f + h + w - d, h + (q + f + w - g))
  {
  }

  lemma CancelsAll(d: Vec, m: Vec, n: Vec, p: Vec, q: Vec, g: Vec, f: Vec, h: Vec, w: Vec)
    requires |m| == |n| == |q| == |f| == |h| == |w| && |p| == |m| && |d| == |m| && |g| == |n|
    requires CongSeq(d, Add(m, n)) && CongSeq(p, Add(m, q)) && CongSeq(n, g)
    ensures CongSeq(Sub(Add(Add(Add(p, f), h), w), d), Add(h, Sub(Add(Add(q, f), w), g)))
  {
    hide Cong;
    forall i | 0 <= i < |m| ensures Cong(p[i] + f[i] + h[i] + w[i] - d[i], h[i] + (q[i] + f[i] + w[i] - g[i])) {
      Cancels(d[i], m[i], n[i], p[i], q[i], g[i], f[i], h[i], w[i]);
    }
  }

  /** Whatever ciphertext (uu, vv) reaches the key owner, the phase is the message plus the noise in it. */
  lemma PhaseIsMessagePlusNoise(a: seq<seq<Vec>>, s: seq<Vec>, e: seq<Vec>, sh: seq<Vec>, t: seq<Vec>, y: seq<Vec>,
                                e1: seq<Vec>, e2: Vec, mu: Vec, uu: seq<Vec>, vv: Vec, k: nat)
    requires IsMatrix(a, k) && |s| == |e| == |y| == |e1| == |uu| == k && |e2| == |mu| == |vv| == 256
    requires IsVector(s) && IsVector(e) && IsVector(y) && IsVector(e1) && IsVector(uu)
    requires CongVector(sh, NttVector(s)) && CongVector(t, PublicT(a, s, e, k))
    ensures CongSeq(Phase(sh, uu, vv),
                    Add(mu, DecryptionNoise(s, e, y, e1, e2, CipherU(a, y, e1, k), uu, CipherV(t, y, e2, mu), vv)))
  {
    hide Ntt, InvNtt, CongSeq, Dot, DotPoly, CipherU, MatVec, PublicT, IsMatrix, Add, Sub, SubVectors;
    var u, v := CipherU(a, y, e1, k), CipherV(t, y, e2, mu);
    var dn := AddVectors(e1, SubVectors(uu, u));
    var m := Dot(MatVec(a, NttVector(s), k), NttVector(y), k);
    var big, small := Dot(sh, NttVector(uu), k), Dot(t, NttVector(y), k);
    var n, g, q := Dot(NttVector(s), NttVector(dn), k), Ntt(DotPoly(s, dn, k)), Ntt(DotPoly(e, y, k));
    var cv := Sub(vv, v);
    var w, noise := Phase(sh, uu, vv), Sub(Add(Add(DotPoly(e, y, k), e2), cv), DotPoly(s, dn, k));
    assert v == Add(Add(InvNtt(small), e2), mu) && w == Sub(vv, InvNtt(big));
    assert noise == DecryptionNoise(s, e, y, e1, e2, u, uu, v, vv);
    SecretSide(a, s, sh, y, e1, uu, k);
    PublicSide(a, s, e, t, y, k);
    hide *;
    AddSub(v, vv);
    NttOfInvNtt(big);
    NttOfInvNtt(small);
    CongSeqTrans(Ntt(InvNtt(big)), big, Add(m, n));
    CongSeqTrans(Ntt(InvNtt(small)), small, Add(m, q));
    NttDot(s, dn, k);
    CongSeqSym(g, n);
    CancelsAll(Ntt(InvNtt(big)), m, n, Ntt(InvNtt(small)), q, g, Ntt(e2), Ntt(mu), Ntt(cv));
    NttSums(vv, InvNtt(big));
    NttSums(v, cv);
    NttSums(Add(InvNtt(small), e2), mu);
    NttSums(InvNtt(small), e2);
    NttSums(mu, noise);
    NttSums(Add(Add(DotPoly(e, y, k), e2), cv), DotPoly(s, dn, k));
    NttSums(Add(DotPoly(e, y, k), e2), cv);
    NttSums(DotPoly(e, y, k), e2);
    NttInjective(w, Add(mu, noise));
  }

  // ----- when one message bit survives

  /** Bit i of a message. */
  function MessageBitAt(m: seq<byte>, i: nat): nat
    requires |m| == 32 && i < 256
  {
    ByteDecode(1, m, 32)[i]
  }

  /** Noise that decryption removes: one value less is allowed where the message bit is 1, because Q is odd. */
  ghost predicate NoiseFits(m: seq<byte>, n: Vec)
    requires |m| == 32 && |n| == 256
  {
    forall i :: 0 <= i < 256 ==> -832 <= Centred(n[i]) <= if MessageBitAt(m, i) == 1 then 831 else 832
  }

  lemma BitSurvives(bit: nat, n: int, w: int)
    requires bit < 2 && Cong(w, DecompressFrom(1, bit) + n)
    ensures CompressTo(1, w % Q) == bit <==> -832 <= Centred(n) <= if bit == 1 then 831 else 832
  {
    assert DecompressFrom(1, bit) == 1665 * bit;
    var c := Centred(n);
    var u := w % Q;
    CongIffMod(w, DecompressFrom(1, bit) + n);
    CongIffMod(c, n);
    if bit == 0 {
      assert u == if c < 0 then c + Q else c;
    } else {
      assert u == 1665 + c || u == 1665 + c - Q || u == 1665 + c + Q;
    }
    OneBit(u);
  }

  lemma OneBit(u: int)
    requires 0 <= u < Q
    ensures CompressTo(1, u) == if 833 <= u <= 2496 then 1 else 0
  {
  }

  lemma BitDefs(m: seq<byte>)
    requires |m| == 32
    ensures |ByteDecode(1, m, 32)| == 256 && Below(ByteDecode(1, m, 32), 2)
    ensures forall i :: 0 <= i < 256 ==>
          MessageBitAt(m, i) < 2 && CipherToPoly(1, m)[i] == DecompressFrom(1, MessageBitAt(m, i))
  {
    hide ByteDecode, ByteEncode, DecompressFrom;
    EncodeDecode(1, m, 32);
  }

  /** A polynomial congruent to message plus noise decodes to the message exactly if the noise fits. */
  lemma MessageSurvives(m: seq<byte>, n: Vec, w: Vec)
    requires |m| == 32 && |n| == |w| == 256 && CongSeq(w, Add(CipherToPoly(1, m), n))
    ensures PolyToCipher(1, w) == m <==> NoiseFits(m, n)
  {
    hide ByteDecode, ByteEncode, DecompressFrom, CompressTo, Centred, Cong, CipherToPoly;
    BitDefs(m);
    EncodeDecode(1, m, 32);
    var t := CompressAll(1, w);
    DecodeEncode(1, t, 32);
    forall i | 0 <= i < 256
      ensures t[i] == MessageBitAt(m, i) <==> -832 <= Centred(n[i]) <= if MessageBitAt(m, i) == 1 then 831 else 832
    {
      BitSurvives(MessageBitAt(m, i), n[i], w[i]);
    }
    if NoiseFits(m, n) {
      assert t == ByteDecode(1, m, 32);
    } else {
      var i :| 0 <= i < 256 && !(-832 <= Centred(n[i]) <= if MessageBitAt(m, i) == 1 then 831 else 832);
      assert t[i] != MessageBitAt(m, i);
    }
  }

  // ----- keys and ciphertexts as strings

  lemma Encode12RoundTrip(a: Vec)
    requires |a| == 256
    ensures BytesToPoly(Encode12(a)) == Canonical(a) && CongSeq(Canonical(a), a)
  {
    hide PolyToBytes;
    PolyRoundTrip(Canonical(a));
    assert Canonical(Canonical(a)) == Canonical(a);
  }

  /** Decoding the encoded vector gives congruent coefficients. */
  lemma DecodeEncodeVector(v: seq<Vec>, b: seq<byte>)
    requires IsVector(v) && |b| >= 384 * |v| && b[..384 * |v|] == EncodeVector(v)
    ensures CongVector(DecodeVector(b, |v|), v)
  {
    hide BytesToPoly, Encode12, Canonical, CongSeq, Join;
    var p := seq(|v|, i requires 0 <= i < |v| => Encode12(v[i]));
    var d := DecodeVector(b, |v|);
    forall i | 0 <= i < |v| ensures CongSeq(d[i], v[i]) {
      JoinAt(p, 384, i);
      assert b[384 * i..384 * i + 384] == b[..384 * |v|][i * 384..][..384];
      Encode12RoundTrip(v[i]);
    }
  }

  lemma DecodeEncodeCipher(u: seq<Vec>, v: Vec, k: nat)
    requires IsRank(k) && |u| == k && IsVector(u) && |v| == 256
    ensures var c := EncodeCipher(u, v, k);
            && (forall i :: 0 <= i < k ==> DecodeU(c, k)[i] == CipherToPoly(Du(k), PolyToCipher(Du(k), u[i])))
            && DecodeV(c, k) == CipherToPoly(Dv(k), PolyToCipher(Dv(k), v))
  {
    hide CipherToPoly, PolyToCipher, Join, Du, Dv;
    assert IsWidth(Du(k)) && IsWidth(Dv(k)) by { Widths(k); }
    var m := 32 * Du(k);
    var p := seq(k, i requires 0 <= i < k => PolyToCipher(Du(k), u[i]));
    var c := EncodeCipher(u, v, k);
    assert c == Join(p, m) + PolyToCipher(Dv(k), v);
    forall i | 0 <= i < k ensures DecodeU(c, k)[i] == CipherToPoly(Du(k), PolyToCipher(Du(k), u[i])) {
      JoinAt(p, m, i);
      assert c[m * i..m * i + m] == Join(p, m)[i * m..][..m];
    }
    assert c[m * k..] == PolyToCipher(Dv(k), v);
  }

  lemma Widths(k: nat)
    requires IsRank(k)
    ensures IsWidth(Du(k)) && IsWidth(Dv(k))
  {
  }

  // ----- the theorem

  /** The ciphertext polynomials of an honest run, before compression. */
  ghost function HonestU(o: Oracles, k: nat, d: seq<byte>, coins: seq<byte>): (u: seq<Vec>)
    requires IsRank(k) && MatrixReady(o, k, Rho(o, d))
    ensures |u| == k && IsVector(u)
  {
    CipherU(MatrixA(o, k, Rho(o, d)), NoiseVector(o, k, Eta1(k), coins, 0), NoiseVector(o, k, 2, coins, k), k)
  }

  ghost function HonestV(o: Oracles, k: nat, d: seq<byte>, m: seq<byte>, coins: seq<byte>): (v: Vec)
    requires IsRank(k) && MatrixReady(o, k, Rho(o, d)) && |m| == 32
    ensures |v| == 256
  {
    CipherV(DecodeVector(PublicKey(o, k, d), k), NoiseVector(o, k, Eta1(k), coins, 0), NoisePoly(o, 2, coins, 2 * k),
        CipherToPoly(1, m))
  }

  /** e . y + e2 + c_v - s . (e1 + c_u) of an honest key pair and ciphertext. */
  ghost function HonestNoise(o: Oracles, k: nat, d: seq<byte>, m: seq<byte>, coins: seq<byte>): (n: Vec)
    requires IsRank(k) && MatrixReady(o, k, Rho(o, d)) && |m| == 32
    ensures |n| == 256
  {
    var c := Encrypt(o, k, PublicKey(o, k, d), m, coins);
    DecryptionNoise(SecretS(o, k, d), SecretE(o, k, d), NoiseVector(o, k, Eta1(k), coins, 0),
        NoiseVector(o, k, 2, coins, k),
                    NoisePoly(o, 2, coins, 2 * k), HonestU(o, k, d, coins), DecodeU(c, k), HonestV(o, k, d, m, coins),
                        DecodeV(c, k))
  }

  /** Decrypting an honest ciphertext with the honest key gives the message back if and only if the noise fits. */
  lemma DecryptInvertsEncrypt(o: Oracles, k: nat, d: seq<byte>, m: seq<byte>, coins: seq<byte>)
    requires IsRank(k) && MatrixReady(o, k, Rho(o, d)) && |m| == 32
    ensures Decrypt(k, SecretKey(o, k, d), Encrypt(o, k, PublicKey(o, k, d), m, coins)) == m
       <==> NoiseFits(m, HonestNoise(o, k, d, m, coins))
  {
    hide Phase, DecryptionNoise, NoiseFits, CipherU, CipherV, PublicT, SecretS, SecretE, NoiseVector, NoisePoly,
        MatrixA,
         DecodeU, DecodeV, DecodeVector, EncodeVector, EncodeCipher, PolyToCipher, CipherToPoly, Rho, CongVector,
             CongSeq;
    var a, s, e := MatrixA(o, k, Rho(o, d)), SecretS(o, k, d), SecretE(o, k, d);
    var pk, sk := PublicKey(o, k, d), SecretKey(o, k, d);
    var c := Encrypt(o, k, pk, m, coins);
    var t, sh := DecodeVector(pk, k), DecodeVector(sk, k);
    var y, e1 := NoiseVector(o, k, Eta1(k), coins, 0), NoiseVector(o, k, 2, coins, k);
    var e2, mu := NoisePoly(o, 2, coins, 2 * k), CipherToPoly(1, m);
    var u, v := HonestU(o, k, d, coins), HonestV(o, k, d, m, coins);
    assert pk[..384 * k] == EncodeVector(PublicT(a, s, e, k));
    DecodeEncodeVector(PublicT(a, s, e, k), pk);
    assert sk[..384 * k] == EncodeVector(NttVector(s));
    DecodeEncodeVector(NttVector(s), sk);
    PhaseIsMessagePlusNoise(a, s, e, sh, t, y, e1, e2, mu, DecodeU(c, k), DecodeV(c, k), k);
    MessageSurvives(m, HonestNoise(o, k, d, m, coins), Phase(sh, DecodeU(c, k), DecodeV(c, k)));
  }

  /** The compression errors in that noise are at most half a step each. */
  lemma CompressionErrors(o: Oracles, k: nat, d: seq<byte>, m: seq<byte>, coins: seq<byte>, i: nat, j: nat)
    requires IsRank(k) && MatrixReady(o, k, Rho(o, d)) && |m| == 32 && i < k && j < 256
    ensures IsWidth(Du(k)) && IsWidth(Dv(k))
    ensures var c := Encrypt(o, k, PublicKey(o, k, d), m, coins);
            && -MaxError(Du(k)) <= Centred(DecodeU(c, k)[i][j] - HonestU(o, k, d, coins)[i][j]) <= MaxError(Du(k))
            && -MaxError(Dv(k)) <= Centred(DecodeV(c, k)[j] - HonestV(o, k, d, m, coins)[j]) <= MaxError(Dv(k))
  {
    hide CipherU, CipherV, NoiseVector, NoisePoly, MatrixA, DecodeU, DecodeV, DecodeVector, EncodeCipher, PolyToCipher,
         CipherToPoly, Rho, Centred, MaxError, Du, Dv, PublicKey;
    Widths(k);
    var u, v := HonestU(o, k, d, coins), HonestV(o, k, d, m, coins);
    DecodeEncodeCipher(u, v, k);
    CipherError(Du(k), u[i], j);
    CipherError(Dv(k), v, j);
  }
}
