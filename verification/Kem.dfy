/** mlkem/kem.c: the key encapsulation mechanism with implicit rejection. */
module Kem {
  import opened Bytes
  import opened Verify
  import opened Codec
  import opened Kpke
  import opened Correctness
  import opened Indcpa

  // ----- the reference: section 6 of FIPS 203, over the encryption scheme of Kpke

  /** MLKEM_SECRETKEYBYTES. */
  function SecretKeyBytes(k: nat): nat {
    384 * k + (384 * k + 32) + 64
  }

  /** The decapsulation key: s, the public key, its hash and the rejection seed z. */
  ghost function DecapsulationKey(o: Oracles, k: nat, coins: seq<byte>): (sk: seq<byte>)
    requires |coins| == 64 && MatrixReady(o, k, Rho(o, coins[..32]))
    ensures |sk| == SecretKeyBytes(k)
  {
    var pk := PublicKey(o, k, coins[..32]);
    SecretKey(o, k, coins[..32]) + pk + o.h(pk) + coins[32..]
  }

  /** Shared key and encryption coins for message m under public key pk. */
  function KeyAndCoins(o: Oracles, m: seq<byte>, h: seq<byte>): (kr: seq<byte>)
    ensures |kr| == 64
  {
    o.g(m + h)
  }

  ghost function Encapsulate(o: Oracles, k: nat, pk: seq<byte>, m: seq<byte>): (r: (seq<byte>, seq<byte>))
    requires IsRank(k) && |pk| == 384 * k + 32 && |m| == 32 && MatrixReady(o, k, pk[384 * k..])
    ensures |r.0| == CipherBytes(k) && |r.1| == 32
  {
    var kr := KeyAndCoins(o, m, o.h(pk));
    (Encrypt(o, k, pk, m, kr[32..]), kr[..32])
  }

  function KeyPart(k: nat, sk: seq<byte>): (pk: seq<byte>)
    requires |sk| == SecretKeyBytes(k)
    ensures |pk| == 384 * k + 32
  {
    sk[384 * k..768 * k + 32]
  }

  function HashPart(k: nat, sk: seq<byte>): (h: seq<byte>)
    requires |sk| == SecretKeyBytes(k)
    ensures |h| == 32
  {
    sk[768 * k + 32..768 * k + 64]
  }

  function RejectPart(k: nat, sk: seq<byte>): (z: seq<byte>)
    requires |sk| == SecretKeyBytes(k)
    ensures |z| == 32
  {
    sk[768 * k + 64..]
  }

  /** The shared key of m if re-encrypting m gives ct, and a hash of z and ct otherwise. */
  ghost function Response(o: Oracles, k: nat, pk: seq<byte>, h: seq<byte>, z: seq<byte>, m: seq<byte>,
      ct: seq<byte>): (ss: seq<byte>)
    requires IsRank(k) && |pk| == 384 * k + 32 && |m| == 32 && MatrixReady(o, k, pk[384 * k..])
    ensures |ss| == 32
  {
    var kr := KeyAndCoins(o, m, h);
    if Encrypt(o, k, pk, m, kr[32..]) == ct then kr[..32] else o.j(z, ct)
  }

  /** The response for the decrypted message. */
  ghost function Decapsulate(o: Oracles, k: nat, ct: seq<byte>, sk: seq<byte>): (ss: seq<byte>)
    requires IsRank(k) && |ct| == CipherBytes(k) && |sk| == SecretKeyBytes(k)
        && MatrixReady(o, k, KeyPart(k, sk)[384 * k..])
    ensures |ss| == 32
  {
    Response(o, k, KeyPart(k, sk), HashPart(k, sk), RejectPart(k, sk), Decrypt(k, sk, ct), ct)
  }

  // ----- the code

  /** `crypto_kem_keypair_derand`. */
  method KemKeypairDerand(pk: array<byte>, sk: array<byte>, o: Oracles, k: nat, coins: seq<byte>)
    requires IsRank(k) && pk != sk && pk.Length == 384 * k + 32 && sk.Length == SecretKeyBytes(k) && |coins| == 64
    requires MatrixReady(o, k, Rho(o, coins[..32]))
    modifies pk, sk
    ensures pk[..] == PublicKey(o, k, coins[..32])
    ensures sk[..] == DecapsulationKey(o, k, coins)
  {
    hide PublicKey, SecretKey, MatrixReady, Rho;
    IndcpaKeypairDerand(pk, sk, o, k, coins[..32]);
    WriteBytes(sk, 384 * k, pk[..]);
    WriteBytes(sk, 768 * k + 32, o.h(pk[..]));
    WriteBytes(sk, 768 * k + 64, coins[32..]);
  }

  /** `crypto_kem_enc_derand`. */
  method KemEncDerand(ct: array<byte>, ss: array<byte>, o: Oracles, k: nat, pk: seq<byte>, coins: seq<byte>)
    requires IsRank(k) && ct != ss && ct.Length == CipherBytes(k) && ss.Length == 32 && |pk| == 384 * k + 32
        && |coins| == 32
    requires MatrixReady(o, k, pk[384 * k..])
    modifies ct, ss
    ensures ct[..] == Encapsulate(o, k, pk, coins).0 && ss[..] == Encapsulate(o, k, pk, coins).1
  {
    hide Encrypt, MatrixReady, CipherBytes;
    var buf := new byte[64];
    WriteBytes(buf, 0, coins);
    WriteBytes(buf, 32, o.h(pk));
    assert buf[..] == coins + o.h(pk);
    var kr := o.g(buf[..]);
    IndcpaEnc(ct, o, k, buf[..32], pk, kr[32..]);
    WriteBytes(ss, 0, kr[..32]);
  }

  /** `crypto_kem_dec`. */
  method KemDec(ss: array<byte>, o: Oracles, k: nat, ct: seq<byte>, sk: seq<byte>)
    requires IsRank(k) && ss.Length == 32 && |ct| == CipherBytes(k) && |sk| == SecretKeyBytes(k)
    requires MatrixReady(o, k, KeyPart(k, sk)[384 * k..])
    modifies ss
    ensures ss[..] == Decapsulate(o, k, ct, sk)
  {
    hide Encrypt, Decrypt, MatrixReady, CipherBytes, Response, KeyPart, HashPart, RejectPart;
    var buf := new byte[64];
    var pk := KeyPart(k, sk);
    IndcpaDec(buf, k, ct, sk);
    WriteBytes(buf, 32, HashPart(k, sk));
    ghost var m := Decrypt(k, sk, ct);
    assert buf[..] == m + HashPart(k, sk) && buf[..32] == m;
    var kr := o.g(buf[..]);
    var fail := IndcpaEncCmp(ct, o, k, buf[..32], pk, kr[32..]);
    WriteBytes(ss, 0, o.j(RejectPart(k, sk), ct));
    Cmov(ss, kr[..32], 1 - fail);
    ResponseIs(o, k, pk, HashPart(k, sk), RejectPart(k, sk), m, ct, kr);
  }

  lemma ResponseIs(o: Oracles, k: nat, pk: seq<byte>, h: seq<byte>, z: seq<byte>, m: seq<byte>, ct: seq<byte>,
      kr: seq<byte>)
    requires IsRank(k) && |pk| == 384 * k + 32 && |m| == 32 && MatrixReady(o, k, pk[384 * k..]) && kr == o.g(m + h)
    ensures Response(o, k, pk, h, z, m, ct) == if Encrypt(o, k, pk, m, kr[32..]) == ct then kr[..32] else o.j(z, ct)
  {
    hide Encrypt, MatrixReady;
  }

  // ----- correctness

  /** Honest parties agree on the shared key whenever the noise of the inner encryption fits. */
  lemma DecapsulateEncapsulate(o: Oracles, k: nat, coins: seq<byte>, m: seq<byte>)
    requires IsRank(k) && |coins| == 64 && |m| == 32 && MatrixReady(o, k, Rho(o, coins[..32]))
    requires NoiseFits(m, HonestNoise(o, k, coins[..32], m, KeyAndCoins(o, m, o.h(PublicKey(o, k, coins[..32])))[32..]))
    ensures var (ct, ss) := Encapsulate(o, k, PublicKey(o, k, coins[..32]), m);
            var sk := DecapsulationKey(o, k, coins);
            KeyPart(k, sk) == PublicKey(o, k, coins[..32]) && Decapsulate(o, k, ct, sk) == ss
  {
    hide PublicKey, SecretKey, Encrypt, MatrixReady, Rho, NoiseFits, HonestNoise, CipherBytes, DecodeVector, Phase,
        DecodeU, DecodeV, PolyToCipher;
    var d := coins[..32];
    var pk, sk := PublicKey(o, k, d), DecapsulationKey(o, k, coins);
    assert KeyPart(k, sk) == pk && HashPart(k, sk) == o.h(pk);
    var kr := KeyAndCoins(o, m, o.h(pk));
    var c := Encrypt(o, k, pk, m, kr[32..]);
    DecryptInvertsEncrypt(o, k, d, m, kr[32..]);
    DecryptPrefix(k, SecretKey(o, k, d), sk, c);
  }

  /**
   When the noise does not fit, decapsulation always works on another message: the result is that message's shared key
   if it happens to encrypt to the same ciphertext, and the rejection value otherwise.
   */
  lemma DecapsulateMisses(o: Oracles, k: nat, coins: seq<byte>, m: seq<byte>, pk: seq<byte>, kr: seq<byte>,
      ct: seq<byte>) returns (other: seq<byte>)
    requires IsRank(k) && |coins| == 64 && |m| == 32 && MatrixReady(o, k, Rho(o, coins[..32]))
    requires pk == PublicKey(o, k, coins[..32]) && kr == KeyAndCoins(o, m, o.h(pk))
    requires ct == Encapsulate(o, k, pk, m).0
    requires !NoiseFits(m, HonestNoise(o, k, coins[..32], m, kr[32..]))
    ensures |other| == 32 && other != m
    ensures KeyPart(k, DecapsulationKey(o, k, coins)) == pk
    ensures Decapsulate(o, k, ct, DecapsulationKey(o, k, coins)) == Response(o, k, pk, o.h(pk), coins[32..], other, ct)
  {
    hide PublicKey, SecretKey, Encrypt, MatrixReady, Rho, NoiseFits, HonestNoise, CipherBytes, DecodeVector, Phase,
        DecodeU, DecodeV, PolyToCipher,
         Decrypt, Response;
    var d, sk := coins[..32], DecapsulationKey(o, k, coins);
    assert KeyPart(k, sk) == pk && HashPart(k, sk) == o.h(pk) && RejectPart(k, sk) == coins[32..];
    other := Decrypt(k, sk, ct);
    DecryptInvertsEncrypt(o, k, d, m, kr[32..]);
    DecryptPrefix(k, SecretKey(o, k, d), sk, ct);
  }

  /** Decryption only reads the vector part of the secret key. */
  lemma DecryptPrefix(k: nat, s: seq<byte>, sk: seq<byte>, c: seq<byte>)
    requires IsRank(k) && |c| == CipherBytes(k) && |s| == 384 * k <= |sk| && sk[..384 * k] == s
    ensures Decrypt(k, sk, c) == Decrypt(k, s, c)
  {
    hide BytesToPoly, Phase, DecodeU, DecodeV, PolyToCipher, CipherBytes;
    var x, y := DecodeVector(sk, k), DecodeVector(s, k);
    forall i | 0 <= i < k ensures x[i] == y[i] {
      assert sk[384 * i..384 * i + 384] == s[384 * i..384 * i + 384];
    }
    assert x == y;
  }
}
