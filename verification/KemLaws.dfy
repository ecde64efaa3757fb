/** The key encapsulation mechanism in bytes: what is hashed, in which order, and where everything is. */
module KemLaws {
  import opened Bytes
  import opened Kpke
  import opened Kem

  /** A decapsulation key is s, the public key, its hash, and the rejection seed, one after the other. */
  lemma DecapsulationKeyParts(o: Oracles, k: nat, coins: seq<byte>)
    requires IsRank(k) && |coins| == 64 && MatrixReady(o, k, o.g(coins[..32])[..32])
    ensures MatrixReady(o, k, Rho(o, coins[..32]))
    ensures var sk, pk := DecapsulationKey(o, k, coins), PublicKey(o, k, coins[..32]);
            sk[..384 * k] == SecretKey(o, k, coins[..32]) && sk[384 * k..768 * k + 32] == pk
              && sk[768 * k + 32..768 * k + 64] == o.h(pk) && sk[768 * k + 64..] == coins[32..]
  {
    hide PublicKey, SecretKey, MatrixReady;
    assert o.g(coins[..32])[..32] == Rho(o, coins[..32]);
  }

  /** Key and coins are the two halves of the hash of the message and the hashed public key, in this order. */
  lemma EncapsulationHashes(o: Oracles, k: nat, pk: seq<byte>, m: seq<byte>)
    requires IsRank(k) && |pk| == 384 * k + 32 && |m| == 32 && MatrixReady(o, k, pk[384 * k..])
    ensures Encapsulate(o, k, pk, m) == (Encrypt(o, k, pk, m, o.g(m + o.h(pk))[32..]), o.g(m + o.h(pk))[..32])
  {
    hide Encrypt, MatrixReady;
  }

  /** The shared key depends on the public key only through its hash, and on nothing but that and the message. */
  lemma SharedKeyReads(o: Oracles, k: nat, pk: seq<byte>, l: nat, qk: seq<byte>, m: seq<byte>)
    requires IsRank(k) && |pk| == 384 * k + 32 && |m| == 32 && MatrixReady(o, k, pk[384 * k..])
    requires IsRank(l) && |qk| == 384 * l + 32 && MatrixReady(o, l, qk[384 * l..]) && o.h(pk) == o.h(qk)
    ensures Encapsulate(o, k, pk, m).1 == Encapsulate(o, l, qk, m).1
  {
    hide Encrypt, MatrixReady;
  }

  /** The parts of a decapsulation key, for all strings of its length. */
  lemma KeyParts(k: nat, s: seq<byte>, pk: seq<byte>, h: seq<byte>, z: seq<byte>)
    requires |s| == 384 * k && |pk| == 384 * k + 32 && |h| == |z| == 32
    ensures var sk := s + pk + h + z;
            KeyPart(k, sk) == pk && HashPart(k, sk) == h && RejectPart(k, sk) == z && sk[..384 * k] == s
  {
  }

  /**
   A ciphertext that re-encrypting the decrypted message gives is answered with that message's key, and any other with
   the hash of the rejection seed and the ciphertext.
   */
  lemma DecapsulationAnswers(o: Oracles, k: nat, ct: seq<byte>, sk: seq<byte>, pk: seq<byte>, m: seq<byte>)
    requires IsRank(k) && |ct| == CipherBytes(k) && |sk| == SecretKeyBytes(k) && pk == KeyPart(k, sk)
    requires MatrixReady(o, k, pk[384 * k..]) && m == Decrypt(k, sk, ct)
    ensures var kr := o.g(m + HashPart(k, sk));
            Decapsulate(o, k, ct, sk)
              == if Encrypt(o, k, pk, m, kr[32..]) == ct then kr[..32] else o.j(RejectPart(k, sk), ct)
  {
    hide Encrypt, Decrypt, MatrixReady, CipherBytes, KeyPart, HashPart, RejectPart;
  }
}
