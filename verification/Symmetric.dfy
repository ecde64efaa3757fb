/** SHA3 and SHAKE as ML-KEM uses them (fips202/fips202.c, mlkem/symmetric.h, mlkem/symmetric-shake.c). */
module Symmetric {
  import opened Bytes
  import opened KeccakSpec
  import opened Halves
  import opened LaneBytes
  import opened StateBytes
  import opened Sponge
  import opened Fips202
  import opened Modular
  import opened Sample
  import opened Transform  // Bounded
  import opened Products
  import opened Matacc
  import opened Kpke  // Oracles

  function Digest(m: seq<byte>, p: byte, r: nat, n: nat): (b: seq<byte>)
    requires IsRate(r)
    ensures |b| == n
  {
    Take(HashStream(m, p, r), n)
  }

  function Sha3Wide(m: seq<byte>): Bytes64 {
    Digest(m, 0x06, 72, 64)
  }

  function Sha3(m: seq<byte>): Bytes32 {
    Digest(m, 0x06, 136, 32)
  }

  function RejectionSecret(z: seq<byte>, c: seq<byte>): Bytes32 {
    Digest(z + c, 0x1f, 136, 32)
  }

  function PrfStream(key: seq<byte>, nonce: byte): Stream {
    HashStream(key + [nonce], 0x1f, 136)
  }

  function XofStream(seed: seq<byte>, x: byte, y: byte): Stream {
    HashStream(seed + [x, y], 0x1f, 168)
  }

  /** The hash functions of FIPS 203, as outputs of the sponge. */
  function Standard(): Oracles {
    Oracles(Sha3Wide, Sha3, RejectionSecret, PrfStream, XofStream)
  }

  /**
   SPONGE[Keccak-f, pad10*1, 8 * r](m and its domain suffix, 8 * l) of section 4 of FIPS 202, read off its first n
   blocks.
   */
  function SpongeOutput(m: Bits, r: nat, n: nat, l: nat): (z: Bits)
    requires IsRate(r) && l <= n * r
    ensures |z| == 8 * l
  {
    SqueezeBlocks(AbsorbBlocks(m + Pad(8 * r, |m|), 8 * r), 8 * r, n)[..8 * l]
  }

  /** A digest is the sponge's output on the message and the domain suffix, however long both are. */
  lemma DigestIsSponge(m: seq<byte>, p: byte, suffix: Bits, r: nat, n: nat, l: nat)
    requires IsRate(r) && IsDomain(p, suffix) && l <= n * r
    ensures ToBits(Digest(m, p, r, l)) == SpongeOutput(ToBits(m) + suffix, r, n, l)
  {
    hide ToBits, SqueezeBlocks, AbsorbBlocks, Sealed, OutSeq, IsDomain, Pad, Digest;
    var w, s := n * r, Sealed(m, p, r);
    SealedIsSponge(m, p, suffix, r);
    OutIsSqueeze(s, r, n, w);
    OutIsDigest(m, p, r, l);
    OutSeqAppend(s, r, 0, l, w - l);
    ToBitsAppend(OutSeq(s, r, 0, l), OutSeq(s, r, l, w - l));
    assert |ToBits(m) + suffix| == 8 * |m| + |suffix|;
  }

  /** The hash functions are SHA3-512, SHA3-256, and SHAKE256 of section 6 of FIPS 202. */
  lemma StandardIsFips202(m: seq<byte>, z: seq<byte>)
    ensures ToBits(Standard().g(m)) == SpongeOutput(ToBits(m) + [false, true], 72, 1, 64)
    ensures ToBits(Standard().h(m)) == SpongeOutput(ToBits(m) + [false, true], 136, 1, 32)
    ensures ToBits(Standard().j(z, m)) == SpongeOutput(ToBits(z + m) + [true, true, true, true], 136, 1, 32)
  {
    hide ToBits, SpongeOutput, Digest, IsDomain;
    Domains();
    DigestIsSponge(m, 0x06, [false, true], 72, 1, 64);
    DigestIsSponge(m, 0x06, [false, true], 136, 1, 32);
    DigestIsSponge(z + m, 0x1f, [true, true, true, true], 136, 1, 32);
  }

  /** The streams are SHAKE256 and SHAKE128, of any length. */
  lemma StreamsAreShake(key: seq<byte>, nonce: byte, x: byte, n: nat, l: nat)
    ensures l <= n * 136 ==>
      ToBits(Take(Standard().prf(key, nonce), l))
        == SpongeOutput(ToBits(key + [nonce]) + [true, true, true, true], 136, n, l)
    ensures l <= n * 168 ==>
      ToBits(Take(Standard().xof(key, nonce, x), l))
        == SpongeOutput(ToBits(key + [nonce, x]) + [true, true, true, true], 168, n, l)
  {
    hide ToBits, SpongeOutput, Take, HashStream, IsDomain;
    Domains();
    if l <= n * 136 {
      DigestIsSponge(key + [nonce], 0x1f, [true, true, true, true], 136, n, l);
    }
    if l <= n * 168 {
      DigestIsSponge(key + [nonce, x], 0x1f, [true, true, true, true], 168, n, l);
    }
  }

  lemma StreamIsOut(m: seq<byte>, p: byte, r: nat, k: nat, n: nat)
    requires IsRate(r)
    ensures forall i :: 0 <= i < n ==> OutSeq(Sealed(m, p, r), r, k, n)[i] == HashStream(m, p, r)(k + i)
  {
    hide Sealed, Out;
  }

  lemma OutIsDigest(m: seq<byte>, p: byte, r: nat, n: nat)
    requires IsRate(r)
    ensures OutSeq(Sealed(m, p, r), r, 0, n) == Digest(m, p, r, n)
  {
    hide Sealed, OutSeq, HashStream;
    StreamIsOut(m, p, r, 0, n);
    var a, b := OutSeq(Sealed(m, p, r), r, 0, n), Digest(m, p, r, n);
    forall i | 0 <= i < n ensures a[i] == b[i] {
      assert a[i] == HashStream(m, p, r)(0 + i);
    }
  }

  /** The one-shot functions: initialise, absorb, finalise, squeeze. */
  method Hash(out: array<byte>, o: nat, outlen: nat, input: seq<byte>, p: byte, r: nat)
    requires IsRate(r) && o + outlen <= out.Length
    modifies out
    ensures out[..] == old(out[..o]) + Digest(input, p, r, outlen) + old(out[o + outlen..])
  {
    hide KeccakF, Sealed, OutSeq, Digest;
    var c := new Context();
    assert [] + input == input;
    c.Absorb(r, input, []);
    ghost var s := c.Finalize(r, p, input);
    ghost var n := c.Squeeze(out, o, outlen, r, s, 0, 0);
    OutIsDigest(input, p, r, outlen);
  }

  /** `hash_g`, i.e. `sha3_512`. */
  method HashG(out: array<byte>, input: seq<byte>)
    requires out.Length >= 64
    modifies out
    ensures out[..] == Standard().g(input) + old(out[64..])
  {
    hide Digest;
    Hash(out, 0, 64, input, 0x06, 72);
  }

  /** `hash_h`, i.e. `sha3_256`, into out[o..]. */
  method HashH(out: array<byte>, o: nat, input: seq<byte>)
    requires o + 32 <= out.Length
    modifies out
    ensures out[..] == old(out[..o]) + Standard().h(input) + old(out[o + 32..])
  {
    hide Digest;
    Hash(out, o, 32, input, 0x06, 136);
  }

  /** `prf`, i.e. `mlkem_shake256_prf`. */
  method Prf(out: array<byte>, outlen: nat, key: seq<byte>, nonce: byte)
    requires outlen <= out.Length
    modifies out
    ensures out[..] == Take(Standard().prf(key, nonce), outlen) + old(out[outlen..])
  {
    hide HashStream, Take;
    Hash(out, 0, outlen, key + [nonce], 0x1f, 136);
  }

  /** `rkprf`, i.e. `mlkem_shake256_rkprf`: key and input are absorbed one after the other, never joined. */
  method Rkprf(out: array<byte>, key: seq<byte>, input: seq<byte>)
    requires out.Length >= 32
    modifies out
    ensures out[..] == Standard().j(key, input) + old(out[32..])
  {
    hide KeccakF, Sealed, OutSeq, Digest;
    var c := new Context();
    assert [] + key == key;
    c.Absorb(136, key, []);
    c.Absorb(136, input, key);
    ghost var s := c.Finalize(136, 0x1f, key + input);
    ghost var n := c.Squeeze(out, 0, 32, 136, s, 0, 0);
    OutIsDigest(key + input, 0x1f, 136, 32);
  }

  /** `xof_absorb`, i.e. `mlkem_shake128_absorb`. */
  method XofAbsorb(state: array<Word>, seed: seq<byte>, x: byte, y: byte) returns (ghost s: Bits)
    requires state.Length == 50
    modifies state
    ensures |s| == 1600 && StateOf(state[..]) == Iterate(s, 0) && KeccakF(s) == Sealed(seed + [x, y], 0x1f, 168)
  {
    hide StateOf, KeccakF, Sealed, NoBits;
    Clear(state);
    KeccakAbsorb(state, 168, seed + [x, y], 0x1f);
    s := StateOf(state[..]);
  }

  /** `xof_squeezeblocks` with one block: the next 168 bytes of the stream. */
  method XofSqueezeBlock(buf: array<byte>, state: array<Word>, seed: seq<byte>, x: byte, y: byte, ghost s: Bits,
      ghost block: nat)
    requires buf.Length == 168 && state.Length == 50 && buf as object != state
    requires |s| == 1600 && StateOf(state[..]) == Iterate(s, block) && KeccakF(s) == Sealed(seed + [x, y], 0x1f, 168)
    modifies state, buf
    ensures StateOf(state[..]) == Iterate(s, block + 1)
    ensures forall i :: 0 <= i < 168 ==> buf[i] == Standard().xof(seed, x, y)(168 * block + i)
  {
    hide StateOf, KeccakF, Sealed, Iterate, HashStream;
    KeccakSqueezeBlocks(buf, 0, 1, state, 168, s, block);
    StreamIsOut(seed + [x, y], 0x1f, 168, block * 168, 168);
    hide OutSeq;
    assert buf[..] == OutSeq(KeccakF(s), 168, block * 168, 168);
  }

  /**
   `matacc_inner` down to the permutation: SHAKE128 is squeezed block by block while the matrix entry is multiplied,
   and neither the entry nor more than one block of output is ever stored.
   */
  method MataccInnerShake(r: array<int16>, b: array<int16>, seed: seq<byte>, x: byte, y: byte, add: bool)
    requires r != b && r.Length == b.Length == 256 && Bounded(b[..], 1664) && Sampleable(Standard().xof(seed, x, y))
    modifies r
    ensures GrowsBy(SampleNtt(Standard().xof(seed, x, y)), old(b[..]), 3536)
    ensures r[..] == MontMul(add, old(r[..]), SampleNtt(Standard().xof(seed, x, y)), old(b[..]))
  {
    hide MontCoeff, Operands, SmallOperands, SampleNtt, Candidate, Accepted, Found, Fused, StateOf, KeccakF, Sealed,
        Iterate, HashStream;
    ghost var z := Standard().xof(seed, x, y);
    ghost var r0, w, v := r[..], SampleNtt(z), b[..];
    OperandsOk(w, v);
    var state := new Word[50];
    var buf := new byte[168];
    var ax := new int16[4];
    ghost var s := XofAbsorb(state, seed, x, y);
    var ctr: nat, ctr2: nat := 0, 0;
    ghost var block: nat := 0;
    FoundNone(z);
    FusedNone(add, r0, w, v, ax[..]);
    while ctr < 256
      invariant ctr <= 256 && Fused(add, r0, w, v, r[..], ax[..], ctr, ctr2) && b[..] == v
      invariant Found(z, 112 * block, ctr)
      invariant |s| == 1600 && StateOf(state[..]) == Iterate(s, block) && KeccakF(s) == Sealed(seed + [x, y], 0x1f, 168)
      decreases Needed(z) - 112 * block
    {
      XofSqueezeBlock(buf, state, seed, x, y, s, block);
      ctr, ctr2 := ScanBlock(r, b, ax, ctr, ctr2, add, buf[..], z, block, r0);
      block := block + 1;
    }
    FusedDone(add, r0, w, v, r[..], ax[..], ctr, ctr2);
  }

  lemma FusedNone(add: bool, r: seq<int16>, x: seq<int16>, y: seq<int16>, ax: seq<int16>)
    requires Operands(x, y) && |r| == 256 && |ax| == 4
    ensures Fused(add, r, x, y, r, ax, 0, 0)
  {
  }

  lemma FusedDone(add: bool, r0: seq<int16>, x: seq<int16>, y: seq<int16>, r: seq<int16>, ax: seq<int16>, ctr: nat,
      ctr2: nat)
    requires Operands(x, y) && |r0| == |r| == 256 && Fused(add, r0, x, y, r, ax, ctr, ctr2) && ctr == 256
    ensures r == MontMul(add, r0, x, y)
  {
    hide MontCoeff;
  }
}
