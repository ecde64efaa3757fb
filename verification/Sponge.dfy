/** The sponge construction (sections 4 and 5.1 of FIPS 202) and the same thing byte by byte. */
module Sponge {
  import opened Bytes
  import opened KeccakSpec
  import opened LaneBytes
  import opened StateBytes
  import opened Sample  // Stream

  /** A rate in bytes; `fips202.h` uses 168, 136, 104 and 72. */
  predicate IsRate(r: nat) {
    0 < r < 200
  }

  /** f applied n times. */
  function Iterate(s: Bits, n: nat): (t: Bits)
    requires |s| == 1600
    ensures |t| == 1600
  {
    if n == 0 then s else KeccakF(Iterate(s, n - 1))
  }

  // ----- on bit strings

  /** The state after absorbing a string of whole blocks of w bits. */
  function AbsorbBlocks(p: Bits, w: nat): (s: Bits)
    requires 0 < w <= 1600
    ensures |s| == 1600
    decreases |p|
  {
    if |p| < w then NoBits(1600)
    else
      var n := |p| - w;
      KeccakF(XorAt(AbsorbBlocks(p[..n], w), 0, p[n..]))
  }

  /** pad10*1 (section 5.1). */
  function Pad(x: nat, m: nat): (p: Bits)
    requires x > 0
    ensures |p| >= 2
  {
    [true] + NoBits((-(m as int) - 2) % x) + [true]
  }

  lemma PadFills(x: nat, m: nat)
    requires x > 0
    ensures (m + |Pad(x, m)|) % x == 0
  {
    var j := (-(m as int) - 2) % x;
    var q := (-(m as int) - 2) / x;
    assert -(m as int) - 2 == x * q + j;
    assert m + 2 + j == x * -q;
    Bytes.MultipleMod(-q, x);
  }

  /** The first n blocks of output. */
  function SqueezeBlocks(s: Bits, w: nat, n: nat): (z: Bits)
    requires |s| == 1600 && w <= 1600
    ensures |z| == n * w
  {
    if n == 0 then [] else
      assert (n - 1) * w + w == n * w;
      SqueezeBlocks(s, w, n - 1) + Iterate(s, n - 1)[..w]
  }

  // ----- on byte strings

  /** The bytes that complete the last block: domain suffix and padding, merged if only one byte is left. */
  function Tail(p: byte, n: nat): (t: seq<byte>)
    requires n > 0
    ensures |t| == n
  {
    if n == 1 then [p | 0x80] else [p] + Zeros(n - 2) + [0x80]
  }

  /** How many of l bytes make up whole blocks, and how many are left over. */
  function Whole(l: nat, r: nat): (n: nat)
    requires r > 0
  {
    l / r * r
  }

  function Rest(l: nat, r: nat): (n: nat)
    requires r > 0
    ensures n < r
  {
    l % r
  }

  lemma WholeRest(l: nat, r: nat)
    requires r > 0
    ensures l == Whole(l, r) + Rest(l, r)
    ensures l < r ==> Whole(l, r) == 0
    ensures l >= r ==> Whole(l, r) >= r
    ensures Rest(Whole(l, r), r) == 0 && Whole(Whole(l, r), r) == Whole(l, r)
  {
    var q := l / r;
    assert l == r * q + l % r && q * r == r * q;
    MultipleMod(q, r);
    if l < r {
      assert q == 0;
    } else {
      assert r * (q - 1) >= 0;
    }
    DivModUnique(0, r, q);
  }

  lemma WholePart(l: nat, d: nat, r: nat)
    requires r > 0 && Rest(l, r) + d < r
    ensures Whole(l + d, r) == Whole(l, r) && Rest(l + d, r) == Rest(l, r) + d
  {
    DivModUnique(l % r + d, r, l / r);
    assert l + d == l % r + d + r * (l / r);
  }

  lemma WholeBlock(l: nat, d: nat, r: nat)
    requires r > 0 && Rest(l, r) + d == r
    ensures Whole(l + d, r) == Whole(l, r) + r == l + d && Rest(l + d, r) == 0
  {
    var q := l / r;
    assert l == r * q + l % r;
    DivModUnique(0, r, q + 1);
    assert l + d == r * (q + 1) && r * (q + 1) == q * r + r;
  }

  /** One block absorbed. */
  function BlockInto(s: Bits, b: seq<byte>): (t: Bits)
    requires |s| == 1600 && |b| <= 200
    ensures |t| == 1600
  {
    KeccakF(XorAt(s, 0, ToBits(b)))
  }

  /** The state while m is being absorbed: whole blocks have been permuted, the rest is xored in. */
  function Absorbing(m: seq<byte>, r: nat): (s: Bits)
    requires IsRate(r)
    ensures |s| == 1600
    decreases |m|
  {
    WholeRest(|m|, r);
    if |m| < r then XorAt(NoBits(1600), 0, ToBits(m))
    else
      var n := Whole(|m|, r) - r;
      XorAt(BlockInto(Absorbing(m[..n], r), m[n..n + r]), 0, ToBits(m[n + r..]))
  }

  lemma AbsorbingShort(m: seq<byte>, r: nat)
    requires IsRate(r) && |m| < r
    ensures Absorbing(m, r) == XorAt(NoBits(1600), 0, ToBits(m))
  {
    hide BlockInto, XorAt, ToBits, Whole, Rest;
  }

  lemma AbsorbingStep(m: seq<byte>, r: nat, n: nat, x: seq<byte>, y: seq<byte>, z: seq<byte>)
    requires IsRate(r) && n + r <= |m| && x == m[..n] && y == m[n..n + r] && |y| == r && z == m[n + r..]
        && 8 * |z| <= 1600
    requires n + r == Whole(|m|, r)
    ensures Absorbing(m, r) == XorAt(BlockInto(Absorbing(x, r), y), 0, ToBits(z))
  {
    hide BlockInto, XorAt, ToBits, Whole, Rest;
  }

  lemma ThreeParts(x: seq<byte>, y: seq<byte>, z: seq<byte>, m: seq<byte>)
    requires m == x + y + z
    ensures |m| == |x| + |y| + |z| && m[..|x|] == x && m[|x|..|x| + |y|] == y && m[|x| + |y|..] == z
  {
  }

  /** Whole blocks x, the last whole block y, and the rest z. */
  lemma AbsorbingLong(m: seq<byte>, x: seq<byte>, y: seq<byte>, z: seq<byte>, r: nat)
    requires IsRate(r) && m == x + y + z && Rest(|x|, r) == 0 && |y| == r && |z| < r
    ensures Absorbing(m, r) == XorAt(BlockInto(Absorbing(x, r), y), 0, ToBits(z))
  {
    hide *;
    RateBound(r);
    ThreeParts(x, y, z, m);
    WholeOf(|m|, |x|, |z|, r);
    AbsorbingStep(m, r, |x|, x, y, z);
  }

  lemma RateBound(r: nat)
    requires IsRate(r)
    ensures 0 < r < 200
  {
  }

  lemma WholeOf(m: nat, x: nat, z: nat, r: nat)
    requires r > 0 && m == x + r + z && Rest(x, r) == 0 && z < r
    ensures Whole(m, r) == x + r
  {
    hide Whole, Rest;
    WholeRest(x, r);
    WholeBlock(x, r, r);
    WholePart(x + r, z, r);
  }

  /** After whole blocks only, nothing is xored in. */
  lemma AbsorbingWhole(x: seq<byte>, y: seq<byte>, r: nat)
    requires IsRate(r) && Rest(|x|, r) == 0 && |y| == r
    ensures Absorbing(x + y, r) == BlockInto(Absorbing(x, r), y)
  {
    hide BlockInto, XorAt, ToBits, Absorbing, Rest;
    assert x + y + [] == x + y;
    AbsorbingLong(x + y, x, y, [], r);
    NoBytes();
    XorAtNothing(BlockInto(Absorbing(x, r), y), 0);
  }

  /** The state is the last block boundary's, with the rest of the message xored in. */
  lemma AbsorbSplit(x: seq<byte>, z: seq<byte>, r: nat)
    requires IsRate(r) && Rest(|x|, r) == 0 && |z| < r
    ensures Absorbing(x + z, r) == XorAt(Absorbing(x, r), 0, ToBits(z))
  {
    hide BlockInto, XorAt, ToBits, Absorbing, Rest, Whole, NoBits;
    WholeRest(|x|, r);
    if |x| < r {
      assert x == [] && x + z == z;
      AbsorbNothing(r);
      AbsorbingShort(z, r);
    } else {
      var n := |x| - r;
      RestBefore(n, r);
      assert x == x[..n] + x[n..];
      AbsorbingWhole(x[..n], x[n..], r);
      AbsorbingLong(x + z, x[..n], x[n..], z, r);
    }
  }

  /** A message is whole blocks and a rest. */
  lemma Split(m: seq<byte>, r: nat) returns (x: seq<byte>, z: seq<byte>)
    requires r > 0
    ensures m == x + z && Rest(|x|, r) == 0 && |z| == Rest(|m|, r) < r
  {
    WholeRest(|m|, r);
    hide Whole, Rest;
    x, z := m[..Whole(|m|, r)], m[Whole(|m|, r)..];
  }

  /** More bytes that stay within the current block. */
  lemma AbsorbPart(m: seq<byte>, r: nat, d: seq<byte>)
    requires IsRate(r) && Rest(|m|, r) + |d| < r
    ensures Absorbing(m + d, r) == XorAt(Absorbing(m, r), 8 * Rest(|m|, r), ToBits(d))
    ensures Rest(|m + d|, r) == Rest(|m|, r) + |d|
  {
    hide XorAt, ToBits, Whole, Rest, Absorbing;
    WholePart(|m|, |d|, r);
    var x, z := Split(m, r);
    AbsorbSplit(x, z, r);
    AbsorbSplit(x, z + d, r);
    assert m + d == x + (z + d);
    ToBitsAppend(z, d);
    XorAtAppend(Absorbing(x, r), 0, ToBits(z), ToBits(d));
  }

  /** Bytes that fill the current block. */
  lemma AbsorbBlock(m: seq<byte>, r: nat, d: seq<byte>)
    requires IsRate(r) && Rest(|m|, r) + |d| == r
    ensures Absorbing(m + d, r) == KeccakF(XorAt(Absorbing(m, r), 8 * Rest(|m|, r), ToBits(d)))
    ensures Rest(|m + d|, r) == 0
  {
    hide KeccakF, XorAt, ToBits, Absorbing, Whole, Rest;
    WholeBlock(|m|, |d|, r);
    var x, z := Split(m, r);
    AbsorbSplit(x, z, r);
    AbsorbingWhole(x, z + d, r);
    assert m + d == x + (z + d);
    ToBitsAppend(z, d);
    XorAtAppend(Absorbing(x, r), 0, ToBits(z), ToBits(d));
  }

  lemma NoBytes()
    ensures ToBits([]) == []
  {
  }

  lemma AbsorbNothing(r: nat)
    requires IsRate(r)
    ensures Absorbing([], r) == NoBits(1600)
  {
    hide KeccakF;
    XorAtNothing(NoBits(1600), 0);
  }

  /** On whole blocks, the byte-wise state is that of section 4. */
  lemma {:induction false} AbsorbingIsBlocks(m: seq<byte>, r: nat)
    requires IsRate(r) && Rest(|m|, r) == 0
    ensures Absorbing(m, r) == AbsorbBlocks(ToBits(m), 8 * r)
    decreases |m|
  {
    WholeRest(|m|, r);
    if |m| < r {
      AbsorbNothing(r);
      NoBytes();
    } else {
      hide KeccakF, XorAt, ToBits, Absorbing, Rest, Whole;
      var k := |m| - r;
      var x, y := m[..k], m[k..];
      assert m == x + y;
      RestBefore(k, r);
      AbsorbingWhole(x, y, r);
      AbsorbingIsBlocks(x, r);
      ToBitsAppend(x, y);
      assert ToBits(m)[..8 * k] == ToBits(x) && ToBits(m)[8 * k..] == ToBits(y);
    }
  }

  lemma RestBefore(k: nat, r: nat)
    requires r > 0 && Rest(k + r, r) == 0
    ensures Rest(k, r) == 0
  {
    DivModStep(k, r);
  }

  // ----- padding

  /** p spells the domain suffix, the first bit of the padding, and zeros. */
  predicate IsDomain(p: byte, suffix: Bits) {
    |suffix| <= 6 && ToBits([p]) == suffix + [true] + NoBits(7 - |suffix|)
  }

  lemma Domains()
    ensures IsDomain(0x1f, [true, true, true, true]) && IsDomain(0x06, [false, true])
  {
    assert BitsOf(0x1f) == [1, 1, 1, 1, 1, 0, 0, 0] && BitsOf(0x06) == [0, 1, 1, 0, 0, 0, 0, 0];
    hide BitsOf;
    assert ToBits([0x1f]) == [true, true, true, true] + [true] + NoBits(3);
    assert ToBits([0x06]) == [false, true] + [true] + NoBits(5);
  }

  lemma LastBit(p: byte)
    requires !ByteBit(p, 7)
    ensures forall j :: 0 <= j < 8 ==> ByteBit(p | 0x80, j) == (j == 7 || ByteBit(p, j))
  {
  }

  lemma EndByte()
    ensures ToBits([0x80]) == NoBits(7) + [true]
  {
  }

  /** The tail bytes are suffix and pad10*1 to the end of the block. */
  lemma TailBits(p: byte, suffix: Bits, n: nat)
    requires IsDomain(p, suffix) && n > 0
    ensures ToBits(Tail(p, n)) == suffix + [true] + NoBits(8 * n - |suffix| - 2) + [true]
  {
    if n == 1 {
      LastTail(p, suffix);
    } else {
      LongTail(p, suffix, n);
    }
  }

  lemma LastTail(p: byte, suffix: Bits)
    requires IsDomain(p, suffix)
    ensures ToBits([p | 0x80]) == suffix + [true] + NoBits(6 - |suffix|) + [true]
  {
    DomainBit(p, suffix, 7);
    LastBit(p);
    hide ByteBit;
    var a, b := ToBits([p | 0x80]), suffix + [true] + NoBits(6 - |suffix|) + [true];
    forall k | 0 <= k < 8 ensures a[k] == b[k] {
      DomainBit(p, suffix, k);
    }
  }

  lemma LongTail(p: byte, suffix: Bits, n: nat)
    requires IsDomain(p, suffix) && n > 1
    ensures ToBits(Tail(p, n)) == suffix + [true] + NoBits(8 * n - |suffix| - 2) + [true]
  {
    hide ToBits;
    var l := |suffix|;
    ToBitsAppend([p] + Zeros(n - 2), [0x80]);
    ToBitsAppend([p], Zeros(n - 2));
    ZeroBits(n - 2);
    EndByte();
    JoinZeros(7 - l, 8 * (n - 2), 7);
    assert suffix + [true] + NoBits(7 - l) + NoBits(8 * (n - 2)) + (NoBits(7) + [true])
        == suffix + [true] + (NoBits(7 - l) + NoBits(8 * (n - 2)) + NoBits(7)) + [true];
  }

  lemma JoinZeros(a: nat, b: nat, c: nat)
    ensures NoBits(a) + NoBits(b) + NoBits(c) == NoBits(a + b + c)
  {
  }

  lemma DomainBit(p: byte, suffix: Bits, k: nat)
    requires IsDomain(p, suffix) && k < 8
    ensures ByteBit(p, k) == (suffix + [true] + NoBits(7 - |suffix|))[k]
  {
    assert ToBits([p])[k] == ByteBit(p, k);
  }

  /** Message, suffix and padding of section 6, as the bytes the code absorbs. */
  lemma PaddedBits(m: seq<byte>, p: byte, suffix: Bits, r: nat)
    requires IsRate(r) && IsDomain(p, suffix)
    ensures ToBits(m + Tail(p, r - Rest(|m|, r))) == ToBits(m) + suffix + Pad(8 * r, 8 * |m| + |suffix|)
  {
    hide ToBits, IsDomain, Tail;
    var n, l := r - Rest(|m|, r), |suffix|;
    TailLength(p, suffix);
    TailBits(p, suffix, n);
    ToBitsAppend(m, Tail(p, n));
    PadLength(|m|, l, r, n);
    assert ToBits(m) + (suffix + [true] + NoBits(8 * n - l - 2) + [true])
        == ToBits(m) + suffix + ([true] + NoBits(8 * n - l - 2) + [true]);
  }

  lemma TailLength(p: byte, suffix: Bits)
    requires IsDomain(p, suffix)
    ensures |suffix| <= 6
  {
  }

  lemma PadLength(m: nat, l: nat, r: nat, n: nat)
    requires IsRate(r) && l <= 6 && n == r - Rest(m, r)
    ensures (-((8 * m + l) as int) - 2) % (8 * r) == 8 * n - l - 2
  {
    var q := m / r;
    var x := 8 * n - l - 2;
    assert m == r * q + m % r;
    assert -(8 * m + l) - 2 == x - 8 * r * (q + 1) by {
      assert 8 * r * (q + 1) == 8 * (r * q) + 8 * r;
    }
    ModShift(-((8 * m + l) as int) - 2, x, 8 * r, q + 1);
  }

  // ----- the hash functions

  /** The state in which m, its domain suffix and the padding have been absorbed. */
  function Sealed(m: seq<byte>, p: byte, r: nat): (s: Bits)
    requires IsRate(r)
    ensures |s| == 1600
  {
    Absorbing(m + Tail(p, r - Rest(|m|, r)), r)
  }

  /** That is the absorbing phase of SPONGE[f, pad10*1, 8 * r] on the message and its suffix. */
  lemma SealedIsSponge(m: seq<byte>, p: byte, suffix: Bits, r: nat)
    requires IsRate(r) && IsDomain(p, suffix)
    ensures Sealed(m, p, r) == AbsorbBlocks(ToBits(m) + suffix + Pad(8 * r, 8 * |m| + |suffix|), 8 * r)
  {
    hide ToBits, IsDomain, Tail, Absorbing, AbsorbBlocks, Pad, Whole, Rest;
    var t := Tail(p, r - Rest(|m|, r));
    PaddedBits(m, p, suffix, r);
    WholeBlock(|m|, |t|, r);
    AbsorbingIsBlocks(m + t, r);
  }

  /** Byte k of the output that starts with the state s. */
  function Out(s: Bits, r: nat, k: nat): byte
    requires |s| == 1600 && IsRate(r)
  {
    BytesAt(Iterate(s, k / r), 0, r)[Rest(k, r)]
  }

  function OutSeq(s: Bits, r: nat, k: nat, length: nat): (b: seq<byte>)
    requires |s| == 1600 && IsRate(r)
    ensures |b| == length
  {
    seq(length, i requires 0 <= i < length => Out(s, r, k + i))
  }

  lemma OutSeqAppend(s: Bits, r: nat, k: nat, m: nat, n: nat)
    requires |s| == 1600 && IsRate(r)
    ensures OutSeq(s, r, k, m + n) == OutSeq(s, r, k, m) + OutSeq(s, r, k + m, n)
  {
    hide Out;
    var a, b, c := OutSeq(s, r, k, m + n), OutSeq(s, r, k, m), OutSeq(s, r, k + m, n);
    forall i | 0 <= i < m + n ensures a[i] == (b + c)[i] {
      if i >= m {
        assert k + i == (k + m) + (i - m);
      }
    }
  }

  lemma OutAt(s: Bits, r: nat, n: nat, j: nat, k: nat)
    requires |s| == 1600 && IsRate(r) && j < r && k == n * r + j
    ensures Out(s, r, k) == BytesAt(Iterate(s, n), 0, r)[j]
  {
    hide Iterate, BytesAt;
    assert k == j + r * n;
    DivModUnique(j, r, n);
  }

  /** Bytes of block n. */
  lemma OutOfBlock(s: Bits, r: nat, n: nat, offset: nat, length: nat, k: nat)
    requires |s| == 1600 && IsRate(r) && offset + length <= r && k == n * r + offset
    ensures BytesAt(Iterate(s, n), offset, length) == OutSeq(s, r, k, length)
  {
    hide Iterate, BytesAt, Out;
    var a, b := BytesAt(Iterate(s, n), offset, length), OutSeq(s, r, k, length);
    forall i | 0 <= i < length ensures a[i] == b[i] {
      OutAt(s, r, n, offset + i, k + i);
      SubBytes(Iterate(s, n), r, offset, length, i);
    }
  }

  lemma SubBytes(s: Bits, r: nat, offset: nat, length: nat, i: nat)
    requires |s| == 1600 && offset + length <= r <= 200 && i < length
    ensures BytesAt(s, offset, length)[i] == BytesAt(s, 0, r)[offset + i]
  {
    hide ByteFrom;
    var o := 8 * (offset + i);
    SliceOfSlice(s, 8 * offset, 8 * (offset + length), 8 * i, 8 * i + 8);
    SliceOfSlice(s, 8 * 0, 8 * (0 + r), o, o + 8);
  }

  lemma {:induction false} IterateShift(s: Bits, n: nat)
    requires |s| == 1600
    ensures Iterate(s, n + 1) == Iterate(KeccakF(s), n)
  {
    hide KeccakF;
    if n > 0 {
      IterateShift(s, n - 1);
    }
  }

  /** The output of SHA3 and SHAKE as an unbounded stream. */
  function HashStream(m: seq<byte>, p: byte, r: nat): Stream
    requires IsRate(r)
  {
    var s := Sealed(m, p, r);
    (k: nat) => Out(s, r, k)
  }

  lemma SqueezeStep(s: Bits, w: nat, n: nat)
    requires |s| == 1600 && w <= 1600
    ensures SqueezeBlocks(s, w, 0) == []
    ensures n > 0 ==> SqueezeBlocks(s, w, n) == SqueezeBlocks(s, w, n - 1) + Iterate(s, n - 1)[..w]
  {
    hide Iterate;
  }

  lemma BlockBits(s: Bits, r: nat, n: nat, k: nat)
    requires |s| == 1600 && IsRate(r) && k == n * r
    ensures ToBits(OutSeq(s, r, k, r)) == Iterate(s, n)[..8 * r]
  {
    hide Iterate, ToBits, OutSeq, FromBits, BytesAt;
    OutOfBlock(s, r, n, 0, r, k);
    var t := Iterate(s, n);
    assert t[8 * 0..8 * 0 + 8 * r] == t[..8 * r];
    BytesAtIs(t, 0, r);
    ToFromBits(t[..8 * r]);
  }

  /** Its bits are those that section 4 squeezes out. */
  lemma {:induction false} OutIsSqueeze(s: Bits, r: nat, n: nat, l: nat)
    requires |s| == 1600 && IsRate(r) && l == n * r
    ensures ToBits(OutSeq(s, r, 0, l)) == SqueezeBlocks(s, 8 * r, n)
    decreases n
  {
    hide Iterate, ToBits, OutSeq, SqueezeBlocks;
    SqueezeStep(s, 8 * r, n);
    if n == 0 {
      assert OutSeq(s, r, 0, 0) == [];
      NoBytes();
    } else {
      var k := l - r;
      assert k == (n - 1) * r && k >= 0;
      OutIsSqueeze(s, r, n - 1, k);
      OutSeqAppend(s, r, 0, k, r);
      BlockBits(s, r, n - 1, k);
      ToBitsAppend(OutSeq(s, r, 0, k), OutSeq(s, r, k, r));
    }
  }
}
