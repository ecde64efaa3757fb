/** Bytes into and out of the interleaved state: fips202/SnP-Relaned.h and the lane functions it is given. */
module StateBytes {
  import opened Bytes
  import opened KeccakSpec
  import opened Halves
  import opened LaneBytes
  import opened Codec  // WriteBytes, Spliced

  // ----- the reference: bits b xored into a state from bit o on

  function XorAt(s: Bits, o: nat, b: Bits): (t: Bits)
    requires o + |b| <= |s|
    ensures |t| == |s|
  {
    seq(|s|, k requires 0 <= k < |s| => if o <= k < o + |b| then Xor(s[k], b[k - o]) else s[k])
  }

  lemma XorAtNothing(s: Bits, o: nat)
    requires o <= |s|
    ensures XorAt(s, o, []) == s
  {
  }

  lemma XorAtAppend(s: Bits, o: nat, a: Bits, b: Bits)
    requires o + |a| + |b| <= |s|
    ensures XorAt(XorAt(s, o, a), o + |a|, b) == XorAt(s, o, a + b)
  {
    hide Xor;
  }

  // ----- one lane

  /** `*((uint32_t *) b)` on a little-endian machine. */
  function WordAt(b: seq<byte>): Word
    requires |b| == 4
  {
    ToBits(b)
  }

  /** `toBitInterleavingAndXOR` on the lane whose 8 bytes are given. */
  method AddLane(a: array<Word>, l: nat, b: seq<byte>)
    requires a.Length == 50 && l < 25 && |b| == 8
    modifies a
    ensures StateOf(a[..]) == XorAt(StateOf(old(a[..])), 64 * l, ToBits(b))
  {
    hide ToEven, ToOdd, WordXor, ToBits, StateOf, XorAt;
    ghost var s := a[..];
    var low, high := WordAt(b[..4]), WordAt(b[4..]);
    a[2 * l] := WordXor(a[2 * l], ToEven(low, high));
    a[2 * l + 1] := WordXor(a[2 * l + 1], ToOdd(low, high));
    ToBitsAppend(b[..4], b[4..]);
    assert b == b[..4] + b[4..];
    LaneXored(s, a[..], l, low, high);
  }

  lemma LaneXored(s: seq<Word>, t: seq<Word>, l: nat, low: Word, high: Word)
    requires |s| == 50 && l < 25
    requires t == s[2 * l := WordXor(s[2 * l], ToEven(low, high))][2 * l + 1 := WordXor(s[2 * l + 1], ToOdd(low, high))]
    ensures StateOf(t) == XorAt(StateOf(s), 64 * l, low + high)
  {
    hide ToEven, ToOdd, Xor, StateOf;
    forall k | 0 <= k < 1600 ensures StateOf(t)[k] == XorAt(StateOf(s), 64 * l, low + high)[k] {
      var m, z := k / 64, k % 64;
      StateBit(s, m, z);
      StateBit(t, m, z);
      if m == l {
        ToInterleaved(low, high, z);
      } else {
        assert 2 * m + z % 2 != 2 * l && 2 * m + z % 2 != 2 * l + 1;
      }
    }
  }

  /** Bit z of a lane is in its even or odd word. */
  lemma StateBit(h: seq<Word>, l: nat, z: nat)
    requires |h| == 50 && l < 25 && z < 64
    ensures StateOf(h)[64 * l + z] == h[2 * l + z % 2][z / 2]
  {
    var k := 64 * l + z;
    assert k / 64 == l && k % 64 == z && k % 2 == z % 2;
  }

  function Zeros(n: nat): (b: seq<byte>)
    ensures |b| == n
  {
    seq(n, _ => 0)
  }

  function NoBits(n: nat): (s: Bits)
    ensures |s| == n
  {
    seq(n, _ => false)
  }

  /** `KeccakP1600_AddBytesInLane`: the bytes are placed among zeros. */
  method AddBytesInLane(a: array<Word>, l: nat, data: seq<byte>, offset: nat)
    requires a.Length == 50 && l < 25 && offset + |data| <= 8
    modifies a
    ensures StateOf(a[..]) == XorAt(StateOf(old(a[..])), 64 * l + 8 * offset, ToBits(data))
  {
    hide ToBits, StateOf, XorAt, Zeros;
    var laneAsBytes := Zeros(offset) + data + Zeros(8 - offset - |data|);
    ghost var s := StateOf(a[..]);
    AddLane(a, l, laneAsBytes);
    PaddedXor(s, 64 * l, offset, data, 8 - offset - |data|);
  }

  lemma PaddedXor(s: Bits, o: nat, offset: nat, data: seq<byte>, rest: nat)
    requires offset + |data| + rest == 8 && o + 64 <= |s|
    ensures XorAt(s, o, ToBits(Zeros(offset) + data + Zeros(rest))) == XorAt(s, o + 8 * offset, ToBits(data))
  {
    hide ToBits, XorAt, Zeros, NoBits;
    ToBitsAppend(Zeros(offset) + data, Zeros(rest));
    ToBitsAppend(Zeros(offset), data);
    ZeroBits(offset);
    ZeroBits(rest);
    var x, y, z := NoBits(8 * offset), ToBits(data), NoBits(8 * rest);
    XorAtAppend(s, o, x + y, z);
    XorAtAppend(s, o, x, y);
    XorAtZeros(s, o, 8 * offset);
    XorAtZeros(XorAt(s, o, x + y), o + |x + y|, 8 * rest);
  }

  lemma XorAtZeros(s: Bits, o: nat, n: nat)
    requires o + n <= |s|
    ensures XorAt(s, o, NoBits(n)) == s
  {
  }

  lemma ZeroBits(n: nat)
    ensures ToBits(Zeros(n)) == NoBits(8 * n)
  {
    forall k | 0 <= k < 8 * n ensures !ToBits(Zeros(n))[k] {
      ZeroByte(k % 8);
    }
  }

  lemma ZeroByte(j: nat)
    requires j < 8
    ensures !ByteBit(0, j)
  {
  }

  /** `KeccakP1600_AddLanes`. */
  method AddLanes(a: array<Word>, data: seq<byte>, count: nat)
    requires a.Length == 50 && count <= 25 && 8 * count <= |data|
    modifies a
    ensures StateOf(a[..]) == XorAt(StateOf(old(a[..])), 0, ToBits(data[..8 * count]))
  {
    hide ToBits, StateOf, XorAt;
    ghost var s := StateOf(a[..]);
    XorAtNothing(s, 0);
    assert data[..0] == [] && ToBits([]) == [];
    var i := 0;
    while i < count
      invariant 0 <= i <= count && StateOf(a[..]) == XorAt(s, 0, ToBits(data[..8 * i]))
    {
      AddLane(a, i, data[8 * i..8 * i + 8]);
      XorAtAppend(s, 0, ToBits(data[..8 * i]), ToBits(data[8 * i..8 * i + 8]));
      ToBitsAppend(data[..8 * i], data[8 * i..8 * i + 8]);
      assert data[..8 * i + 8] == data[..8 * i] + data[8 * i..8 * i + 8];
      i := i + 1;
    }
  }

  /**
   `KeccakF1600_StateXORBytes`, i.e. `SnP_AddBytes`: whole lanes first when aligned, else lane by lane from the middle
   of one.
   */
  method XorBytes(a: array<Word>, data: seq<byte>, offset: nat)
    requires a.Length == 50 && offset + |data| <= 200
    modifies a
    ensures StateOf(a[..]) == XorAt(StateOf(old(a[..])), 8 * offset, ToBits(data))
  {
    hide ToBits, StateOf, XorAt;
    ghost var s := StateOf(a[..]);
    var length := |data|;
    if offset == 0 {
      AddLanes(a, data, length / 8);
      var done := length / 8 * 8;
      if length % 8 > 0 {
        AddBytesInLane(a, length / 8, data[done..], 0);
        XorAtAppend(s, 0, ToBits(data[..done]), ToBits(data[done..]));
        ToBitsAppend(data[..done], data[done..]);
        assert data == data[..done] + data[done..];
      } else {
        assert data == data[..done];
      }
    } else {
      var sizeLeft, lanePosition, offsetInLane := length, offset / 8, offset % 8;
      var cur := 0;
      XorAtNothing(s, 8 * offset);
      assert data[..0] == [] && ToBits([]) == [];
      while sizeLeft > 0
        invariant 0 <= cur <= length && sizeLeft == length - cur && 0 <= offsetInLane < 8
        invariant sizeLeft > 0 ==> 8 * lanePosition + offsetInLane == offset + cur
        invariant StateOf(a[..]) == XorAt(s, 8 * offset, ToBits(data[..cur]))
      {
        var bytesInLane := 8 - offsetInLane;
        if bytesInLane > sizeLeft {
          bytesInLane := sizeLeft;
        }
        AddBytesInLane(a, lanePosition, data[cur..cur + bytesInLane], offsetInLane);
        XorAtAppend(s, 8 * offset, ToBits(data[..cur]), ToBits(data[cur..cur + bytesInLane]));
        ToBitsAppend(data[..cur], data[cur..cur + bytesInLane]);
        assert data[..cur + bytesInLane] == data[..cur] + data[cur..cur + bytesInLane];
        sizeLeft := sizeLeft - bytesInLane;
        lanePosition := lanePosition + 1;
        offsetInLane := 0;
        cur := cur + bytesInLane;
      }
      assert data[..length] == data;
    }
  }

  // ----- extraction

  /** `fromBitInterleaving` and the two stores: the 8 bytes of a lane. */
  method ExtractLane(a: array<Word>, l: nat) returns (b: seq<byte>)
    requires a.Length == 50 && l < 25
    ensures b == FromBits(StateOf(a[..])[64 * l..64 * l + 64])
  {
    hide FromLow, FromHigh, FromBits, StateOf;
    var low, high := FromLow(a[2 * l], a[2 * l + 1]), FromHigh(a[2 * l], a[2 * l + 1]);
    b := FromBits(low) + FromBits(high);
    FromBitsAppend(low, high);
    LaneHalves(a[..], l, low, high);
  }

  lemma LaneHalves(a: seq<Word>, l: nat, low: Word, high: Word)
    requires |a| == 50 && l < 25 && low == FromLow(a[2 * l], a[2 * l + 1]) && high == FromHigh(a[2 * l], a[2 * l + 1])
    ensures StateOf(a)[64 * l..64 * l + 64] == low + high
  {
    hide FromLow, FromHigh, StateOf;
    var s, t := StateOf(a)[64 * l..64 * l + 64], low + high;
    forall z | 0 <= z < 64 ensures s[z] == t[z] {
      FromInterleaved(a[2 * l], a[2 * l + 1], z);
      StateBit(a, l, z);
    }
    assert s == t;
  }

  lemma SliceOfSlice(s: Bits, i: nat, j: nat, p: nat, q: nat)
    requires i <= j <= |s| && p <= q <= j - i
    ensures s[i..j][p..q] == s[i + p..i + q]
  {
    var x, y := s[i..j][p..q], s[i + p..i + q];
    assert |x| == |y| && forall k :: 0 <= k < q - p ==> x[k] == s[i + p + k] == y[k];
  }

  lemma FromBitsSlice(s: Bits, i: nat, j: nat)
    requires |s| % 8 == 0 && i <= j && 8 * j <= |s|
    ensures FromBits(s)[i..j] == FromBits(s[8 * i..8 * j])
  {
    hide ByteFrom;
    var x, y := FromBits(s)[i..j], FromBits(s[8 * i..8 * j]);
    forall k | 0 <= k < j - i ensures x[k] == y[k] {
      SliceOfSlice(s, 8 * i, 8 * j, 8 * k, 8 * k + 8);
      assert x[k] == FromBits(s)[i + k] == ByteFrom(s[8 * (i + k)..8 * (i + k) + 8]);
    }
  }

  /** `KeccakP1600_ExtractBytesInLane`. */
  method ExtractBytesInLane(a: array<Word>, l: nat, offset: nat, length: nat) returns (b: seq<byte>)
    requires a.Length == 50 && l < 25 && offset + length <= 8
    ensures b == FromBits(StateOf(a[..])[64 * l + 8 * offset..64 * l + 8 * offset + 8 * length])
  {
    hide FromBits, StateOf;
    var laneAsBytes := ExtractLane(a, l);
    b := laneAsBytes[offset..offset + length];
    ghost var s := StateOf(a[..]);
    FromBitsSlice(s[64 * l..64 * l + 64], offset, offset + length);
    assert s[64 * l..64 * l + 64][8 * offset..8 * (offset + length)]
        == s[64 * l + 8 * offset..64 * l + 8 * offset + 8 * length];
  }

  /** The bytes at some positions of a state string. */
  function BytesAt(s: Bits, offset: nat, length: nat): (b: seq<byte>)
    requires |s| == 1600 && offset + length <= 200
    ensures |b| == length
  {
    FromBits(s[8 * offset..8 * (offset + length)])
  }

  lemma BytesAtAppend(s: Bits, o: nat, m: nat, n: nat)
    requires |s| == 1600 && o + m + n <= 200
    ensures BytesAt(s, o, m + n) == BytesAt(s, o, m) + BytesAt(s, o + m, n) && BytesAt(s, o, 0) == []
  {
    hide FromBits;
    FromBitsAppend(s[8 * o..8 * (o + m)], s[8 * (o + m)..8 * (o + m + n)]);
    assert s[8 * o..8 * (o + m)] + s[8 * (o + m)..8 * (o + m + n)] == s[8 * o..8 * (o + m + n)];
  }

  lemma BytesAtIs(s: Bits, o: nat, n: nat)
    requires |s| == 1600 && o + n <= 200
    ensures BytesAt(s, o, n) == FromBits(s[8 * o..8 * o + 8 * n])
  {
    hide FromBits;
  }

  /** The output buffer holds cur bytes of the state s, from byte offset on. */
  ghost predicate Extracted(d0: seq<byte>, o: nat, s: Bits, offset: nat, cur: nat, data: seq<byte>) {
    |s| == 1600 && offset + cur <= 200 && Spliced(d0, o, BytesAt(s, offset, cur), data)
  }

  /** `KeccakP1600_ExtractBytesInLane` into the output buffer, after cur bytes. */
  method ExtractMore(a: array<Word>, data: array<byte>, o: nat, offset: nat, cur: nat, l: nat, offsetInLane: nat,
      n: nat, ghost d0: seq<byte>)
    requires a.Length == 50 && a as object != data && l < 25 && 8 * l + offsetInLane == offset + cur
        && offsetInLane + n <= 8
    requires o + cur + n <= data.Length && |d0| == data.Length
        && Extracted(d0, o, StateOf(a[..]), offset, cur, data[..])
    modifies data
    ensures Extracted(d0, o, StateOf(a[..]), offset, cur + n, data[..])
  {
    hide BytesAt, StateOf, Spliced, FromBits;
    ghost var s, t := StateOf(a[..]), data[..];
    var b := ExtractBytesInLane(a, l, offsetInLane, n);
    BytesAtIs(s, offset + cur, n);
    BytesAtAppend(s, offset, cur, n);
    WriteBytes(data, o + cur, b);
    SplicedMore(d0, o, BytesAt(s, offset, cur), b, t, data[..]);
  }

  lemma ExtractedNone(d0: seq<byte>, o: nat, s: Bits, offset: nat)
    requires o <= |d0| && |s| == 1600 && offset <= 200
    ensures Extracted(d0, o, s, offset, 0, d0)
  {
    hide BytesAt, Spliced;
    BytesAtAppend(s, offset, 0, 0);
    SplicedNone(d0, o);
  }

  /** The aligned path of `SnP_ExtractBytes`: whole lanes, then the rest of one. */
  method ExtractAligned(a: array<Word>, data: array<byte>, o: nat, length: nat)
    requires a.Length == 50 && length <= 200 && o + length <= data.Length && a as object != data
    modifies data
    ensures Extracted(old(data[..]), o, StateOf(a[..]), 0, length, data[..])
  {
    hide Extracted, StateOf;
    ghost var s, d0 := StateOf(a[..]), data[..];
    ExtractedNone(d0, o, s, 0);
    var i := 0;
    while i < length / 8
      invariant 0 <= i <= length / 8 && StateOf(a[..]) == s && Extracted(d0, o, s, 0, 8 * i, data[..])
    {
      ExtractMore(a, data, o, 0, 8 * i, i, 0, 8, d0);
      i := i + 1;
    }
    if length % 8 > 0 {
      ExtractMore(a, data, o, 0, 8 * i, i, 0, length % 8, d0);
    }
  }

  /** The other path: lane by lane from the middle of one. */
  method ExtractUnaligned(a: array<Word>, data: array<byte>, o: nat, offset: nat, length: nat)
    requires a.Length == 50 && offset + length <= 200 && o + length <= data.Length && a as object != data
    modifies data
    ensures Extracted(old(data[..]), o, StateOf(a[..]), offset, length, data[..])
  {
    hide Extracted, StateOf;
    ghost var s, d0 := StateOf(a[..]), data[..];
    var sizeLeft, lanePosition, offsetInLane := length, offset / 8, offset % 8;
    var cur := 0;
    ExtractedNone(d0, o, s, offset);
    while sizeLeft > 0
      invariant 0 <= cur <= length && sizeLeft == length - cur && 0 <= offsetInLane < 8
      invariant sizeLeft > 0 ==> 8 * lanePosition + offsetInLane == offset + cur
      invariant StateOf(a[..]) == s && Extracted(d0, o, s, offset, cur, data[..])
    {
      var bytesInLane := 8 - offsetInLane;
      if bytesInLane > sizeLeft {
        bytesInLane := sizeLeft;
      }
      ExtractMore(a, data, o, offset, cur, lanePosition, offsetInLane, bytesInLane, d0);
      sizeLeft := sizeLeft - bytesInLane;
      lanePosition := lanePosition + 1;
      offsetInLane := 0;
      cur := cur + bytesInLane;
    }
  }

  /** `KeccakF1600_StateExtractBytes`, i.e. `SnP_ExtractBytes`. */
  method ExtractBytes(a: array<Word>, data: array<byte>, o: nat, offset: nat, length: nat)
    requires a.Length == 50 && offset + length <= 200 && o + length <= data.Length && a as object != data
    modifies data
    ensures data[..] == old(data[..o]) + BytesAt(StateOf(a[..]), offset, length) + old(data[o + length..])
  {
    hide BytesAt, StateOf, Spliced;
    ghost var d0 := data[..];
    if offset == 0 {
      ExtractAligned(a, data, o, length);
    } else {
      ExtractUnaligned(a, data, o, offset, length);
    }
    SplicedIs(d0, o, BytesAt(StateOf(a[..]), offset, length), data[..]);
  }
}
