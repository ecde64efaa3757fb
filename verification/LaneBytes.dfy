/** Lanes to and from bytes: the bit-interleaving macros of fips202/keccakf1600.c. */
module LaneBytes {
  import opened Bytes
  import opened KeccakSpec
  import opened Halves

  // ----- strings of bits and of bytes

  function ByteBit(b: byte, j: nat): bool
    requires j < 8
  {
    BitsOf(b)[j] == 1
  }

  function ToBits(b: seq<byte>): (s: Bits)
    ensures |s| == 8 * |b|
  {
    seq(8 * |b|, k requires 0 <= k < 8 * |b| => ByteBit(b[k / 8], k % 8))
  }

  /** The byte with these bits, least significant first. */
  function ByteFrom(s: Bits): (b: byte)
    requires |s| == 8
    ensures forall j :: 0 <= j < 8 ==> ByteBit(b, j) == s[j]
  {
    ByteFromBits(s);
    ByteOfBits(Numbers(s))
  }

  function Numbers(s: Bits): (n: seq<nat>)
    ensures |n| == |s| && Below(n, 2)
  {
    seq(|s|, j requires 0 <= j < |s| => if s[j] then 1 else 0)
  }

  lemma ByteFromBits(s: Bits)
    requires |s| == 8
    ensures forall j :: 0 <= j < 8 ==> ByteBit(ByteOfBits(Numbers(s)), j) == s[j]
  {
    hide BitsOf, ByteOfBits;
    BitsOfByte(Numbers(s));
  }

  function FromBits(s: Bits): (b: seq<byte>)
    requires |s| % 8 == 0
    ensures |b| == |s| / 8
  {
    seq(|s| / 8, i requires 0 <= i < |s| / 8 => ByteFrom(s[8 * i..8 * i + 8]))
  }

  lemma ToFromBits(s: Bits)
    requires |s| % 8 == 0
    ensures ToBits(FromBits(s)) == s
  {
    hide ByteBit, ByteFrom;
    forall k | 0 <= k < |s| ensures ToBits(FromBits(s))[k] == s[k] {
      var i, j := k / 8, k % 8;
      assert s[8 * i..8 * i + 8][j] == s[k];
    }
  }

  lemma ToBitsAppend(a: seq<byte>, b: seq<byte>)
    ensures ToBits(a + b) == ToBits(a) + ToBits(b)
  {
    hide ByteBit;
    forall k | 0 <= k < 8 * |a + b| ensures ToBits(a + b)[k] == (ToBits(a) + ToBits(b))[k] {
      if k >= 8 * |a| {
        var l := k - 8 * |a|;
        assert l / 8 == k / 8 - |a| && l % 8 == k % 8;
      }
    }
  }

  lemma FromBitsAppend(s: Bits, t: Bits)
    requires |s| % 8 == 0 && |t| % 8 == 0
    ensures |s + t| % 8 == 0 && FromBits(s + t) == FromBits(s) + FromBits(t)
  {
    hide ByteFrom;
    forall i | 0 <= i < (|s| + |t|) / 8 ensures FromBits(s + t)[i] == (FromBits(s) + FromBits(t))[i] {
      if i < |s| / 8 {
        assert (s + t)[8 * i..8 * i + 8] == s[8 * i..8 * i + 8];
      } else {
        var l := i - |s| / 8;
        assert (s + t)[8 * i..8 * i + 8] == t[8 * l..8 * l + 8];
      }
    }
  }

  // ----- interleaving

  /** The masks 0x22222222, 0x0C0C0C0C, 0x00F000F0 and 0x0000FF00, for n = 1, 2, 4, 8. */
  function Mask(n: nat): Word
    requires n > 0
  {
    seq(32, i requires 0 <= i < 32 => i / n % 4 == 1)
  }

  /** `temp = (w ^ (w >> n)) & mask; w = w ^ temp ^ (temp << n)`. */
  function DeltaSwap(w: Word, n: nat): Word
    requires n > 0
  {
    var t := WordAnd(WordXor(w, Shr(w, n)), Mask(n));
    WordXor(WordXor(w, t), Shl(t, n))
  }

  /** Where that takes bit i from. */
  function Swap(i: nat, n: nat): int
    requires n > 0
  {
    if i / n % 4 == 1 then i + n else if i / n % 4 == 2 then i - n else i
  }

  /** Bit i of the difference that a delta swap applies. */
  function Difference(w: Word, n: nat, i: nat): bool
    requires n > 0 && i < 32
  {
    Xor(w[i], i + n < 32 && w[i + n]) && Mask(n)[i]
  }

  lemma DeltaSwapBit(w: Word, n: nat, i: nat)
    requires n > 0 && i < 32
    ensures DeltaSwap(w, n)[i] == Xor(Xor(w[i], Difference(w, n, i)), i >= n && Difference(w, n, i - n))
  {
    hide Mask;
  }

  lemma DeltaSwapAt(w: Word, n: nat, i: nat)
    requires n in {1, 2, 4, 8} && i < 32
    ensures 0 <= Swap(i, n) < 32 && DeltaSwap(w, n)[i] == w[Swap(i, n)]
  {
    hide DeltaSwap, Mask;
    DeltaSwapBit(w, n, i);
    MaskAt(n, i);
    var q := i / n;
    if i >= n {
      MaskAt(n, i - n);
      assert Mask(n)[i - n] == ((q - 1) % 4 == 1);
      Cycle4(q);
    } else {
      assert q == 0;
    }
  }

  lemma Cycle4(q: nat)
    requires q > 0
    ensures (q - 1) % 4 == 1 <==> q % 4 == 2
  {
  }

  lemma MaskAt(n: nat, i: nat)
    requires n in {1, 2, 4, 8} && i < 32
    ensures Mask(n)[i] == (i / n % 4 == 1)
    ensures i / n % 4 == 1 ==> i + n < 32
    ensures i >= n ==> (i - n) / n == i / n - 1
    ensures i < n ==> i / n == 0
  {
  }

  /** Even-numbered bits to the low half, odd-numbered ones to the high half. */
  function Gather(w: Word): Word {
    DeltaSwap(DeltaSwap(DeltaSwap(DeltaSwap(w, 1), 2), 4), 8)
  }

  /** The same steps backwards. */
  function Scatter(w: Word): Word {
    DeltaSwap(DeltaSwap(DeltaSwap(DeltaSwap(w, 8), 4), 2), 1)
  }

  function GatherSource(i: nat): nat {
    if i < 16 then 2 * i else 2 * (i - 16) + 1
  }

  lemma GatherPath0(i: nat)
    requires 0 <= i < 8
    ensures Swap(i, 8) >= 0 && Swap(Swap(i, 8), 4) >= 0 && Swap(Swap(Swap(i, 8), 4), 2) >= 0
    ensures Swap(Swap(Swap(Swap(i, 8), 4), 2), 1) == GatherSource(i)
  {
    if i == 0 {} else if i == 1 {} else if i == 2 {} else if i == 3 {} else if i == 4 {} else if i == 5 {}
    else if i == 6 {} else {}
  }

  lemma GatherPath8(i: nat)
    requires 8 <= i < 16
    ensures Swap(i, 8) >= 0 && Swap(Swap(i, 8), 4) >= 0 && Swap(Swap(Swap(i, 8), 4), 2) >= 0
    ensures Swap(Swap(Swap(Swap(i, 8), 4), 2), 1) == GatherSource(i)
  {
    if i == 8 {} else if i == 9 {} else if i == 10 {} else if i == 11 {} else if i == 12 {} else if i == 13 {}
    else if i == 14 {} else {}
  }

  lemma GatherPath16(i: nat)
    requires 16 <= i < 24
    ensures Swap(i, 8) >= 0 && Swap(Swap(i, 8), 4) >= 0 && Swap(Swap(Swap(i, 8), 4), 2) >= 0
    ensures Swap(Swap(Swap(Swap(i, 8), 4), 2), 1) == GatherSource(i)
  {
    if i == 16 {} else if i == 17 {} else if i == 18 {} else if i == 19 {} else if i == 20 {} else if i == 21 {}
    else if i == 22 {} else {}
  }

  lemma GatherPath24(i: nat)
    requires 24 <= i < 32
    ensures Swap(i, 8) >= 0 && Swap(Swap(i, 8), 4) >= 0 && Swap(Swap(Swap(i, 8), 4), 2) >= 0
    ensures Swap(Swap(Swap(Swap(i, 8), 4), 2), 1) == GatherSource(i)
  {
    if i == 24 {} else if i == 25 {} else if i == 26 {} else if i == 27 {} else if i == 28 {} else if i == 29 {}
    else if i == 30 {} else {}
  }

  lemma GatherPath(i: nat)
    requires i < 32
    ensures Swap(i, 8) >= 0 && Swap(Swap(i, 8), 4) >= 0 && Swap(Swap(Swap(i, 8), 4), 2) >= 0
    ensures Swap(Swap(Swap(Swap(i, 8), 4), 2), 1) == GatherSource(i)
  {
    hide *;
    if i < 8 { GatherPath0(i); } else if i < 16 { GatherPath8(i); } else if i < 24 { GatherPath16(i); }
    else { GatherPath24(i); }
  }

  lemma ScatterPath0(i: nat)
    requires 0 <= i < 8
    ensures Swap(i, 1) >= 0 && Swap(Swap(i, 1), 2) >= 0 && Swap(Swap(Swap(i, 1), 2), 4) >= 0
    ensures Swap(Swap(Swap(Swap(i, 1), 2), 4), 8) == i % 2 * 16 + i / 2
  {
    if i == 0 {} else if i == 1 {} else if i == 2 {} else if i == 3 {} else if i == 4 {} else if i == 5 {}
    else if i == 6 {} else {}
  }

  lemma ScatterPath8(i: nat)
    requires 8 <= i < 16
    ensures Swap(i, 1) >= 0 && Swap(Swap(i, 1), 2) >= 0 && Swap(Swap(Swap(i, 1), 2), 4) >= 0
    ensures Swap(Swap(Swap(Swap(i, 1), 2), 4), 8) == i % 2 * 16 + i / 2
  {
    if i == 8 {} else if i == 9 {} else if i == 10 {} else if i == 11 {} else if i == 12 {} else if i == 13 {}
    else if i == 14 {} else {}
  }

  lemma ScatterPath16(i: nat)
    requires 16 <= i < 24
    ensures Swap(i, 1) >= 0 && Swap(Swap(i, 1), 2) >= 0 && Swap(Swap(Swap(i, 1), 2), 4) >= 0
    ensures Swap(Swap(Swap(Swap(i, 1), 2), 4), 8) == i % 2 * 16 + i / 2
  {
    if i == 16 {} else if i == 17 {} else if i == 18 {} else if i == 19 {} else if i == 20 {} else if i == 21 {}
    else if i == 22 {} else {}
  }

  lemma ScatterPath24(i: nat)
    requires 24 <= i < 32
    ensures Swap(i, 1) >= 0 && Swap(Swap(i, 1), 2) >= 0 && Swap(Swap(Swap(i, 1), 2), 4) >= 0
    ensures Swap(Swap(Swap(Swap(i, 1), 2), 4), 8) == i % 2 * 16 + i / 2
  {
    if i == 24 {} else if i == 25 {} else if i == 26 {} else if i == 27 {} else if i == 28 {} else if i == 29 {}
    else if i == 30 {} else {}
  }

  lemma ScatterPath(i: nat)
    requires i < 32
    ensures Swap(i, 1) >= 0 && Swap(Swap(i, 1), 2) >= 0 && Swap(Swap(Swap(i, 1), 2), 4) >= 0
    ensures Swap(Swap(Swap(Swap(i, 1), 2), 4), 8) == i % 2 * 16 + i / 2
  {
    hide *;
    if i < 8 { ScatterPath0(i); } else if i < 16 { ScatterPath8(i); } else if i < 24 { ScatterPath16(i); }
    else { ScatterPath24(i); }
  }

  lemma GatherAt(w: Word, i: nat)
    requires i < 32
    ensures Gather(w)[i] == w[GatherSource(i)]
  {
    hide DeltaSwap, Swap, GatherSource;
    GatherPath(i);
    DeltaSwapAt(DeltaSwap(DeltaSwap(DeltaSwap(w, 1), 2), 4), 8, i);
    DeltaSwapAt(DeltaSwap(DeltaSwap(w, 1), 2), 4, Swap(i, 8));
    DeltaSwapAt(DeltaSwap(w, 1), 2, Swap(Swap(i, 8), 4));
    DeltaSwapAt(w, 1, Swap(Swap(Swap(i, 8), 4), 2));
  }

  lemma ScatterAt(w: Word, i: nat)
    requires i < 32
    ensures Scatter(w)[i] == w[i % 2 * 16 + i / 2]
  {
    hide DeltaSwap, Swap;
    ScatterPath(i);
    DeltaSwapAt(DeltaSwap(DeltaSwap(DeltaSwap(w, 8), 4), 2), 1, i);
    DeltaSwapAt(DeltaSwap(DeltaSwap(w, 8), 4), 2, Swap(i, 1));
    DeltaSwapAt(DeltaSwap(w, 8), 4, Swap(Swap(i, 1), 2));
    DeltaSwapAt(w, 8, Swap(Swap(Swap(i, 1), 2), 4));
  }

  function WordOr(a: Word, b: Word): Word {
    seq(32, i requires 0 <= i < 32 => a[i] || b[i])
  }

  /** The masks 0x0000FFFF and 0xFFFF0000. */
  function LowHalf(): Word {
    seq(32, i => i < 16)
  }

  function HighHalf(): Word {
    seq(32, i => i >= 16)
  }

  /** `toBitInterleaving...`: the even and the odd word of a lane with the given halves. */
  function ToEven(low: Word, high: Word): Word {
    WordOr(WordAnd(Gather(low), LowHalf()), Shl(Gather(high), 16))
  }

  function ToOdd(low: Word, high: Word): Word {
    WordOr(Shr(Gather(low), 16), WordAnd(Gather(high), HighHalf()))
  }

  /** `fromBitInterleaving`: the halves of a lane. */
  function FromLow(even: Word, odd: Word): Word {
    Scatter(WordOr(WordAnd(even, LowHalf()), Shl(odd, 16)))
  }

  function FromHigh(even: Word, odd: Word): Word {
    Scatter(WordOr(Shr(even, 16), WordAnd(odd, HighHalf())))
  }

  /** Bit z of a lane is bit z / 2 of its even or odd word. */
  lemma ToInterleaved(low: Word, high: Word, z: nat)
    requires z < 64
    ensures (if z % 2 == 0 then ToEven(low, high) else ToOdd(low, high))[z / 2] == (low + high)[z]
  {
    hide Gather, GatherSource;
    var i := z / 2;
    if z % 2 == 0 {
      if z < 32 { GatherAt(low, i); } else { GatherAt(high, i - 16); }
    } else {
      if z < 32 { GatherAt(low, i + 16); } else { GatherAt(high, i); }
    }
    assert z < 32 ==> GatherSource(if z % 2 == 0 then i else i + 16) == z by { GatherSourceIs(z); }
    assert z >= 32 ==> GatherSource(if z % 2 == 0 then i - 16 else i) == z - 32 by { GatherSourceIs(z); }
  }

  lemma GatherSourceIs(z: nat)
    requires z < 64
    ensures z < 32 ==> GatherSource(if z % 2 == 0 then z / 2 else z / 2 + 16) == z
    ensures z >= 32 ==> GatherSource(if z % 2 == 0 then z / 2 - 16 else z / 2) == z - 32
  {
  }

  lemma FromInterleaved(even: Word, odd: Word, z: nat)
    requires z < 64
    ensures (FromLow(even, odd) + FromHigh(even, odd))[z] == (if z % 2 == 0 then even else odd)[z / 2]
  {
    hide Scatter;
    if z < 32 {
      ScatterAt(WordOr(WordAnd(even, LowHalf()), Shl(odd, 16)), z);
    } else {
      ScatterAt(WordOr(Shr(even, 16), WordAnd(odd, HighHalf())), z - 32);
    }
  }

  /** The two conversions are inverse to each other. */
  lemma InterleavingInverts(x: Word, y: Word)
    ensures FromLow(ToEven(x, y), ToOdd(x, y)) == x && FromHigh(ToEven(x, y), ToOdd(x, y)) == y
    ensures ToEven(FromLow(x, y), FromHigh(x, y)) == x && ToOdd(FromLow(x, y), FromHigh(x, y)) == y
  {
    hide ToEven, ToOdd, FromLow, FromHigh;
    forall z | 0 <= z < 64
      ensures (FromLow(ToEven(x, y), ToOdd(x, y)) + FromHigh(ToEven(x, y), ToOdd(x, y)))[z] == (x + y)[z]
    {
      ToInterleaved(x, y, z);
      FromInterleaved(ToEven(x, y), ToOdd(x, y), z);
    }
    var l, h := FromLow(x, y), FromHigh(x, y);
    forall i | 0 <= i < 32 ensures ToEven(l, h)[i] == x[i] && ToOdd(l, h)[i] == y[i] {
      ToInterleaved(l, h, 2 * i);
      ToInterleaved(l, h, 2 * i + 1);
      FromInterleaved(x, y, 2 * i);
      FromInterleaved(x, y, 2 * i + 1);
    }
    PairsEqual(FromLow(ToEven(x, y), ToOdd(x, y)), FromHigh(ToEven(x, y), ToOdd(x, y)), x, y);
  }

  lemma PairsEqual(a: Word, b: Word, x: Word, y: Word)
    requires forall z :: 0 <= z < 64 ==> (a + b)[z] == (x + y)[z]
    ensures a == x && b == y
  {
    forall i | 0 <= i < 32 ensures a[i] == x[i] && b[i] == y[i] {
      assert (a + b)[i] == (x + y)[i] && (a + b)[i + 32] == (x + y)[i + 32];
    }
  }
}
