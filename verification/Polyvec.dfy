/**
 mlkem/polyvec.c: the operations on whole stored vectors, which give what the streaming code of mlkem/indcpa.c
 gives one polynomial at a time. They cut off high bits at other places.
 */
module Polyvec {
  import opened Modular
  import opened Ring
  import opened Compress
  import opened Bytes
  import opened Encode
  import opened Packing
  import opened NttMath
  import opened Vectors
  import opened Transform
  import opened Products
  import opened Codec
  import opened Poly
  import opened Kpke
  import opened Indcpa

  // ----- packing without masks

  /** Bits above the low eight are lost only when the bytes are stored. */
  function LoosePack(d: nat, t: seq<nat>): (b: seq<nat>)
    requires d in {10, 11} && |t| == GroupSize(d)
    ensures |b| == GroupBytes(d)
  {
    if d == 10 then
      [t[0], Or(t[0] / 256, t[1] * 4), Or(t[1] / 64, t[2] * 16), Or(t[2] / 16, t[3] * 64), t[3] / 4]
    else
      [t[0],
       Or(t[0] / 256, t[1] * 8),
       Or(t[1] / 32, t[2] * 64),
       t[2] / 4,
       Or(t[2] / 1024, t[3] * 2),
       Or(t[3] / 128, t[4] * 16),
       Or(t[4] / 16, t[5] * 128),
       t[5] / 2,
       Or(t[5] / 512, t[6] * 4),
       Or(t[6] / 64, t[7] * 32),
       t[7] / 8]
  }

  /** The stored byte is the same with and without the mask. */
  lemma Masked(x: nat, y: nat, m: nat, n: nat)
    requires m in {2, 4, 8, 16, 32, 64, 128} && n > 0 && m * n == 256 && x < m
    ensures Byte(Or(x, y * m)) == Byte(Or(x, y % n * m))
  {
    hide Or, Byte;
    OrField(x, y, m);
    OrField(x, y % n, m);
    LowField(x, y, m, n, 256);
    ByteMod(x + y * m);
  }

  lemma LoosePackSame(d: nat, t: seq<nat>)
    requires d in {10, 11} && |t| == GroupSize(d) && Below(t, Base(d))
    ensures ToBytes(LoosePack(d, t)) == EncodeGroup(d, t)
  {
    hide Or, Byte, EncodeGroup;
    PackIsEncode(d, t);
    ByteMod(t[0]);
    if d == 10 {
      Masked(t[0] / 256, t[1], 4, 64); Masked(t[1] / 64, t[2], 16, 16); Masked(t[2] / 16, t[3], 64, 4);
      ByteMod(t[3] / 4);
    } else {
      ByteMod(t[2] / 4); ByteMod(t[5] / 2);
      Masked(t[0] / 256, t[1], 8, 32); Masked(t[1] / 32, t[2], 64, 4); Masked(t[2] / 1024, t[3], 2, 128);
      Masked(t[3] / 128, t[4], 16, 16); Masked(t[4] / 16, t[5], 128, 2); Masked(t[5] / 512, t[6], 4, 64);
      Masked(t[6] / 64, t[7], 32, 8);
    }
    assert ToBytes(LoosePack(d, t)) == ToBytes(Pack(d, t));
  }

  /** Sixteen-bit words that hold some bits of the next field too; those are masked off in the end. */
  function LooseUnpack(d: nat, b: seq<nat>): (t: seq<nat>)
    requires d in {10, 11} && |b| == GroupBytes(d)
    ensures |t| == GroupSize(d)
  {
    if d == 10 then
      [Or(b[0], b[1] * 256) % 0x1_0000 % 0x400,
       Or(b[1] / 4, b[2] * 64) % 0x1_0000 % 0x400,
       Or(b[2] / 16, b[3] * 16) % 0x1_0000 % 0x400,
       Or(b[3] / 64, b[4] * 4) % 0x1_0000 % 0x400]
    else
      [Or(b[0], b[1] * 256) % 0x1_0000 % 0x800,
       Or(b[1] / 8, b[2] * 32) % 0x1_0000 % 0x800,
       Or(Or(b[2] / 64, b[3] * 4), b[4] * 1024) % 0x1_0000 % 0x800,
       Or(b[4] / 2, b[5] * 128) % 0x1_0000 % 0x800,
       Or(b[5] / 16, b[6] * 16) % 0x1_0000 % 0x800,
       Or(Or(b[6] / 128, b[7] * 2), b[8] * 512) % 0x1_0000 % 0x800,
       Or(b[8] / 4, b[9] * 64) % 0x1_0000 % 0x800,
       Or(b[9] / 32, b[10] * 8) % 0x1_0000 % 0x800]
  }

  lemma MaskedLate(x: nat, y: nat, m: nat, n: nat, k: nat)
    requires m in {2, 4, 8, 16, 32, 64, 128, 256, 512, 1024} && n > 0 && m * n == k && k in {1024, 2048} && x < m
    ensures Or(x, y * m) % 0x1_0000 % k == Or(x, y % n * m)
  {
    hide Or;
    OrField(x, y, m);
    OrField(x, y % n, m);
    LowField(x, y, m, n, k);
    Nested(x + y * m, k);
  }

  lemma Nested(v: nat, k: nat)
    requires k in {1024, 2048}
    ensures v % 0x1_0000 % k == v % k
  {
  }

  lemma LooseUnpackSame(d: nat, b: seq<nat>)
    requires d in {10, 11} && |b| == GroupBytes(d) && Below(b, 256)
    ensures LooseUnpack(d, b) == Unpack(d, b)
  {
    hide Or;
    if d == 10 {
      MaskedLate(b[0], b[1], 256, 4, 1024); MaskedLate(b[1] / 4, b[2], 64, 16, 1024);
      MaskedLate(b[2] / 16, b[3], 16, 64, 1024); MaskedLate(b[3] / 64, b[4], 4, 256, 1024);
    } else {
      OrField(b[2] / 64, b[3], 4); OrField(b[6] / 128, b[7], 2);
      MaskedLate(b[0], b[1], 256, 8, 2048); MaskedLate(b[1] / 8, b[2], 32, 64, 2048);
      MaskedLate(Or(b[2] / 64, b[3] * 4), b[4], 1024, 2, 2048); MaskedLate(b[4] / 2, b[5], 128, 16, 2048);
      MaskedLate(b[5] / 16, b[6], 16, 128, 2048); MaskedLate(Or(b[6] / 128, b[7] * 2), b[8], 512, 4, 2048);
      MaskedLate(b[8] / 4, b[9], 64, 32, 2048); MaskedLate(b[9] / 32, b[10], 8, 256, 2048);
    }
  }

  // ----- compression and decompression of a vector

  /** The loop of `polyvec_compress` over one polynomial; the output pointer f moves on. */
  method CompressRow(r: array<byte>, o: nat, d: nat, a: seq<int16>) returns (f: nat)
    requires d in {10, 11} && |a| == 256 && Bounded(a, 3328) && o + 32 * d <= r.Length
    modifies r
    ensures f == o + 32 * d && r[..] == old(r[..o]) + PolyToCipher(d, a) + old(r[o + 32 * d..])
  {
    hide GroupSize, GroupBytes, EncodeGroup, CompressAll, Coded, ByteEncode, Groups, Bounded, Spliced, LoosePack,
        ToBytes;
    ghost var r0, c := r[..], CompressAll(d, a);
    var j := 0;
    f := o;
    CodedEnds(d, c);
    SplicedNone(r0, o);
    while j < Groups(d)
      invariant 0 <= j <= Groups(d) && j * GroupSize(d) <= 256 && f == o + |Coded(d, c, j)|
      invariant Spliced(r0, o, Coded(d, c, j), r[..])
    {
      CodedNext(d, c, j);
      var t := CompressFew(d, a, j * GroupSize(d));
      LoosePackSame(d, t);
      var b := ToBytes(LoosePack(d, t));
      ghost var s := r[..];
      WriteBytes(r, f, b);
      SplicedMore(r0, o, Coded(d, c, j), b, s, r[..]);
      j, f := j + 1, f + |b|;
    }
    SplicedIs(r0, o, PolyToCipher(d, a), r[..]);
  }

  /** `polyvec_compress`: exactly what `poly_packcompress` writes polynomial by polynomial. */
  method PolyvecCompress(r: array<byte>, k: nat, a: seq<seq<int16>>)
    requires IsRank(k) && |a| == k && IsVector(a) && (forall i :: 0 <= i < k ==>
          Bounded(a[i], 3328)) && r.Length == 32 * Du(k) * k
    modifies r
    ensures r[..] == Join(PartsU(a, k), 32 * Du(k))
  {
    hide PolyToCipher, Join, Spliced, Du, PartsU, Bounded;
    ghost var p, r0 := PartsU(a, k), r[..];
    SplicedNone(r0, 0);
    JoinNone(p, 32 * Du(k));
    var i, f: nat := 0, 0;
    while i < k
      invariant 0 <= i <= k && f == 32 * Du(k) * i
      invariant Spliced(r0, 0, Join(p[..i], 32 * Du(k)), r[..])
    {
      PieceFits(k, i);
      ghost var s := r[..];
      f := CompressRow(r, f, Du(k), a[i]);
      NextPiece(r0, p, 32 * Du(k), i, s, r[..]);
      i := i + 1;
    }
    assert p[..k] == p;
    SplicedAll(r0, Join(p, 32 * Du(k)), r[..]);
  }

  /** The loop of `polyvec_decompress` over one polynomial. */
  method DecompressRow(r: array<int16>, d: nat, b: seq<byte>, o: nat)
    requires d in {10, 11} && r.Length == 256 && o + 32 * d <= |b|
    modifies r
    ensures r[..] == CipherToPoly(d, b[o..o + 32 * d])
  {
    hide GroupSize, GroupBytes, ByteDecode, DecodeGroup, Groups, Base, DecompressFrom, DecompressAll, Below,
        LooseUnpack, FromBytes, Unpack;
    var c := b[o..o + 32 * d];
    EncodeDecode(d, c, Groups(d));
    ghost var t := ByteDecode(d, c, Groups(d));
    var j := 0;
    while j < Groups(d)
      invariant 0 <= j <= Groups(d)
      invariant forall k :: 0 <= k < j * GroupSize(d) && k < 256 ==> r[k] == DecompressAll(d, t)[k]
    {
      DecodedAt(d, c, Groups(d), j);
      var g := c[j * GroupBytes(d)..][..GroupBytes(d)];
      UnpackIsDecode(d, g);
      LooseUnpackSame(d, FromBytes(g));
      var u := LooseUnpack(d, FromBytes(g));
      DecompressGroup(r, j * GroupSize(d), d, u, t);
      j := j + 1;
    }
  }

  /** `polyvec_decompress`: what `poly_unpackdecompress` reads polynomial by polynomial. */
  method PolyvecDecompress(v: seq<array<int16>>, k: nat, c: seq<byte>)
    requires IsRank(k) && Polys(v, k) && |c| == CipherBytes(k)
    modifies v
    ensures Polys(v, k) && forall i :: 0 <= i < k ==> v[i][..] == DecodeU(c, k)[i]
  {
    hide CipherToPoly, Du, CipherBytes, DecodeU;
    var i := 0;
    while i < k
      invariant 0 <= i <= k && Polys(v, k) && forall j :: 0 <= j < i ==> v[j][..] == DecodeU(c, k)[j]
    {
      var d, o := Du(k), 32 * Du(k) * i;
      DecodeUAt(c, k, i, d, o);
      DecompressRow(v[i], d, c, o);
      i := i + 1;
    }
  }

  lemma DecodeUAt(c: seq<byte>, k: nat, i: nat, d: nat, o: nat)
    requires IsRank(k) && |c| == CipherBytes(k) && i < k && d == Du(k) && o == 32 * Du(k) * i
    ensures d in {10, 11} && o + 32 * d <= |c| && DecodeU(c, k)[i] == CipherToPoly(d, c[o..o + 32 * d])
  {
    hide CipherToPoly;
    PieceFits(k, i);
  }

  // ----- the product of two stored vectors

  /** `polyvec_basemul_acc_montgomery`: the sum the streaming code accumulates, reduced at the end. */
  method PolyvecBasemulAcc(r: array<int16>, a: seq<array<int16>>, b: seq<array<int16>>, k: nat, ghost x: seq<Vec>,
      ghost y: seq<Vec>)
    requires IsRank(k) && r.Length == 256 && r !in a && r !in b && |a| == |b| == |x| == |y| == k && IsVector(x)
        && IsVector(y)
    requires forall i :: 0 <= i < k ==> a[i].Length == 256 && CongSeq(a[i][..], x[i])
    requires forall i :: 0 <= i < k ==> b[i].Length == 256 && CongSeq(b[i][..], y[i])
    requires forall i :: 0 <= i < k ==> Operands(a[i][..], b[i][..])
    modifies r
    ensures CongSeq(Scale(0x1_0000, r[..]), Dot(x, y, k)) && Bounded(r[..], 1664)
  {
    hide CongSeq, Scale, Dot, MontMul, Operands, Bounded, CentredAll, Sum16;
    var t := new int16[256];
    ghost var r0 := r[..];
    PolyBasemul(r, a[0], b[0], false);
    AccumulateFirst(r0, x, y, a[0][..], b[0][..], 6656);
    var i: nat := 1;
    while i < k
      invariant 1 <= i <= k
      invariant forall j :: 0 <= j < k ==> a[j][..] == old(a[j][..]) && b[j][..] == old(b[j][..])
      invariant CongSeq(Scale(0x1_0000, r[..]), Dot(x, y, i)) && Bounded(r[..], 6656 * i)
    {
      assert i <= 3;
      ghost var s, t0 := r[..], t[..];
      assert Operands(a[i][..], b[i][..]);
      PolyBasemul(t, a[i], b[i], false);
      PolyAdd(r, r, t);
      SeparatelyAdded(s, t0, x, y, i, a[i][..], b[i][..], 6656 * i);
      i := i + 1;
    }
    ghost var s := r[..];
    PolyReduce(r);
    CongScaleBy(0x1_0000, r[..], s);
    CongSeqTrans(Scale(0x1_0000, r[..]), Scale(0x1_0000, s), Dot(x, y, k));
  }

  /** A product computed by itself and then added, instead of accumulated. */
  lemma SeparatelyAdded(r: seq<int16>, t: seq<int16>, x: seq<Vec>, y: seq<Vec>, n: nat, xn: seq<int16>, yn: seq<int16>,
      bound: int)
    requires |r| == |t| == 256 && n < |x| && n < |y| && IsVector(x) && IsVector(y) && Operands(xn, yn)
    requires CongSeq(xn, x[n]) && CongSeq(yn, y[n]) && 0 <= bound <= 0x7fff - 6656
    requires CongSeq(Scale(0x1_0000, r), Dot(x, y, n)) && Bounded(r, bound)
    ensures CongSeq(Scale(0x1_0000, Sum16(r, MontMul(false, t, xn, yn))), Dot(x, y, n + 1))
    ensures Bounded(Sum16(r, MontMul(false, t, xn, yn)), bound + 6656)
  {
    hide MontMul, PointMul, CongSeq, Scale, Add, Bounded, Dot, Operands;
    OperandSizes(xn, yn);
    MontMulMeans(false, t, xn, yn, 0, 6656);
    var u := MontMul(false, t, xn, yn);
    SumIsAdd(r, u, bound, 6656);
    PointCong(xn, yn, x[n], y[n]);
    CongSeqTrans(Scale(0x1_0000, u), PointMul(xn, yn), PointMul(x[n], y[n]));
    CongAddSeq(Scale(0x1_0000, r), Dot(x, y, n), Scale(0x1_0000, u), PointMul(x[n], y[n]));
    ScaleAdd(0x1_0000, r, u);
    DotStep(x, y, n + 1);
  }
}
