/** The remaining polynomial operations of mlkem/poly.c, and messages. */
module Poly {
  import opened Modular
  import opened Reduce
  import opened Compress
  import opened Bytes
  import opened Encode
  import opened Transform
  import opened Products
  import opened Codec
  import opened Verify

  function CentredAll(a: seq<int>): (r: seq<int16>)
    ensures |r| == |a| && Bounded(r, 1664) && CongSeq(r, a)
  {
    hide Centred;
    seq(|a|, i requires 0 <= i < |a| => Centred(a[i]))
  }

  /** `poly_reduce`. */
  method PolyReduce(r: array<int16>)
    modifies r
    ensures r[..] == CentredAll(old(r[..]))
  {
    hide Centred;
    var i := 0;
    while i < r.Length
      invariant 0 <= i <= r.Length
      invariant forall k :: 0 <= k < r.Length ==> r[k] == if k < i then Centred(old(r[k])) else old(r[k])
    {
      r[i] := BarrettReduce(r[i]);
      i := i + 1;
    }
  }

  function Sum16(a: seq<int16>, b: seq<int16>): (r: seq<int16>)
    requires |a| == |b|
    ensures |r| == |a|
  {
    seq(|a|, i requires 0 <= i < |a| => Add16(a[i], b[i]))
  }

  function Difference16(a: seq<int16>, b: seq<int16>): (r: seq<int16>)
    requires |a| == |b|
    ensures |r| == |a|
  {
    seq(|a|, i requires 0 <= i < |a| => Sub16(a[i], b[i]))
  }

  /** `poly_add`; the result may replace an operand. */
  method PolyAdd(r: array<int16>, a: array<int16>, b: array<int16>)
    requires r.Length == a.Length == b.Length
    modifies r
    ensures r[..] == Sum16(old(a[..]), old(b[..]))
  {
    hide Add16;
    var i := 0;
    while i < r.Length
      invariant 0 <= i <= r.Length
      invariant forall k :: 0 <= k < i ==> r[k] == Add16(old(a[k]), old(b[k]))
      invariant forall k :: i <= k < r.Length ==> a[k] == old(a[k]) && b[k] == old(b[k])
    {
      r[i] := Add16(a[i], b[i]);
      i := i + 1;
    }
  }

  /** `poly_sub`. */
  method PolySub(r: array<int16>, a: array<int16>, b: array<int16>)
    requires r.Length == a.Length == b.Length
    modifies r
    ensures r[..] == Difference16(old(a[..]), old(b[..]))
  {
    hide Sub16;
    var i := 0;
    while i < r.Length
      invariant 0 <= i <= r.Length
      invariant forall k :: 0 <= k < i ==> r[k] == Sub16(old(a[k]), old(b[k]))
      invariant forall k :: i <= k < r.Length ==> a[k] == old(a[k]) && b[k] == old(b[k])
    {
      r[i] := Sub16(a[i], b[i]);
      i := i + 1;
    }
  }

  /** `poly_frombytes_basemul_montgomery`: unpack four coefficients at a time and multiply them at once. */
  method PolyLoadBasemul(r: array<int16>, b: array<int16>, a: seq<byte>, o: nat, add: bool)
    requires r.Length == b.Length == 256 && o + 384 <= |a| && Bounded(b[..], 1664)
    modifies r
    ensures GrowsBy(BytesToPoly(a[o..o + 384]), old(b[..]), 3536)
    ensures r[..] == MontMul(add, old(r[..]), BytesToPoly(a[o..o + 384]), old(b[..]))
  {
    hide MontCoeff, ByteDecode, Operands;
    var c := a[o..o + 384];
    BytesBelow(c);
    ghost var r0, x, y := r[..], BytesToPoly(c), b[..];
    SmallOk(x, y);
    var ap := new int16[4];
    var i: nat := 0;
    while i < 64
      invariant i <= 64
      invariant Multiplied(add, r0, x, y, r[..], 0, 4 * i)
      invariant forall k :: 4 * i <= k < 256 ==> r[k] == r0[k] && b[k] == y[k]
    {
      var u := UnpackGroup(12, c, 2 * i);
      var v := UnpackGroup(12, c, 2 * i + 1);
      assert u[0] == x[4 * i] && u[1] == x[4 * i + 1] && v[0] == x[4 * i + 2] && v[1] == x[4 * i + 3];
      ap[0], ap[1], ap[2], ap[3] := u[0], u[1], v[0], v[1];
      DoubleBasemul(r, ap, 0, b, i, add, r0, x, y);
      i := i + 1;
    }
  }

  // ----- messages

  /** `(b >> j) & 1`. */
  function Bit(b: byte, j: nat): (x: byte)
    requires j < 8
    ensures x == if BitsOf(b)[j] == 1 then 1 else 0
  {
    ShiftedBit(b, j);
    (b >> j) & 1
  }

  lemma ShiftedBit(b: byte, j: nat)
    requires j < 8
    ensures (b >> j) & 1 == if BitsOf(b)[j] == 1 then 1 else 0
  {
    if j == 0 {} else if j == 1 {} else if j == 2 {} else if j == 3 {} else if j == 4 {} else if j == 5 {}
    else if j == 6 {} else {}
  }

  lemma MessageByte(m: seq<byte>, i: nat)
    requires |m| == 32 && i < 32
    ensures ByteDecode(1, m, 32)[8 * i..][..8] == BitsOf(m[i])
  {
    hide BitsOf, Value, Digits, ByteDecode;
    DecodedAt(1, m, 32, i);
    assert m[i..][..1] == [m[i]];
    ByteOfItsBits(m[i]);
    DigitsOfValue(BitsOf(m[i]), 2);
    OneByte(m[i]);
  }

  lemma OneByte(b: byte)
    ensures Value(FromBytes([b]), 256) == Value(BitsOf(b), 2)
  {
    hide BitsOf;
    assert Value(FromBytes([b]), 256) == Value8(b);
  }

  /** `cmov_int16` of 0 and (MLKEM_Q + 1) / 2: Decompress_1. */
  function Half(b: byte): (u: int16)
    requires b == 0 || b == 1
    ensures u == DecompressFrom(1, if b == 1 then 1 else 0)
  {
    HalfWord(b);
    CmovWord(0, 1665, b as bv16) as int
  }

  lemma HalfWord(b: byte)
    requires b == 0 || b == 1
    ensures b as bv16 == 0 || b as bv16 == 1
    ensures CmovWord(0, 1665, b as bv16) as int == if b == 1 then 1665 else 0
  {
    if b == 1 {
      assert CmovWord(0, 1665, b as bv16) == 1665;
    } else {
      assert CmovWord(0, 1665, b as bv16) == 0;
    }
  }

  /** The inner loop of `poly_frommsg`. */
  method SpreadBits(r: array<int16>, o: nat, b: byte)
    requires o + 8 <= r.Length
    modifies r
    ensures forall j :: 0 <= j < 8 ==> r[o + j] == DecompressFrom(1, if BitsOf(b)[j] == 1 then 1 else 0)
    ensures forall k :: 0 <= k < r.Length && !(o <= k < o + 8) ==> r[k] == old(r[k])
  {
    hide DecompressFrom, BitsOf;
    var j := 0;
    while j < 8
      invariant 0 <= j <= 8
      invariant forall k :: 0 <= k < j ==> r[o + k] == DecompressFrom(1, if BitsOf(b)[k] == 1 then 1 else 0)
      invariant forall k :: 0 <= k < r.Length && !(o <= k < o + 8) ==> r[k] == old(r[k])
    {
      r[o + j] := 0;
      r[o + j] := Half(Bit(b, j));
      j := j + 1;
    }
  }

  /** `poly_frommsg`. */
  method PolyFromMsg(r: array<int16>, m: seq<byte>)
    requires r.Length == 256 && |m| == 32
    modifies r
    ensures r[..] == CipherToPoly(1, m)
  {
    hide DecompressFrom, DecompressAll, ByteDecode, BitsOf, Below;
    EncodeDecode(1, m, 32);
    ghost var t := ByteDecode(1, m, 32);
    ghost var a := DecompressAll(1, t);
    var i := 0;
    while i < 32
      invariant 0 <= i <= 32
      invariant forall k :: 0 <= k < 8 * i ==> r[k] == a[k]
    {
      SpreadBits(r, 8 * i, m[i]);
      SpreadIs(r[..], m, i, t);
      i := i + 1;
    }
  }

  lemma SpreadIs(r: seq<int16>, m: seq<byte>, i: nat, t: seq<nat>)
    requires |r| == 256 && |m| == 32 && i < 32 && t == ByteDecode(1, m, 32) && |t| == 256 && Below(t, 2)
    requires forall j :: 0 <= j < 8 ==> r[8 * i + j] == DecompressFrom(1, if BitsOf(m[i])[j] == 1 then 1 else 0)
    ensures forall k :: 8 * i <= k < 8 * i + 8 ==> r[k] == DecompressAll(1, t)[k]
  {
    hide DecompressFrom, ByteDecode, BitsOf, Below, DecompressAll;
    MessageByte(m, i);
    forall k | 8 * i <= k < 8 * i + 8 ensures r[k] == DecompressAll(1, t)[k] {
      var j := k - 8 * i;
      assert t[8 * i..][..8][j] == BitsOf(m[i])[j];
      BelowAt(t, 2, k);
      DecompressAllAt(1, t, k);
      assert r[8 * i + j] == DecompressFrom(1, t[k]);
    }
  }

  /** The rounding in `poly_tomsg`, on `uint32_t`: negative coefficients wrap around. */
  function MessageBit(c: int16): (t: nat)
    requires -1664 <= c <= 1664
    ensures t == CompressTo(1, c % Q)
    ensures t == if c <= -833 || c >= 833 then 1 else 0
  {
    MessageBitWraps(c);
    U32(U32(U32(2 * U32(c)) + 1665) * 80635) / 0x1000_0000 % 2
  }

  /** All four wraps together only drop a multiple of 2^32, i.e. an even quotient. */
  lemma MessageBitWraps(c: int16)
    requires -1664 <= c <= 1664
    ensures U32(U32(U32(2 * U32(c)) + 1665) * 80635) / 0x1000_0000 % 2 == CompressTo(1, c % Q)
    ensures CompressTo(1, c % Q) == if c <= -833 || c >= 833 then 1 else 0
  {
    hide U32, CompressTo;
    var x: int := 2 * c + 1665;
    Wraps(c, x);
    TopBit(c, x * 80635 + if x < 0 then 0x1_0000_0000 else 0);
    Threshold(c);
  }

  lemma TopBit(c: int, v: int)
    requires -1664 <= c <= 1664 && v == (2 * c + 1665) * 80635 + if 2 * c + 1665 < 0 then 0x1_0000_0000 else 0
    ensures v / 0x1000_0000 % 2 == if c <= -833 || c >= 833 then 1 else 0
  {
  }

  lemma Threshold(c: int16)
    requires -1664 <= c <= 1664
    ensures CompressTo(1, c % Q) == if c <= -833 || c >= 833 then 1 else 0
  {
  }

  lemma Wraps(c: int, x: int)
    requires -1664 <= c <= 1664 && x == 2 * c + 1665
    ensures U32(U32(U32(2 * U32(c)) + 1665) * 80635) == x * 80635 + if x < 0 then 0x1_0000_0000 else 0
  {
    var w := if c < 0 then 1 else 0;
    U32Is(c, w, c + 0x1_0000_0000 * w);
    U32Is(2 * U32(c), -w, 2 * c + 0x1_0000_0000 * w);
    var v := if x < 0 then 1 else 0;
    U32Is(U32(2 * U32(c)) + 1665, v - w, x + 0x1_0000_0000 * v);
    U32Is((x + 0x1_0000_0000 * v) * 80635, -80634 * v, x * 80635 + 0x1_0000_0000 * v);
  }

  lemma U32Is(x: int, k: int, v: int)
    requires x + 0x1_0000_0000 * k == v && 0 <= v < 0x1_0000_0000
    ensures U32(x) == v
  {
  }

  /** The first j of eight bits, then zeros. */
  function FirstBits(t: seq<nat>, j: nat): (s: seq<nat>)
    requires |t| == 8
    ensures |s| == 8
  {
    seq(8, k requires 0 <= k < 8 => if k < j then t[k] else 0)
  }

  /** One pass of the inner loop of `poly_tomsg` adds one bit. */
  lemma NextBit(t: seq<nat>, j: nat)
    requires |t| == 8 && j < 8
    ensures ByteOfBits(FirstBits(t, j)) | Masked(t[j], 1 << j) == ByteOfBits(FirstBits(t, j + 1))
  {
    hide Masked;
    MaskedZero();
    if j == 0 {} else if j == 1 {} else if j == 2 {} else if j == 3 {} else if j == 4 {} else if j == 5 {}
    else if j == 6 {} else {}
  }

  lemma MaskedZero()
    ensures forall m: byte :: Masked(0, m) == 0
  {
  }

  lemma AllBits(t: seq<nat>)
    requires |t| == 8
    ensures FirstBits(t, 8) == t && ByteOfBits(FirstBits(t, 0)) == 0
  {
  }

  lemma OneGroup(t: seq<nat>)
    requires |t| == 8 && Below(t, 2)
    ensures EncodeGroup(1, t) == [ByteOfBits(t)]
  {
    hide ByteOfBits, Value;
    DigitsOfValue(t, 2);
    assert Power(2, 8) == 256;
    var v := Value(t, 2);
    assert Digits(v, 256, 1) == [v];
    hide Digits;
    assert v % 256 == v && Byte(v) == ByteOfBits(t);
    assert ToBytes([v]) == [Byte(v)];
  }

  /** The inner loop of `poly_tomsg`. */
  method MessageByteOf(a: seq<int16>, o: nat) returns (b: byte)
    requires o + 8 <= |a| && Bounded(a, 1664)
    ensures [b] == EncodeGroup(1, CompressAll(1, a)[o..][..8])
  {
    hide CompressTo, EncodeGroup, Masked, FirstBits, ByteOfBits;
    ghost var g := CompressAll(1, a)[o..][..8];
    AllBits(g);
    b := 0;
    var j := 0;
    while j < 8
      invariant 0 <= j <= 8 && b == ByteOfBits(FirstBits(g, j))
    {
      var t := MessageBit(a[o + j]);
      assert t == g[j];
      NextBit(g, j);
      b := b | Masked(t, 1 << j);
      j := j + 1;
    }
    OneGroup(g);
  }

  /** `poly_tomsg`, into the first 32 bytes of m. */
  method PolyToMsg(m: array<byte>, a: seq<int16>)
    requires m.Length >= 32 && |a| == 256 && Bounded(a, 1664)
    modifies m
    ensures m[..] == PolyToCipher(1, a) + old(m[32..])
  {
    hide CompressAll, Coded, ByteEncode, EncodeGroup;
    ghost var c := CompressAll(1, a);
    CodedEnds(1, c);
    var i := 0;
    while i < 32
      invariant 0 <= i <= 32
      invariant m[..i] == Coded(1, c, i)
      invariant forall k :: i <= k < m.Length ==> m[k] == old(m[k])
    {
      CodedNext(1, c, i);
      m[i] := MessageByteOf(a, 8 * i);
      assert m[..i + 1] == m[..i] + [m[i]];
      i := i + 1;
    }
  }
}
