/** Polynomials to bytes and back, in place (mlkem/poly.c); the references are in section 4.2.1 of FIPS 203. */
module Codec {
  import opened Modular
  import opened Compress
  import opened Bytes
  import opened Encode
  import opened Packing
  import opened Transform  // Bounded
  import opened Verify

  // ----- the references

  /** 256 coefficients make this many groups ... */
  function Groups(d: nat): (n: nat)
    requires IsPacking(d)
    ensures n * GroupSize(d) == 256 && n * GroupBytes(d) == 32 * d
  {
    if d == 10 then 64 else if d == 12 then 128 else 32
  }

  function CompressAll(d: nat, a: seq<int>): (t: seq<nat>)
    requires IsWidth(d)
    ensures |t| == |a| && Below(t, Base(d))
  {
    seq(|a|, i requires 0 <= i < |a| => CompressTo(d, a[i] % Q))
  }

  function DecompressAll(d: nat, t: seq<nat>): (a: seq<int16>)
    requires IsWidth(d) && Below(t, Base(d))
    ensures |a| == |t| && Bounded(a, 3328)
  {
    seq(|t|, i requires 0 <= i < |t| => DecompressFrom(d, t[i]))
  }

  /** ByteEncode_d(Compress_d(a)). */
  function PolyToCipher(d: nat, a: seq<int>): (b: seq<byte>)
    requires IsWidth(d) && |a| == 256
    ensures |b| == 32 * d
  {
    ByteEncode(d, CompressAll(d, a), Groups(d))
  }

  /** Decompress_d(ByteDecode_d(b)). */
  function CipherToPoly(d: nat, b: seq<byte>): (a: seq<int16>)
    requires IsWidth(d) && |b| == 32 * d
    ensures |a| == 256 && Bounded(a, 3328)
  {
    EncodeDecode(d, b, Groups(d));
    DecompressAll(d, ByteDecode(d, b, Groups(d)))
  }

  predicate Positivable(a: seq<int>) {
    forall i :: 0 <= i < |a| ==> -3329 < a[i] < 4096
  }

  /** `t += ((int16_t) t >> 15) & MLKEM_Q` on every coefficient. */
  function Positive(a: seq<int>): (t: seq<nat>)
    requires Positivable(a)
    ensures |t| == |a| && Below(t, 4096)
  {
    seq(|a|, i requires 0 <= i < |a| => ToPositive(a[i]))
  }

  /** ByteEncode_12: negative coefficients get Q added, larger ones are not reduced. */
  function PolyToBytes(a: seq<int>): (b: seq<byte>)
    requires |a| == 256 && Positivable(a)
    ensures |b| == 384
  {
    ByteEncode(12, Positive(a), 128)
  }

  lemma BytesBelow(b: seq<byte>)
    requires |b| == 384
    ensures Below(ByteDecode(12, b, 128), 4096)
  {
    hide ByteEncode, ByteDecode;
    EncodeDecode(12, b, 128);
  }

  /** ByteDecode_12; the code does not reduce values from Q to 4095. */
  function BytesToPoly(b: seq<byte>): (a: seq<int16>)
    requires |b| == 384
    ensures |a| == 256 && forall i :: 0 <= i < 256 ==> 0 <= a[i] < 4096
  {
    BytesBelow(b);
    var t := ByteDecode(12, b, 128);
    seq(256, i requires 0 <= i < 256 => t[i])
  }

  /** The representatives in [0, Q). */
  function Canonical(a: seq<int>): (t: seq<nat>)
    ensures |t| == |a| && Below(t, 3329)
  {
    seq(|a|, i requires 0 <= i < |a| => a[i] % Q)
  }

  // ----- round trips of the references

  /** Unpacking and decompressing loses nothing: every ciphertext string comes back. */
  lemma CipherRoundTrip(d: nat, b: seq<byte>)
    requires IsWidth(d) && |b| == 32 * d
    ensures PolyToCipher(d, CipherToPoly(d, b)) == b
  {
    hide DecompressFrom, CompressTo, Base, Groups, ByteEncode, ByteDecode, GroupBytes, GroupSize;
    EncodeDecode(d, b, Groups(d));
    var t := ByteDecode(d, b, Groups(d));
    var a := DecompressAll(d, t);
    BaseIsLevels(d);
    forall i | 0 <= i < |t| ensures CompressTo(d, a[i] % Q) == t[i] {
      CompressDecompress(d, t[i]);
    }
    assert CompressAll(d, a) == t;
  }

  lemma BaseIsLevels(d: nat)
    requires IsWidth(d)
    ensures Base(d) == Levels(d)
  {
  }

  /** Compressing and decompressing moves every coefficient by at most round(Q / 2^(d + 1)) modulo Q. */
  lemma CipherError(d: nat, a: seq<int>, i: nat)
    requires IsWidth(d) && |a| == 256 && i < 256
    ensures -MaxError(d) <= Centred(CipherToPoly(d, PolyToCipher(d, a))[i] - a[i]) <= MaxError(d)
  {
    hide DecompressFrom, CompressTo, Base, Groups, ByteEncode, ByteDecode, GroupBytes, GroupSize, MaxError, Centred;
    DecodeEncode(d, CompressAll(d, a), Groups(d));
    var u := a[i] % Q;
    DecompressCompress(d, u);
    var v: int := CipherToPoly(d, PolyToCipher(d, a))[i];
    assert v == DecompressFrom(d, CompressTo(d, u));
    CongBy(v - a[i], v - u, -(a[i] / Q));
    CentredCong(v - a[i], v - u);
  }

  lemma CentredCong(x: int, y: int)
    requires Cong(x, y)
    ensures Centred(x) == Centred(y)
  {
  }

  /** `poly_tobytes` undoes `poly_frombytes` on every string, canonical or not. */
  lemma BytesRoundTrip(b: seq<byte>)
    requires |b| == 384
    ensures PolyToBytes(BytesToPoly(b)) == b
  {
    hide ByteEncode, ByteDecode;
    EncodeDecode(12, b, 128);
    assert Positive(BytesToPoly(b)) == ByteDecode(12, b, 128);
  }

  /** `poly_frombytes` undoes `poly_tobytes` up to the choice of representative. */
  lemma PolyRoundTrip(a: seq<int>)
    requires |a| == 256 && Bounded(a, 3328)
    ensures BytesToPoly(PolyToBytes(a)) == Canonical(a)
  {
    hide ByteEncode, ByteDecode;
    assert Positive(a) == Canonical(a);
    DecodeEncode(12, Canonical(a), 128);
  }

  // ----- compression and packing

  /** The encoding of the first i groups of c. */
  function Coded(d: nat, c: seq<nat>, i: nat): (b: seq<byte>)
    requires IsPacking(d) && i * GroupSize(d) <= |c|
    ensures |b| == i * GroupBytes(d)
  {
    ByteEncode(d, c[..i * GroupSize(d)], i)
  }

  lemma ScaledLess(i: nat, n: nat, g: nat)
    requires i < n
    ensures i * g + g <= n * g && (i + 1) * g == i * g + g
  {
    var m := n - i - 1;
    assert m * g >= 0;
    assert (i + 1 + m) * g == i * g + g + m * g;
  }

  /** The loops over groups append the encoding of one group at a time. */
  lemma CodedNext(d: nat, c: seq<nat>, i: nat)
    requires IsPacking(d) && |c| == 256 && i < Groups(d)
    ensures i * GroupSize(d) + GroupSize(d) <= 256 && (i + 1) * GroupSize(d) == i * GroupSize(d) + GroupSize(d)
    ensures Coded(d, c, i + 1) == Coded(d, c, i) + EncodeGroup(d, c[i * GroupSize(d)..][..GroupSize(d)])
    ensures |Coded(d, c, i + 1)| <= 32 * d
  {
    hide EncodeGroup, GroupSize, GroupBytes, Groups;
    var g, o := GroupSize(d), i * GroupSize(d);
    ScaledLess(i, Groups(d), g);
    ScaledLess(i, Groups(d), GroupBytes(d));
    var u := c[..o + g];
    assert u[..o] == c[..o] && u[o..] == c[o..][..g];
  }

  lemma CodedEnds(d: nat, c: seq<nat>)
    requires IsPacking(d) && |c| == 256
    ensures 0 * GroupSize(d) == 0 && Coded(d, c, 0) == []
    ensures Coded(d, c, Groups(d)) == ByteEncode(d, c, Groups(d))
  {
    hide EncodeGroup, GroupSize, GroupBytes, Groups;
    assert c[..256] == c;
  }

  /** t is r with b stored from o on. */
  ghost predicate Spliced(r: seq<byte>, o: nat, b: seq<byte>, t: seq<byte>) {
    o + |b| <= |r| && t == r[..o] + b + r[o + |b|..]
  }

  lemma SplicedIs(r: seq<byte>, o: nat, b: seq<byte>, t: seq<byte>)
    requires Spliced(r, o, b, t)
    ensures o + |b| <= |r| && t == r[..o] + b + r[o + |b|..]
  {
  }

  lemma SplicedAll(r: seq<byte>, b: seq<byte>, t: seq<byte>)
    requires Spliced(r, 0, b, t) && |b| == |r|
    ensures t == b
  {
  }

  lemma SplicedNone(r: seq<byte>, o: nat)
    requires o <= |r|
    ensures Spliced(r, o, [], r)
  {
  }

  lemma SplicedMore(r: seq<byte>, o: nat, b: seq<byte>, g: seq<byte>, s: seq<byte>, t: seq<byte>)
    requires Spliced(r, o, b, s) && o + |b| + |g| <= |r| && t == s[..o + |b|] + g + s[o + |b| + |g|..]
    ensures Spliced(r, o, b + g, t)
  {
  }

  /** Store consecutive bytes. */
  method WriteBytes(r: array<byte>, o: nat, b: seq<byte>)
    requires o + |b| <= r.Length
    modifies r
    ensures r[..] == old(r[..o]) + b + old(r[o + |b|..])
  {
    var k := 0;
    while k < |b|
      invariant 0 <= k <= |b|
      invariant r[..o + k] == old(r[..o]) + b[..k]
      invariant forall i :: o + k <= i < r.Length ==> r[i] == old(r[i])
    {
      r[o + k] := b[k];
      k := k + 1;
    }
  }

  /** The inner loop of the compressing functions: one group of t. */
  method CompressFew(d: nat, a: seq<int16>, o: nat) returns (t: seq<nat>)
    requires d in {4, 5, 10, 11} && o + GroupSize(d) <= |a| && Bounded(a, 3328)
    ensures t == CompressAll(d, a)[o..][..GroupSize(d)] && |t| == GroupSize(d) && Below(t, Base(d))
  {
    hide CompressCode, CompressTo, CompressAll, GroupSize, Base;
    ghost var c := CompressAll(d, a);
    var f := new nat[GroupSize(d)];
    var j := 0;
    while j < f.Length
      invariant 0 <= j <= f.Length
      invariant forall k :: 0 <= k < j ==> f[k] == c[o + k]
    {
      CompressAllAt(d, a, o + j);
      var u := ToPositive(a[o + j]);
      ToPositiveIs(a[o + j]);
      CompressCodeExact(d, u);
      f[j] := CompressCode(d, u);
      j := j + 1;
    }
    t := f[..];
    assert t == c[o..][..GroupSize(d)];
    BelowPart(c, Base(d), o, t);
  }

  lemma CompressAllAt(d: nat, a: seq<int>, i: nat)
    requires IsWidth(d) && i < |a|
    ensures CompressAll(d, a)[i] == CompressTo(d, a[i] % Q)
  {
    hide CompressTo, Base;
  }

  lemma BelowPart(c: seq<nat>, base: nat, o: nat, t: seq<nat>)
    requires Below(c, base) && o + |t| <= |c| && t == c[o..][..|t|]
    ensures Below(t, base)
  {
    forall i | 0 <= i < |t| ensures t[i] < base {
      assert t[i] == c[o + i];
    }
  }

  /** The same, and the bytes made of t. */
  method CompressGroup(d: nat, a: seq<int16>, o: nat) returns (b: seq<byte>)
    requires d in {4, 5, 10, 11} && o + GroupSize(d) <= |a| && Bounded(a, 3328)
    ensures b == EncodeGroup(d, CompressAll(d, a)[o..][..GroupSize(d)])
  {
    hide CompressAll, GroupSize, GroupBytes, Pack, ToBytes, EncodeGroup, Bounded;
    var t := CompressFew(d, a, o);
    PackIsEncode(d, t);
    b := ToBytes(Pack(d, t));
  }

  /** `poly_compress` (d = 4, 5) and `poly_packcompress` (d = 10, 11), writing from r[o] on. */
  method PolyCompress(r: array<byte>, o: nat, d: nat, a: seq<int16>)
    requires d in {4, 5, 10, 11} && |a| == 256 && Bounded(a, 3328) && o + 32 * d <= r.Length
    modifies r
    ensures r[..] == old(r[..o]) + PolyToCipher(d, a) + old(r[o + 32 * d..])
  {
    hide GroupSize, GroupBytes, EncodeGroup, CompressAll, Coded, ByteEncode, Groups, Bounded, Spliced;
    ghost var r0, c := r[..], CompressAll(d, a);
    var i, f := 0, o;
    CodedEnds(d, c);
    SplicedNone(r0, o);
    while i < Groups(d)
      invariant 0 <= i <= Groups(d) && i * GroupSize(d) <= 256 && f == o + |Coded(d, c, i)|
      invariant Spliced(r0, o, Coded(d, c, i), r[..])
    {
      CodedNext(d, c, i);
      var b := CompressGroup(d, a, i * GroupSize(d));
      ghost var s := r[..];
      WriteBytes(r, f, b);
      SplicedMore(r0, o, Coded(d, c, i), b, s, r[..]);
      i, f := i + 1, f + |b|;
    }
    SplicedIs(r0, o, PolyToCipher(d, a), r[..]);
  }

  /**
   `cmp_poly_compress` and `cmp_poly_packcompress`: zero exactly if the compressed polynomial is what r holds from o
   on.
   */
  method CmpPolyCompress(r: seq<byte>, o: nat, d: nat, a: seq<int16>) returns (rc: byte)
    requires d in {4, 5, 10, 11} && |a| == 256 && Bounded(a, 3328) && o + 32 * d <= |r|
    ensures rc == 0 <==> r[o..o + 32 * d] == PolyToCipher(d, a)
  {
    hide GroupSize, GroupBytes, EncodeGroup, CompressAll, Coded, ByteEncode, Groups, Bounded;
    rc := 0;
    ghost var c := CompressAll(d, a);
    var i, f := 0, o;
    CodedEnds(d, c);
    while i < Groups(d)
      invariant 0 <= i <= Groups(d) && i * GroupSize(d) <= 256 && f == o + |Coded(d, c, i)| <= |r|
      invariant rc == 0 <==> r[o..f] == Coded(d, c, i)
    {
      CodedNext(d, c, i);
      var b := CompressGroup(d, a, i * GroupSize(d));
      SplitEqual(r[o..f], Coded(d, c, i), r[f..f + |b|], b);
      assert r[o..f] + r[f..f + |b|] == r[o..f + |b|];
      rc := OrDifferences(rc, r[f..f + |b|], b);
      i, f := i + 1, f + |b|;
    }
  }

  lemma SplitEqual<T>(a: seq<T>, b: seq<T>, c: seq<T>, d: seq<T>)
    requires |a| == |b|
    ensures a + c == b + d <==> a == b && c == d
  {
    if a + c == b + d {
      assert a == (a + c)[..|a|] && b == (b + d)[..|a|] && c == (a + c)[|a|..] && d == (b + d)[|a|..];
    }
  }

  // ----- unpacking and decompression

  /** Group i of a decoded string comes from group i of its bytes. */
  lemma {:induction false} DecodedAt(d: nat, b: seq<byte>, n: nat, i: nat)
    requires IsPacking(d) && i < n && |b| == n * GroupBytes(d)
    ensures i * GroupBytes(d) + GroupBytes(d) <= |b| && i * GroupSize(d) + GroupSize(d)
        == (i + 1) * GroupSize(d) <= n * GroupSize(d)
    ensures ByteDecode(d, b, n)[i * GroupSize(d)..][..GroupSize(d)]
        == DecodeGroup(d, b[i * GroupBytes(d)..][..GroupBytes(d)])
    decreases n
  {
    hide DecodeGroup, GroupSize, GroupBytes;
    var g, m := GroupSize(d), GroupBytes(d);
    ScaledLess(i, n, g);
    ScaledLess(i, n, m);
    LastGroup(n, g);
    LastGroup(n, m);
    var k, l := (n - 1) * m, (n - 1) * g;
    var t := ByteDecode(d, b[..k], n - 1);
    assert ByteDecode(d, b, n) == t + DecodeGroup(d, b[k..]);
    if i < n - 1 {
      DecodedAt(d, b[..k], n - 1, i);
      ScaledLess(i, n - 1, m);
      assert b[..k][i * m..][..m] == b[i * m..][..m];
      assert (t + DecodeGroup(d, b[k..]))[i * g..][..g] == t[i * g..][..g];
    } else {
      assert (t + DecodeGroup(d, b[k..]))[l..][..g] == DecodeGroup(d, b[k..]);
      assert b[k..][..m] == b[k..];
    }
  }

  /** The bytes of one group, unpacked. */
  method UnpackGroup(d: nat, b: seq<byte>, i: nat) returns (t: seq<nat>)
    requires IsPacking(d) && d > 1 && |b| == 32 * d && i < Groups(d)
    ensures i * GroupSize(d) + GroupSize(d) == (i + 1) * GroupSize(d) <= 256
    ensures t == ByteDecode(d, b, Groups(d))[i * GroupSize(d)..][..GroupSize(d)]
    ensures Below(t, Base(d))
  {
    hide Unpack, FromBytes, ByteDecode, DecodeGroup, Groups, GroupSize, GroupBytes, Base;
    DecodedAt(d, b, Groups(d), i);
    var g := b[i * GroupBytes(d)..][..GroupBytes(d)];
    UnpackIsDecode(d, g);
    t := Unpack(d, FromBytes(g));
  }

  /** `(t * MLKEM_Q + 2^(d - 1)) >> d`, which needs no more than 24 bits. */
  function DecompressCode(d: nat, t: nat): (u: int16)
    requires d in {4, 5, 10, 11} && t < Base(d)
    ensures u == DecompressFrom(d, t)
  {
    (t * 3329 + Base(d) / 2) / Base(d)
  }

  /** The unpacked values of one group, decompressed into r[e..]. */
  method DecompressGroup(r: array<int16>, e: nat, d: nat, u: seq<nat>, ghost t: seq<nat>)
    requires d in {4, 5, 10, 11} && r.Length == |t| == 256 && Below(t, Base(d)) && e + |u| <= 256 && u == t[e..][..|u|]
    modifies r
    ensures forall k :: 0 <= k < 256 ==> r[k] == if e <= k < e + |u| then DecompressAll(d, t)[k] else old(r[k])
  {
    hide Base, DecompressFrom, DecompressAll, Below;
    var j := 0;
    while j < |u|
      invariant 0 <= j <= |u|
      invariant forall k :: 0 <= k < 256 ==> r[k] == if e <= k < e + j then DecompressAll(d, t)[k] else old(r[k])
    {
      assert u[j] == t[e + j];
      BelowAt(t, Base(d), e + j);
      DecompressAllAt(d, t, e + j);
      r[e + j] := DecompressCode(d, u[j]);
      j := j + 1;
    }
  }

  lemma DecompressAllAt(d: nat, t: seq<nat>, i: nat)
    requires IsWidth(d) && Below(t, Base(d)) && i < |t|
    ensures DecompressAll(d, t)[i] == DecompressFrom(d, t[i])
  {
    hide DecompressFrom, Base;
  }

  /** `poly_decompress` (d = 4, 5) and `poly_unpackdecompress` (d = 10, 11), reading from b[o] on. */
  method PolyDecompress(r: array<int16>, d: nat, b: seq<byte>, o: nat)
    requires d in {4, 5, 10, 11} && r.Length == 256 && o + 32 * d <= |b|
    modifies r
    ensures r[..] == CipherToPoly(d, b[o..o + 32 * d])
  {
    hide GroupSize, GroupBytes, ByteDecode, Groups, Base, DecompressFrom, DecompressAll, Below;
    var c := b[o..o + 32 * d];
    EncodeDecode(d, c, Groups(d));
    ghost var t := ByteDecode(d, c, Groups(d));
    var i := 0;
    while i < Groups(d)
      invariant 0 <= i <= Groups(d)
      invariant forall k :: 0 <= k < i * GroupSize(d) && k < 256 ==> r[k] == DecompressAll(d, t)[k]
    {
      var u := UnpackGroup(d, c, i);
      DecompressGroup(r, i * GroupSize(d), d, u, t);
      i := i + 1;
    }
  }

  lemma BelowAt(s: seq<nat>, base: nat, i: nat)
    requires Below(s, base) && i < |s|
    ensures s[i] < base
  {
  }

  // ----- 12-bit packing

  lemma PackPair(a: seq<int>, i: nat)
    requires |a| == 256 && Positivable(a) && i < 128
    ensures ToBytes(Pack(12, Positive(a)[i * 2..][..2])) == EncodeGroup(12, Positive(a)[i * 2..][..2])
  {
    PackIsEncode(12, Positive(a)[i * 2..][..2]);
  }

  /** `poly_tobytes`, writing from r[o] on. */
  method PolyStore(r: array<byte>, o: nat, a: seq<int16>)
    requires |a| == 256 && Positivable(a) && o + 384 <= r.Length
    modifies r
    ensures r[..] == old(r[..o]) + PolyToBytes(a) + old(r[o + 384..])
  {
    hide Pack, EncodeGroup, Coded, ByteEncode, ToBytes, Spliced, ToPositive;
    ghost var r0, c := r[..], Positive(a);
    CodedEnds(12, c);
    SplicedNone(r0, o);
    var i := 0;
    while i < 128
      invariant 0 <= i <= 128
      invariant Spliced(r0, o, Coded(12, c, i), r[..])
    {
      CodedNext(12, c, i);
      PackPair(a, i);
      var t := [ToPositive(a[2 * i]), ToPositive(a[2 * i + 1])];
      assert t == c[i * 2..][..2];
      var b := ToBytes(Pack(12, t));
      ghost var s := r[..];
      WriteBytes(r, o + 3 * i, b);
      SplicedMore(r0, o, Coded(12, c, i), b, s, r[..]);
      i := i + 1;
    }
    SplicedIs(r0, o, PolyToBytes(a), r[..]);
  }

  /** `poly_frombytes`, reading from b[o] on. */
  method PolyLoad(r: array<int16>, b: seq<byte>, o: nat)
    requires r.Length == 256 && o + 384 <= |b|
    modifies r
    ensures r[..] == BytesToPoly(b[o..o + 384])
  {
    hide ByteDecode;
    var c := b[o..o + 384];
    BytesBelow(c);
    ghost var t := ByteDecode(12, c, 128);
    var i := 0;
    while i < 128
      invariant 0 <= i <= 128
      invariant forall k :: 0 <= k < 2 * i ==> r[k] == t[k]
    {
      var u := UnpackGroup(12, c, i);
      assert u[0] == t[2 * i] && u[1] == t[2 * i + 1];
      r[2 * i] := u[0];
      r[2 * i + 1] := u[1];
      i := i + 1;
    }
  }
}
