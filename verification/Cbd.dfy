/**
 Centred binomial noise: the word-parallel bit counts of mlkem/cbd.c against SamplePolyCBD (section 4.2.2 of FIPS
 203).
 */
module Cbd {
  import opened Modular
  import opened Bytes
  import opened Transform
  import opened Poly

  // ----- the reference

  /** Bit k of a byte string, least significant bits first. */
  function StreamBit(b: seq<byte>, k: nat): (x: nat)
    requires k < 8 * |b|
    ensures x <= 1
  {
    if BitsOf(b[k / 8])[k % 8] == 1 then 1 else 0
  }

  /** How many of the n bits from bit o on are set. */
  function BitSum(b: seq<byte>, o: nat, n: nat): (s: nat)
    requires o + n <= 8 * |b|
    ensures s <= n
  {
    if n == 0 then 0 else BitSum(b, o, n - 1) + StreamBit(b, o + n - 1)
  }

  lemma NoiseRange(eta: nat, i: nat)
    requires i < 256
    ensures 2 * i * eta + 2 * eta <= 512 * eta
  {
    assert (255 - i) * eta >= 0;
  }

  /** SamplePolyCBD: differences of two counts of eta bits. */
  function Noise(eta: nat, b: seq<byte>): (f: seq<int16>)
    requires eta in {2, 3} && |b| == 64 * eta
    ensures |f| == 256 && Bounded(f, eta)
  {
    seq(256, i requires 0 <= i < 256 => NoiseRange(eta, i); BitSum(b, 2 * i * eta, eta) - BitSum(b, 2 * i * eta + eta,
        eta))
  }

  // ----- words

  /** `load32_littleendian`; `load24_littleendian` is the case of a zero last byte. */
  function Load(x0: byte, x1: byte, x2: byte, x3: byte): bv32 {
    (x0 as bv32) | ((x1 as bv32) << 8) | ((x2 as bv32) << 16) | ((x3 as bv32) << 24)
  }

  lemma LoadByte0(x0: byte, x1: byte, x2: byte, x3: byte, j: nat)
    requires j < 8
    ensures Shifted(Load(x0, x1, x2, x3), j) & 1 == 1 <==> Bit(x0, j) == 1
  {
    if j == 0 {} else if j == 1 {} else if j == 2 {} else if j == 3 {}
    else if j == 4 {} else if j == 5 {} else if j == 6 {} else {}
  }

  lemma LoadByte1(x0: byte, x1: byte, x2: byte, x3: byte, j: nat)
    requires j < 8
    ensures Shifted(Load(x0, x1, x2, x3), 8 + j) & 1 == 1 <==> Bit(x1, j) == 1
  {
    if j == 0 {} else if j == 1 {} else if j == 2 {} else if j == 3 {}
    else if j == 4 {} else if j == 5 {} else if j == 6 {} else {}
  }

  lemma LoadByte2(x0: byte, x1: byte, x2: byte, x3: byte, j: nat)
    requires j < 8
    ensures Shifted(Load(x0, x1, x2, x3), 16 + j) & 1 == 1 <==> Bit(x2, j) == 1
  {
    if j == 0 {} else if j == 1 {} else if j == 2 {} else if j == 3 {}
    else if j == 4 {} else if j == 5 {} else if j == 6 {} else {}
  }

  lemma LoadByte3(x0: byte, x1: byte, x2: byte, x3: byte, j: nat)
    requires j < 8
    ensures Shifted(Load(x0, x1, x2, x3), 24 + j) & 1 == 1 <==> Bit(x3, j) == 1
  {
    if j == 0 {} else if j == 1 {} else if j == 2 {} else if j == 3 {}
    else if j == 4 {} else if j == 5 {} else if j == 6 {} else {}
  }

  function Shifted(t: bv32, k: nat): bv32
    requires k < 32
  {
    t >> k
  }

  /** Pairs of bits, added in parallel. */
  function Pairs(t: bv32): bv32 {
    (t & 0x5555_5555) + ((t >> 1) & 0x5555_5555)
  }

  /** Triples of bits, added in parallel. */
  function Triples(t: bv32): bv32 {
    (t & 0x0024_9249) + ((t >> 1) & 0x0024_9249) + ((t >> 2) & 0x0024_9249)
  }

  lemma PairSum(x: bv32, y: bv32)
    requires x <= 1 && y <= 1
    ensures (x + y) as int == (if x == 1 then 1 else 0) + (if y == 1 then 1 else 0)
  {
    if x == 1 && y == 1 { assert x + y == 2; } else if x == 1 || y == 1 { assert x + y == 1; }
    else { assert x + y == 0; }
  }

  lemma TripleSum(x: bv32, y: bv32, z: bv32)
    requires x <= 1 && y <= 1 && z <= 1
    ensures (x + y + z) as int == (if x == 1 then 1 else 0) + (if y == 1 then 1 else 0) + (if z == 1 then 1 else 0)
  {
    if z == 0 {
      PairSum(x, y);
    } else if x == 1 && y == 1 {
      assert x + y + z == 3;
    } else if x == 1 || y == 1 {
      assert x + y + z == 2;
    } else {
      assert x + y + z == 1;
    }
  }

  /** No carry leaves a lane. */
  lemma PairShifts(t: bv32, l: nat)
    requires l < 16
    ensures (Pairs(t) >> (2 * l)) & 3 == ((t >> (2 * l)) & 1) + ((t >> (2 * l + 1)) & 1)
  {
    if l == 0 {} else if l == 1 {} else if l == 2 {} else if l == 3 {} else if l == 4 {} else if l == 5 {}
    else if l == 6 {} else if l == 7 {} else if l == 8 {} else if l == 9 {} else if l == 10 {} else if l == 11 {}
    else if l == 12 {} else if l == 13 {} else if l == 14 {} else {}
  }

  lemma PairLane(t: bv32, l: nat)
    requires l < 16
    ensures Shifted(Pairs(t), 2 * l) & 3 == (Shifted(t, 2 * l) & 1) + (Shifted(t, 2 * l + 1) & 1)
  {
    PairShifts(t, l);
    hide Pairs;
  }

  lemma TripleShifts(t: bv32, l: nat)
    requires l < 8
    ensures (Triples(t) >> (3 * l)) & 7 == ((t >> (3 * l)) & 1) + ((t >> (3 * l + 1)) & 1) + ((t >> (3 * l + 2)) & 1)
  {
    if l == 0 {} else if l == 1 {} else if l == 2 {} else if l == 3 {} else if l == 4 {} else if l == 5 {}
    else if l == 6 {} else {}
  }

  lemma TripleLane(t: bv32, l: nat)
    requires l < 8
    ensures Shifted(Triples(t), 3 * l) & 7 == (Shifted(t, 3 * l) & 1) + (Shifted(t, 3 * l + 1) & 1)
        + (Shifted(t, 3 * l + 2) & 1)
  {
    TripleShifts(t, l);
    hide Triples;
  }

  /** The word loaded from the n bytes at o. */
  function LoadAt(b: seq<byte>, o: nat, n: nat): bv32
    requires (n == 3 || n == 4) && o + n <= |b|
  {
    Load(b[o], b[o + 1], b[o + 2], if n == 4 then b[o + 3] else 0)
  }

  function WordBit(t: bv32, k: nat): (x: nat)
    requires k < 32
  {
    if Shifted(t, k) & 1 == 1 then 1 else 0
  }

  /** `(d >> (2 * l)) & 0x3`. */
  function Field2(d: bv32, l: nat): (x: nat)
    requires l < 16
  {
    (Shifted(d, 2 * l) & 3) as int
  }

  /** `(d >> (3 * l)) & 0x7`. */
  function Field3(d: bv32, l: nat): (x: nat)
    requires l < 8
  {
    (Shifted(d, 3 * l) & 7) as int
  }

  lemma PairField(t: bv32, l: nat)
    requires l < 16
    ensures Field2(Pairs(t), l) == WordBit(t, 2 * l) + WordBit(t, 2 * l + 1)
  {
    hide Pairs, Shifted;
    var k := 2 * l;
    PairLane(t, l);
    LowBit(Shifted(t, k));
    LowBit(Shifted(t, k + 1));
    PairSum(Shifted(t, k) & 1, Shifted(t, k + 1) & 1);
  }

  lemma TripleField(t: bv32, l: nat)
    requires l < 8
    ensures Field3(Triples(t), l) == WordBit(t, 3 * l) + WordBit(t, 3 * l + 1) + WordBit(t, 3 * l + 2)
  {
    hide Triples, Shifted;
    var k := 3 * l;
    TripleLane(t, l);
    LowBit(Shifted(t, k));
    LowBit(Shifted(t, k + 1));
    LowBit(Shifted(t, k + 2));
    TripleSum(Shifted(t, k) & 1, Shifted(t, k + 1) & 1, Shifted(t, k + 2) & 1);
  }

  lemma LowBit(t: bv32)
    ensures t & 1 <= 1
  {
  }

  /** Bit k of a word is bit k of the bytes it was loaded from. */
  lemma LoadBit(b: seq<byte>, o: nat, n: nat, k: nat)
    requires (n == 3 || n == 4) && o + n <= |b| && k < 8 * n
    ensures WordBit(LoadAt(b, o, n), k) == StreamBit(b, 8 * o + k)
  {
    hide Load, BitsOf, Shifted, Bit;
    var c, j := k / 8, k % 8;
    var x3 := if n == 4 then b[o + 3] else 0;
    if c == 0 { LoadByte0(b[o], b[o + 1], b[o + 2], x3, j); }
    else if c == 1 { LoadByte1(b[o], b[o + 1], b[o + 2], x3, j); }
    else if c == 2 { LoadByte2(b[o], b[o + 1], b[o + 2], x3, j); }
    else { LoadByte3(b[o], b[o + 1], b[o + 2], x3, j); }
    assert Bit(b[o + c], j) == if BitsOf(b[o + c])[j] == 1 then 1 else 0;
    assert (8 * o + k) / 8 == o + c && (8 * o + k) % 8 == j;
  }

  /** A lane of the parallel sum counts two bits of the buffer. */
  lemma PairCount(b: seq<byte>, o: nat, l: nat)
    requires o + 4 <= |b| && l < 16
    ensures Field2(Pairs(LoadAt(b, o, 4)), l) == BitSum(b, 8 * o + 2 * l, 2)
  {
    hide *;
    var t, k := LoadAt(b, o, 4), 2 * l;
    PairField(t, l);
    LoadBit(b, o, 4, k);
    LoadBit(b, o, 4, k + 1);
    BitSum2(b, 8 * o + k);
  }

  lemma TripleCount(b: seq<byte>, o: nat, l: nat)
    requires o + 3 <= |b| && l < 8
    ensures Field3(Triples(LoadAt(b, o, 3)), l) == BitSum(b, 8 * o + 3 * l, 3)
  {
    hide *;
    var t, k := LoadAt(b, o, 3), 3 * l;
    TripleField(t, l);
    LoadBit(b, o, 3, k);
    LoadBit(b, o, 3, k + 1);
    LoadBit(b, o, 3, k + 2);
    BitSum3(b, 8 * o + k);
  }

  lemma BitSum2(b: seq<byte>, o: nat)
    requires o + 2 <= 8 * |b|
    ensures BitSum(b, o, 2) == StreamBit(b, o) + StreamBit(b, o + 1)
  {
    hide StreamBit;
    assert BitSum(b, o, 1) == BitSum(b, o, 0) + StreamBit(b, o);
  }

  lemma BitSum3(b: seq<byte>, o: nat)
    requires o + 3 <= 8 * |b|
    ensures BitSum(b, o, 3) == StreamBit(b, o) + StreamBit(b, o + 1) + StreamBit(b, o + 2)
  {
    hide StreamBit;
    BitSum2(b, o);
  }

  // ----- the code

  /** The new coefficient: added to the old one, or replacing it. */
  function Noisy(add: bool, r: seq<int16>, f: seq<int16>): (t: seq<int16>)
    requires |r| == |f|
    ensures |t| == |r|
  {
    if add then Sum16(r, f) else f
  }

  /** One coefficient of `cbd2` or `cbd3`: with add unset the old value is cleared first. */
  method AddNoise(r: array<int16>, i: nat, x: nat, y: nat, add: bool)
    requires i < r.Length && x <= 3 && y <= 3
    modifies r
    ensures r[..] == old(r[..])[i := if add then Add16(old(r[i]), x - y) else x - y]
  {
    if !add {
      r[i] := 0;
    }
    r[i] := Add16(r[i], x - y);
  }

  /** The inner loop of `cbd2`: 8 coefficients from the word loaded at byte 4 * i. */
  method Cbd2Word(r: array<int16>, buf: seq<byte>, add: bool, i: nat)
    requires r.Length == 256 && |buf| == 128 && i < 32
    modifies r
    ensures forall k :: 0 <= k < 256 ==>
      r[k] == if 8 * i <= k < 8 * i + 8 then Noisy(add, old(r[..]), Noise(2, buf))[k] else old(r[k])
  {
    hide Pairs, LoadAt, BitSum, Add16, Field2, Bounded;
    ghost var f := Noise(2, buf);
    var d := Pairs(LoadAt(buf, 4 * i, 4));
    var j := 0;
    while j < 8
      invariant 0 <= j <= 8
      invariant forall k :: 0 <= k < 256 ==>
            r[k] == if 8 * i <= k < 8 * i + j then Noisy(add, old(r[..]), f)[k] else old(r[k])
    {
      PairCount(buf, 4 * i, 2 * j);
      PairCount(buf, 4 * i, 2 * j + 1);
      var k := 8 * i + j;
      assert f[k] == Field2(d, 2 * j) - Field2(d, 2 * j + 1);
      AddNoise(r, k, Field2(d, 2 * j), Field2(d, 2 * j + 1), add);
      j := j + 1;
    }
  }

  /** `cbd2`. */
  method Cbd2(r: array<int16>, buf: seq<byte>, add: bool)
    requires r.Length == 256 && |buf| == 128
    modifies r
    ensures r[..] == Noisy(add, old(r[..]), Noise(2, buf))
  {
    hide Noise, Add16;
    var i := 0;
    while i < 32
      invariant 0 <= i <= 32
      invariant forall k :: 0 <= k < 256 ==>
            r[k] == if k < 8 * i then Noisy(add, old(r[..]), Noise(2, buf))[k] else old(r[k])
    {
      Cbd2Word(r, buf, add, i);
      i := i + 1;
    }
  }

  /** The inner loop of `cbd3`: 4 coefficients from the word loaded at byte 3 * i. */
  method Cbd3Word(r: array<int16>, buf: seq<byte>, add: bool, i: nat)
    requires r.Length == 256 && |buf| == 192 && i < 64
    modifies r
    ensures forall k :: 0 <= k < 256 ==>
      r[k] == if 4 * i <= k < 4 * i + 4 then Noisy(add, old(r[..]), Noise(3, buf))[k] else old(r[k])
  {
    hide Triples, LoadAt, BitSum, Add16, Field3, Bounded;
    ghost var f := Noise(3, buf);
    var d := Triples(LoadAt(buf, 3 * i, 3));
    var j := 0;
    while j < 4
      invariant 0 <= j <= 4
      invariant forall k :: 0 <= k < 256 ==>
            r[k] == if 4 * i <= k < 4 * i + j then Noisy(add, old(r[..]), f)[k] else old(r[k])
    {
      TripleCount(buf, 3 * i, 2 * j);
      TripleCount(buf, 3 * i, 2 * j + 1);
      var k := 4 * i + j;
      assert f[k] == Field3(d, 2 * j) - Field3(d, 2 * j + 1);
      AddNoise(r, k, Field3(d, 2 * j), Field3(d, 2 * j + 1), add);
      j := j + 1;
    }
  }

  /** `cbd3`. */
  method Cbd3(r: array<int16>, buf: seq<byte>, add: bool)
    requires r.Length == 256 && |buf| == 192
    modifies r
    ensures r[..] == Noisy(add, old(r[..]), Noise(3, buf))
  {
    hide Noise, Add16;
    var i := 0;
    while i < 64
      invariant 0 <= i <= 64
      invariant forall k :: 0 <= k < 256 ==>
            r[k] == if k < 4 * i then Noisy(add, old(r[..]), Noise(3, buf))[k] else old(r[k])
    {
      Cbd3Word(r, buf, add, i);
      i := i + 1;
    }
  }
}
