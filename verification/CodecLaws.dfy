/**
 Bytes as numbers and strings as bits: what the references of packing, compression and sampling say without
 the definitions they are built from.
 */
module CodecLaws {
  import opened Bytes
  import opened Compress
  import opened Encode
  import opened Codec
  import opened Cbd
  import opened Sample

  // ----- bytes

  /** Bytes are the numbers below 256. */
  lemma ByteIsNumber(b: byte)
    ensures Value8(b) == b as int && Byte(b as int) == b
  {
    var s := BitsOf(b);
    assert Value(s, 2) == s[0] + 2 * (s[1] + 2 * (s[2] + 2 * (s[3] + 2 * (s[4] + 2 * (s[5] + 2 * (s[6] + 2 * s[7]))))))
    by { ValueOfEight(s); }
    SumOfBits(b);
    hide *;
    ByteOfValue(b);
  }

  lemma ValueOfEight(s: seq<nat>)
    requires |s| == 8
    ensures Value(s, 2) == s[0] + 2 * (s[1] + 2 * (s[2] + 2 * (s[3] + 2 * (s[4] + 2 * (s[5] + 2 * (s[6] + 2 * s[7]))))))
  {
    assert s[1..][1..] == s[2..] && s[2..][1..] == s[3..] && s[3..][1..] == s[4..] && s[4..][1..] == s[5..]
        && s[5..][1..] == s[6..] && s[6..][1..] == s[7..];
    assert Value(s[7..], 2) == s[7];
    assert Value(s[6..], 2) == s[6] + 2 * Value(s[7..], 2);
    assert Value(s[5..], 2) == s[5] + 2 * Value(s[6..], 2);
    assert Value(s[4..], 2) == s[4] + 2 * Value(s[5..], 2);
    assert Value(s[3..], 2) == s[3] + 2 * Value(s[4..], 2);
    assert Value(s[2..], 2) == s[2] + 2 * Value(s[3..], 2);
    assert Value(s[1..], 2) == s[1] + 2 * Value(s[2..], 2);
  }

  lemma SumOfBits(b: byte)
    ensures var s := BitsOf(b);
            b as int == s[0] + 2 * (s[1] + 2 * (s[2] + 2 * (s[3] + 2 * (s[4] + 2 * (s[5] + 2 * (s[6] + 2 * s[7]))))))
  {
  }

  // ----- bits of a string

  /** Bit k of a byte string, least significant bits first. */
  function RawBit(b: seq<byte>, k: nat): (x: nat)
    requires k < 8 * |b|
    ensures x <= 1
  {
    (b[k / 8] as int) / Power(2, k % 8) % 2
  }

  /** The number that n bits from bit o on spell, least significant bit first. */
  function Field(b: seq<byte>, o: nat, n: nat): (v: nat)
    requires o + n <= 8 * |b|
    decreases n
  {
    if n == 0 then 0 else RawBit(b, o) + 2 * Field(b, o + 1, n - 1)
  }

  lemma PowersOfTwo()
    ensures Power(2, 0) == 1 && Power(2, 1) == 2 && Power(2, 2) == 4 && Power(2, 3) == 8 && Power(2, 4) == 16
    ensures Power(2, 5) == 32 && Power(2, 6) == 64 && Power(2, 7) == 128 && Power(2, 8) == 256
  {
    assert Power(2, 4) == 16;
  }

  lemma DivDiv(n: nat, a: nat, b: nat)
    requires a > 0 && b > 0
    ensures a * b > 0 && n / (a * b) == n / a / b
  {
    var q, r := n / a / b, n / a % b;
    var c := a * r + n % a;
    assert n / a == b * q + r && n == a * (n / a) + n % a;
    assert n == a * b * q + c;
    MulLess(a, r, b);
    DivModUnique(c, a * b, q);
  }

  /** Digit i of a number. */
  lemma {:induction false} DigitAt(s: seq<nat>, base: nat, i: nat)
    requires Below(s, base) && base > 0 && i < |s|
    ensures Value(s, base) / Power(base, i) % base == s[i]
    decreases i
  {
    var v := Value(s[1..], base);
    DivModUnique(s[0], base, v);
    assert Value(s, base) == s[0] + base * v;
    if i > 0 {
      DigitAt(s[1..], base, i - 1);
      DivDiv(Value(s, base), base, Power(base, i - 1));
    }
  }

  /** Dividing by 2^r and taking the last bit only sees the low 8 bits. */
  lemma LowByteBit(v: nat, r: nat)
    requires r < 8
    ensures v / Power(2, r) % 2 == v % 256 / Power(2, r) % 2
  {
    PowersOfTwo();
    PowerAdd(2, r, 8 - r);
    hide Power;
    PowerAdd(2, 7 - r, 1);
    LowBits(v, Power(2, r), Power(2, 7 - r));
  }

  lemma LowBits(v: nat, p: nat, m: nat)
    requires p > 0 && p * (2 * m) == 256
    ensures v / p % 2 == v % 256 / p % 2
  {
    var l, q := v % 256, v / 256;
    Scaled(p, m, q, l / p, l % p);
    DivModUnique(l % p, p, l / p + 2 * (m * q));
    assert l == p * (l / p) + l % p;
    hide *;
    assert v == 256 * q + l;
    EvenShift(l / p, m * q);
  }

  lemma Scaled(p: nat, m: nat, q: nat, a: nat, c: nat)
    requires p * (2 * m) == 256
    ensures 256 * q + (p * a + c) == c + p * (a + 2 * (m * q))
  {
  }

  lemma EvenShift(a: nat, b: nat)
    ensures (a + 2 * b) % 2 == a % 2
  {
  }

  /** Bit k of a string is bit k of its number. */
  lemma BitOfNumber(b: seq<byte>, k: nat)
    requires k < 8 * |b|
    ensures RawBit(b, k) == Value(FromBytes(b), 256) / Power(2, k) % 2
  {
    var q, r := k / 8, k % 8;
    var v := Value(FromBytes(b), 256);
    DigitAt(FromBytes(b), 256, q);
    ByteIsNumber(b[q]);
    hide Value8, Byte, Value;
    assert FromBytes(b)[q] == b[q] as int;
    BitOfDigit(v, b[q] as int, q, r, k);
  }

  lemma BitOfDigit(v: nat, x: nat, q: nat, r: nat, k: nat)
    requires k == 8 * q + r && r < 8 && v / Power(256, q) % 256 == x
    ensures v / Power(2, k) % 2 == x / Power(2, r) % 2
  {
    var p, t := Power(2, 8 * q), Power(2, r);
    assert p == Power(256, q) by {
      PowersOfTwo();
      PowerOfPower(8, q);
    }
    assert Power(2, k) == p * t by { PowerAdd(2, 8 * q, r); }
    hide *;
    DigitBit(v, p, t, r);
  }

  lemma DigitBit(v: nat, p: nat, t: nat, r: nat)
    requires p > 0 && r < 8 && t == Power(2, r)
    ensures v / (p * t) % 2 == v / p % 256 / t % 2
  {
    DivDiv(v, p, t);
    LowByteBit(v / p, r);
  }

  lemma {:induction false} PowerOfPower(d: nat, i: nat)
    ensures Power(Power(2, d), i) == Power(2, d * i)
    decreases i
  {
    if i > 0 {
      PowerOfPower(d, i - 1);
      PowerAdd(2, d, d * (i - 1));
      assert d + d * (i - 1) == d * i;
    }
  }

  /** A field of a string is a field of its number. */
  lemma {:induction false} FieldOfNumber(b: seq<byte>, o: nat, n: nat)
    requires o + n <= 8 * |b|
    ensures Field(b, o, n) == Value(FromBytes(b), 256) / Power(2, o) % Power(2, n)
    decreases n
  {
    PowersOfTwo();
    if n > 0 {
      assert Field(b, o, n) == RawBit(b, o) + 2 * Field(b, o + 1, n - 1);
      hide *;
      BitOfNumber(b, o);
      FieldOfNumber(b, o + 1, n - 1);
      NextField(Value(FromBytes(b), 256), o, n);
    }
  }

  lemma NextField(v: nat, o: nat, n: nat)
    requires n > 0
    ensures v / Power(2, o) % Power(2, n) == v / Power(2, o) % 2 + 2 * (v / Power(2, o + 1) % Power(2, n - 1))
  {
    PowersOfTwo();
    PowerAdd(2, o, 1);
    assert Power(2, n) == 2 * Power(2, n - 1);
    hide Power;
    DivDiv(v, Power(2, o), 2);
    ModSplit(v / Power(2, o), Power(2, n - 1));
  }

  lemma ModSplit(x: nat, p: nat)
    requires p > 0
    ensures x % (2 * p) == x % 2 + 2 * (x / 2 % p)
  {
    var q, r := x / 2 / p, x / 2 % p;
    assert x / 2 == p * q + r;
    assert x == (2 * p) * q + (x % 2 + 2 * r);
    DivModUnique(x % 2 + 2 * r, 2 * p, q);
  }

  lemma BaseIsPower(d: nat)
    requires IsPacking(d)
    ensures Base(d) == Power(2, d)
  {
    PowersOfTwo();
    PowerAdd(2, 8, 2);
    PowerAdd(2, 8, 3);
    PowerAdd(2, 8, 4);
    hide Power;
  }

  // ----- packing

  /** The encoding writes coefficient i into the d bits from bit d * i on. */
  lemma EncodedField(d: nat, t: seq<nat>, n: nat, i: nat)
    requires IsPacking(d) && |t| == n * GroupSize(d) && Below(t, Base(d)) && i < |t|
    ensures d * i + d <= 8 * |ByteEncode(d, t, n)| && Field(ByteEncode(d, t, n), d * i, d) == t[i]
  {
    var b := ByteEncode(d, t, n);
    FieldFits(d, n, i);
    EncodeSpellsNumber(d, t, n);
    FieldOfNumber(b, d * i, d);
    BaseIsPower(d);
    PowerOfPower(d, i);
    hide *;
    DigitAt(t, Base(d), i);
  }

  lemma FieldFits(d: nat, n: nat, i: nat)
    requires IsPacking(d) && i < n * GroupSize(d)
    ensures d * i + d <= 8 * (n * GroupBytes(d))
  {
  }

  /** The decoding reads it there. */
  lemma DecodedField(d: nat, b: seq<byte>, n: nat, i: nat)
    requires IsPacking(d) && |b| == n * GroupBytes(d) && i < n * GroupSize(d)
    ensures d * i + d <= 8 * |b| && ByteDecode(d, b, n)[i] == Field(b, d * i, d)
  {
    hide ByteDecode, ByteEncode, GroupSize, GroupBytes, Field, Base;
    EncodeDecode(d, b, n);
    EncodedField(d, ByteDecode(d, b, n), n, i);
  }

  lemma FieldLess(b: seq<byte>, o: nat, n: nat)
    requires o + n <= 8 * |b|
    ensures Field(b, o, n) < Power(2, n)
  {
    FieldOfNumber(b, o, n);
  }

  // ----- compression

  /** Compression takes the nearest level; there are no ties, because 3329 is odd. */
  lemma CompressIsNearest(d: nat, u: int, y: int)
    requires IsWidth(d) && 0 <= u < 3329 && -3329 < 2 * (Power(2, d) * u - 3329 * y) < 3329
    ensures CompressTo(d, u) == y % Power(2, d)
  {
    LevelsArePowers(d);
    var z := Quotient(d, u);
    hide *;
    Nearest(Levels(d), u, y, z);
  }

  lemma Nearest(m: int, u: int, y: int, z: int)
    requires -3329 < 2 * (m * u - 3329 * y) < 3329 && 2 * 3329 * z <= 2 * m * u + 3329 < 2 * 3329 * (z + 1)
    ensures y == z
  {
    var x := m * u;
    assert 2 * m * u == 2 * x;
  }

  lemma LevelsArePowers(d: nat)
    requires IsWidth(d)
    ensures Levels(d) == Power(2, d) && Levels(d) == Base(d)
  {
    BaseIsPower(d);
    hide Power;
  }

  /** Decompression takes the nearest coefficient, the greater one of two. */
  lemma DecompressIsNearest(d: nat, y: nat, v: int)
    requires IsWidth(d) && y < Power(2, d)
    ensures y < Levels(d)
    ensures v == DecompressFrom(d, y) <==> -(Power(2, d) as int) < 2 * (Power(2, d) * v - 3329 * y) <= Power(2, d)
  {
    LevelsArePowers(d);
    DecompressQuotient(d, y);
    hide DecompressFrom, Power;
    NearestBelow(Levels(d), DecompressFrom(d, y), v, y);
  }

  lemma NearestBelow(m: int, u: int, v: int, y: int)
    requires m > 0 && 2 * (m * u) <= 2 * 3329 * y + m < 2 * (m * u) + 2 * m
    ensures v == u <==> -m < 2 * (m * v - 3329 * y) <= m
  {
    if v < u { Spaced(m, v, u); } else if v > u { Spaced(m, u, v); }
  }

  /** The error bounds of the five widths. */
  lemma ErrorBounds()
    ensures MaxError(1) == 832 && MaxError(4) == 104 && MaxError(5) == 52 && MaxError(10) == 2 && MaxError(11) == 1
  {
  }

  // ----- polynomials

  /** Bits d * i to d * i + d - 1 of a compressed polynomial are the level of coefficient i. */
  lemma PackedLevel(d: nat, a: seq<int>, i: nat)
    requires IsWidth(d) && |a| == 256 && i < 256
    ensures d * i + d <= 8 * (32 * d) && Field(PolyToCipher(d, a), d * i, d) == CompressTo(d, a[i] % 3329)
  {
    hide ByteEncode, CompressTo, Field, Base;
    EncodedField(d, CompressAll(d, a), Groups(d), i);
  }

  /** Coefficient i is decompressed from the same bits. */
  lemma UnpackedLevel(d: nat, b: seq<byte>, i: nat)
    requires IsWidth(d) && |b| == 32 * d && i < 256
    ensures d * i + d <= 8 * |b| && Field(b, d * i, d) < Levels(d)
    ensures CipherToPoly(d, b)[i] == DecompressFrom(d, Field(b, d * i, d))
  {
    hide ByteDecode, ByteEncode, DecompressFrom, Field, Base, Levels, Power;
    DecodedField(d, b, Groups(d), i);
    FieldLess(b, d * i, d);
    LevelsArePowers(d);
    EncodeDecode(d, b, Groups(d));
  }

  /** A message bit becomes 0 or 1665. */
  lemma MessageCoefficient(m: seq<byte>, i: nat)
    requires |m| == 32 && i < 256
    ensures CipherToPoly(1, m)[i] == 1665 * RawBit(m, i)
  {
    hide CipherToPoly, RawBit;
    UnpackedLevel(1, m, i);
    assert Field(m, i, 1) == RawBit(m, i) + 2 * Field(m, i + 1, 0);
  }

  /** Keys hold twelve bits for each coefficient, which is read as it is. */
  lemma KeyCoefficient(b: seq<byte>, i: nat)
    requires |b| == 384 && i < 256
    ensures BytesToPoly(b)[i] == Field(b, 12 * i, 12)
  {
    hide ByteDecode, Field;
    DecodedField(12, b, 128, i);
  }

  /** Writing adds 3329 to negative coefficients. */
  lemma WrittenCoefficient(a: seq<int>, i: nat)
    requires |a| == 256 && Positivable(a) && i < 256
    ensures Field(PolyToBytes(a), 12 * i, 12) == if a[i] < 0 then a[i] + 3329 else a[i]
  {
    hide ByteEncode, Field;
    EncodedField(12, Positive(a), 128, i);
  }

  // ----- noise

  lemma StreamBitIsRaw(b: seq<byte>, k: nat)
    requires k < 8 * |b|
    ensures StreamBit(b, k) == RawBit(b, k)
  {
    BitIs(b[k / 8], k % 8);
  }

  lemma BitIs(b: byte, j: nat)
    requires j < 8
    ensures (if BitsOf(b)[j] == 1 then 1 else 0) == (b as int) / Power(2, j) % 2
  {
    var s := BitsOf(b);
    ByteOfItsBits(b);
    ByteIsNumber(b);
    assert Value(s, 2) == b as int;
    hide *;
    DigitAt(s, 2, j);
  }

  /** Four buffer bits give a coefficient for eta 2, six for eta 3: the first half counts up, the second down. */
  lemma NoiseFromBits(b: seq<byte>, i: nat)
    requires i < 256
    ensures |b| == 128 ==>
      Noise(2, b)[i] == RawBit(b, 4 * i) + RawBit(b, 4 * i + 1) - RawBit(b, 4 * i + 2) - RawBit(b, 4 * i + 3)
    ensures |b| == 192 ==>
      Noise(3, b)[i] == RawBit(b, 6 * i) + RawBit(b, 6 * i + 1) + RawBit(b, 6 * i + 2)
        - RawBit(b, 6 * i + 3) - RawBit(b, 6 * i + 4) - RawBit(b, 6 * i + 5)
  {
    hide RawBit, StreamBit, BitSum;
    if |b| == 128 {
      BitSum2(b, 4 * i);
      BitSum2(b, 4 * i + 2);
      forall k | 4 * i <= k < 4 * i + 4 ensures StreamBit(b, k) == RawBit(b, k) { StreamBitIsRaw(b, k); }
    }
    if |b| == 192 {
      BitSum3(b, 6 * i);
      BitSum3(b, 6 * i + 3);
      forall k | 6 * i <= k < 6 * i + 6 ensures StreamBit(b, k) == RawBit(b, k) { StreamBitIsRaw(b, k); }
    }
  }

  // ----- rejection sampling

  /** Three bytes hold two candidates of twelve bits, the first one in the low bits. */
  lemma CandidatePair(s: Stream, t: nat)
    ensures Candidate(s, 2 * t) < 4096 && Candidate(s, 2 * t + 1) < 4096
    ensures Candidate(s, 2 * t) + 4096 * Candidate(s, 2 * t + 1)
         == (s(3 * t) as int) + 256 * (s(3 * t + 1) as int) + 65536 * (s(3 * t + 2) as int)
  {
    var a, b, c := s(3 * t), s(3 * t + 1), s(3 * t + 2);
    CandidatesAt(s, t);
    ByteIsNumber(a);
    ByteIsNumber(b);
    ByteIsNumber(c);
    hide *;
    TwelveBits(a as int, b as int, c as int);
  }

  lemma CandidatesAt(s: Stream, t: nat)
    ensures Candidate(s, 2 * t) == Value8(s(3 * t)) + 256 * (Value8(s(3 * t + 1)) % 16)
    ensures Candidate(s, 2 * t + 1) == Value8(s(3 * t + 1)) / 16 + 16 * Value8(s(3 * t + 2))
  {
    assert 2 * t / 2 == t && (2 * t + 1) / 2 == t;
    hide Value8;
  }

  lemma TwelveBits(a: nat, b: nat, c: nat)
    requires a < 256 && b < 256 && c < 256
    ensures a + 256 * (b % 16) < 4096 && b / 16 + 16 * c < 4096
    ensures a + 256 * (b % 16) + 4096 * (b / 16 + 16 * c) == a + 256 * b + 65536 * c
  {
  }

  /** The acceptable ones among the first n candidates. */
  ghost function Acceptable(s: Stream, n: nat): (a: set<nat>) {
    set m: nat | m < n && Candidate(s, m) < 3329
  }

  lemma AcceptableNext(s: Stream, n: nat)
    ensures Acceptable(s, n + 1) == if Candidate(s, n) < 3329 then Acceptable(s, n) + {n} else Acceptable(s, n)
  {
  }

  lemma {:induction false} AcceptedCount(s: Stream, n: nat)
    ensures |Accepted(s, n)| == |Acceptable(s, n)|
  {
    hide Candidate;
    if n == 0 {
      assert Acceptable(s, 0) == {};
    } else {
      AcceptedCount(s, n - 1);
      AcceptableNext(s, n - 1);
    }
  }

  /** An acceptable candidate stands behind as many coefficients as there are acceptable ones before it. */
  lemma CandidatePlace(s: Stream, m: nat)
    requires Sampleable(s) && Candidate(s, m) < 3329 && |Acceptable(s, m)| < 256
    ensures SampleNtt(s)[|Acceptable(s, m)|] == Candidate(s, m)
  {
    hide Candidate, SampleNtt;
    AcceptedCount(s, m);
    assert Accepted(s, m + 1) == Accepted(s, m) + [Candidate(s, m)];
    SampleIsPrefix(s, m + 1, |Acceptable(s, m)|);
  }

  /** A stream can be sampled from exactly when some prefix holds 256 acceptable candidates. */
  lemma SampleableIs(s: Stream)
    ensures Sampleable(s) <==> exists n: nat :: |Acceptable(s, n)| >= 256
  {
    hide Accepted, Acceptable;
    forall n: nat ensures |Accepted(s, n)| == |Acceptable(s, n)| { AcceptedCount(s, n); }
  }
}
