/** The shifts, masks and ors with which mlkem/poly.c regroups coefficients into bytes and back. */
module Packing {
  import opened Bytes
  import opened Encode
  import opened Zetas  // Pow2

  /** Bitwise or of a field below m with a field shifted past it adds them up. */
  lemma OrField(x: nat, y: nat, m: nat)
    requires m in {2, 4, 8, 16, 32, 64, 128, 256, 512, 1024} && x < m
    ensures Or(x, y * m) == x + y * m
  {
    hide Or;
    if m == 2 { Fields(x, y, 1); } else if m == 4 { Fields(x, y, 2); } else if m == 8 { Fields(x, y, 3); }
    else if m == 16 { Fields(x, y, 4); } else if m == 32 { Fields(x, y, 5); } else if m == 64 { Fields(x, y, 6); }
    else if m == 128 { Fields(x, y, 7); } else if m == 256 { Fields(x, y, 8); } else if m == 512 { Fields(x, y, 9); }
    else { Fields(x, y, 10); }
  }

  lemma Fields(x: nat, y: nat, n: nat)
    requires x < Pow2(n)
    ensures Or(x, y * Pow2(n)) == x + y * Pow2(n)
  {
    hide Or, Pow2;
    MultipleMod(y, Pow2(n));
    OrDisjoint(x, y * Pow2(n), n);
  }

  // ----- packing (poly_compress, poly_packcompress, poly_tobytes)

  function Pack(d: nat, t: seq<nat>): (b: seq<nat>)
    requires IsPacking(d) && d > 1 && |t| == GroupSize(d)
    ensures |b| == GroupBytes(d)
  {
    if d == 4 then
      [Or(t[0], t[1] * 16), Or(t[2], t[3] * 16), Or(t[4], t[5] * 16), Or(t[6], t[7] * 16)]
    else if d == 5 then
      [Or(t[0], t[1] * 32),
       Or(Or(t[1] / 8, t[2] * 4), t[3] * 128),
       Or(t[3] / 2, t[4] * 16),
       Or(Or(t[4] / 16, t[5] * 2), t[6] * 64),
       Or(t[6] / 4, t[7] * 8)]
    else if d == 10 then
      [t[0] % 256,
       Or(t[0] / 256, t[1] % 64 * 4),
       Or(t[1] / 64, t[2] % 16 * 16),
       Or(t[2] / 16, t[3] % 4 * 64),
       t[3] / 4 % 256]
    else if d == 11 then
      [t[0] % 256,
       Or(t[0] / 256, t[1] % 32 * 8),
       Or(t[1] / 32, t[2] % 4 * 64),
       t[2] / 4 % 256,
       Or(t[2] / 1024, t[3] % 128 * 2),
       Or(t[3] / 128, t[4] % 16 * 16),
       Or(t[4] / 16, t[5] % 2 * 128),
       t[5] / 2 % 256,
       Or(t[5] / 512, t[6] % 64 * 4),
       Or(t[6] / 64, t[7] % 8 * 32),
       t[7] / 8]
    else
      [t[0], Or(t[0] / 256, t[1] * 16), t[1] / 16]
  }

  // ----- unpacking (poly_decompress, poly_unpackdecompress, poly_frombytes)

  function Unpack(d: nat, b: seq<nat>): (t: seq<nat>)
    requires IsPacking(d) && d > 1 && |b| == GroupBytes(d)
    ensures |t| == GroupSize(d)
  {
    if d == 4 then
      [b[0] % 16, b[0] / 16, b[1] % 16, b[1] / 16, b[2] % 16, b[2] / 16, b[3] % 16, b[3] / 16]
    else if d == 5 then
      [b[0] % 32,
       Or(b[0] / 32, b[1] * 8) % 32,
       b[1] / 4 % 32,
       Or(b[1] / 128, b[2] * 2) % 32,
       Or(b[2] / 16, b[3] * 16) % 32,
       b[3] / 2 % 32,
       Or(b[3] / 64, b[4] * 4) % 32,
       b[4] / 8 % 32]
    else if d == 10 then
      [Or(b[0], b[1] % 4 * 256),
       Or(b[1] / 4, b[2] % 16 * 64),
       Or(b[2] / 16, b[3] % 64 * 16),
       Or(b[3] / 64, b[4] % 256 * 4)]
    else if d == 11 then
      [Or(b[0], b[1] % 8 * 256),
       Or(b[1] / 8, b[2] % 64 * 32),
       Or(Or(b[2] / 64, b[3] % 256 * 4), b[4] % 2 * 1024),
       Or(b[4] / 2, b[5] % 16 * 128),
       Or(b[5] / 16, b[6] % 128 * 16),
       Or(Or(b[6] / 128, b[7] % 256 * 2), b[8] % 4 * 512),
       Or(b[8] / 4, b[9] % 32 * 64),
       Or(b[9] / 32, b[10] % 256 * 8)]
    else
      [Or(b[0], b[1] * 256) % 4096, Or(b[1] / 16, b[2] * 16) % 4096]
  }

  lemma Value1(s: seq<nat>, base: nat)
    requires |s| >= 2
    ensures Value(s, base) == s[0] + base * (s[1] + base * Value(s[2..], base))
  {
    assert s[1..][1..] == s[2..];
  }

  lemma Value2(s: seq<nat>, base: nat)
    requires |s| == 2
    ensures Value(s, base) == s[0] + base * s[1]
  {
    Value1(s, base);
    assert Value(s[2..], base) == 0;
  }

  lemma Value3(s: seq<nat>, base: nat)
    requires |s| == 3
    ensures Value(s, base) == s[0] + base * (s[1] + base * s[2])
  {
    assert Value(s, base) == s[0] + base * Value(s[1..], base);
    Value2(s[1..], base);
  }

  lemma Value4(s: seq<nat>, base: nat)
    requires |s| == 4
    ensures Value(s, base) == s[0] + base * (s[1] + base * (s[2] + base * s[3]))
  {
    Value1(s, base);
    Value2(s[2..], base);
  }

  lemma Value5(s: seq<nat>, base: nat)
    requires |s| == 5
    ensures Value(s, base) == s[0] + base * (s[1] + base * (s[2] + base * (s[3] + base * s[4])))
  {
    Value1(s, base);
    Value3(s[2..], base);
  }

  lemma Value8Digits(s: seq<nat>, base: nat)
    requires |s| == 8
    ensures Value(s, base) == s[0] + base * (s[1] + base * (s[2]
        + base * (s[3] + base * (s[4] + base * (s[5] + base * (s[6] + base * s[7]))))))
  {
    Value1(s, base);
    Value1(s[2..], base);
    assert s[2..][2..] == s[4..];
    Value4(s[4..], base);
  }

  lemma Value11(s: seq<nat>, base: nat)
    requires |s| == 11
    ensures Value(s, base) == s[0] + base * (s[1] + base * (s[2]
        + base * (s[3] + base * (s[4] + base * (s[5] + base * (s[6]
        + base * (s[7] + base * (s[8] + base * (s[9] + base * s[10])))))))))
  {
    Value1(s, base);
    assert Value(s[2..], base) == s[2..][0] + base * Value(s[2..][1..], base);
    assert s[2..][1..] == s[3..];
    Value8Digits(s[3..], base);
  }

  // ----- the same group of bits as one number

  /** Conversion of every element to `uint8_t`. */
  function Truncated(s: seq<nat>): (r: seq<nat>)
    ensures |r| == |s| && Below(r, 256)
  {
    seq(|s|, i requires 0 <= i < |s| => s[i] % 256)
  }

  /** A shifted field, cut off at the top. */
  lemma LowField(x: nat, y: nat, m: nat, n: nat, k: nat)
    requires m > 0 && n > 0 && k == m * n && x < m
    ensures (x + y * m) % k == x + y % n * m
  {
    var q, r := y / n, y % n;
    assert y == q * n + r && y * m == k * q + r * m by {
      assert (q * n + r) * m == m * n * q + r * m;
    }
    MulLess(m, r, n);
    assert m * r == r * m;
    DivModUnique(x + r * m, k, q);
  }

  lemma Halves(x: nat)
    ensures x / 1024 == x / 4 / 256 && x / 512 == x / 2 / 256 && x / 128 == x / 4 / 32 && x / 64 == x / 2 / 32
  {
  }

  lemma Regroup4(t0: nat, t1: nat, t2: nat, t3: nat, t4: nat, t5: nat, t6: nat, t7: nat,
                  b0: nat, b1: nat, b2: nat, b3: nat)
    requires b0 == t0 + t1 * 16 && b1 == t2 + t3 * 16 && b2 == t4 + t5 * 16 && b3 == t6 + t7 * 16
    ensures b0 + 256 * (b1 + 256 * (b2 + 256 * b3)) == t0 + 16 * (t1
        + 16 * (t2 + 16 * (t3 + 16 * (t4 + 16 * (t5 + 16 * (t6 + 16 * t7))))))
  {
  }

  lemma PackFields4(t: seq<nat>)
    requires |t| == 8 && Below(t, 16)
    ensures Truncated(Pack(4, t)) == [t[0] + t[1] * 16, t[2] + t[3] * 16, t[4] + t[5] * 16, t[6] + t[7] * 16]
  {
    hide Or;
    OrField(t[0], t[1], 16); OrField(t[2], t[3], 16); OrField(t[4], t[5], 16); OrField(t[6], t[7], 16);
  }

  lemma Pack4(t: seq<nat>)
    requires |t| == 8 && Below(t, 16)
    ensures Value(Truncated(Pack(4, t)), 256) == Value(t, 16)
  {
    hide Or, Value, Pack, Truncated, Below;
    PackFields4(t);
    var b := Truncated(Pack(4, t));
    Regroup4(t[0], t[1], t[2], t[3], t[4], t[5], t[6], t[7], b[0], b[1], b[2], b[3]);
    Value4(b, 256);
    Value8Digits(t, 16);
  }

  lemma Spread4(t0: nat, t1: nat, t2: nat, t3: nat, t4: nat, t5: nat, t6: nat, t7: nat,
                 b0: nat, b1: nat, b2: nat, b3: nat)
    requires t0 == b0 % 16 && t1 == b0 / 16 && t2 == b1 % 16 && t3 == b1 / 16 && t4 == b2 % 16 && t5 == b2 / 16 &&
             t6 == b3 % 16 && t7 == b3 / 16
    ensures t0 + 16 * (t1 + 16 * (t2 + 16 * (t3 + 16 * (t4 + 16 * (t5 + 16 * (t6 + 16 * t7))))))
        == b0 + 256 * (b1 + 256 * (b2 + 256 * b3))
  {
  }

  lemma UnpackFields4(b: seq<nat>)
    requires |b| == 4 && Below(b, 256)
    ensures Unpack(4, b) == [b[0] % 16, b[0] / 16, b[1] % 16, b[1] / 16, b[2] % 16, b[2] / 16, b[3] % 16, b[3] / 16]
    ensures Below(Unpack(4, b), 16)
  {
    hide Or;
  }

  lemma Unpack4(b: seq<nat>)
    requires |b| == 4 && Below(b, 256)
    ensures Below(Unpack(4, b), 16) && Value(Unpack(4, b), 16) == Value(b, 256)
  {
    hide Or, Value, Unpack, Below;
    UnpackFields4(b);
    var t := Unpack(4, b);
    Spread4(t[0], t[1], t[2], t[3], t[4], t[5], t[6], t[7], b[0], b[1], b[2], b[3]);
    Value8Digits(t, 16);
    Value4(b, 256);
  }

  lemma Regroup5(t0: nat, t1: nat, t2: nat, t3: nat, t4: nat, t5: nat, t6: nat, t7: nat,
                  b0: nat, b1: nat, b2: nat, b3: nat, b4: nat)
    requires b0 == t0 + t1 % 8 * 32 && b1 == t1 / 8 + t2 * 4 + t3 % 2 * 128 && b2 == t3 / 2 + t4 % 16 * 16 &&
             b3 == t4 / 16 + t5 * 2 + t6 % 4 * 64 && b4 == t6 / 4 + t7 * 8
    ensures b0 + 256 * (b1 + 256 * (b2 + 256 * (b3 + 256 * b4)))
        == t0 + 32 * (t1 + 32 * (t2 + 32 * (t3 + 32 * (t4 + 32 * (t5 + 32 * (t6 + 32 * t7))))))
  {
  }

  lemma PackFields5(t: seq<nat>)
    requires |t| == 8 && Below(t, 32)
    ensures Truncated(Pack(5, t)) == [t[0] + t[1] % 8 * 32, t[1] / 8 + t[2] * 4 + t[3] % 2 * 128,
        t[3] / 2 + t[4] % 16 * 16,
                                        t[4] / 16 + t[5] * 2 + t[6] % 4 * 64, t[6] / 4 + t[7] * 8]
  {
    hide Or;
    Pack5Is(t);
    OrField(t[1] / 8, t[2], 4);
    OrField(t[4] / 16, t[5], 2);
    CutByte(t[0], t[1], 32, 8); CutByte(t[1] / 8 + t[2] * 4, t[3], 128, 2); CutByte(t[3] / 2, t[4], 16, 16);
    CutByte(t[4] / 16 + t[5] * 2, t[6], 64, 4); CutByte(t[6] / 4, t[7], 8, 32);
    assert t[7] % 32 == t[7];
    hide Truncated, Pack;
  }

  lemma Pack5Is(t: seq<nat>)
    requires |t| == 8
    ensures Truncated(Pack(5, t)) == [Or(t[0], t[1] * 32) % 256, Or(Or(t[1] / 8, t[2] * 4), t[3] * 128) % 256,
        Or(t[3] / 2, t[4] * 16) % 256,
                                      Or(Or(t[4] / 16, t[5] * 2), t[6] * 64) % 256, Or(t[6] / 4, t[7] * 8) % 256]
  {
    hide Or;
  }

  /** Two fields of which a byte keeps the lower part. */
  lemma CutByte(x: nat, y: nat, m: nat, n: nat)
    requires m in {2, 4, 8, 16, 32, 64, 128} && n > 0 && m * n == 256 && x < m
    ensures Or(x, y * m) % 256 == x + y % n * m
  {
    hide Or;
    OrField(x, y, m);
    LowField(x, y, m, n, 256);
  }

  lemma Pack5(t: seq<nat>)
    requires |t| == 8 && Below(t, 32)
    ensures Value(Truncated(Pack(5, t)), 256) == Value(t, 32)
  {
    hide Or, Value, Pack, Truncated, Below;
    PackFields5(t);
    var b := Truncated(Pack(5, t));
    Regroup5(t[0], t[1], t[2], t[3], t[4], t[5], t[6], t[7], b[0], b[1], b[2], b[3], b[4]);
    Value5(b, 256);
    Value8Digits(t, 32);
  }

  lemma Spread5(t0: nat, t1: nat, t2: nat, t3: nat, t4: nat, t5: nat, t6: nat, t7: nat,
                 b0: nat, b1: nat, b2: nat, b3: nat, b4: nat)
    requires t0 == b0 % 32 && t1 == b0 / 32 + b1 % 4 * 8 && t2 == b1 / 4 % 32 && t3 == b1 / 4 / 32 + b2 % 16 * 2 &&
             t4 == b2 / 16 + b3 % 2 * 16 && t5 == b3 / 2 % 32 && t6 == b3 / 2 / 32 + b4 % 8 * 4 && t7 == b4 / 8
    ensures t0 + 32 * (t1 + 32 * (t2 + 32 * (t3 + 32 * (t4 + 32 * (t5 + 32 * (t6 + 32 * t7))))))
        == b0 + 256 * (b1 + 256 * (b2 + 256 * (b3 + 256 * b4)))
  {
  }

  lemma UnpackFields5(b: seq<nat>)
    requires |b| == 5 && Below(b, 256)
    ensures Unpack(5, b) == [b[0] % 32, b[0] / 32 + b[1] % 4 * 8, b[1] / 4 % 32, b[1] / 4 / 32 + b[2] % 16 * 2,
        b[2] / 16 + b[3] % 2 * 16,
                                b[3] / 2 % 32, b[3] / 2 / 32 + b[4] % 8 * 4, b[4] / 8]
    ensures Below(Unpack(5, b), 32)
  {
    Unpack5Is(b);
    Small5(b);
    hide *;
    CutField(b[0] / 32, b[1], 8, 4); CutField(b[1] / 128, b[2], 2, 16); CutField(b[2] / 16, b[3], 16, 2);
    CutField(b[3] / 64, b[4], 4, 8);
    Halves(b[1]);
    Halves(b[3]);
    Below32([b[0] % 32, b[0] / 32 + b[1] % 4 * 8, b[1] / 4 % 32, b[1] / 4 / 32 + b[2] % 16 * 2,
        b[2] / 16 + b[3] % 2 * 16,
             b[3] / 2 % 32, b[3] / 2 / 32 + b[4] % 8 * 4, b[4] / 8]);
  }

  lemma Below32(s: seq<nat>)
    requires |s| == 8 && s[0] < 32 && s[1] < 32 && s[2] < 32 && s[3] < 32 && s[4] < 32 && s[5] < 32 && s[6] < 32
        && s[7] < 32
    ensures Below(s, 32)
  {
  }

  lemma Small5(b: seq<nat>)
    requires |b| == 5 && Below(b, 256)
    ensures b[1] < 256 && b[3] < 256 && b[4] / 8 < 32
    ensures b[0] / 32 < 8 && b[1] / 128 < 2 && b[2] / 16 < 16 && b[3] / 64 < 4 && b[4] / 8 % 32 == b[4] / 8
  {
  }

  lemma Unpack5Is(b: seq<nat>)
    requires |b| == 5
    ensures Unpack(5, b) == [b[0] % 32, Or(b[0] / 32, b[1] * 8) % 32, b[1] / 4 % 32, Or(b[1] / 128, b[2] * 2) % 32,
                             Or(b[2] / 16, b[3] * 16) % 32, b[3] / 2 % 32, Or(b[3] / 64, b[4] * 4) % 32, b[4] / 8 % 32]
  {
    hide Or;
  }

  /** Two fields of five bits together. */
  lemma CutField(x: nat, y: nat, m: nat, n: nat)
    requires m in {2, 4, 8, 16} && n > 0 && m * n == 32 && x < m
    ensures Or(x, y * m) % 32 == x + y % n * m < 32
  {
    hide Or;
    OrField(x, y, m);
    LowField(x, y, m, n, 32);
  }

  lemma Unpack5(b: seq<nat>)
    requires |b| == 5 && Below(b, 256)
    ensures Below(Unpack(5, b), 32) && Value(Unpack(5, b), 32) == Value(b, 256)
  {
    hide Or, Value, Unpack, Below;
    UnpackFields5(b);
    var t := Unpack(5, b);
    Spread5(t[0], t[1], t[2], t[3], t[4], t[5], t[6], t[7], b[0], b[1], b[2], b[3], b[4]);
    Value8Digits(t, 32);
    Value5(b, 256);
  }

  lemma Regroup10(t0: nat, t1: nat, t2: nat, t3: nat,
                  b0: nat, b1: nat, b2: nat, b3: nat, b4: nat)
    requires b0 == t0 % 256 && b1 == t0 / 256 + t1 % 64 * 4 && b2 == t1 / 64 + t2 % 16 * 16 &&
             b3 == t2 / 16 + t3 % 4 * 64 && b4 == t3 / 4
    ensures b0 + 256 * (b1 + 256 * (b2 + 256 * (b3 + 256 * b4))) == t0 + 1024 * (t1 + 1024 * (t2 + 1024 * t3))
  {
  }

  lemma PackFields10(t: seq<nat>)
    requires |t| == 4 && Below(t, 1024)
    ensures Truncated(Pack(10, t)) == [t[0] % 256, t[0] / 256 + t[1] % 64 * 4, t[1] / 64 + t[2] % 16 * 16,
        t[2] / 16 + t[3] % 4 * 64, t[3] / 4]
  {
    hide Or;
    ByteFields(t[0] / 256, t[1], 4, 64); ByteFields(t[1] / 64, t[2], 16, 16); ByteFields(t[2] / 16, t[3], 64, 4);
    Pack10Is(t);
    hide *;
    TwiceMod(t[0]); TwiceMod(t[3] / 4);
  }

  lemma Pack10Is(t: seq<nat>)
    requires |t| == 4 && Below(t, 1024)
    ensures t[3] / 4 < 256
    ensures Truncated(Pack(10, t)) == [t[0] % 256 % 256, Or(t[0] / 256, t[1] % 64 * 4) % 256,
        Or(t[1] / 64, t[2] % 16 * 16) % 256,
                                       Or(t[2] / 16, t[3] % 4 * 64) % 256, t[3] / 4 % 256 % 256]
  {
    hide Or;
  }

  lemma Pack10(t: seq<nat>)
    requires |t| == 4 && Below(t, 1024)
    ensures Value(Truncated(Pack(10, t)), 256) == Value(t, 1024)
  {
    hide Or, Value, Pack, Truncated, Below;
    PackFields10(t);
    var b := Truncated(Pack(10, t));
    Regroup10(t[0], t[1], t[2], t[3], b[0], b[1], b[2], b[3], b[4]);
    Value5(b, 256);
    Value4(t, 1024);
  }

  lemma Spread10(t0: nat, t1: nat, t2: nat, t3: nat,
                 b0: nat, b1: nat, b2: nat, b3: nat, b4: nat)
    requires t0 == b0 + b1 % 4 * 256 && t1 == b1 / 4 + b2 % 16 * 64 && t2 == b2 / 16 + b3 % 64 * 16 &&
             t3 == b3 / 64 + b4 * 4
    ensures t0 + 1024 * (t1 + 1024 * (t2 + 1024 * t3)) == b0 + 256 * (b1 + 256 * (b2 + 256 * (b3 + 256 * b4)))
  {
  }

  lemma UnpackFields10(b: seq<nat>)
    requires |b| == 5 && Below(b, 256)
    ensures Unpack(10, b) == [b[0] + b[1] % 4 * 256, b[1] / 4 + b[2] % 16 * 64, b[2] / 16 + b[3] % 64 * 16,
        b[3] / 64 + b[4] * 4]
    ensures Below(Unpack(10, b), 1024)
  {
    hide Or;
    OrField(b[0], b[1] % 4, 256); OrField(b[1] / 4, b[2] % 16, 64); OrField(b[2] / 16, b[3] % 64, 16);
    OrField(b[3] / 64, b[4] % 256, 4);
  }

  lemma Unpack10(b: seq<nat>)
    requires |b| == 5 && Below(b, 256)
    ensures Below(Unpack(10, b), 1024) && Value(Unpack(10, b), 1024) == Value(b, 256)
  {
    hide Or, Value, Unpack, Below;
    UnpackFields10(b);
    var t := Unpack(10, b);
    Spread10(t[0], t[1], t[2], t[3], b[0], b[1], b[2], b[3], b[4]);
    Value4(t, 1024);
    Value5(b, 256);
  }

  lemma Regroup11(t0: nat, t1: nat, t2: nat, t3: nat, t4: nat, t5: nat, t6: nat, t7: nat,
                  b0: nat, b1: nat, b2: nat, b3: nat, b4: nat, b5: nat, b6: nat, b7: nat, b8: nat, b9: nat, b10: nat)
    requires b0 == t0 % 256 && b1 == t0 / 256 + t1 % 32 * 8 && b2 == t1 / 32 + t2 % 4 * 64 && b3 == t2 / 4 % 256 &&
             b4 == t2 / 4 / 256 + t3 % 128 * 2 && b5 == t3 / 128 + t4 % 16 * 16 && b6 == t4 / 16 + t5 % 2 * 128 &&
             b7 == t5 / 2 % 256 && b8 == t5 / 2 / 256 + t6 % 64 * 4 && b9 == t6 / 64 + t7 % 8 * 32 && b10 == t7 / 8
    ensures b0 + 256 * (b1 + 256 * (b2 + 256 * (b3 + 256 * (b4
        + 256 * (b5 + 256 * (b6 + 256 * (b7 + 256 * (b8 + 256 * (b9 + 256 * b10)))))))))
        == t0 + 2048 * (t1 + 2048 * (t2 + 2048 * (t3 + 2048 * (t4 + 2048 * (t5 + 2048 * (t6 + 2048 * t7))))))
  {
  }

  /** Two fields that fill a byte. */
  lemma ByteFields(x: nat, y: nat, m: nat, n: nat)
    requires m in {2, 4, 8, 16, 32, 64, 128} && n > 0 && m * n == 256 && x < m
    ensures Or(x, y % n * m) % 256 == x + y % n * m
  {
    hide *;
    OrField(x, y % n, m);
    LowField(x, y % n, m, n, 256);
    SmallRemainder(y, n);
  }

  lemma SmallRemainder(y: nat, n: nat)
    requires n > 0
    ensures y % n % n == y % n
  {
  }

  lemma PackFields11(t: seq<nat>)
    requires |t| == 8 && Below(t, 2048)
    ensures Truncated(Pack(11, t)) == [t[0] % 256, t[0] / 256 + t[1] % 32 * 8, t[1] / 32 + t[2] % 4 * 64,
        t[2] / 4 % 256,
                                        t[2] / 4 / 256 + t[3] % 128 * 2, t[3] / 128 + t[4] % 16 * 16,
                                            t[4] / 16 + t[5] % 2 * 128, t[5] / 2 % 256,
                                        t[5] / 2 / 256 + t[6] % 64 * 4, t[6] / 64 + t[7] % 8 * 32, t[7] / 8]
  {
    hide Or;
    ByteFields(t[0] / 256, t[1], 8, 32); ByteFields(t[1] / 32, t[2], 64, 4); ByteFields(t[2] / 1024, t[3], 2, 128);
    ByteFields(t[3] / 128, t[4], 16, 16); ByteFields(t[4] / 16, t[5], 128, 2); ByteFields(t[5] / 512, t[6], 4, 64);
    ByteFields(t[6] / 64, t[7], 32, 8);
    Pack11Is(t);
    hide *;
    Halves(t[2]); Halves(t[5]);
    TwiceMod(t[0]); TwiceMod(t[2] / 4); TwiceMod(t[5] / 2); TwiceMod(t[7] / 8);
  }

  lemma TwiceMod(x: nat)
    ensures x % 256 % 256 == x % 256 && (x < 256 ==> x % 256 == x)
  {
  }

  lemma Pack11Is(t: seq<nat>)
    requires |t| == 8 && Below(t, 2048)
    ensures t[7] / 8 < 256
    ensures Truncated(Pack(11, t)) ==
            [t[0] % 256 % 256, Or(t[0] / 256, t[1] % 32 * 8) % 256, Or(t[1] / 32, t[2] % 4 * 64) % 256,
                t[2] / 4 % 256 % 256,
             Or(t[2] / 1024, t[3] % 128 * 2) % 256, Or(t[3] / 128, t[4] % 16 * 16) % 256,
                 Or(t[4] / 16, t[5] % 2 * 128) % 256,
             t[5] / 2 % 256 % 256, Or(t[5] / 512, t[6] % 64 * 4) % 256, Or(t[6] / 64, t[7] % 8 * 32) % 256,
                 t[7] / 8 % 256]
  {
    hide Or;
  }

  lemma Pack11(t: seq<nat>)
    requires |t| == 8 && Below(t, 2048)
    ensures Value(Truncated(Pack(11, t)), 256) == Value(t, 2048)
  {
    hide Or, Value, Pack, Truncated, Below;
    PackFields11(t);
    var b := Truncated(Pack(11, t));
    Regroup11(t[0], t[1], t[2], t[3], t[4], t[5], t[6], t[7], b[0], b[1], b[2], b[3], b[4], b[5], b[6], b[7], b[8],
        b[9],
      b[10]);
    Value11(b, 256);
    Value8Digits(t, 2048);
  }

  lemma Spread11(t0: nat, t1: nat, t2: nat, t3: nat, t4: nat, t5: nat, t6: nat, t7: nat,
                 b0: nat, b1: nat, b2: nat, b3: nat, b4: nat, b5: nat, b6: nat, b7: nat, b8: nat, b9: nat, b10: nat)
    requires t0 == b0 + b1 % 8 * 256 && t1 == b1 / 8 + b2 % 64 * 32 && t2 == b2 / 64 + b3 * 4 + b4 % 2 * 1024 &&
             t3 == b4 / 2 + b5 % 16 * 128 && t4 == b5 / 16 + b6 % 128 * 16 && t5 == b6 / 128 + b7 * 2 + b8 % 4 * 512 &&
             t6 == b8 / 4 + b9 % 32 * 64 && t7 == b9 / 32 + b10 * 8
    ensures t0 + 2048 * (t1 + 2048 * (t2 + 2048 * (t3 + 2048 * (t4 + 2048 * (t5 + 2048 * (t6 + 2048 * t7))))))
        == b0 + 256 * (b1 + 256 * (b2 + 256 * (b3 + 256 * (b4
        + 256 * (b5 + 256 * (b6 + 256 * (b7 + 256 * (b8 + 256 * (b9 + 256 * b10)))))))))
  {
  }

  lemma UnpackFields11(b: seq<nat>)
    requires |b| == 11 && Below(b, 256)
    ensures Unpack(11, b) == [b[0] + b[1] % 8 * 256, b[1] / 8 + b[2] % 64 * 32, b[2] / 64 + b[3] * 4 + b[4] % 2 * 1024,
                                b[4] / 2 + b[5] % 16 * 128, b[5] / 16 + b[6] % 128 * 16,
                                    b[6] / 128 + b[7] * 2 + b[8] % 4 * 512,
                                b[8] / 4 + b[9] % 32 * 64, b[9] / 32 + b[10] * 8]
  {
    hide Or;
    OrField(b[0], b[1] % 8, 256);
    OrField(b[1] / 8, b[2] % 64, 32);
    ThreeFields(b[2] / 64, b[3], b[4] % 2, 4);
    OrField(b[4] / 2, b[5] % 16, 128);
    OrField(b[5] / 16, b[6] % 128, 16);
    ThreeFields(b[6] / 128, b[7], b[8] % 4, 2);
    OrField(b[8] / 4, b[9] % 32, 64);
    OrField(b[9] / 32, b[10] % 256, 8);
  }

  /** A whole byte between two parts. */
  lemma ThreeFields(x: nat, y: nat, z: nat, m: nat)
    requires m in {2, 4} && x < m && y < 256
    ensures Or(Or(x, y % 256 * m), z * (256 * m)) == x + y * m + z * (256 * m)
  {
    hide Or;
    OrField(x, y, m);
    OrField(x + y * m, z, 256 * m);
  }

  lemma UnpackBelow11(b: seq<nat>)
    requires |b| == 11 && Below(b, 256)
    ensures Below(Unpack(11, b), 2048)
  {
    hide Or, Unpack;
    UnpackFields11(b);
  }

  lemma Unpack11(b: seq<nat>)
    requires |b| == 11 && Below(b, 256)
    ensures Below(Unpack(11, b), 2048) && Value(Unpack(11, b), 2048) == Value(b, 256)
  {
    hide Or, Value, Unpack, Below;
    UnpackFields11(b);
    UnpackBelow11(b);
    var t := Unpack(11, b);
    Spread11(t[0], t[1], t[2], t[3], t[4], t[5], t[6], t[7], b[0], b[1], b[2], b[3], b[4], b[5], b[6], b[7], b[8], b[9],
      b[10]);
    Value8Digits(t, 2048);
    Value11(b, 256);
  }

  lemma Regroup12(t0: nat, t1: nat,
                  b0: nat, b1: nat, b2: nat)
    requires b0 == t0 % 256 && b1 == t0 / 256 + t1 % 16 * 16 && b2 == t1 / 16
    ensures b0 + 256 * (b1 + 256 * b2) == t0 + 4096 * t1
  {
  }

  lemma PackFields12(t: seq<nat>)
    requires |t| == 2 && Below(t, 4096)
    ensures Truncated(Pack(12, t)) == [t[0] % 256, t[0] / 256 + t[1] % 16 * 16, t[1] / 16]
  {
    hide Or;
    OrField(t[0] / 256, t[1], 16);
    LowField(t[0] / 256, t[1], 16, 16, 256);
  }

  lemma Pack12(t: seq<nat>)
    requires |t| == 2 && Below(t, 4096)
    ensures Value(Truncated(Pack(12, t)), 256) == Value(t, 4096)
  {
    hide Or, Value, Pack, Truncated, Below;
    PackFields12(t);
    var b := Truncated(Pack(12, t));
    Regroup12(t[0], t[1], b[0], b[1], b[2]);
    Value3(b, 256);
    Value2(t, 4096);
  }

  lemma Spread12(t0: nat, t1: nat,
                 b0: nat, b1: nat, b2: nat)
    requires t0 == b0 + b1 % 16 * 256 && t1 == b1 / 16 + b2 * 16
    ensures t0 + 4096 * t1 == b0 + 256 * (b1 + 256 * b2)
  {
  }

  lemma UnpackFields12(b: seq<nat>)
    requires |b| == 3 && Below(b, 256)
    ensures Unpack(12, b) == [b[0] + b[1] % 16 * 256, b[1] / 16 + b[2] * 16]
    ensures Below(Unpack(12, b), 4096)
  {
    hide Or;
    OrField(b[0], b[1], 256); OrField(b[1] / 16, b[2], 16);
    LowField(b[0], b[1], 256, 16, 4096);
  }

  lemma Unpack12(b: seq<nat>)
    requires |b| == 3 && Below(b, 256)
    ensures Below(Unpack(12, b), 4096) && Value(Unpack(12, b), 4096) == Value(b, 256)
  {
    hide Or, Value, Unpack, Below;
    UnpackFields12(b);
    var t := Unpack(12, b);
    Spread12(t[0], t[1], b[0], b[1], b[2]);
    Value2(t, 4096);
    Value3(b, 256);
  }

  /** The shifts, masks and ors of the code spell the bits of the group in order. */
  lemma PackIsEncode(d: nat, t: seq<nat>)
    requires IsPacking(d) && d > 1 && |t| == GroupSize(d) && Below(t, Base(d))
    ensures ToBytes(Pack(d, t)) == EncodeGroup(d, t)
  {
    hide Pack, Value, Digits, Byte;
    var b := Truncated(Pack(d, t));
    if d == 4 { Pack4(t); } else if d == 5 { Pack5(t); } else if d == 10 { Pack10(t); }
    else if d == 11 { Pack11(t); } else { Pack12(t); }
    DigitsOfValue(b, 256);
    forall i | 0 <= i < |b| ensures Byte(Pack(d, t)[i]) == Byte(b[i]) {
      ByteMod(Pack(d, t)[i]);
    }
    assert ToBytes(Pack(d, t)) == ToBytes(b);
  }

  lemma ByteMod(n: nat)
    ensures Byte(n % 256) == Byte(n)
  {
    hide ByteOfBits, Digits;
    assert n % 256 % 256 == n % 256;
  }

  lemma UnpackIsDecode(d: nat, b: seq<byte>)
    requires IsPacking(d) && d > 1 && |b| == GroupBytes(d)
    ensures Unpack(d, FromBytes(b)) == DecodeGroup(d, b) && Below(DecodeGroup(d, b), Base(d))
  {
    hide Unpack, Value, Digits, Value8;
    var n := FromBytes(b);
    hide FromBytes;
    if d == 4 { Unpack4(n); } else if d == 5 { Unpack5(n); } else if d == 10 { Unpack10(n); }
    else if d == 11 { Unpack11(n); } else { Unpack12(n); }
    DigitsOfValue(Unpack(d, n), Base(d));
  }
}
