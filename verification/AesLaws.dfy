/** AES in bytes: the arithmetic of GF(2^8), the four steps byte by byte, and the order of the rounds (FIPS 197). */
module AesLaws {
  import opened Bytes
  import opened KeccakSpec  // Bits
  import opened Halves  // Word
  import opened LaneBytes  // ToBits
  import opened AesSpec
  import opened AesSbox
  import opened AesKeys

  /** The exclusive or of two bytes. */
  function Plus(a: Bits, b: Bits): (c: Bits)
    requires |a| == |b| == 8
    ensures |c| == 8
  {
    [a[0] != b[0], a[1] != b[1], a[2] != b[2], a[3] != b[3], a[4] != b[4], a[5] != b[5], a[6] != b[6], a[7] != b[7]]
  }

  // ----- the field

  lemma PlusIs(a: Bits, b: Bits)
    requires |a| == |b| == 8
    ensures forall i :: 0 <= i < 8 ==> Plus(a, b)[i] == (a[i] != b[i])
  {
  }

  lemma Times2Is(b: Bits)
    requires |b| == 8
    ensures var t := Times2(b);
            && t[0] == b[7] && t[1] == (b[0] != b[7]) && t[2] == b[1] && t[3] == (b[2] != b[7])
            && t[4] == (b[3] != b[7]) && t[5] == b[4] && t[6] == b[5] && t[7] == b[6]
  {
  }

  lemma StepIs(t: Bits, a: Bits, bit: bool)
    requires |t| == |a| == 8
    ensures forall i :: 0 <= i < 8 ==> HornerStep(t, a, bit)[i] == (Times2(t)[i] != (bit && a[i]))
  {
    hide *;
    HornerIs(t, a, bit);
    var u, x := Times2(t), HornerStep(t, a, bit);
    forall i | 0 <= i < 8 ensures x[i] == (u[i] != (bit && a[i])) {
      if i == 0 {} else if i == 1 {} else if i == 2 {} else if i == 3 {}
      else if i == 4 {} else if i == 5 {} else if i == 6 {} else {}
    }
  }

  lemma SameByte(x: Bits, y: Bits)
    requires |x| == |y| == 8 && x[0] == y[0] && x[1] == y[1] && x[2] == y[2] && x[3] == y[3]
    requires x[4] == y[4] && x[5] == y[5] && x[6] == y[6] && x[7] == y[7]
    ensures x == y
  {
  }

  lemma EightBits(b: bv8)
    ensures var x := ToBits([b]);
            && x[0] == (b & 1 != 0) && x[1] == (b & 2 != 0) && x[2] == (b & 4 != 0) && x[3] == (b & 8 != 0)
            && x[4] == (b & 16 != 0) && x[5] == (b & 32 != 0) && x[6] == (b & 64 != 0) && x[7] == (b & 128 != 0)
  {
    ByteBits(b);
    hide ByteBit;
    var x := ToBits([b]);
    assert forall k :: 0 <= k < 8 ==> x[k] == ByteBit([b][k / 8], k % 8) == ByteBit(b, k);
  }

  lemma ByteBits(b: bv8)
    ensures ByteBit(b, 0) == (b & 1 != 0) && ByteBit(b, 1) == (b & 2 != 0) && ByteBit(b, 2) == (b & 4 != 0)
         && ByteBit(b, 3) == (b & 8 != 0) && ByteBit(b, 4) == (b & 16 != 0) && ByteBit(b, 5) == (b & 32 != 0)
         && ByteBit(b, 6) == (b & 64 != 0) && ByteBit(b, 7) == (b & 128 != 0)
  {
  }

  /** Doubling shifts left, and subtracts 0x11b when a bit leaves. */
  lemma DoubledByte(b: bv8)
    ensures Times2(ToBits([b])) == ToBits([Xtime(b)])
  {
    EightBits(b);
    EightBits(Xtime(b));
    Times2Is(ToBits([b]));
    XtimeBits(b);
    hide *;
    SameByte(Times2(ToBits([b])), ToBits([Xtime(b)]));
  }

  function Xtime(b: bv8): bv8 {
    if b & 0x80 != 0 then (b << 1) ^ 0x1b else b << 1
  }

  lemma XtimeBits(b: bv8)
    ensures var c := Xtime(b);
            && (c & 1 != 0) == (b & 128 != 0) && (c & 2 != 0) == ((b & 1 != 0) != (b & 128 != 0))
            && (c & 4 != 0) == (b & 2 != 0) && (c & 8 != 0) == ((b & 4 != 0) != (b & 128 != 0))
            && (c & 16 != 0) == ((b & 8 != 0) != (b & 128 != 0)) && (c & 32 != 0) == (b & 16 != 0)
            && (c & 64 != 0) == (b & 32 != 0) && (c & 128 != 0) == (b & 64 != 0)
  {
  }

  lemma DoubleOfSum(a: Bits, b: Bits)
    requires |a| == |b| == 8
    ensures Times2(Plus(a, b)) == Plus(Times2(a), Times2(b))
  {
    Times2Is(a);
    Times2Is(b);
    Times2Is(Plus(a, b));
    PlusIs(a, b);
    PlusIs(Times2(a), Times2(b));
    hide *;
    SameByte(Times2(Plus(a, b)), Plus(Times2(a), Times2(b)));
  }

  lemma StepOfSum(t: Bits, u: Bits, a: Bits, c: Bits, bit: bool)
    requires |t| == |u| == |a| == |c| == 8
    ensures HornerStep(Plus(t, u), Plus(a, c), bit) == Plus(HornerStep(t, a, bit), HornerStep(u, c, bit))
  {
    hide *;
    StepIs(t, a, bit);
    StepIs(u, c, bit);
    StepIs(Plus(t, u), Plus(a, c), bit);
    DoubleOfSum(t, u);
    PlusIs(Times2(t), Times2(u));
    PlusIs(a, c);
    PlusIs(HornerStep(t, a, bit), HornerStep(u, c, bit));
    SameByte(HornerStep(Plus(t, u), Plus(a, c), bit), Plus(HornerStep(t, a, bit), HornerStep(u, c, bit)));
  }

  lemma StepOfDouble(t: Bits, a: Bits, bit: bool)
    requires |t| == |a| == 8
    ensures HornerStep(Times2(t), Times2(a), bit) == Times2(HornerStep(t, a, bit))
  {
    hide *;
    var h := HornerStep(t, a, bit);
    StepIs(t, a, bit);
    StepIs(Times2(t), Times2(a), bit);
    Times2Is(h);
    Times2Is(a);
    Times2Is(Times2(t));
    SameByte(HornerStep(Times2(t), Times2(a), bit), Times2(h));
  }

  /** The product distributes over exclusive or, doubles with its first factor, and has 1 as its unit. */
  lemma ProductOfSum(a: Bits, c: Bits, b: Bits)
    requires |a| == |b| == |c| == 8
    ensures Product(Plus(a, c), b) == Plus(Product(a, b), Product(c, b))
  {
    hide HornerStep, Plus;
    var s, t, u := Plus(NOUGHT, NOUGHT), NOUGHT, NOUGHT;
    assert s == NOUGHT by { NoSum(); }
    StepOfSum(t, u, a, c, b[7]);
    t, u := HornerStep(t, a, b[7]), HornerStep(u, c, b[7]);
    StepOfSum(t, u, a, c, b[6]);
    t, u := HornerStep(t, a, b[6]), HornerStep(u, c, b[6]);
    StepOfSum(t, u, a, c, b[5]);
    t, u := HornerStep(t, a, b[5]), HornerStep(u, c, b[5]);
    StepOfSum(t, u, a, c, b[4]);
    t, u := HornerStep(t, a, b[4]), HornerStep(u, c, b[4]);
    StepOfSum(t, u, a, c, b[3]);
    t, u := HornerStep(t, a, b[3]), HornerStep(u, c, b[3]);
    StepOfSum(t, u, a, c, b[2]);
    t, u := HornerStep(t, a, b[2]), HornerStep(u, c, b[2]);
    StepOfSum(t, u, a, c, b[1]);
    t, u := HornerStep(t, a, b[1]), HornerStep(u, c, b[1]);
    StepOfSum(t, u, a, c, b[0]);
  }

  lemma NoSum()
    ensures Plus(NOUGHT, NOUGHT) == NOUGHT && Times2(NOUGHT) == NOUGHT
  {
  }

  lemma ProductOfDouble(a: Bits, b: Bits)
    requires |a| == |b| == 8
    ensures Product(Times2(a), b) == Times2(Product(a, b))
  {
    hide HornerStep, Times2;
    var t := NOUGHT;
    NoSum();
    StepOfDouble(t, a, b[7]);
    t := HornerStep(t, a, b[7]);
    StepOfDouble(t, a, b[6]);
    t := HornerStep(t, a, b[6]);
    StepOfDouble(t, a, b[5]);
    t := HornerStep(t, a, b[5]);
    StepOfDouble(t, a, b[4]);
    t := HornerStep(t, a, b[4]);
    StepOfDouble(t, a, b[3]);
    t := HornerStep(t, a, b[3]);
    StepOfDouble(t, a, b[2]);
    t := HornerStep(t, a, b[2]);
    StepOfDouble(t, a, b[1]);
    t := HornerStep(t, a, b[1]);
    StepOfDouble(t, a, b[0]);
  }

  lemma ProductOfOne(b: Bits)
    requires |b| == 8
    ensures Product(ONE, b) == b
  {
    hide HornerStep, Top;
    TopEnds(b);
    TopNext(b, 0);
    TopNext(b, 1);
    TopNext(b, 2);
    TopNext(b, 3);
    TopNext(b, 4);
    TopNext(b, 5);
    TopNext(b, 6);
    TopNext(b, 7);
  }

  /** The n highest bits of b, moved to the low end. */
  function Top(b: Bits, n: nat): (t: Bits)
    requires |b| == 8 && n <= 8
    ensures |t| == 8
  {
    seq(8, i requires 0 <= i < 8 => i < n && b[8 - n + i])
  }

  lemma TopEnds(b: Bits)
    requires |b| == 8
    ensures Top(b, 0) == NOUGHT && Top(b, 8) == b
  {
  }

  lemma TopNext(b: Bits, n: nat)
    requires |b| == 8 && n < 8
    ensures HornerStep(Top(b, n), ONE, b[7 - n]) == Top(b, n + 1)
  {
    hide HornerStep;
    var t := Top(b, n);
    StepIs(t, ONE, b[7 - n]);
    Times2Is(t);
    hide Times2;
    SameByte(HornerStep(t, ONE, b[7 - n]), Top(b, n + 1));
  }

  /** The affine map adds five bits of the byte and one of 0x63. */
  lemma AffineAt(b: Bits, i: nat)
    requires |b| == 8 && i < 8
    ensures Affine(b)[i]
         == (((((b[i] != b[(i + 4) % 8]) != b[(i + 5) % 8]) != b[(i + 6) % 8]) != b[(i + 7) % 8]) != ToBits([0x63])[i])
  {
    AffineConstant();
    hide ToBits;
    if i == 0 {} else if i == 1 {} else if i == 2 {} else if i == 3 {}
    else if i == 4 {} else if i == 5 {} else if i == 6 {} else {}
  }

  lemma AffineConstant()
    ensures ToBits([0x63]) == [true, true, false, false, false, true, true, false]
  {
    EightBits(0x63);
    hide ToBits;
    SameByte(ToBits([0x63]), [true, true, false, false, false, true, true, false]);
  }

  // ----- the steps of a round

  lemma SubstitutedByte(s: Block, k: nat)
    requires k < 16
    ensures ByteAt(SubBytes(s), k) == Sbox(ByteAt(s, k))
  {
    hide Sbox;
    var x, y := ByteAt(SubBytes(s), k), Sbox(ByteAt(s, k));
    forall i | 0 <= i < 8 ensures x[i] == y[i] {
      assert (8 * k + i) / 8 == k && (8 * k + i) % 8 == i;
    }
  }

  /** Row r moves left by r columns: byte r of column c comes from column c + r. */
  lemma ShiftedByte(s: Block, r: nat, c: nat)
    requires r < 4 && c < 4
    ensures ByteAt(ShiftRows(s), 4 * c + r) == ByteAt(s, 4 * ((c + r) % 4) + r)
  {
    var x, y := ByteAt(ShiftRows(s), 4 * c + r), ByteAt(s, 4 * ((c + r) % 4) + r);
    forall i | 0 <= i < 8 ensures x[i] == y[i] {
      RowSource(r, c, i, 32 * c + 8 * r + i);
    }
  }

  lemma RowSource(r: nat, c: nat, i: nat, k: nat)
    requires r < 4 && c < 4 && i < 8 && k == 32 * c + 8 * r + i
    ensures (32 * (k / 32 + k / 8 % 4) + k % 32) % 128 == 32 * ((c + r) % 4) + 8 * r + i
  {
    assert k / 32 == c && k / 8 == 4 * c + r && k / 8 % 4 == r;
  }

  /** Each byte of a column becomes 2 a[r] + 3 a[r + 1] + a[r + 2] + a[r + 3] in the field. */
  lemma MixedByte(s: Block, r: nat, c: nat)
    requires r < 4 && c < 4
    ensures ByteAt(MixColumns(s), 4 * c + r)
         == Plus(Plus(Product(ToBits([2]), Row(s, c, r)), Product(ToBits([3]), Row(s, c, r + 1))),
                 Plus(Row(s, c, r + 2), Row(s, c, r + 3)))
  {
    hide *;
    var a, b, d, e := Row(s, c, r), Row(s, c, r + 1), Row(s, c, r + 2), Row(s, c, r + 3);
    var t, x := Times2(b), ByteAt(MixColumns(s), 4 * c + r);
    Factors(a);
    Factors(b);
    PlusIs(t, b);
    PlusIs(Times2(a), Plus(t, b));
    PlusIs(d, e);
    PlusIs(Plus(Times2(a), Plus(t, b)), Plus(d, e));
    forall i | 0 <= i < 8 ensures x[i] == Plus(Plus(Times2(a), Plus(t, b)), Plus(d, e))[i] { MixedBit(s, r, c, i); }
  }

  /** Byte j of column c, counted cyclically. */
  function Row(s: Block, c: nat, j: nat): (b: Bits)
    requires c < 4
    ensures |b| == 8
  {
    ByteAt(s, 4 * c + j % 4)
  }

  lemma MixedBit(s: Block, r: nat, c: nat, i: nat)
    requires r < 4 && c < 4 && i < 8
    ensures ByteAt(MixColumns(s), 4 * c + r)[i]
         == ((((Times2(Row(s, c, r))[i] != Times2(Row(s, c, r + 1))[i]) != Row(s, c, r + 1)[i]) != Row(s, c, r + 2)[i])
             != Row(s, c, r + 3)[i])
  {
    hide *;
    var k := 4 * c + r;
    BelowRow(s, r, c, 0);
    BelowRow(s, r, c, 1);
    BelowRow(s, r, c, 2);
    BelowRow(s, r, c, 3);
    MixedIs(s, k, i);
    MixByteIs(s, k, i, Row(s, c, r), Row(s, c, r + 1), Row(s, c, r + 2), Row(s, c, r + 3));
  }

  lemma MixedIs(s: Block, k: nat, i: nat)
    requires k < 16 && i < 8
    ensures ByteAt(MixColumns(s), k)[i] == MixByte(s, k, i)
  {
    hide MixByte;
    assert (8 * k + i) / 8 == k && (8 * k + i) % 8 == i;
  }

  lemma MixByteIs(s: Block, k: nat, i: nat, a: Bits, b: Bits, d: Bits, e: Bits)
    requires k < 16 && i < 8 && a == Below4(s, k, 0) && b == Below4(s, k, 1) && d == Below4(s, k, 2)
        && e == Below4(s, k, 3)
    ensures MixByte(s, k, i) == ((((Times2(a)[i] != Times2(b)[i]) != b[i]) != d[i]) != e[i])
  {
    hide Times2, Below4;
  }

  lemma BelowRow(s: Block, r: nat, c: nat, d: nat)
    requires r < 4 && c < 4 && d < 4
    ensures Below4(s, 4 * c + r, d) == Row(s, c, r + d)
  {
    hide ByteAt;
    assert (4 * c + r) / 4 == c && (4 * c + r + d) % 4 == (r + d) % 4;
  }

  /** 2 is the byte x, and 3 is x + 1. */
  lemma Factors(b: Bits)
    requires |b| == 8
    ensures Product(ToBits([2]), b) == Times2(b) && Product(ToBits([3]), b) == Plus(Times2(b), b)
  {
    hide *;
    SmallBytes();
    ProductOfOne(b);
    ProductOfDouble(ONE, b);
    ProductOfSum(ToBits([2]), ONE, b);
  }

  lemma SmallBytes()
    ensures ToBits([1]) == ONE && Times2(ONE) == ToBits([2]) && Plus(ToBits([2]), ONE) == ToBits([3])
  {
    EightBits(1);
    EightBits(2);
    EightBits(3);
    hide ToBits;
    SameByte(ToBits([1]), ONE);
    SameByte(Times2(ONE), ToBits([2]));
    SameByte(Plus(ToBits([2]), ONE), ToBits([3]));
  }

  // ----- the rounds

  /** The states between the rounds: a key is added first, nr - 1 full rounds follow, the last does not mix columns. */
  ghost predicate IsTrail(t: seq<Block>, s: Block, keys: nat -> Block, nr: nat)
    requires nr > 0 && |t| == nr
  {
    && t[0] == AddRoundKey(s, keys(0))
    && forall i {:trigger t[i]} :: 0 < i < nr ==>
        t[i] == AddRoundKey(MixColumns(ShiftRows(SubBytes(t[i - 1]))), keys(i))
  }

  lemma CipherEndsTrail(t: seq<Block>, s: Block, keys: nat -> Block, nr: nat)
    requires nr > 0 && |t| == nr && IsTrail(t, s, keys, nr)
    ensures Cipher(s, keys, nr) == AddRoundKey(ShiftRows(SubBytes(t[nr - 1])), keys(nr))
  {
    TrailAt(t, s, keys, nr, nr - 1);
  }

  lemma {:induction false} TrailAt(t: seq<Block>, s: Block, keys: nat -> Block, nr: nat, n: nat)
    requires n < nr == |t| && IsTrail(t, s, keys, nr)
    ensures t[n] == FullRounds(s, keys, n)
    decreases n
  {
    hide AddRoundKey, MixColumns, ShiftRows, SubBytes;
    if n > 0 {
      TrailAt(t, s, keys, nr, n - 1);
      assert t[n] == AddRoundKey(MixColumns(ShiftRows(SubBytes(t[n - 1]))), keys(n));
    }
  }

  // ----- the key schedule

  /** Rotation moves byte p + 1 to place p, and substitution works byte by byte. */
  lemma RotatedByte(w: Word, p: nat)
    requires p < 4
    ensures ByteAt(RotWord(w), p) == ByteAt(w, (p + 1) % 4) && ByteAt(SubWord(w), p) == Sbox(ByteAt(w, p))
  {
    hide Sbox;
    var x, y := ByteAt(SubWord(w), p), Sbox(ByteAt(w, p));
    forall i | 0 <= i < 8 ensures x[i] == y[i] {
      assert (8 * p + i) / 8 == p && (8 * p + i) % 8 == i;
    }
  }

  /** The round constant is a power of x in the first byte, and zero elsewhere. */
  lemma ConstantByte(k: nat, p: nat)
    requires k < 10 && 0 < p < 4
    ensures ByteAt(RconWord(k), 0) == ToBits([RCON[k]]) && ByteAt(RconWord(k), p) == NOUGHT
  {
    hide RconByte, ToBits;
    RconIs(k);
  }

  /**
   Which words v of the schedule are transformed, for the three key sizes; t and u are the words 1 and nk before.
   Word v has place p among the nk words with round constant k.
   */
  lemma ScheduledWord(key: Bits, nk: nat, k: nat, p: nat, i: nat, t: Word, u: Word, v: Word, j: nat)
    requires nk in {4, 6, 8} && |key| == 32 * nk && i == nk * (k + 1) + p && p < nk && nk <= i && j < 32
    requires t == KeyWord(key, nk, i - 1) && u == KeyWord(key, nk, i - nk) && v == KeyWord(key, nk, i)
    ensures v[j] == (u[j] != if p == 0 then SubWord(RotWord(t))[j] != RconWord(k)[j]
                             else if nk == 8 && p == 4 then SubWord(t)[j] else t[j])
  {
    hide *;
    DivModUnique(p, nk, k + 1);
    KeyWordNext(key, nk, i, t);
    WordXorAt(u, v, t, k, nk, p, j);
  }

  lemma WordXorAt(u: Word, v: Word, t: Word, k: nat, nk: nat, p: nat, j: nat)
    requires j < 32
    requires v == WordXor(u, if p == 0 then WordXor(SubWord(RotWord(t)), RconWord(k))
                             else if nk > 6 && p == 4 then SubWord(t) else t)
    ensures v[j] == (u[j] != if p == 0 then SubWord(RotWord(t))[j] != RconWord(k)[j]
                             else if nk > 6 && p == 4 then SubWord(t)[j] else t[j])
  {
    hide SubWord, RotWord, RconWord;
  }

  /** The schedule starts with the key. */
  lemma FirstWords(key: Bits, nk: nat, i: nat)
    requires |key| == 32 * nk && i < nk
    ensures 32 * i + 32 <= 32 * nk && KeyWord(key, nk, i) == key[32 * i..32 * i + 32]
  {
  }

  /** A round key is four consecutive words of the schedule. */
  lemma RoundKeyWord(key: Bits, nk: nat, n: nat, c: nat)
    requires nk > 0 && |key| == 32 * nk && c < 4
    ensures RoundKey(key, nk, n)[32 * c..32 * c + 32] == KeyWord(key, nk, 4 * n + c)
  {
    hide KeyWord;
    FourWords(KeyWord(key, nk, 4 * n), KeyWord(key, nk, 4 * n + 1), KeyWord(key, nk, 4 * n + 2),
      KeyWord(key, nk, 4 * n + 3), c);
  }

  lemma FourWords(a: Word, b: Word, d: Word, e: Word, c: nat)
    requires c < 4
    ensures (a + b + d + e)[32 * c..32 * c + 32] == [a, b, d, e][c]
  {
    var w := a + b + d + e;
    assert w[..32] == a && w[32..64] == b && w[64..96] == d && w[96..] == e;
  }

  // ----- blocks

  /** Block i of the output encrypts block i of the input, in 10, 12 or 14 rounds for keys of 4, 6 or 8 words. */
  lemma {:induction false} EncryptedBlock(input: seq<byte>, n: nat, key: Bits, nk: nat, i: nat)
    requires 16 * n <= |input| && nk > 0 && |key| == 32 * nk && i < n
    ensures AesBytes(input, n, key, nk)[16 * i..16 * i + 16]
         == FromBits(Cipher(ToBits(input[16 * i..16 * i + 16]), RoundKeys(key, nk), nk + 6))
    decreases n
  {
    hide FromBits, ToBits, Cipher;
    var a := AesBytes(input, n - 1, key, nk);
    if i < n - 1 {
      EncryptedBlock(input, n - 1, key, nk, i);
      assert AesBytes(input, n, key, nk)[16 * i..16 * i + 16] == a[16 * i..16 * i + 16];
    }
  }
}
