/** The key schedule of test/common/aes.c: expansion, compression to two words a round, and the bitsliced round keys. */
module AesKeys {
  import opened Bytes
  import opened Encode  // ValueAppend
  import opened Packing  // Value4
  import opened KeccakSpec  // Bits
  import opened Halves  // Word
  import opened LaneBytes
  import opened AesSpec
  import opened AesSlice
  import opened AesLayout
  import opened AesCipher

  const ZERO: Long := seq(64, _ => false)

  // ----- sub_word

  lemma FirstWordSubstituted(q: seq<Long>, x: Word, p: nat, i: nat)
    requires |q| == 8 && q[0] == Extend(x) && p < 4 && i < 8
    ensures Transposed(SboxSlice(Transposed(q)))[0][8 * p + i] == Sbox(ByteAt(x, p))[i]
  {
    hide Transposed, Sbox, SboxSlice, At, ByteAt;
    var t := Transposed(q);
    TransposedAt(SboxSlice(t), 0, p, i);
    SboxSliceAt(t, i, 8 * p);
    FirstColumn(q, x, p);
  }

  lemma SboxSliceAt(q: seq<Long>, i: nat, l: nat)
    requires |q| == 8 && i < 8 && l < 64
    ensures SboxSlice(q)[i][l] == Sbox(At(q, l))[i]
  {
    hide Sbox;
  }

  lemma FirstColumn(q: seq<Long>, x: Word, p: nat)
    requires |q| == 8 && q[0] == Extend(x) && p < 4
    ensures At(Transposed(q), 8 * p) == ByteAt(x, p)
  {
    hide Transposed;
    var a, b := At(Transposed(q), 8 * p), ByteAt(x, p);
    forall j | 0 <= j < 8 ensures a[j] == b[j] {
      TransposedAt(q, j, p, 0);
    }
  }

  /** `sub_word`, with seven empty words beside the one of interest. */
  method SubstituteWord(x: Word) returns (y: Word)
    ensures y == SubWord(x)
  {
    hide Transposed, SboxSlice, SubWord, Extend;
    var q := new Long[8](_ => ZERO);
    q[0] := Extend(x);
    ghost var q0 := q[..];
    Ortho(q);
    BitsliceSbox(q);
    Ortho(q);
    y := q[0][..32];
    SubstitutedWord(q0, x, y);
  }

  lemma SubstitutedWord(q: seq<Long>, x: Word, y: Word)
    requires |q| == 8 && q[0] == Extend(x) && y == Transposed(SboxSlice(Transposed(q)))[0][..32]
    ensures y == SubWord(x)
  {
    hide Transposed, SboxSlice, Sbox, Extend, ByteAt;
    var z := SubWord(x);
    forall k | 0 <= k < 32 ensures y[k] == z[k] {
      FirstWordSubstituted(q, x, k / 8, k % 8);
      assert 8 * (k / 8) + k % 8 == k;
    }
  }

  // ----- the expansion

  const RCON: seq<byte> := [0x01, 0x02, 0x04, 0x08, 0x10, 0x20, 0x40, 0x80, 0x1b, 0x36]

  /** A byte where an `uint32_t` is expected. */
  function Widened(b: byte): Word {
    ToBits([b]) + seq(24, _ => false)
  }

  /** The powers of x, bit by bit. */
  function PowerBits(k: nat): (b: Bits)
    requires k < 10
    ensures |b| == 8
  {
    if k < 8 then seq(8, i requires 0 <= i < 8 => i == k)
    else if k == 8 then [true, true, false, true, true, false, false, false]
    else [false, true, true, false, true, true, false, false]
  }

  lemma {:induction false} PowerBitsAre(k: nat)
    requires k < 10
    ensures RconByte(k) == PowerBits(k)
  {
    if k > 0 {
      PowerBitsAre(k - 1);
      assert Times2(PowerBits(k - 1)) == PowerBits(k);
    }
  }

  lemma TableBits(k: nat)
    requires k < 10
    ensures |RCON| == 10 && ToBits([RCON[k]]) == PowerBits(k)
  {
    if k < 5 {
      LowTable(k);
    } else {
      HighTable(k);
    }
  }

  lemma LowTable(k: nat)
    requires k < 5
    ensures |RCON| == 10 && ToBits([RCON[k]]) == PowerBits(k)
  {
    assert BitsOf(0x01) == [1, 0, 0, 0, 0, 0, 0, 0] && BitsOf(0x02) == [0, 1, 0, 0, 0, 0, 0, 0];
    assert BitsOf(0x04) == [0, 0, 1, 0, 0, 0, 0, 0] && BitsOf(0x08) == [0, 0, 0, 1, 0, 0, 0, 0];
    assert BitsOf(0x10) == [0, 0, 0, 0, 1, 0, 0, 0];
    hide BitsOf;
  }

  lemma HighTable(k: nat)
    requires 5 <= k < 10
    ensures |RCON| == 10 && ToBits([RCON[k]]) == PowerBits(k)
  {
    assert BitsOf(0x20) == [0, 0, 0, 0, 0, 1, 0, 0];
    assert BitsOf(0x40) == [0, 0, 0, 0, 0, 0, 1, 0] && BitsOf(0x80) == [0, 0, 0, 0, 0, 0, 0, 1];
    assert BitsOf(0x1b) == [1, 1, 0, 1, 1, 0, 0, 0] && BitsOf(0x36) == [0, 1, 1, 0, 1, 1, 0, 0];
    hide BitsOf;
  }

  lemma RconIs(k: nat)
    requires k < 10
    ensures |RCON| == 10 && Widened(RCON[k]) == RconWord(k)
  {
    hide ToBits, RconByte, PowerBits;
    PowerBitsAre(k);
    TableBits(k);
  }

  predicate IsKeySize(nk: nat) {
    nk in {4, 6, 8}
  }

  /** The position in the schedule that the counters j and k stand for. */
  lemma Counters(i: nat, nk: nat, j: nat, k: nat)
    requires IsKeySize(nk) && nk <= i < 4 * (nk + 7) && j == i % nk && k + 1 == i / nk
    ensures k < 10
    ensures j + 1 == nk ==> (i + 1) % nk == 0 && (i + 1) / nk == k + 2
    ensures j + 1 < nk ==> (i + 1) % nk == j + 1 && (i + 1) / nk == k + 1
  {
  }

  lemma RotatedWord(x: Word)
    ensures WordOr(Shl(x, 24), Shr(x, 8)) == RotWord(x)
  {
  }

  lemma KeyWordNext(key: Bits, nk: nat, i: nat, t: Word)
    requires nk > 0 && |key| == 32 * nk && i >= nk && t == KeyWord(key, nk, i - 1)
    ensures KeyWord(key, nk, i)
         == WordXor(KeyWord(key, nk, i - nk),
                    if i % nk == 0 then WordXor(SubWord(RotWord(t)), RconWord(i / nk - 1))
                    else if nk > 6 && i % nk == 4 then SubWord(t)
                    else t)
  {
    hide WordXor, SubWord, RotWord, RconWord;
  }

  lemma XorCommutes(a: Word, b: Word)
    ensures WordXor(a, b) == WordXor(b, a)
  {
  }

  /** One step of the expansion, before the exclusive or with the word nk places back. */
  method Turn(t: Word, nk: nat, j: nat, k: nat) returns (r: Word)
    requires j == 0 ==> k < 10
    ensures r == if j == 0 then WordXor(SubWord(RotWord(t)), RconWord(k)) else if nk > 6 && j == 4 then SubWord(t)
    else t
  {
    hide SubWord, RotWord, WordXor, RconWord, Widened;
    r := t;
    if j == 0 {
      r := WordOr(Shl(r, 24), Shr(r, 8));
      RotatedWord(t);
      RconIs(k);
      r := SubstituteWord(r);
      r := WordXor(r, Widened(RCON[k]));
    } else if nk > 6 && j == 4 {
      r := SubstituteWord(r);
    }
  }

  /** The first part of `br_aes_ct64_keysched`. */
  method ExpandKey(key: seq<byte>, nk: nat) returns (skey: array<Word>)
    requires IsKeySize(nk) && |key| == 4 * nk
    ensures fresh(skey) && skey.Length == 60
    ensures forall i :: 0 <= i < 4 * (nk + 7) ==> skey[i] == KeyWord(ToBits(key), nk, i)
  {
    hide ToBits, KeyWord, WordXor, SubWord, RotWord, RconWord;
    skey := new Word[60];
    DecodeWords(skey, nk, key, 0);
    ghost var bits := ToBits(key);
    forall i | 0 <= i < nk ensures skey[i] == KeyWord(bits, nk, i) {
      KeyStart(key, nk, i, skey[..]);
    }
    var tmp := skey[nk - 1];
    var i: nat, j: nat, k: nat := nk, 0, 0;
    while i < 4 * (nk + 7)
      invariant nk <= i <= 4 * (nk + 7) && j == i % nk && k + 1 == i / nk
      invariant tmp == KeyWord(bits, nk, i - 1)
      invariant forall m :: 0 <= m < i ==> skey[m] == KeyWord(bits, nk, m)
    {
      Counters(i, nk, j, k);
      KeyWordNext(bits, nk, i, tmp);
      tmp := Turn(tmp, nk, j, k);
      XorCommutes(tmp, skey[i - nk]);
      tmp := WordXor(tmp, skey[i - nk]);
      skey[i] := tmp;
      i, j := i + 1, j + 1;
      if j == nk {
        j, k := 0, k + 1;
      }
    }
  }

  lemma KeyStart(key: seq<byte>, nk: nat, i: nat, v: seq<Word>)
    requires IsKeySize(nk) && |key| == 4 * nk && i < nk && Decoded(v, nk, key, 0)
    ensures v[i] == KeyWord(ToBits(key), nk, i)
  {
    hide ByteBit;
    var b := key[0 + 4 * i..0 + 4 * i + 4];
    var s := ToBits(key)[32 * i..32 * i + 32];
    forall k | 0 <= k < 32 ensures ToBits(b)[k] == s[k] {
      assert (32 * i + k) / 8 == 4 * i + k / 8 && (32 * i + k) % 8 == k % 8;
    }
    assert ToBits(b) == s;
  }

  // ----- compression: the four copies of a round key are one

  /** The mask of bit i of every four, e.g. 0x2222222222222222 for i = 1. */
  function NibbleMask(i: nat): Long {
    seq(64, l requires 0 <= l < 64 => l % 4 == i)
  }

  function Compressed(a: Long, b: Long, c: Long, d: Long): Long {
    LongOr(LongOr(LongOr(LongAnd(a, NibbleMask(0)), LongAnd(b, NibbleMask(1))), LongAnd(c, NibbleMask(2))),
        LongAnd(d, NibbleMask(3)))
  }

  lemma CompressedAt(a: Long, b: Long, c: Long, d: Long, l: nat)
    requires l < 64
    ensures Compressed(a, b, c, d)[l] == [a, b, c, d][l % 4][l]
  {
  }

  /** Four times the same four words. */
  function Copies(w: seq<Word>): (v: seq<Word>)
    requires |w| == 4
    ensures |v| == 16
  {
    w + w + w + w
  }

  lemma CopyBlock(w: seq<Word>, b: nat)
    requires |w| == 4 && b < 4
    ensures BlockOf(Copies(w), b) == BlockOf(w, 0)
  {
  }

  /** The bitsliced words of one round key. */
  function KeySlice(w: seq<Word>): (q: seq<Long>)
    requires |w| == 4
    ensures |q| == 8
  {
    Transposed(Loaded(Copies(w)))
  }

  lemma KeySliceLane(w: seq<Word>, b: nat)
    requires |w| == 4 && b < 4
    ensures Lane(KeySlice(w), b) == BlockOf(w, 0)
  {
    hide Lane, Loaded, Transposed, BlockOf, Copies;
    LaneLoaded(Copies(w), b);
    CopyBlock(w, b);
  }

  /** The second part of `br_aes_ct64_keysched`, for one round. */
  method CompressRound(w: seq<Word>) returns (c0: Long, c1: Long)
    requires |w| == 4
    ensures forall l :: 0 <= l < 64 ==> c0[l] == KeySlice(w)[l % 4][l] && c1[l] == KeySlice(w)[4 + l % 4][l]
  {
    hide Transposed, Loaded, InterleaveIn, Compressed;
    var q := new Long[8];
    q[0], q[4] := InterleaveIn(w[0], w[2]), InterleaveIn(w[1], w[3]);
    q[1], q[2], q[3] := q[0], q[0], q[0];
    q[5], q[6], q[7] := q[4], q[4], q[4];
    CopiesLoaded(w, q[..]);
    Ortho(q);
    c0 := Compressed(q[0], q[1], q[2], q[3]);
    c1 := Compressed(q[4], q[5], q[6], q[7]);
    forall l | 0 <= l < 64 ensures c0[l] == q[l % 4][l] && c1[l] == q[4 + l % 4][l] {
      CompressedAt(q[0], q[1], q[2], q[3], l);
      CompressedAt(q[4], q[5], q[6], q[7], l);
    }
  }

  lemma CopiesLoaded(w: seq<Word>, q: seq<Long>)
    requires |w| == 4 && |q| == 8
    requires forall i :: 0 <= i < 4 ==> q[i] == InterleaveIn(w[0], w[2])
    requires forall i :: 4 <= i < 8 ==> q[i] == InterleaveIn(w[1], w[3])
    ensures q == Loaded(Copies(w))
  {
    hide InterleaveIn;
    hide Loaded;
    var v := Copies(w);
    LoadedPair(v, 0);
    LoadedPair(v, 1);
    LoadedPair(v, 2);
    LoadedPair(v, 3);
    forall i | 0 <= i < 8 ensures q[i] == Loaded(v)[i] {
      assert i in {0, 1, 2, 3, 4, 5, 6, 7};
    }
  }

  // ----- expansion of the compressed words

  /** The number that a word stands for. */
  function Number(w: Bits): nat {
    Value(Numbers(w), 2)
  }

  function LongOf(n: nat): Long {
    seq(64, l requires 0 <= l < 64 => Digits(n, 2, 64)[l] == 1)
  }

  /** Subtraction modulo 2^64. */
  function LongMinus(a: Long, b: Long): Long {
    var m := Power(2, 64);
    LongOf((Number(a) - Number(b)) % m)
  }

  lemma LongOfNumber(w: Long)
    ensures LongOf(Number(w)) == w && Number(w) < Power(2, 64)
  {
    hide Power, Digits, Value;
    DigitsOfValue(Numbers(w), 2);
  }

  lemma NumberAppend(a: Bits, b: Bits)
    ensures Number(a + b) == Number(a) + Power(2, |a|) * Number(b)
  {
    hide Value, Power, Numbers;
    NumbersAppend(a, b);
    ValueAppend(Numbers(a), Numbers(b), 2);
  }

  lemma NumbersAppend(a: Bits, b: Bits)
    ensures Numbers(a + b) == Numbers(a) + Numbers(b)
  {
  }

  /** The lowest bit of every nibble, copied to the other three. */
  function Filled(x: Bits): (y: Bits)
    ensures |y| == |x|
  {
    seq(|x|, l requires 0 <= l < |x| => x[4 * (l / 4)])
  }

  ghost predicate Sparse(x: Bits) {
    |x| % 4 == 0 && forall l :: 0 <= l < |x| && l % 4 != 0 ==> !x[l]
  }

  lemma NibbleNumbers(b: bool)
    ensures Number([b, false, false, false]) == if b then 1 else 0
    ensures Number([b, b, b, b]) == if b then 15 else 0
    ensures Number([false, false, false, false]) == 0 && Power(2, 4) == 16
  {
    var n := if b then 1 else 0;
    assert Numbers([b, false, false, false]) == [n, 0, 0, 0] && Numbers([b, b, b, b]) == [n, n, n, n];
    assert Numbers([false, false, false, false]) == [0, 0, 0, 0];
    Value4([n, 0, 0, 0], 2);
    Value4([n, n, n, n], 2);
    Value4([0, 0, 0, 0], 2);
    assert Power(2, 4) == 16;
    hide Value;
  }

  /** Filling is multiplication by fifteen. */
  lemma {:induction false} FilledNumber(x: Bits)
    requires Sparse(x)
    ensures Number(Filled(x)) == 15 * Number(x)
    decreases |x|
  {
    if |x| == 0 {
      assert Filled(x) == x && Numbers(x) == [];
    } else {
      var n, y := x[..4], x[4..];
      var b := x[0];
      SparseSplit(x);
      FilledNumber(y);
      NibbleNumbers(b);
      NumberAppend(n, y);
      NumberAppend([b, b, b, b], Filled(y));
      hide Number, Filled;
      assert x == n + y && |n| == 4;
      assert Number(x) == Number(n) + 16 * Number(y);
      assert Number(Filled(x)) == Number([b, b, b, b]) + 16 * Number(Filled(y));
    }
  }

  lemma SparseSplit(x: Bits)
    requires Sparse(x) && |x| >= 4
    ensures Sparse(x[4..]) && x[..4] == [x[0], false, false, false]
    ensures Filled(x) == [x[0], x[0], x[0], x[0]] + Filled(x[4..])
  {
    var y := x[4..];
    assert forall l :: 0 <= l < |y| ==> y[l] == x[l + 4];
    var a, b := Filled(x), [x[0], x[0], x[0], x[0]] + Filled(y);
    forall l | 0 <= l < |x| ensures a[l] == b[l] {
      if l >= 4 {
        assert (l - 4) / 4 == l / 4 - 1;
      }
    }
  }

  /** Shifting multiplies by sixteen and drops the top. */
  lemma ShiftedNumber(x: Long)
    ensures Number(LongShl(x, 4)) + Power(2, 64) * Number(x[60..]) == 16 * Number(x)
  {
    hide Number, Power;
    var z, y := [false, false, false, false], LongShl(x, 4);
    NibbleNumbers(false);
    NumberAppend(z, x);
    NumberAppend(y, x[60..]);
    assert z + x == y + x[60..];
  }

  /** `(x << 4) - x` copies the lowest bit of every nibble to all four. */
  lemma NibbleFill(x: Long)
    requires Sparse(x)
    ensures LongMinus(LongShl(x, 4), x) == Filled(x)
  {
    hide Number, Power, LongOf, Filled;
    FilledNumber(x);
    ShiftedNumber(x);
    var f: Long := Filled(x);
    LongOfNumber(f);
    var m: int, a: int, b: int, t: int := Power(2, 64), Number(LongShl(x, 4)), Number(x), Number(x[60..]);
    assert a - b == Number(f) - m * t;
    ModShift(a - b, Number(f), m, t);
  }

  /** One of the four words that `br_aes_ct64_skey_expand` makes of c. */
  function Nibbles(c: Long, i: nat): Long {
    LongShr(LongAnd(c, NibbleMask(i)), i)
  }

  /** Bit i of the nibble that holds bit l. */
  function NibbleBit(c: Long, i: nat, l: nat): bool
    requires i < 4 && l < 64
  {
    c[4 * (l / 4) + i]
  }

  lemma NibblesAt(c: Long, i: nat)
    requires i < 4
    ensures Sparse(Nibbles(c, i)) && forall l :: 0 <= l < 64 ==> Filled(Nibbles(c, i))[l] == NibbleBit(c, i, l)
  {
  }

  function Widening(c: Long, i: nat): Long {
    var x := Nibbles(c, i);
    LongMinus(LongShl(x, 4), x)
  }

  lemma WideningAt(c: Long, i: nat, l: nat)
    requires i < 4 && l < 64
    ensures Widening(c, i)[l] == NibbleBit(c, i, l)
  {
    hide LongMinus, LongShl, Filled, Nibbles, Sparse, NibbleBit;
    NibblesAt(c, i);
    NibbleFill(Nibbles(c, i));
  }

  /** `br_aes_ct64_skey_expand`. */
  method ExpandSlices(comp: seq<Long>, nrounds: nat) returns (skey: array<Long>)
    requires |comp| == 2 * (nrounds + 1)
    ensures fresh(skey) && skey.Length == 8 * (nrounds + 1)
    ensures forall v :: 0 <= v < skey.Length ==> skey[v] == Widening(comp[v / 4], v % 4)
  {
    hide Widening, Nibbles, LongMinus, LongShl;
    skey := new Long[8 * (nrounds + 1)];
    var u := 0;
    while u < |comp|
      invariant 0 <= u <= |comp|
      invariant forall v :: 0 <= v < 4 * u ==> skey[v] == Widening(comp[v / 4], v % 4)
    {
      WideningIs(comp[u]);
      var x0, x1, x2, x3 := Nibbles(comp[u], 0), Nibbles(comp[u], 1), Nibbles(comp[u], 2), Nibbles(comp[u], 3);
      skey[4 * u] := LongMinus(LongShl(x0, 4), x0);
      skey[4 * u + 1] := LongMinus(LongShl(x1, 4), x1);
      skey[4 * u + 2] := LongMinus(LongShl(x2, 4), x2);
      skey[4 * u + 3] := LongMinus(LongShl(x3, 4), x3);
      u := u + 1;
    }
  }

  lemma WideningIs(c: Long)
    ensures forall i :: 0 <= i < 4 ==> Widening(c, i) == LongMinus(LongShl(Nibbles(c, i), 4), Nibbles(c, i))
  {
    hide LongMinus, LongShl, Nibbles;
  }

  // ----- the whole schedule

  /** The four words of round key n. */
  function RoundWords(key: Bits, nk: nat, n: nat): (w: seq<Word>)
    requires nk > 0 && |key| == 32 * nk
    ensures |w| == 4
  {
    [KeyWord(key, nk, 4 * n), KeyWord(key, nk, 4 * n + 1), KeyWord(key, nk, 4 * n + 2), KeyWord(key, nk, 4 * n + 3)]
  }

  lemma RoundWordsBlock(key: Bits, nk: nat, n: nat)
    requires nk > 0 && |key| == 32 * nk
    ensures BlockOf(RoundWords(key, nk, n), 0) == RoundKey(key, nk, n)
  {
    hide KeyWord;
  }

  /** Two words that hold the bits of four, one from every nibble. */
  ghost predicate Packed(c0: Long, c1: Long, w: seq<Word>) {
    |w| == 4 && forall l :: 0 <= l < 64 ==> c0[l] == KeySlice(w)[l % 4][l] && c1[l] == KeySlice(w)[4 + l % 4][l]
  }

  ghost predicate AllPacked(comp: seq<Long>, key: Bits, nk: nat, rounds: nat) {
    && nk > 0 && |key| == 32 * nk && 2 * rounds <= |comp|
    && forall n: nat :: n < rounds ==> Packed(comp[2 * n], comp[2 * n + 1], RoundWords(key, nk, n))
  }

  /** `br_aes_ct64_keysched`. */
  method KeySchedule(key: seq<byte>, nk: nat) returns (comp: array<Long>)
    requires IsKeySize(nk) && |key| == 4 * nk
    ensures fresh(comp) && comp.Length == 2 * (nk + 7) && AllPacked(comp[..], ToBits(key), nk, nk + 7)
  {
    hide KeySlice, KeyWord, ToBits, Packed, RoundWords;
    var skey := ExpandKey(key, nk);
    ghost var bits := ToBits(key);
    comp := new Long[2 * (nk + 7)];
    var n: nat := 0;
    while n < nk + 7
      invariant n <= nk + 7 && AllPacked(comp[..], bits, nk, n)
      invariant forall i :: 0 <= i < 4 * (nk + 7) ==> skey[i] == KeyWord(bits, nk, i)
    {
      var w := skey[4 * n..4 * n + 4];
      RoundWordsAre(skey[..], bits, nk, n);
      var c0, c1 := CompressRound(w);
      PackedIs(c0, c1, w);
      ghost var before := comp[..];
      comp[2 * n], comp[2 * n + 1] := c0, c1;
      PackedNext(before, comp[..], bits, nk, n);
      n := n + 1;
    }
  }

  lemma RoundWordsAre(skey: seq<Word>, key: Bits, nk: nat, n: nat)
    requires nk > 0 && |key| == 32 * nk && 4 * n + 4 <= |skey|
    requires forall i :: 4 * n <= i < 4 * n + 4 ==> skey[i] == KeyWord(key, nk, i)
    ensures skey[4 * n..4 * n + 4] == RoundWords(key, nk, n)
  {
    hide KeyWord;
  }

  lemma PackedIs(c0: Long, c1: Long, w: seq<Word>)
    requires |w| == 4 && forall l :: 0 <= l < 64 ==>
          c0[l] == KeySlice(w)[l % 4][l] && c1[l] == KeySlice(w)[4 + l % 4][l]
    ensures Packed(c0, c1, w)
  {
    hide KeySlice;
  }

  lemma PackedNext(a: seq<Long>, b: seq<Long>, key: Bits, nk: nat, n: nat)
    requires AllPacked(a, key, nk, n) && |a| == |b| && 2 * n + 2 <= |a|
    requires forall i :: 0 <= i < 2 * n ==> b[i] == a[i]
    requires Packed(b[2 * n], b[2 * n + 1], RoundWords(key, nk, n))
    ensures AllPacked(b, key, nk, n + 1)
  {
    hide Packed, RoundWords;
  }

  /** The key words, back from their packed form, give every block the same round key. */
  lemma RoundKeyUnpacked(comp: seq<Long>, skey: seq<Long>, key: Bits, nk: nat, n: nat, b: nat)
    requires AllPacked(comp, key, nk, n + 1) && |skey| == 4 * |comp| && b < 4 && 8 * n + 8 <= |skey|
    requires forall v :: 0 <= v < |skey| ==> skey[v] == Widening(comp[v / 4], v % 4)
    ensures KeyAt(skey, b, n) == RoundKey(key, nk, n)
  {
    hide Lane, Position, KeySlice, KeyWord, RoundWords, RoundKey, Widening, BlockOf, Packed;
    var w, q := RoundWords(key, nk, n), skey[8 * n..8 * n + 8];
    RoundWordsBlock(key, nk, n);
    var s, t := Lane(q, b), RoundKey(key, nk, n);
    forall m: nat, i: nat | m < 16 && i < 8 ensures BitAt(s, m, i) == BitAt(t, m, i) {
      LaneAt(q, b, m, i);
      LaneAt(KeySlice(w), i % 4, m, i);
      KeySliceLane(w, i % 4);
      assert (8 * n + i) / 4 == 2 * n + i / 4 && (8 * n + i) % 4 == i % 4;
      assert q[i] == skey[8 * n + i] == Widening(comp[2 * n + i / 4], i % 4);
      UnpackedBit(comp[2 * n], comp[2 * n + 1], w, m, i, b);
    }
    BlocksEqual(s, t);
  }

  lemma UnpackedBit(c0: Long, c1: Long, w: seq<Word>, m: nat, i: nat, b: nat)
    requires Packed(c0, c1, w) && m < 16 && i < 8 && b < 4
    ensures Widening(if i < 4 then c0 else c1, i % 4)[Position(m, b)] == KeySlice(w)[i][Position(m, i % 4)]
  {
    hide KeySlice, Widening;
    var c, l := if i < 4 then c0 else c1, Position(m, i % 4);
    WideningAt(c, i % 4, Position(m, b));
    NibblePosition(m, b, i % 4);
    assert i < 4 ==> i % 4 == i;
    assert i >= 4 ==> 4 + i % 4 == i;
  }

  lemma NibblePosition(m: nat, b: nat, j: nat)
    requires m < 16 && b < 4 && j < 4
    ensures 4 * (Position(m, b) / 4) + j == Position(m, j) && Position(m, j) % 4 == j
  {
    var c, r := m / 4, m % 4;
    PositionOf(m, c, r, b);
    PositionOf(m, c, r, j);
    hide Position;
    QuotientIs(16 * r + 4 * c + b, 4, 4 * r + c, b);
    QuotientIs(16 * r + 4 * c + j, 4, 4 * r + c, j);
  }

  /** `aes128_ecb_keyexp` and its two siblings. */
  method ExpandedKey(key: seq<byte>, nk: nat) returns (skey: array<Long>)
    requires IsKeySize(nk) && |key| == 4 * nk
    ensures fresh(skey) && skey.Length == 8 * (nk + 7)
    ensures forall b: nat, n: nat :: b < 4 && n < nk + 7 ==> KeyAt(skey[..], b, n) == RoundKey(ToBits(key), nk, n)
  {
    hide AllPacked, Widening, KeyAt, RoundKey, ToBits;
    var comp := KeySchedule(key, nk);
    skey := ExpandSlices(comp[..], nk + 6);
    forall b: nat, n: nat | b < 4 && n < nk + 7 ensures KeyAt(skey[..], b, n) == RoundKey(ToBits(key), nk, n) {
      FewerPacked(comp[..], ToBits(key), nk, nk + 7, n + 1);
      RoundKeyUnpacked(comp[..], skey[..], ToBits(key), nk, n, b);
    }
  }

  lemma FewerPacked(comp: seq<Long>, key: Bits, nk: nat, m: nat, n: nat)
    requires AllPacked(comp, key, nk, m) && n <= m
    ensures AllPacked(comp, key, nk, n)
  {
    hide Packed, RoundWords;
  }

  // ----- AES in electronic codebook mode

  function RoundKeys(key: Bits, nk: nat): nat -> Block
    requires nk > 0 && |key| == 32 * nk
  {
    (n: nat) => RoundKey(key, nk, n)
  }

  /** Blocks 0 to n - 1 under FIPS 197 with the given key. */
  function AesBytes(input: seq<byte>, n: nat, key: Bits, nk: nat): (c: seq<byte>)
    requires 16 * n <= |input| && nk > 0 && |key| == 32 * nk
    ensures |c| == 16 * n
  {
    if n == 0 then [] else
      AesBytes(input, n - 1, key, nk) + FromBits(Cipher(ToBits(input[16 * (n - 1)..16 * (n - 1) + 16]),
          RoundKeys(key, nk), nk + 6))
  }

  lemma {:induction false} SameRounds(s: Block, f: nat -> Block, g: nat -> Block, n: nat)
    requires forall i: nat :: i <= n ==> f(i) == g(i)
    ensures FullRounds(s, f, n) == FullRounds(s, g, n)
  {
    hide AddRoundKey, MixColumns, ShiftRows, SubBytes;
    if n > 0 {
      SameRounds(s, f, g, n - 1);
    }
  }

  lemma SameCipher(s: Block, f: nat -> Block, g: nat -> Block, nr: nat)
    requires nr > 0 && forall i: nat :: i <= nr ==> f(i) == g(i)
    ensures Cipher(s, f, nr) == Cipher(s, g, nr)
  {
    hide AddRoundKey, FullRounds, ShiftRows, SubBytes;
    SameRounds(s, f, g, nr - 1);
  }

  lemma {:induction false} EcbIsAes(input: seq<byte>, n: nat, sk: seq<Long>, key: Bits, nk: nat)
    requires 16 * n <= |input| && nk > 0 && |key| == 32 * nk
    requires forall b: nat, m: nat :: b < 4 && m < nk + 7 ==> KeyAt(sk, b, m) == RoundKey(key, nk, m)
    ensures EcbBytes(input, n, sk, nk + 6) == AesBytes(input, n, key, nk)
  {
    hide Cipher, FromBits, ToBits, KeyAt, RoundKey;
    if n > 0 {
      EcbIsAes(input, n - 1, sk, key, nk);
      SameCipher(ToBits(input[16 * (n - 1)..16 * (n - 1) + 16]), Keys(sk, (n - 1) % 4), RoundKeys(key, nk), nk + 6);
    }
  }

  /** `aes128_ecb`, `aes192_ecb` and `aes256_ecb` after the key expansion. */
  method AesEcb(out: array<byte>, input: seq<byte>, nblocks: nat, key: seq<byte>, nk: nat)
    requires IsKeySize(nk) && |key| == 4 * nk && 16 * nblocks <= |input| && 16 * nblocks <= out.Length
    modifies out
    ensures out[..] == AesBytes(input, nblocks, ToBits(key), nk) + old(out[16 * nblocks..])
  {
    hide AesBytes, EcbBytes, ToBits, KeyAt, RoundKey;
    var skey := ExpandedKey(key, nk);
    EcbIsAes(input, nblocks, skey[..], ToBits(key), nk);
    Ecb(out, input, nblocks, skey[..], nk + 6);
  }
}
