/** `aes_ecb4x` and `aes_ecb` of test/common/aes.c: four blocks at a time, each as if it were alone. */
module AesCipher {
  import opened Bytes
  import opened KeccakSpec  // Bits
  import opened Halves  // Word
  import opened LaneBytes
  import opened StateBytes  // WordAt
  import opened Codec  // WriteBytes, Spliced
  import opened AesSpec
  import opened AesSlice
  import opened AesLayout

  // ----- blocks in sixteen words

  function BlockOf(w: seq<Word>, b: nat): Block
    requires 4 * b + 4 <= |w|
  {
    var x: Bits, y: Bits, z: Bits, u: Bits := w[4 * b], w[4 * b + 1], w[4 * b + 2], w[4 * b + 3];
    x + y + z + u
  }

  lemma BlockBit(w: seq<Word>, b: nat, c: nat, k: nat)
    requires 4 * b + 4 <= |w| && c < 4 && k < 32
    ensures BlockOf(w, b)[32 * c + k] == w[4 * b + c][k]
  {
  }

  /** The words into which `aes_ecb4x` interleaves w. */
  function Loaded(w: seq<Word>): (q: seq<Long>)
    requires |w| == 16
    ensures |q| == 8
  {
    seq(8, i requires 0 <= i < 8 => LoadedWord(w, 4 * (i % 4) + i / 4))
  }

  function LoadedWord(w: seq<Word>, k: nat): Long
    requires k + 2 < |w|
  {
    InterleaveIn(w[k], w[k + 2])
  }

  lemma LoadedAt(w: seq<Word>, b: nat, h: nat, p: nat, j: nat)
    requires |w| == 16 && b < 4 && h < 2 && p < 8 && j < 8
    ensures Loaded(w)[b + 4 * h][8 * p + j] == w[4 * b + h + 2 * (p % 2)][8 * (p / 2) + j]
  {
    hide InterleaveIn;
    InterleaveAt(w[4 * b + h], w[4 * b + h + 2], p, j);
    assert (b + 4 * h) % 4 == b && (b + 4 * h) / 4 == h;
  }

  /** A position as a byte and a bit of the word. */
  lemma PositionSplit(m: nat, c: nat, r: nat, b: nat)
    requires m == 4 * c + r && c < 4 && r < 4 && b < 4
    ensures var p, j := 2 * r + c / 2, b + 4 * (c % 2);
            p < 8 && j < 8 && Position(m, b) == 8 * p + j && p / 2 == r && p % 2 == c / 2
  {
    PositionOf(m, c, r, b);
    hide Position;
    assert c == 2 * (c / 2) + c % 2;
    assert (2 * r + c / 2) / 2 == r;
  }

  /** What is loaded and transposed is block by block what the words hold. */
  lemma LaneLoaded(w: seq<Word>, b: nat)
    requires |w| == 16 && b < 4
    ensures Lane(Transposed(Loaded(w)), b) == BlockOf(w, b)
  {
    hide Lane, Transposed, Loaded, Position, BlockOf;
    var q := Transposed(Loaded(w));
    var s, t := Lane(q, b), BlockOf(w, b);
    forall m: nat, i: nat | m < 16 && i < 8 ensures BitAt(s, m, i) == BitAt(t, m, i) {
      var c, r := m / 4, m % 4;
      var p, h := 2 * r + c / 2, c % 2;
      LaneAt(q, b, m, i);
      PositionSplit(m, c, r, b);
      TransposedAt(Loaded(w), i, p, b + 4 * h);
      LoadedAt(w, b, h, p, i);
      BlockBit(w, b, c, 8 * r + i);
      assert 8 * m + i == 32 * c + (8 * r + i) && h + 2 * (c / 2) == c;
    }
    BlocksEqual(s, t);
  }

  /** The words that `aes_ecb4x` reads off again. */
  function Unloaded(q: seq<Long>): (w: seq<Word>)
    requires |q| == 8
    ensures |w| == 16
  {
    seq(16, k requires 0 <= k < 16 => UnloadedWord(q[k / 4 + 4 * (k % 2)], k % 4 / 2))
  }

  function UnloadedWord(x: Long, h: nat): Word {
    if h == 0 then OutEven(x) else OutOdd(x)
  }

  lemma UnloadedAt(q: seq<Long>, b: nat, c: nat, r: nat, i: nat)
    requires |q| == 8 && b < 4 && c < 4 && r < 4 && i < 8
    ensures Unloaded(q)[4 * b + c][8 * r + i] == q[b + 4 * (c % 2)][8 * (2 * r + c / 2) + i]
  {
    hide OutEven, OutOdd;
    var k := 4 * b + c;
    assert k / 4 == b && k % 4 == c && k % 2 == c % 2;
    OutAt(q[b + 4 * (c % 2)], r, i);
  }

  lemma BlockUnloaded(q: seq<Long>, b: nat)
    requires |q| == 8 && b < 4
    ensures BlockOf(Unloaded(Transposed(q)), b) == Lane(q, b)
  {
    hide Lane, Transposed, Unloaded, Position, BlockOf;
    var w := Unloaded(Transposed(q));
    var s, t := BlockOf(w, b), Lane(q, b);
    forall m: nat, i: nat | m < 16 && i < 8 ensures BitAt(s, m, i) == BitAt(t, m, i) {
      var c, r := m / 4, m % 4;
      LaneAt(q, b, m, i);
      PositionSplit(m, c, r, b);
      BlockBit(w, b, c, 8 * r + i);
      UnloadedAt(Transposed(q), b, c, r, i);
      TransposedAt(q, b + 4 * (c % 2), 2 * r + c / 2, i);
      assert 8 * m + i == 32 * c + (8 * r + i);
    }
    BlocksEqual(s, t);
  }

  // ----- the rounds

  /** Round key n for block b, out of the bitsliced key words. */
  function KeyAt(sk: seq<Long>, b: nat, n: nat): Block
    requires b < 4
  {
    if 8 * n + 8 <= |sk| then Lane(sk[8 * n..8 * n + 8], b) else seq(128, _ => false)
  }

  function Keys(sk: seq<Long>, b: nat): nat -> Block
    requires b < 4
  {
    (n: nat) => KeyAt(sk, b, n)
  }

  /** Every block is where the cipher on that block alone would be after n rounds. */
  ghost predicate AfterRounds(q: seq<Long>, w: seq<Word>, sk: seq<Long>, n: nat) {
    && |q| == 8 && |w| == 16
    && forall b: nat :: b < 4 ==> Lane(q, b) == FullRounds(BlockOf(w, b), Keys(sk, b), n)
  }

  lemma FirstKey(w: seq<Word>, sk: seq<Long>)
    requires |w| == 16 && |sk| >= 8
    ensures AfterRounds(AddSlice(Transposed(Loaded(w)), sk[0..8]), w, sk, 0)
  {
    hide Lane, Transposed, Loaded, BlockOf, AddRoundKey, AddSlice;
    var q := Transposed(Loaded(w));
    forall b: nat | b < 4 ensures Lane(AddSlice(q, sk[0..8]), b) == FullRounds(BlockOf(w, b), Keys(sk, b), 0) {
      LaneLoaded(w, b);
      LaneAddRoundKey(q, sk[0..8], b);
      assert sk[0..8] == sk[8 * 0..8 * 0 + 8];
    }
  }

  lemma NextRound(q: seq<Long>, w: seq<Word>, sk: seq<Long>, n: nat, k: seq<Long>)
    requires AfterRounds(q, w, sk, n) && 8 * n + 16 <= |sk| && k == sk[8 * (n + 1)..8 * (n + 1) + 8]
    ensures AfterRounds(AddSlice(MixSlice(ShiftRowsSlice(SboxSlice(q))), k), w, sk, n + 1)
  {
    hide Lane, BlockOf, AddRoundKey, AddSlice, SubBytes, SboxSlice, ShiftRows, ShiftRowsSlice, MixColumns, MixSlice;
    var x := SboxSlice(q);
    var y := ShiftRowsSlice(x);
    var z := MixSlice(y);
    forall b: nat | b < 4 ensures Lane(AddSlice(z, k), b) == FullRounds(BlockOf(w, b), Keys(sk, b), n + 1) {
      LaneSbox(q, b);
      LaneShiftRows(x, b);
      LaneMixColumns(y, b);
      LaneAddRoundKey(z, k, b);
      assert Keys(sk, b)(n + 1) == Lane(k, b);
    }
  }

  lemma LastRound(q: seq<Long>, w: seq<Word>, sk: seq<Long>, nr: nat, k: seq<Long>, b: nat)
    requires nr > 0 && AfterRounds(q, w, sk, nr - 1) && 8 * nr + 8 <= |sk| && k == sk[8 * nr..8 * nr + 8] && b < 4
    ensures BlockOf(Unloaded(Transposed(AddSlice(ShiftRowsSlice(SboxSlice(q)), k))), b)
        == Cipher(BlockOf(w, b), Keys(sk, b), nr)
  {
    hide Lane, BlockOf, AddRoundKey, AddSlice, SubBytes, SboxSlice, ShiftRows, ShiftRowsSlice, Unloaded, Transposed;
    var x := SboxSlice(q);
    var y := ShiftRowsSlice(x);
    LaneSbox(q, b);
    LaneShiftRows(x, b);
    LaneAddRoundKey(y, k, b);
    BlockUnloaded(AddSlice(y, k), b);
    assert Keys(sk, b)(nr) == Lane(k, b);
  }

  // ----- bytes

  /** The first words of v were read from src. */
  ghost predicate Decoded(v: seq<Word>, num: nat, src: seq<byte>, o: nat) {
    num <= |v| && o + 4 * num <= |src| && forall i :: 0 <= i < num ==> v[i] == WordAt(src[o + 4 * i..o + 4 * i + 4])
  }

  /** `br_range_dec32le`. */
  method DecodeWords(v: array<Word>, num: nat, src: seq<byte>, o: nat)
    requires num <= v.Length && o + 4 * num <= |src|
    modifies v
    ensures Decoded(v[..], num, src, o) && forall i :: num <= i < v.Length ==> v[i] == old(v[i])
  {
    hide ToBits;
    var i := 0;
    while i < num
      invariant 0 <= i <= num
      invariant forall k :: 0 <= k < v.Length ==>
            v[k] == if k < i then WordAt(src[o + 4 * k..o + 4 * k + 4]) else old(v[k])
    {
      v[i] := WordAt(src[o + 4 * i..o + 4 * i + 4]);
      i := i + 1;
    }
  }

  lemma BlockDecoded(v: seq<Word>, num: nat, src: seq<byte>, o: nat, b: nat)
    requires Decoded(v, num, src, o) && 4 * b + 4 <= num
    ensures BlockOf(v, b) == ToBits(src[o + 16 * b..o + 16 * b + 16])
  {
    hide ToBits;
    var k := o + 16 * b;
    var x, y, z, u := src[k..k + 4], src[k + 4..k + 8], src[k + 8..k + 12], src[k + 12..k + 16];
    assert v[4 * b] == ToBits(x) && v[4 * b + 1] == ToBits(y) && v[4 * b + 2] == ToBits(z) && v[4 * b + 3] == ToBits(u);
    ToBitsAppend(x, y);
    ToBitsAppend(x + y, z);
    ToBitsAppend(x + y + z, u);
    assert src[k..k + 16] == x + y + z + u;
  }

  function WordsBytes(v: seq<Word>): (b: seq<byte>)
    ensures |b| == 4 * |v|
  {
    if |v| == 0 then [] else WordsBytes(v[..|v| - 1]) + FromBits(v[|v| - 1])
  }

  lemma WordsNext(v: seq<Word>, k: nat)
    requires k < |v|
    ensures WordsBytes(v[..k + 1]) == WordsBytes(v[..k]) + FromBits(v[k])
  {
    assert v[..k + 1][..k] == v[..k];
  }

  lemma WordsBlock(v: seq<Word>, b: nat)
    requires 4 * b + 4 <= |v|
    ensures WordsBytes(v[..4 * b + 4]) == WordsBytes(v[..4 * b]) + FromBits(BlockOf(v, b))
  {
    hide FromBits, WordsBytes;
    WordsNext(v, 4 * b);
    WordsNext(v, 4 * b + 1);
    WordsNext(v, 4 * b + 2);
    WordsNext(v, 4 * b + 3);
    var x: Bits, y: Bits, z: Bits, u: Bits := v[4 * b], v[4 * b + 1], v[4 * b + 2], v[4 * b + 3];
    FromBitsAppend(x, y);
    FromBitsAppend(x + y, z);
    FromBitsAppend(x + y + z, u);
  }

  /** `br_range_enc32le`. */
  method EncodeWords(dst: array<byte>, o: nat, v: seq<Word>)
    requires o + 4 * |v| <= dst.Length
    modifies dst
    ensures dst[..] == old(dst[..o]) + WordsBytes(v) + old(dst[o + 4 * |v|..])
  {
    hide FromBits, WordsBytes, Spliced;
    ghost var d0 := dst[..];
    SplicedNone(d0, o);
    NoWords(v);
    var k := 0;
    while k < |v|
      invariant 0 <= k <= |v| && Spliced(d0, o, WordsBytes(v[..k]), dst[..])
    {
      ghost var s := dst[..];
      WriteBytes(dst, o + 4 * k, FromBits(v[k]));
      WordsNext(v, k);
      SplicedMore(d0, o, WordsBytes(v[..k]), FromBits(v[k]), s, dst[..]);
      k := k + 1;
    }
    assert v[..|v|] == v;
    SplicedIs(d0, o, WordsBytes(v), dst[..]);
  }

  lemma NoWords(v: seq<Word>)
    ensures WordsBytes(v[..0]) == []
  {
  }

  // ----- four blocks, and any number of blocks

  /** One block encrypted by itself. */
  function EncryptBlock(s: Block, sk: seq<Long>, b: nat, nr: nat): (c: seq<byte>)
    requires b < 4 && nr > 0
    ensures |c| == 16
  {
    FromBits(Cipher(s, Keys(sk, b), nr))
  }

  function FourBlocks(w: seq<Word>, sk: seq<Long>, nr: nat): (c: seq<byte>)
    requires |w| == 16 && nr > 0
    ensures |c| == 64
  {
    EncryptBlock(BlockOf(w, 0), sk, 0, nr) + EncryptBlock(BlockOf(w, 1), sk, 1, nr)
      + EncryptBlock(BlockOf(w, 2), sk, 2, nr) + EncryptBlock(BlockOf(w, 3), sk, 3, nr)
  }

  lemma FourBytes(v: seq<Word>, w: seq<Word>, sk: seq<Long>, nr: nat)
    requires |v| == |w| == 16 && nr > 0 && forall b: nat :: b < 4 ==>
          BlockOf(v, b) == Cipher(BlockOf(w, b), Keys(sk, b), nr)
    ensures WordsBytes(v) == FourBlocks(w, sk, nr)
  {
    hide BlockOf, Cipher, FromBits, WordsBytes;
    NoWords(v);
    WordsBlock(v, 0);
    WordsBlock(v, 1);
    WordsBlock(v, 2);
    WordsBlock(v, 3);
    assert v[..16] == v;
  }

  /** `aes_ecb4x`. */
  method Ecb4x(out: array<byte>, o: nat, ivw: seq<Word>, sk: seq<Long>, nrounds: nat)
    requires o + 64 <= out.Length && |ivw| == 16 && nrounds > 0 && |sk| >= 8 * nrounds + 8
    modifies out
    ensures out[..] == old(out[..o]) + FourBlocks(ivw, sk, nrounds) + old(out[o + 64..])
  {
    hide Loaded, LoadedWord, Transposed, AddSlice, SboxSlice, ShiftRowsSlice, MixSlice, AfterRounds, Unloaded,
        FourBlocks, BlockOf, WordsBytes,
         Cipher;
    var q := new Long[8];
    Load(q, ivw);
    Ortho(q);
    AddRoundKeyInPlace(q, sk, 0);
    FirstKey(ivw, sk);
    var i: nat := 1;
    while i < nrounds
      invariant 1 <= i <= nrounds && AfterRounds(q[..], ivw, sk, i - 1) && out[..] == old(out[..])
    {
      NextRound(q[..], ivw, sk, i - 1, sk[8 * i..8 * i + 8]);
      BitsliceSbox(q);
      ShiftRowsInPlace(q);
      MixColumnsInPlace(q);
      AddRoundKeyInPlace(q, sk, 8 * i);
      i := i + 1;
    }
    ghost var z := q[..];
    BitsliceSbox(q);
    ShiftRowsInPlace(q);
    AddRoundKeyInPlace(q, sk, 8 * nrounds);
    Ortho(q);
    var w := Unload(q[..]);
    forall b: nat | b < 4 ensures BlockOf(w, b) == Cipher(BlockOf(ivw, b), Keys(sk, b), nrounds) {
      LastRound(z, ivw, sk, nrounds, sk[8 * nrounds..8 * nrounds + 8], b);
    }
    FourBytes(w, ivw, sk, nrounds);
    EncodeWords(out, o, w);
  }

  method Load(q: array<Long>, w: seq<Word>)
    requires q.Length == 8 && |w| == 16
    modifies q
    ensures q[..] == Loaded(w)
  {
    hide InterleaveIn, Loaded;
    ghost var l := Loaded(w);
    var i := 0;
    while i < 4
      invariant 0 <= i <= 4
      invariant forall k :: 0 <= k < i ==> q[k] == l[k]
      invariant forall k :: 4 <= k < i + 4 ==> q[k] == l[k]
    {
      LoadedPair(w, i);
      q[i], q[i + 4] := InterleaveIn(w[4 * i], w[4 * i + 2]), InterleaveIn(w[4 * i + 1], w[4 * i + 3]);
      i := i + 1;
    }
  }

  lemma LoadedPair(w: seq<Word>, i: nat)
    requires |w| == 16 && i < 4
    ensures Loaded(w)[i] == InterleaveIn(w[4 * i], w[4 * i + 2])
        && Loaded(w)[i + 4] == InterleaveIn(w[4 * i + 1], w[4 * i + 3])
  {
    hide InterleaveIn;
    assert (i + 4) % 4 == i && (i + 4) / 4 == 1;
  }

  method Unload(q: seq<Long>) returns (w: seq<Word>)
    requires |q| == 8
    ensures w == Unloaded(q)
  {
    hide OutEven, OutOdd;
    w := [];
    var i := 0;
    while i < 4
      invariant 0 <= i <= 4 && |w| == 4 * i
      invariant forall k :: 0 <= k < 4 * i ==> w[k] == UnloadedWord(q[k / 4 + 4 * (k % 2)], k % 4 / 2)
    {
      w := w + [OutEven(q[i]), OutEven(q[i + 4]), OutOdd(q[i]), OutOdd(q[i + 4])];
      i := i + 1;
    }
  }

  /** Blocks 0 to n - 1, each encrypted by itself. */
  function EcbBytes(input: seq<byte>, n: nat, sk: seq<Long>, nr: nat): (c: seq<byte>)
    requires 16 * n <= |input| && nr > 0
    ensures |c| == 16 * n
  {
    if n == 0 then [] else
      EcbBytes(input, n - 1, sk, nr) + EncryptBlock(ToBits(input[16 * (n - 1)..16 * (n - 1) + 16]), sk, (n - 1) % 4, nr)
  }

  /** The first blocks of a group of four. */
  lemma GroupBytes(w: seq<Word>, input: seq<byte>, g: nat, m: nat, n: nat, sk: seq<Long>, nr: nat)
    requires |w| == 16 && m <= n <= 4 && 64 * g + 16 * n <= |input| && nr > 0 && Decoded(w, 4 * n, input, 64 * g)
    ensures EcbBytes(input, 4 * g + m, sk, nr) == EcbBytes(input, 4 * g, sk, nr) + FourBlocks(w, sk, nr)[..16 * m]
  {
    hide Decoded, EncryptBlock, BlockOf, ToBits, FourBlocks, EcbBytes;
    if m > 0 {
      GroupBytes(w, input, g, m - 1, n, sk, nr);
      BlockDecoded(w, 4 * n, input, 64 * g, m - 1);
      EcbNext(input, 4 * g + (m - 1), sk, nr);
      assert (4 * g + (m - 1)) % 4 == m - 1 && 16 * (4 * g + (m - 1)) == 64 * g + 16 * (m - 1);
      FourthPart(w, sk, nr, m - 1);
    } else {
      assert FourBlocks(w, sk, nr)[..0] == [];
    }
  }

  lemma EcbNext(input: seq<byte>, n: nat, sk: seq<Long>, nr: nat)
    requires 16 * n + 16 <= |input| && nr > 0
    ensures EcbBytes(input, n + 1, sk, nr) == EcbBytes(input, n, sk, nr)
        + EncryptBlock(ToBits(input[16 * n..16 * n + 16]), sk, n % 4, nr)
  {
    hide EncryptBlock, ToBits;
  }

  lemma FourthPart(w: seq<Word>, sk: seq<Long>, nr: nat, b: nat)
    requires |w| == 16 && nr > 0 && b < 4
    ensures FourBlocks(w, sk, nr)[..16 * b + 16] == FourBlocks(w, sk, nr)[..16 * b]
        + EncryptBlock(BlockOf(w, b), sk, b, nr)
  {
    hide EncryptBlock, BlockOf;
  }

  /** One pass of the loop of `aes_ecb`. */
  method FullGroup(out: array<byte>, blocks: array<Word>, input: seq<byte>, g: nat, n: nat, sk: seq<Long>, nr: nat,
      ghost d0: seq<byte>)
    requires 64 * g + 64 <= |input| && 64 * g + 64 <= out.Length == |d0| && nr > 0 && |sk| >= 8 * nr + 8
    requires blocks.Length == 16 && blocks as object != out && n == 4 * g
        && Spliced(d0, 0, EcbBytes(input, n, sk, nr), out[..])
    modifies out, blocks
    ensures Spliced(d0, 0, EcbBytes(input, n + 4, sk, nr), out[..])
  {
    hide FourBlocks, Spliced, Decoded, EcbBytes;
    ghost var s := out[..];
    DecodeWords(blocks, 16, input, 64 * g);
    Ecb4x(out, 64 * g, blocks[..], sk, nr);
    ghost var c := FourBlocks(blocks[..], sk, nr);
    GroupBytes(blocks[..], input, g, 4, 4, sk, nr);
    assert c[..64] == c;
    SplicedMore(d0, 0, EcbBytes(input, 4 * g, sk, nr), c, s, out[..]);
  }

  /** The last, incomplete group; the words of `blocks` that are not set may hold anything. */
  method LastGroup(out: array<byte>, blocks: array<Word>, input: seq<byte>, g: nat, n: nat, m: nat, sk: seq<Long>,
      nr: nat, ghost d0: seq<byte>)
    requires m < 4 && 64 * g + 16 * m <= |input| && 64 * g + 16 * m <= out.Length == |d0| && nr > 0
        && |sk| >= 8 * nr + 8
    requires blocks.Length == 16 && blocks as object != out && n == 4 * g
        && Spliced(d0, 0, EcbBytes(input, n, sk, nr), out[..])
    modifies out, blocks
    ensures Spliced(d0, 0, EcbBytes(input, n + m, sk, nr), out[..])
  {
    hide FourBlocks, Spliced, Decoded, EcbBytes;
    ghost var s := out[..];
    var t := new byte[64];
    DecodeWords(blocks, 4 * m, input, 64 * g);
    Ecb4x(t, 0, blocks[..], sk, nr);
    ghost var c := FourBlocks(blocks[..], sk, nr);
    assert t[..] == c;
    GroupBytes(blocks[..], input, g, m, m, sk, nr);
    WriteBytes(out, 64 * g, t[..16 * m]);
    SplicedMore(d0, 0, EcbBytes(input, 4 * g, sk, nr), c[..16 * m], s, out[..]);
  }

  /** `aes_ecb`: any number of blocks, each encrypted by itself. */
  method Ecb(out: array<byte>, input: seq<byte>, nblocks: nat, rkeys: seq<Long>, nrounds: nat)
    requires 16 * nblocks <= |input| && 16 * nblocks <= out.Length && nrounds > 0 && |rkeys| >= 8 * nrounds + 8
    modifies out
    ensures out[..] == EcbBytes(input, nblocks, rkeys, nrounds) + old(out[16 * nblocks..])
  {
    hide *;
    ghost var d0 := out[..];
    var blocks := new Word[16];
    SplicedNone(d0, 0);
    NoBlocks(input, rkeys, nrounds);
    var left, g, done: nat := nblocks, 0, 0;
    while left >= 4
      invariant 0 <= left && left + done == nblocks && done == 4 * g
      invariant Spliced(d0, 0, EcbBytes(input, done, rkeys, nrounds), out[..])
    {
      GroupFits(nblocks, left, g, done, 4, |input|, out.Length);
      FullGroup(out, blocks, input, g, done, rkeys, nrounds, d0);
      left, g, done := left - 4, g + 1, done + 4;
    }
    if left > 0 {
      GroupFits(nblocks, left, g, done, left, |input|, out.Length);
      LastGroup(out, blocks, input, g, done, left, rkeys, nrounds, d0);
      done := done + left;
    }
    EcbDone(d0, input, done, nblocks, rkeys, nrounds, out[..]);
  }

  lemma EcbDone(d0: seq<byte>, input: seq<byte>, n: nat, nblocks: nat, sk: seq<Long>, nr: nat, t: seq<byte>)
    requires n == nblocks && 16 * n <= |input| && nr > 0 && Spliced(d0, 0, EcbBytes(input, n, sk, nr), t)
    ensures 16 * nblocks <= |d0| && t == EcbBytes(input, nblocks, sk, nr) + d0[16 * nblocks..]
  {
    hide EcbBytes;
  }

  /** The next m blocks are there. */
  lemma GroupFits(nblocks: nat, left: nat, g: nat, done: nat, m: nat, a: nat, b: nat)
    requires left + done == nblocks && done == 4 * g && m <= left && 16 * nblocks <= a && 16 * nblocks <= b
    ensures 64 * g + 16 * m <= a && 64 * g + 16 * m <= b && 16 * (done + m) <= a
    ensures m == 4 ==> 64 * g + 64 <= a && 64 * g + 64 <= b && done + 4 == 4 * (g + 1)
  {
  }

  lemma NoBlocks(input: seq<byte>, sk: seq<Long>, nr: nat)
    requires nr > 0
    ensures EcbBytes(input, 0, sk, nr) == []
  {
  }
}
