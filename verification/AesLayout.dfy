/** How blocks get into and out of the bitsliced state: the interleaving and the transposition of test/common/aes.c. */
module AesLayout {
  import opened Halves  // Word
  import opened AesSlice

  // ----- br_aes_ct64_ortho: the 8 x 8 bit matrices made of byte p of every word are transposed

  function Transposed(q: seq<Long>): (r: seq<Long>)
    requires |q| == 8
    ensures |r| == 8
  {
    seq(8, i requires 0 <= i < 8 => TransposedWord(q, i))
  }

  function TransposedWord(q: seq<Long>, i: nat): Long
    requires |q| == 8 && i < 8
  {
    seq(64, l requires 0 <= l < 64 => q[l % 8][8 * (l / 8) + i])
  }

  lemma TransposedAt(q: seq<Long>, i: nat, p: nat, j: nat)
    requires |q| == 8 && i < 8 && p < 8 && j < 8
    ensures Transposed(q)[i][8 * p + j] == q[j][8 * p + i]
  {
    assert (8 * p + j) / 8 == p && (8 * p + j) % 8 == j;
  }

  lemma LongsEqual(a: seq<Long>, b: seq<Long>)
    requires |a| == |b| == 8
    requires forall i: nat, p: nat, j: nat :: i < 8 && p < 8 && j < 8 ==> Cell(a, i, p, j) == Cell(b, i, p, j)
    ensures a == b
  {
    forall i | 0 <= i < 8 ensures a[i] == b[i] {
      forall l | 0 <= l < 64 ensures a[i][l] == b[i][l] {
        assert Cell(a, i, l / 8, l % 8) == Cell(b, i, l / 8, l % 8);
      }
    }
  }

  /** Bit j of byte p of word i. */
  function Cell(q: seq<Long>, i: nat, p: nat, j: nat): bool
    requires |q| == 8 && i < 8 && p < 8 && j < 8
  {
    q[i][8 * p + j]
  }

  /** The transposition is its own inverse. */
  lemma TransposedTwice(q: seq<Long>)
    requires |q| == 8
    ensures Transposed(Transposed(q)) == q
  {
    hide Transposed;
    var r := Transposed(Transposed(q));
    forall i: nat, p: nat, j: nat | i < 8 && p < 8 && j < 8 ensures Cell(r, i, p, j) == Cell(q, i, p, j) {
      TransposedAt(Transposed(q), i, p, j);
      TransposedAt(q, j, p, i);
    }
    LongsEqual(r, q);
  }

  /** `SWAPN`: the low fields of x stay, its high fields are exchanged with the low fields of y. */
  function SwapFirst(x: Long, y: Long, s: nat): Long
    requires s > 0
  {
    LongOr(LongAnd(x, LowMask(s)), LongShl(LongAnd(y, LowMask(s)), s))
  }

  function SwapSecond(x: Long, y: Long, s: nat): Long
    requires s > 0
  {
    LongOr(LongShr(LongAnd(x, LongNot(LowMask(s))), s), LongAnd(y, LongNot(LowMask(s))))
  }

  lemma SwapAt(x: Long, y: Long, s: nat, p: nat, j: nat)
    requires s in {1, 2, 4} && p < 8 && j < 8
    ensures j / s % 2 == 0 ==> j + s < 8
    ensures SwapFirst(x, y, s)[8 * p + j] == if j / s % 2 == 0 then x[8 * p + j] else y[8 * p + (j - s)]
    ensures j / s % 2 == 0 ==> SwapSecond(x, y, s)[8 * p + j] == x[8 * p + (j + s)]
    ensures j / s % 2 == 1 ==> SwapSecond(x, y, s)[8 * p + j] == y[8 * p + j]
  {
    hide LowMask;
    FieldOf(s, j);
    MaskBit(s, p, j);
    var l := 8 * p + j;
    if l >= s {
      MaskStep(s, l - s);
    }
    if l + s < 64 {
      MaskStep(s, l);
    }
  }

  /** Fields alternate. */
  lemma MaskStep(s: nat, l: nat)
    requires s in {1, 2, 4} && l + s < 64
    ensures LowMask(s)[l + s] != LowMask(s)[l]
  {
    if s == 1 {
      assert (l + 1) / 1 == l / 1 + 1;
    } else if s == 2 {
      assert (l + 2) / 2 == l / 2 + 1;
    } else {
      assert (l + 4) / 4 == l / 4 + 1;
    }
  }

  lemma MaskBit(s: nat, p: nat, j: nat)
    requires s in {1, 2, 4} && p < 8 && j < 8
    ensures LowMask(s)[8 * p + j] == (j / s % 2 == 0)
  {
    if s == 1 {
      assert (8 * p + j) / 1 == 8 * p + j;
    } else if s == 2 {
      assert (8 * p + j) / 2 == 4 * p + j / 2;
    } else {
      assert (8 * p + j) / 4 == 2 * p + j / 4;
    }
  }

  lemma FieldOf(s: nat, j: nat)
    requires s in {1, 2, 4} && j < 8
    ensures j / s % 2 == 0 ==> j + s < 8 && (j + s) / s % 2 == 1
    ensures j / s % 2 == 1 ==> j >= s && (j - s) / s % 2 == 0
  {
    if s == 1 {
      assert (j + 1) / 1 == j + 1;
    } else if s == 2 {
      assert (j + 2) / 2 == j / 2 + 1;
    } else {
      assert (j + 4) / 4 == j / 4 + 1;
    }
  }

  /** Bit n of i changes places with bit n of j, where s = 2^n. */
  ghost predicate Exchanged(q: seq<Long>, r: seq<Long>, s: nat) {
    && |q| == |r| == 8 && s in {1, 2, 4}
    && forall i: nat, p: nat, j: nat :: i < 8 && p < 8 && j < 8 ==>
         Cell(r, i, p, j) == Cell(q, Turned(i, j, s), p, Turned(j, i, s))
  }

  /** i with its field s taken from j. */
  function Turned(i: nat, j: nat, s: nat): (k: nat)
    requires s in {1, 2, 4} && i < 8 && j < 8
    ensures k < 8
  {
    if i / s % 2 == j / s % 2 then i else if i / s % 2 == 0 then
      assert i + s < 8;
      i + s
    else i - s
  }

  /** Words i and i + s after one exchange. */
  ghost predicate PairDone(q: seq<Long>, r: seq<Long>, i: nat, s: nat) {
    && |q| == |r| == 8 && s in {1, 2, 4} && i + s < 8
    && r[i] == SwapFirst(q[i], q[i + s], s) && r[i + s] == SwapSecond(q[i], q[i + s], s)
  }

  lemma PairCells(q: seq<Long>, r: seq<Long>, i: nat, s: nat, p: nat, j: nat)
    requires PairDone(q, r, i, s) && p < 8 && j < 8 && i / s % 2 == 0
    ensures Cell(r, i, p, j) == Cell(q, Turned(i, j, s), p, Turned(j, i, s))
    ensures Cell(r, i + s, p, j) == Cell(q, Turned(i + s, j, s), p, Turned(j, i + s, s))
  {
    hide SwapFirst, SwapSecond;
    SwapAt(q[i], q[i + s], s, p, j);
    FieldOf(s, i);
    FieldOf(s, j);
  }

  lemma PairsDone(q: seq<Long>, r: seq<Long>, s: nat, a: nat, b: nat, c: nat, d: nat)
    requires (s == 1 && a == 0 && b == 2 && c == 4 && d == 6) || (s == 2 && a == 0 && b == 1 && c == 4 && d == 5)
          || (s == 4 && a == 0 && b == 1 && c == 2 && d == 3)
    requires PairDone(q, r, a, s) && PairDone(q, r, b, s) && PairDone(q, r, c, s) && PairDone(q, r, d, s)
    ensures Exchanged(q, r, s)
  {
    hide PairDone, Turned, Cell;
    assert |q| == |r| == 8 by { PairSize(q, r, a, s); }
    forall i: nat, p: nat, j: nat | i < 8 && p < 8 && j < 8
      ensures Cell(r, i, p, j) == Cell(q, Turned(i, j, s), p, Turned(j, i, s))
    {
      PairCells(q, r, a, s, p, j);
      PairCells(q, r, b, s, p, j);
      PairCells(q, r, c, s, p, j);
      PairCells(q, r, d, s, p, j);
    }
  }

  lemma PairSize(q: seq<Long>, r: seq<Long>, i: nat, s: nat)
    requires PairDone(q, r, i, s)
    ensures |q| == |r| == 8
  {
  }

  /** Exchanging all three bits of the indices transposes. */
  lemma ExchangedThrice(q: seq<Long>, r: seq<Long>, t: seq<Long>, u: seq<Long>)
    requires Exchanged(q, r, 1) && Exchanged(r, t, 2) && Exchanged(t, u, 4)
    ensures u == Transposed(q)
  {
    hide Transposed, Cell, Turned;
    forall i: nat, p: nat, j: nat | i < 8 && p < 8 && j < 8 ensures Cell(u, i, p, j) == Cell(Transposed(q), i, p, j) {
      TransposedAt(q, i, p, j);
      CellAt(q, i, p, j);
      ThreeTurns(i, j);
    }
    LongsEqual(u, Transposed(q));
  }

  lemma CellAt(q: seq<Long>, i: nat, p: nat, j: nat)
    requires |q| == 8 && i < 8 && p < 8 && j < 8
    ensures Cell(Transposed(q), i, p, j) == Cell(q, j, p, i)
  {
    hide Transposed;
    TransposedAt(q, i, p, j);
  }

  /** Turning gives the field of j to i and the other way round. */
  lemma TurnedBits(i: nat, j: nat, a: nat, b: nat, c: nat, d: nat, e: nat, f: nat)
    requires i == a + 2 * b + 4 * c && j == d + 2 * e + 4 * f && a < 2 && b < 2 && c < 2 && d < 2 && e < 2 && f < 2
    ensures i < 8 && j < 8
    ensures Turned(i, j, 1) == d + 2 * b + 4 * c && Turned(i, j, 2) == a + 2 * e + 4 * c
        && Turned(i, j, 4) == a + 2 * b + 4 * f
  {
    assert i / 2 == b + 2 * c && j / 2 == e + 2 * f && i / 4 == c && j / 4 == f;
    assert i / 1 == i && j / 1 == j && i % 2 == a && j % 2 == d;
  }

  lemma ThreeTurns(i: nat, j: nat)
    requires i < 8 && j < 8
    ensures var i1, j1 := Turned(i, j, 4), Turned(j, i, 4);
            var i2, j2 := Turned(i1, j1, 2), Turned(j1, i1, 2);
            Turned(i2, j2, 1) == j && Turned(j2, i2, 1) == i
  {
    hide Turned;
    var a, b, c := i % 2, i / 2 % 2, i / 4;
    var d, e, f := j % 2, j / 2 % 2, j / 4;
    TurnedBits(i, j, a, b, c, d, e, f);
    TurnedBits(j, i, d, e, f, a, b, c);
    var i1, j1 := Turned(i, j, 4), Turned(j, i, 4);
    TurnedBits(i1, j1, a, b, f, d, e, c);
    TurnedBits(j1, i1, d, e, c, a, b, f);
    var i2, j2 := Turned(i1, j1, 2), Turned(j1, i1, 2);
    TurnedBits(i2, j2, a, e, f, d, b, c);
    TurnedBits(j2, i2, d, b, c, a, e, f);
  }

  /** One `SWAPN` line. */
  method Swap(q: array<Long>, i: nat, s: nat)
    requires q.Length == 8 && s in {1, 2, 4} && i + s < 8
    modifies q
    ensures PairDone(old(q[..]), q[..], i, s)
    ensures forall k :: 0 <= k < 8 && k != i && k != i + s ==> q[k] == old(q[k])
  {
    hide SwapFirst, SwapSecond;
    var a, b := q[i], q[i + s];
    q[i] := SwapFirst(a, b, s);
    q[i + s] := SwapSecond(a, b, s);
  }

  /** Four `SWAPN` lines with the same mask. */
  method SwapAll(q: array<Long>, s: nat, a: nat, b: nat, c: nat, d: nat)
    requires q.Length == 8
    requires (s == 1 && a == 0 && b == 2 && c == 4 && d == 6) || (s == 2 && a == 0 && b == 1 && c == 4 && d == 5)
          || (s == 4 && a == 0 && b == 1 && c == 2 && d == 3)
    modifies q
    ensures Exchanged(old(q[..]), q[..], s)
  {
    hide SwapFirst, SwapSecond, Exchanged;
    ghost var q0 := q[..];
    Swap(q, a, s);
    Swap(q, b, s);
    Swap(q, c, s);
    Swap(q, d, s);
    PairsDone(q0, q[..], s, a, b, c, d);
  }

  /** `br_aes_ct64_ortho`. */
  method Ortho(q: array<Long>)
    requires q.Length == 8
    modifies q
    ensures q[..] == Transposed(old(q[..]))
  {
    hide Exchanged, Transposed;
    ghost var q0 := q[..];
    SwapAll(q, 1, 0, 2, 4, 6);
    ghost var q1 := q[..];
    SwapAll(q, 2, 0, 1, 4, 5);
    ghost var q2 := q[..];
    SwapAll(q, 4, 0, 1, 2, 3);
    ExchangedThrice(q0, q1, q2, q[..]);
  }

  // ----- interleaving

  function Extend(w: Word): Long {
    w + seq(32, _ => false)
  }

  /** The bytes of w go to the even-numbered bytes. */
  function Spread(w: Word): Long {
    var x := Extend(w);
    var y := LongAnd(LongOr(x, LongShl(x, 16)), LowMask(16));
    LongAnd(LongOr(y, LongShl(y, 8)), LowMask(8))
  }

  lemma SpreadAt(w: Word, p: nat, j: nat)
    requires p < 8 && j < 8
    ensures Spread(w)[8 * p + j] == (p % 2 == 0 && w[8 * (p / 2) + j])
  {
    var l := 8 * p + j;
    assert l / 8 == p && l / 16 == p / 2;
  }

  /** `br_aes_ct64_interleave_in`, for two of the four words. */
  function InterleaveIn(w0: Word, w2: Word): Long {
    LongOr(Spread(w0), LongShl(Spread(w2), 8))
  }

  lemma InterleaveAt(w0: Word, w2: Word, p: nat, j: nat)
    requires p < 8 && j < 8
    ensures InterleaveIn(w0, w2)[8 * p + j] == if p % 2 == 0 then w0[8 * (p / 2) + j] else w2[8 * (p / 2) + j]
  {
    hide Spread;
    SpreadAt(w0, p, j);
    if p > 0 {
      SpreadAt(w2, p - 1, j);
      assert 8 * p + j - 8 == 8 * (p - 1) + j;
    }
  }

  /** `br_aes_ct64_interleave_out` for one word, after the choice of the even bytes. */
  function Collect(x: Long): Word {
    var y := LongAnd(LongOr(x, LongShr(x, 8)), LowMask(16));
    seq(32, k requires 0 <= k < 32 => y[k] || y[k + 16])
  }

  function OutEven(q: Long): Word {
    Collect(LongAnd(q, LowMask(8)))
  }

  function OutOdd(q: Long): Word {
    Collect(LongAnd(LongShr(q, 8), LowMask(8)))
  }

  lemma CollectAt(x: Long, r: nat, j: nat)
    requires r < 4 && j < 8 && forall l :: 0 <= l < 64 && l / 8 % 2 == 1 ==> !x[l]
    ensures Collect(x)[8 * r + j] == x[16 * r + j]
  {
    var k := 8 * r + j;
    assert k / 8 == r && (k + 8) / 8 == r + 1 && (k + 16) / 8 == r + 2 && (k + 24) / 8 == r + 3;
    assert k / 16 == r / 2;
  }

  lemma OutAt(q: Long, r: nat, j: nat)
    requires r < 4 && j < 8
    ensures OutEven(q)[8 * r + j] == q[8 * (2 * r) + j] && OutOdd(q)[8 * r + j] == q[8 * (2 * r + 1) + j]
  {
    hide Collect;
    CollectAt(LongAnd(q, LowMask(8)), r, j);
    CollectAt(LongAnd(LongShr(q, 8), LowMask(8)), r, j);
    assert (16 * r + j) / 8 == 2 * r;
  }

  /** Interleaving loses nothing. */
  lemma OutUndoesIn(w0: Word, w2: Word)
    ensures OutEven(InterleaveIn(w0, w2)) == w0 && OutOdd(InterleaveIn(w0, w2)) == w2
  {
    hide InterleaveIn, OutEven, OutOdd;
    var q := InterleaveIn(w0, w2);
    forall k | 0 <= k < 32 ensures OutEven(q)[k] == w0[k] && OutOdd(q)[k] == w2[k] {
      OutAt(q, k / 8, k % 8);
      InterleaveAt(w0, w2, 2 * (k / 8), k % 8);
      InterleaveAt(w0, w2, 2 * (k / 8) + 1, k % 8);
    }
  }
}
