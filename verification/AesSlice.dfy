/**
 The bitsliced state of test/common/aes.c: eight 64-bit words, of which word i holds bit i of every byte of four blocks,
 and the steps of the cipher on it.
 */
module AesSlice {
  import opened KeccakSpec  // Bits
  import opened AesSpec

  /** A `uint64_t`, as its bits from the least significant up. */
  type Long = w: seq<bool> | |w| == 64 witness seq(64, _ => false)

  function LongXor(a: Long, b: Long): Long {
    seq(64, l requires 0 <= l < 64 => a[l] != b[l])
  }

  function LongAnd(a: Long, b: Long): Long {
    seq(64, l requires 0 <= l < 64 => a[l] && b[l])
  }

  function LongOr(a: Long, b: Long): Long {
    seq(64, l requires 0 <= l < 64 => a[l] || b[l])
  }

  function LongNot(a: Long): Long {
    seq(64, l requires 0 <= l < 64 => !a[l])
  }

  function LongShl(a: Long, n: nat): Long {
    seq(64, l requires 0 <= l < 64 => if l < n then false else a[l - n])
  }

  function LongShr(a: Long, n: nat): Long {
    seq(64, l requires 0 <= l < 64 => if l + n < 64 then a[l + n] else false)
  }

  /** The mask of the s low bits out of every 2 * s, e.g. 0x5555555555555555 for s = 1. */
  function LowMask(s: nat): Long
    requires s > 0
  {
    seq(64, l requires 0 <= l < 64 => l / s % 2 == 0)
  }

  /** The mask of bits lo to hi - 1, e.g. 0x00000000FFF00000 for 20 and 32. */
  function RangeMask(lo: nat, hi: nat): Long {
    seq(64, l requires 0 <= l < 64 => lo <= l < hi)
  }

  // ----- what the words represent

  /** Bit l of every word. */
  function At(q: seq<Long>, l: nat): (x: Bits)
    requires l < 64
    ensures |x| == |q|
  {
    seq(|q|, i requires 0 <= i < |q| => q[i][l])
  }

  /** Where byte m of block b is: rows are 16 bits apart, columns 4, and the four blocks are neighbours. */
  function Position(m: nat, b: nat): (l: nat)
    requires m < 16 && b < 4
    ensures l < 64
  {
    16 * (m % 4) + 4 * (m / 4) + b
  }

  /** Block b. */
  function Lane(q: seq<Long>, b: nat): Block
    requires |q| == 8 && b < 4
  {
    seq(128, k requires 0 <= k < 128 => q[k % 8][Position(k / 8, b)])
  }

  lemma LaneAt(q: seq<Long>, b: nat, m: nat, i: nat)
    requires |q| == 8 && b < 4 && m < 16 && i < 8
    ensures Lane(q, b)[8 * m + i] == q[i][Position(m, b)]
  {
    hide Position;
    assert (8 * m + i) / 8 == m && (8 * m + i) % 8 == i;
  }

  lemma LaneByte(q: seq<Long>, b: nat, m: nat)
    requires |q| == 8 && b < 4 && m < 16
    ensures ByteAt(Lane(q, b), m) == At(q, Position(m, b))
  {
    hide Lane, Position;
    var x, y := ByteAt(Lane(q, b), m), At(q, Position(m, b));
    forall i | 0 <= i < 8 ensures x[i] == y[i] {
      LaneAt(q, b, m, i);
    }
  }

  /** Blocks are equal if their bytes are. */
  lemma BlocksEqual(s: Block, t: Block)
    requires forall m: nat, i: nat :: m < 16 && i < 8 ==> BitAt(s, m, i) == BitAt(t, m, i)
    ensures s == t
  {
    forall k | 0 <= k < 128 ensures s[k] == t[k] {
      assert BitAt(s, k / 8, k % 8) == BitAt(t, k / 8, k % 8);
    }
  }

  /** Bit i of byte m. */
  function BitAt(s: Block, m: nat, i: nat): bool
    requires m < 16 && i < 8
  {
    s[8 * m + i]
  }

  // ----- the S-box

  function LongWire(w: seq<Long>, k: nat): Long {
    if k < |w| then w[k] else RangeMask(0, 0)
  }

  function LongGate(g: Gate, w: seq<Long>): Long {
    match g
    case Xor(a, b) => LongXor(LongWire(w, a), LongWire(w, b))
    case XorNot(a, b) => LongXor(LongWire(w, a), LongNot(LongWire(w, b)))
    case And(a, b) => LongAnd(LongWire(w, a), LongWire(w, b))
  }

  lemma GateAt(g: Gate, w: seq<Long>, l: nat)
    requires l < 64
    ensures LongGate(g, w)[l] == GateValue(g, At(w, l))
  {
  }

  /** The S-box on all 64 bytes. */
  function SboxSlice(q: seq<Long>): (r: seq<Long>)
    requires |q| == 8
    ensures |r| == 8
  {
    seq(8, i requires 0 <= i < 8 => SboxWord(q, i))
  }

  function SboxWord(q: seq<Long>, i: nat): Long
    requires |q| == 8 && i < 8
  {
    seq(64, l requires 0 <= l < 64 => Sbox(At(q, l))[i])
  }

  ghost predicate Computed(p: seq<Gate>, n: nat, x: seq<Long>, w: seq<Long>) {
    n <= |p| && |w| == |x| + n && forall l: nat :: l < 64 ==> At(w, l) == Wires(p, n, At(x, l))
  }

  lemma ComputedNext(p: seq<Gate>, n: nat, x: seq<Long>, w: seq<Long>)
    requires Computed(p, n, x, w) && n < |p|
    ensures Computed(p, n + 1, x, w + [LongGate(p[n], w)])
  {
    hide GateValue, LongGate;
    var v := w + [LongGate(p[n], w)];
    forall l: nat | l < 64 ensures At(v, l) == Wires(p, n + 1, At(x, l)) {
      GateAt(p[n], w, l);
      assert At(v, l) == At(w, l) + [LongGate(p[n], w)[l]];
    }
  }

  lemma ComputedStart(p: seq<Gate>, x: seq<Long>)
    ensures Computed(p, 0, x, x)
  {
  }

  /** `br_aes_ct64_bitslice_Sbox`, gate by gate. */
  method BitsliceSbox(q: array<Long>)
    requires q.Length == 8
    modifies q
    ensures q[..] == SboxSlice(old(q[..]))
  {
    hide LongGate, Computed;
    OutputsExist();
    ghost var q0 := q[..];
    var x: seq<Long> := [q[7], q[6], q[5], q[4], q[3], q[2], q[1], q[0]];
    var w := x;
    var n: nat := 0;
    ComputedStart(SBOX_GATES, x);
    while n < 115
      invariant n <= 115 && |w| == 8 + n && Computed(SBOX_GATES, n, x, w) && q[..] == q0
    {
      ComputedNext(SBOX_GATES, n, x, w);
      w := w + [LongGate(SBOX_GATES[n], w)];
      n := n + 1;
    }
    var r: seq<Long> := seq(8, i requires 0 <= i < 8 => w[SBOX_OUTPUTS[7 - i]]);
    SboxDone(q0, x, w, r);
    var i := 0;
    while i < 8
      invariant 0 <= i <= 8 && forall k :: 0 <= k < i ==> q[k] == r[k]
    {
      q[i] := r[i];
      i := i + 1;
    }
  }

  lemma SboxDone(q: seq<Long>, x: seq<Long>, w: seq<Long>, r: seq<Long>)
    requires |q| == |x| == |r| == 8 && |w| == 123 && |SBOX_GATES| == 115 && Computed(SBOX_GATES, 115, x, w)
    requires forall i :: 0 <= i < 8 ==> x[i] == q[7 - i]
    requires |SBOX_OUTPUTS| == 8 && forall i :: 0 <= i < 8 ==>
          SBOX_OUTPUTS[7 - i] < 123 && r[i] == w[SBOX_OUTPUTS[7 - i]]
    ensures r == SboxSlice(q)
  {
    hide Wires, SBOX_GATES, SBOX_OUTPUTS;
    forall i | 0 <= i < 8 ensures r[i] == SboxSlice(q)[i] {
      forall l: nat | l < 64 ensures r[i][l] == SboxSlice(q)[i][l] {
        var v := At(q, l);
        assert At(x, l) == seq(8, j requires 0 <= j < 8 => v[7 - j]);
        assert At(w, l)[SBOX_OUTPUTS[7 - i]] == r[i][l];
      }
    }
  }

  lemma LaneSbox(q: seq<Long>, b: nat)
    requires |q| == 8 && b < 4
    ensures Lane(SboxSlice(q), b) == SubBytes(Lane(q, b))
  {
    hide Lane, Position, Sbox, At, ByteAt;
    var s, t := Lane(SboxSlice(q), b), SubBytes(Lane(q, b));
    forall m: nat, i: nat | m < 16 && i < 8 ensures BitAt(s, m, i) == BitAt(t, m, i) {
      LaneAt(SboxSlice(q), b, m, i);
      LaneByte(q, b, m);
      assert (8 * m + i) / 8 == m && (8 * m + i) % 8 == i;
    }
    BlocksEqual(s, t);
  }

  // ----- ShiftRows

  /** `shift_rows` on one word; the masks are ranges of bits. */
  function ShiftRowsLong(x: Long): Long {
    LongOr(LongOr(LongOr(LongOr(LongOr(LongOr(
      LongAnd(x, RangeMask(0, 16)),
      LongShr(LongAnd(x, RangeMask(20, 32)), 4)),
      LongShl(LongAnd(x, RangeMask(16, 20)), 12)),
      LongShr(LongAnd(x, RangeMask(40, 48)), 8)),
      LongShl(LongAnd(x, RangeMask(32, 40)), 8)),
      LongShr(LongAnd(x, RangeMask(60, 64)), 12)),
      LongShl(LongAnd(x, RangeMask(48, 60)), 4))
  }

  lemma ShiftRowsAt(x: Long, r: nat, k: nat)
    requires r < 4 && k < 16
    ensures ShiftRowsLong(x)[16 * r + k] == x[16 * r + (k + 4 * r) % 16]
  {
    var s := if k + 4 * r < 16 then k + 4 * r else k + 4 * r - 16;
    assert (k + 4 * r) % 16 == s;
    ShiftRowsBit(x, r, k, 16 * r + k, s);
  }

  lemma ShiftRowsBit(x: Long, r: nat, k: nat, l: nat, s: nat)
    requires r < 4 && k < 16 && l == 16 * r + k && s == if k + 4 * r < 16 then k + 4 * r else k + 4 * r - 16
    ensures ShiftRowsLong(x)[l] == x[16 * r + s]
  {
  }

  function ShiftRowsSlice(q: seq<Long>): (r: seq<Long>)
    ensures |r| == |q|
  {
    seq(|q|, i requires 0 <= i < |q| => ShiftRowsLong(q[i]))
  }

  method ShiftRowsInPlace(q: array<Long>)
    requires q.Length == 8
    modifies q
    ensures q[..] == ShiftRowsSlice(old(q[..]))
  {
    hide ShiftRowsLong;
    var i := 0;
    while i < 8
      invariant 0 <= i <= 8
      invariant forall k :: 0 <= k < 8 ==> q[k] == if k < i then ShiftRowsLong(old(q[k])) else old(q[k])
    {
      q[i] := ShiftRowsLong(q[i]);
      i := i + 1;
    }
  }

  lemma ShiftPosition(m: nat, c: nat, r: nat, n: nat, b: nat)
    requires m == 4 * c + r && c < 4 && r < 4 && b < 4 && n == 4 * ((c + r) % 4) + r
    ensures Position(m, b) == 16 * r + (4 * c + b) && Position(n, b) == 16 * r + (4 * c + b + 4 * r) % 16
  {
    assert m % 4 == r && m / 4 == c && n % 4 == r && n / 4 == (c + r) % 4;
  }

  lemma LaneShiftRows(q: seq<Long>, b: nat)
    requires |q| == 8 && b < 4
    ensures Lane(ShiftRowsSlice(q), b) == ShiftRows(Lane(q, b))
  {
    hide Lane, Position, ShiftRowsLong;
    var s, t := Lane(ShiftRowsSlice(q), b), ShiftRows(Lane(q, b));
    forall m: nat, i: nat | m < 16 && i < 8 ensures BitAt(s, m, i) == BitAt(t, m, i) {
      LaneAt(ShiftRowsSlice(q), b, m, i);
      var c, r := m / 4, m % 4;
      var n := 4 * ((c + r) % 4) + r;
      ShiftPosition(m, c, r, n, b);
      ShiftRowsAt(q[i], r, 4 * c + b);
      LaneAt(q, b, n, i);
      ShiftIndex(m, c, r, i, n);
    }
    BlocksEqual(s, t);
  }

  lemma ShiftIndex(m: nat, c: nat, r: nat, i: nat, n: nat)
    requires m == 4 * c + r && c < 4 && r < 4 && i < 8 && n == 4 * ((c + r) % 4) + r
    ensures var k := 8 * m + i; (32 * (k / 32 + k / 8 % 4) + k % 32) % 128 == 8 * n + i
  {
    var k := 8 * m + i;
    assert k == 32 * c + (8 * r + i) && k / 32 == c && k % 32 == 8 * r + i;
    assert k / 8 == m;
    QuotientIs(m, 4, c, r);
    var s := if c + r < 4 then c + r else c + r - 4;
    QuotientIs(c + r, 4, if c + r < 4 then 0 else 1, s);
    QuotientIs(32 * (c + r) + (8 * r + i), 128, if c + r < 4 then 0 else 1, 32 * s + (8 * r + i));
  }

  // ----- MixColumns

  /** Rotation to the right. */
  function RotateRight(x: Long, n: nat): Long
    requires n <= 64
  {
    LongOr(LongShr(x, n), LongShl(x, 64 - n))
  }

  lemma RotateAt(x: Long, n: nat, l: nat)
    requires 0 < n < 64 && l < 64
    ensures RotateRight(x, n)[l] == x[(l + n) % 64]
  {
  }

  /** `r ^ rotr32(q ^ r)`: the bytes of the column that are not doubled. */
  function Others(q: Long, r: Long): Long {
    LongXor(r, RotateRight(LongXor(q, r), 32))
  }

  function LongXor3(a: Long, b: Long, c: Long): Long {
    LongXor(LongXor(a, b), c)
  }

  /** The lines of `mix_columns`, with r the words q moved by one row. */
  function MixLines(q: seq<Long>, r: seq<Long>): (s: seq<Long>)
    requires |q| == |r| == 8
    ensures |s| == 8
  {
    [LongXor3(q[7], r[7], Others(q[0], r[0])),
     LongXor3(LongXor(q[0], r[0]), LongXor(q[7], r[7]), Others(q[1], r[1])),
     LongXor3(q[1], r[1], Others(q[2], r[2])),
     LongXor3(LongXor(q[2], r[2]), LongXor(q[7], r[7]), Others(q[3], r[3])),
     LongXor3(LongXor(q[3], r[3]), LongXor(q[7], r[7]), Others(q[4], r[4])),
     LongXor3(q[4], r[4], Others(q[5], r[5])),
     LongXor3(q[5], r[5], Others(q[6], r[6])),
     LongXor3(q[6], r[6], Others(q[7], r[7]))]
  }

  function MixSlice(q: seq<Long>): (s: seq<Long>)
    requires |q| == 8
    ensures |s| == 8
  {
    MixLines(q, seq(8, i requires 0 <= i < 8 => RotateRight(q[i], 16)))
  }

  method MixColumnsInPlace(q: array<Long>)
    requires q.Length == 8
    modifies q
    ensures q[..] == MixSlice(old(q[..]))
  {
    hide RotateRight, Others, LongXor3, LongXor;
    var q0, q1, q2, q3, q4, q5, q6, q7 := q[0], q[1], q[2], q[3], q[4], q[5], q[6], q[7];
    var r0, r1, r2, r3 := RotateRight(q0, 16), RotateRight(q1, 16), RotateRight(q2, 16), RotateRight(q3, 16);
    var r4, r5, r6, r7 := RotateRight(q4, 16), RotateRight(q5, 16), RotateRight(q6, 16), RotateRight(q7, 16);
    q[0] := LongXor3(q7, r7, Others(q0, r0));
    q[1] := LongXor3(LongXor(q0, r0), LongXor(q7, r7), Others(q1, r1));
    q[2] := LongXor3(q1, r1, Others(q2, r2));
    q[3] := LongXor3(LongXor(q2, r2), LongXor(q7, r7), Others(q3, r3));
    q[4] := LongXor3(LongXor(q3, r3), LongXor(q7, r7), Others(q4, r4));
    q[5] := LongXor3(q4, r4, Others(q5, r5));
    q[6] := LongXor3(q5, r5, Others(q6, r6));
    q[7] := LongXor3(q6, r6, Others(q7, r7));
  }

  lemma OthersAt(q: Long, l: nat)
    requires l < 64
    ensures Others(q, RotateRight(q, 16))[l] == ((q[(l + 16) % 64] != q[(l + 32) % 64]) != q[(l + 48) % 64])
  {
    var r := RotateRight(q, 16);
    RotateAt(q, 16, l);
    RotateAt(q, 16, (l + 32) % 64);
    RotateAt(LongXor(q, r), 32, l);
    hide RotateRight;
    assert (l + 32) % 64 + 16 == l + 48 || (l + 32) % 64 + 16 == l - 16;
  }

  lemma LineAt(q: seq<Long>, r: seq<Long>, i: nat, l: nat)
    requires |q| == |r| == 8 && i < 8 && l < 64
    ensures MixLines(q, r)[i][l] == (((i > 0 && q[i - 1][l] != r[i - 1][l])
        != (i in {0, 1, 3, 4} && q[7][l] != r[7][l])) != Others(q[i], r[i])[l])
  {
    hide Others;
  }

  /** One bit of the result, from the four bits of the column at each place. */
  lemma MixAt(q: seq<Long>, i: nat, l: nat)
    requires |q| == 8 && i < 8 && l < 64
    ensures var a, b, c, d := At(q, l), At(q, (l + 16) % 64), At(q, (l + 32) % 64), At(q, (l + 48) % 64);
            MixSlice(q)[i][l] == Odd5(Times2(a)[i], Times2(b)[i], b[i], c[i], d[i])
  {
    hide Others, RotateRight, MixLines, Times2, Odd5;
    var r: seq<Long> := seq(8, k requires 0 <= k < 8 => RotateRight(q[k], 16));
    LineAt(q, r, i, l);
    OthersAt(q[i], l);
    RotateAt(q[7], 16, l);
    if i > 0 {
      RotateAt(q[i - 1], 16, l);
    }
    MixBits(At(q, l), At(q, (l + 16) % 64), At(q, (l + 32) % 64), At(q, (l + 48) % 64), i);
  }

  lemma MixBits(a: Bits, b: Bits, c: Bits, d: Bits, i: nat)
    requires |a| == |b| == |c| == |d| == 8 && i < 8
    ensures (((i > 0 && a[i - 1] != b[i - 1]) != (i in {0, 1, 3, 4} && a[7] != b[7])) != ((b[i] != c[i]) != d[i]))
         == Odd5(Times2(a)[i], Times2(b)[i], b[i], c[i], d[i])
  {
  }

  lemma RowBelow(m: nat, c: nat, r: nat, d: nat, n: nat, b: nat)
    requires m == 4 * c + r && c < 4 && r < 4 && b < 4 && d < 4 && n == 4 * c + (if r + d < 4 then r + d else r + d - 4)
    ensures Position(n, b) == (Position(m, b) + 16 * d) % 64 && n == 4 * (m / 4) + (m + d) % 4
  {
    var s := if r + d < 4 then r + d else r + d - 4;
    PositionOf(m, c, r, b);
    PositionOf(n, c, s, b);
    QuotientIs(m, 4, c, r);
    QuotientIs(m + d, 4, if r + d < 4 then c else c + 1, s);
    QuotientIs(16 * r + 4 * c + b + 16 * d, 64, if r + d < 4 then 0 else 1, 16 * s + 4 * c + b);
    hide Position;
  }

  lemma QuotientIs(x: nat, n: nat, y: nat, z: nat)
    requires n in {4, 64, 128} && x == n * y + z && z < n
    ensures x / n == y && x % n == z
  {
  }

  lemma PositionOf(m: nat, c: nat, r: nat, b: nat)
    requires m == 4 * c + r && c < 4 && r < 4 && b < 4
    ensures Position(m, b) == 16 * r + 4 * c + b
  {
  }

  lemma LaneBelow(q: seq<Long>, b: nat, m: nat, d: nat)
    requires |q| == 8 && b < 4 && m < 16 && d < 4
    ensures Below4(Lane(q, b), m, d) == At(q, (Position(m, b) + 16 * d) % 64)
  {
    hide Lane, Position, At, ByteAt;
    var s := m % 4 + d;
    var n := 4 * (m / 4) + (if s < 4 then s else s - 4);
    RowBelow(m, m / 4, m % 4, d, n, b);
    LaneByte(q, b, n);
  }

  lemma LaneMixColumns(q: seq<Long>, b: nat)
    requires |q| == 8 && b < 4
    ensures Lane(MixSlice(q), b) == MixColumns(Lane(q, b))
  {
    hide Lane, Position, At, ByteAt, MixSlice, Below4, Times2, Odd5;
    var s, t := Lane(MixSlice(q), b), MixColumns(Lane(q, b));
    forall m: nat, i: nat | m < 16 && i < 8 ensures BitAt(s, m, i) == BitAt(t, m, i) {
      var l := Position(m, b);
      LaneAt(MixSlice(q), b, m, i);
      MixAt(q, i, l);
      LaneBelow(q, b, m, 0);
      LaneBelow(q, b, m, 1);
      LaneBelow(q, b, m, 2);
      LaneBelow(q, b, m, 3);
      assert (8 * m + i) / 8 == m && (8 * m + i) % 8 == i;
    }
    BlocksEqual(s, t);
  }

  // ----- AddRoundKey

  function AddSlice(q: seq<Long>, k: seq<Long>): (r: seq<Long>)
    requires |q| == |k|
    ensures |r| == |q|
  {
    seq(|q|, i requires 0 <= i < |q| => LongXor(q[i], k[i]))
  }

  method AddRoundKeyInPlace(q: array<Long>, sk: seq<Long>, o: nat)
    requires q.Length == 8 && o + 8 <= |sk|
    modifies q
    ensures q[..] == AddSlice(old(q[..]), sk[o..o + 8])
  {
    hide LongXor;
    var i := 0;
    while i < 8
      invariant 0 <= i <= 8
      invariant forall k :: 0 <= k < 8 ==> q[k] == if k < i then LongXor(old(q[k]), sk[o + k]) else old(q[k])
    {
      q[i] := LongXor(q[i], sk[o + i]);
      i := i + 1;
    }
  }

  lemma LaneAddRoundKey(q: seq<Long>, k: seq<Long>, b: nat)
    requires |q| == |k| == 8 && b < 4
    ensures Lane(AddSlice(q, k), b) == AddRoundKey(Lane(q, b), Lane(k, b))
  {
    hide Position;
  }
}
