/** Matrix-vector multiplication that samples the matrix while multiplying (mlkem/matacc.c). */
module Matacc {
  import opened Modular
  import opened Bytes
  import opened Encode
  import opened Packing
  import opened Transform
  import opened Products
  import opened Sample

  // ----- one matrix entry

  /** Between steps: ctr coefficients of x were found, all but the last ctr2 are multiplied into r, those wait in ax. */
  ghost predicate Fused(add: bool, r0: seq<int16>, x: seq<int16>, y: seq<int16>,
                        r: seq<int16>, ax: seq<int16>, ctr: nat, ctr2: nat) {
    && ctr <= 256 && ctr2 == ctr % 4 && |ax| == 4 && |x| == |r0| == 256
    && Multiplied(add, r0, x, y, r, 0, ctr - ctr2)
    && (forall i :: ctr - ctr2 <= i < 256 ==> r[i] == r0[i])
    && (forall i :: 0 <= i < ctr2 ==> ax[i] == x[ctr - ctr2 + i])
  }

  /** Store one accepted candidate, and multiply once four are there. */
  method Push(r: array<int16>, b: array<int16>, ax: array<int16>, ctr: nat, ctr2: nat, val: int16, add: bool,
              ghost r0: seq<int16>, ghost x: seq<int16>) returns (c: nat, c2: nat)
    requires r != b && r != ax && b != ax && r.Length == b.Length == 256 && ax.Length == 4
    requires ctr < 256 && Fused(add, r0, x, b[..], r[..], ax[..], ctr, ctr2) && val == x[ctr]
    modifies r, ax
    ensures c == ctr + 1 && Fused(add, r0, x, b[..], r[..], ax[..], c, c2)
  {
    hide MontCoeff, Operands;
    ax[ctr2] := val;
    c, c2 := ctr + 1, ctr2 + 1;
    if c2 == 4 {
      FourTaken(ax[..], x, ctr);
      DoubleBasemul(r, ax, 0, b, (c - 4) / 4, add, r0, x, b[..]);
      c2 := 0;
    }
  }

  lemma FourTaken(ax: seq<int16>, x: seq<int16>, ctr: nat)
    requires |ax| == 4 && |x| == 256 && ctr < 256 && ctr % 4 == 3
    requires forall i :: 0 <= i < 4 ==> ax[i] == x[ctr - 3 + i]
    ensures Group(ax, 0, x, (ctr - 3) / 4)
  {
  }

  /** The two candidates in three bytes of a block. */
  lemma Candidates(s: Stream, b: seq<byte>, t: nat)
    requires |b| == 3 && b[0] == s(3 * t) && b[1] == s(3 * t + 1) && b[2] == s(3 * t + 2)
    ensures var u := Unpack(12, FromBytes(b));
            |u| == 2 && u[0] == Candidate(s, 2 * t) && u[1] == Candidate(s, 2 * t + 1)
    ensures var u := Unpack(12, FromBytes(b)); u[0] < 4096 && u[1] < 4096
  {
    hide Value8, Unpack;
    UnpackFields12(FromBytes(b));
    assert (2 * t + 1) / 2 == t;
  }

  /** The inner loop of `matacc_inner`, over one block of output. */
  method ScanBlock(r: array<int16>, b: array<int16>, ax: array<int16>, ctr: nat, ctr2: nat, add: bool,
                   buf: seq<byte>, ghost s: Stream, ghost block: nat, ghost r0: seq<int16>) returns (c: nat, c2: nat)
    requires r != b && r != ax && b != ax && r.Length == b.Length == 256 && ax.Length == 4
    requires Sampleable(s) && |buf| == 168 && forall p :: 0 <= p < 168 ==> buf[p] == s(168 * block + p)
    requires Fused(add, r0, SampleNtt(s), b[..], r[..], ax[..], ctr, ctr2) && ctr < 256 && Found(s, 112 * block, ctr)
    modifies r, ax
    ensures Fused(add, r0, SampleNtt(s), b[..], r[..], ax[..], c, c2) && Found(s, 112 * (block + 1), c) && c <= 256
  {
    hide MontCoeff, Operands, SampleNtt, Candidate, Accepted, Unpack, FromBytes, Found, Fused;
    ghost var x, y := SampleNtt(s), b[..];
    c, c2 := ctr, ctr2;
    var pos: nat := 0;
    while c < 256 && pos + 3 <= 168
      invariant c <= 256 && pos <= 168 && pos % 3 == 0
      invariant Fused(add, r0, x, y, r[..], ax[..], c, c2) && b[..] == y
      invariant Found(s, 112 * block + 2 * (pos / 3), c)
    {
      ghost var t: nat := 56 * block + pos / 3;
      var d := buf[pos..pos + 3];
      assert 3 * t == 168 * block + pos && d[0] == buf[pos] && d[1] == buf[pos + 1] && d[2] == buf[pos + 2];
      Candidates(s, d, t);
      var val := Unpack(12, FromBytes(d));
      pos := pos + 3;
      FoundNext(s, 2 * t, c);
      if val[0] < Q {
        c, c2 := Push(r, b, ax, c, c2, val[0], add, r0, x);
      }
      FoundNext(s, 2 * t + 1, c);
      if c < 256 && val[1] < Q {
        c, c2 := Push(r, b, ax, c, c2, val[1], add, r0, x);
      }
    }
    FoundMore(s, 112 * block + 2 * (pos / 3), 112 * (block + 1), c);
  }

  /** `matacc_inner` once the seed is absorbed: s is what the extendable-output function will return. */
  method MataccInner(r: array<int16>, b: array<int16>, s: Stream, add: bool)
    requires r != b && r.Length == b.Length == 256 && Bounded(b[..], 1664) && Sampleable(s)
    modifies r
    ensures GrowsBy(SampleNtt(s), b[..], 3536)
    ensures r[..] == MontMul(add, old(r[..]), SampleNtt(s), b[..])
  {
    hide MontCoeff, Operands, SmallOperands, SampleNtt, Candidate, Accepted, Found;
    ghost var r0, x, y := r[..], SampleNtt(s), b[..];
    OperandsOk(x, y);
    var ax := new int16[4];
    var ctr: nat, ctr2: nat := 0, 0;
    var block: nat := 0;
    FoundNone(s);
    while ctr < 256
      invariant Fused(add, r0, x, y, r[..], ax[..], ctr, ctr2) && b[..] == y
      invariant Found(s, 112 * block, ctr)
      decreases Needed(s) - 112 * block
    {
      var buf := seq(168, p requires 0 <= p < 168 => s(168 * block + p));
      ctr, ctr2 := ScanBlock(r, b, ax, ctr, ctr2, add, buf, s, block, r0);
      block := block + 1;
    }
  }

  lemma FoundNone(s: Stream)
    ensures Found(s, 0, 0)
  {
  }

  lemma FoundMore(s: Stream, m: nat, n: nat, ctr: nat)
    requires Found(s, m, ctr) && m <= n && (ctr == 256 || m == n)
    ensures Found(s, n, ctr)
  {
    AcceptedGrows(s, m, n);
  }

  lemma OperandsOk(x: seq<int16>, y: seq<int16>)
    requires |x| == |y| == 256 && Bounded(y, 1664) && forall i :: 0 <= i < 256 ==> 0 <= x[i] < 4096
    ensures GrowsBy(x, y, 3536)
  {
    hide Operands;
    SmallOk(x, y);
  }
}
