/** The sponge code of fips202/fips202.c: the incremental context, and the absorb and squeeze functions without one. */
module Fips202 {
  import opened Bytes
  import opened KeccakSpec
  import opened Halves
  import opened KeccakRounds
  import opened LaneBytes
  import opened StateBytes
  import opened Sponge
  import opened Codec  // Spliced

  // ----- steps shared by both interfaces

  /**
   The end of absorbing: the domain byte after the message, the last bit of the block, both in one byte if need be.
   */
  method XorTail(a: array<Word>, r: nat, pos: nat, p: byte)
    requires a.Length == 50 && IsRate(r) && pos < r
    modifies a
    ensures StateOf(a[..]) == XorAt(StateOf(old(a[..])), 8 * pos, ToBits(Tail(p, r - pos)))
  {
    hide StateOf, ToBits, XorAt, Zeros;
    ghost var s := StateOf(a[..]);
    if pos == r - 1 {
      XorBytes(a, [p | 128], pos);
    } else {
      XorBytes(a, [p], pos);
      XorBytes(a, [128], r - 1);
      TailXor(s, pos, r, p);
    }
  }

  lemma TailXor(s: Bits, pos: nat, r: nat, p: byte)
    requires |s| == 1600 && IsRate(r) && pos + 1 < r
    ensures XorAt(XorAt(s, 8 * pos, ToBits([p])), 8 * (r - 1), ToBits([128]))
        == XorAt(s, 8 * pos, ToBits(Tail(p, r - pos)))
  {
    hide ToBits, XorAt, Zeros, NoBits;
    var n := r - pos - 2;
    ToBitsAppend([p] + Zeros(n), [128]);
    ToBitsAppend([p], Zeros(n));
    ZeroBits(n);
    var x, y, z := ToBits([p]), NoBits(8 * n), ToBits([128]);
    XorAtAppend(s, 8 * pos, x + y, z);
    XorAtAppend(s, 8 * pos, x, y);
    XorAtZeros(XorAt(s, 8 * pos, x), 8 * pos + 8, 8 * n);
  }

  /** All state words cleared. */
  method Clear(a: array<Word>)
    requires a.Length == 50
    modifies a
    ensures StateOf(a[..]) == NoBits(1600)
  {
    var i := 0;
    while i < 50
      invariant 0 <= i <= 50 && forall k :: 0 <= k < i ==> a[k] == NOTHING
    {
      a[i] := NOTHING;
      i := i + 1;
    }
    ZeroState(a[..]);
  }

  lemma ZeroState(h: seq<Word>)
    requires |h| == 50 && forall k :: 0 <= k < 50 ==> h[k] == NOTHING
    ensures StateOf(h) == NoBits(1600)
  {
  }

  // ----- the incremental interface

  /** `s_inc`: 25 lanes, and a count of bytes absorbed into, or left in, the current block. */
  class Context {
    const lanes: array<Word>
    var pos: nat

    ghost predicate Valid(r: nat)
      reads this
    {
      lanes.Length == 50 && IsRate(r) && pos < r
    }

    /** The bytes m have been absorbed. */
    ghost predicate HasAbsorbed(m: seq<byte>, r: nat)
      reads this, lanes
    {
      Valid(r) && StateOf(lanes[..]) == Absorbing(m, r) && pos == Rest(|m|, r)
    }

    /** The output is that of state s (which f is still to be applied to), and k bytes of it have been produced. */
    ghost predicate HasSqueezed(s: Bits, r: nat, k: nat, n: nat)
      reads this, lanes
    {
      Valid(r) && |s| == 1600 && StateOf(lanes[..]) == Iterate(s, n) && k + pos == n * r
    }

    /** `keccak_inc_init`. */
    constructor ()
      ensures fresh(lanes) && forall r :: IsRate(r) ==> HasAbsorbed([], r)
    {
      lanes := new Word[50];
      pos := 0;
      new;
      hide StateOf, Absorbing, Rest;
      Clear(lanes);
      forall r | IsRate(r) ensures HasAbsorbed([], r) {
        AbsorbNothing(r);
        WholeRest(0, r);
      }
    }

    /** `keccak_inc_absorb`: splitting the input between calls makes no difference. */
    method Absorb(r: nat, data: seq<byte>, ghost m: seq<byte>)
      requires HasAbsorbed(m, r)
      modifies this, lanes
      ensures HasAbsorbed(m + data, r)
    {
      hide StateOf, Absorbing, KeccakF, XorAt, ToBits, Rest;
      var cur := 0;
      assert m + data[..0] == m;
      while |data| - cur + pos >= r
        invariant 0 <= cur <= |data| && HasAbsorbed(m + data[..cur], r)
        decreases |data| - cur, pos
      {
        var n := r - pos;
        ghost var x, d := m + data[..cur], data[cur..cur + n];
        XorBytes(lanes, data[cur..cur + n], pos);
        AbsorbBlock(x, r, d);
        assert x + d == m + data[..cur + n];
        cur := cur + n;
        pos := 0;
        Permute(lanes);
      }
      ghost var x, d := m + data[..cur], data[cur..];
      AbsorbPart(x, r, d);
      assert x + d == m + data;
      XorBytes(lanes, data[cur..], pos);
      pos := pos + (|data| - cur);
    }

    /** `keccak_inc_finalize`. */
    method Finalize(r: nat, p: byte, ghost m: seq<byte>) returns (ghost s: Bits)
      requires HasAbsorbed(m, r)
      modifies this, lanes
      ensures HasSqueezed(s, r, 0, 0) && KeccakF(s) == Sealed(m, p, r)
    {
      hide StateOf, Absorbing, KeccakF, XorAt, ToBits, Rest, Tail;
      XorTail(lanes, r, pos, p);
      AbsorbBlock(m, r, Tail(p, r - pos));
      pos := 0;
      s := StateOf(lanes[..]);
    }

    /**
     One pass of the loop of `keccak_inc_squeeze`: a fresh block, of which len bytes are produced after done others.
     */
    method SqueezeBlock(h: array<byte>, o: nat, done: nat, len: nat, r: nat, ghost h0: seq<byte>, ghost s: Bits,
        ghost k: nat, ghost n: nat)
      requires |s| == 1600 && IsRate(r) && HasSqueezed(s, r, k + done, n) && pos == 0 && 0 < len <= r
      requires o + done + len <= h.Length == |h0| && h as object != this && h as object != lanes
      requires Spliced(h0, o, OutSeq(KeccakF(s), r, k, done), h[..])
      modifies this, lanes, h
      ensures HasSqueezed(s, r, k + done + len, n + 1) && pos == r - len
      ensures Spliced(h0, o, OutSeq(KeccakF(s), r, k, done + len), h[..])
    {
      hide StateOf, KeccakF, OutSeq, BytesAt, Spliced;
      ghost var t, g := KeccakF(s), h[..];
      Permute(lanes);
      OutputPart(s, t, r, n + 1, 0, len, k + done);
      ExtractBytes(lanes, h, o + done, 0, len);
      OutSeqAppend(t, r, k, done, len);
      SplicedMore(h0, o, OutSeq(t, r, k, done), OutSeq(t, r, k + done, len), g, h[..]);
      pos := r - len;
    }

    /** The beginning of `keccak_inc_squeeze`: what is left of the last block. */
    method SqueezeLeft(h: array<byte>, o: nat, len: nat, r: nat, ghost s: Bits, ghost k: nat, ghost n: nat)
      requires HasSqueezed(s, r, k, n) && len <= pos && o + len <= h.Length && h as object != this
          && h as object != lanes
      modifies this, h
      ensures HasSqueezed(s, r, k + len, n) && pos == old(pos) - len
      ensures h[..] == old(h[..o]) + OutSeq(KeccakF(s), r, k, len) + old(h[o + len..])
    {
      hide StateOf, KeccakF, OutSeq, Iterate, BytesAt;
      OutputPart(s, KeccakF(s), r, n, r - pos, len, k);
      ExtractBytes(lanes, h, o, r - pos, len);
      pos := pos - len;
    }

    /** `keccak_inc_squeeze`: splitting the output between calls makes no difference. */
    method Squeeze(h: array<byte>, o: nat, outlen: nat, r: nat, ghost s: Bits, ghost k: nat,
        ghost n0: nat) returns (ghost n: nat)
      requires |s| == 1600 && IsRate(r) && HasSqueezed(s, r, k, n0) && o + outlen <= h.Length && h as object != this
          && h as object != lanes
      modifies this, lanes, h
      ensures HasSqueezed(s, r, k + outlen, n)
      ensures h[..] == old(h[..o]) + OutSeq(KeccakF(s), r, k, outlen) + old(h[o + outlen..])
    {
      hide StateOf, KeccakF, Spliced, OutSeq, HasSqueezed;
      ghost var h0, t := h[..], KeccakF(s);
      n := n0;
      var len := if outlen < pos then outlen else pos;
      SqueezeLeft(h, o, len, r, s, k, n);
      SplicedHere(h0, o, OutSeq(t, r, k, len), h[..]);
      var done := len;
      while done < outlen
        invariant len <= done <= outlen && HasSqueezed(s, r, k + done, n) && (done < outlen ==> pos == 0)
        invariant Spliced(h0, o, OutSeq(t, r, k, done), h[..])
      {
        var more := if outlen - done < r then outlen - done else r;
        SqueezeBlock(h, o, done, more, r, h0, s, k, n);
        n := n + 1;
        done := done + more;
      }
      SplicedIs(h0, o, OutSeq(t, r, k, outlen), h[..]);
    }
  }

  lemma SplicedHere(r: seq<byte>, o: nat, b: seq<byte>, t: seq<byte>)
    requires o + |b| <= |r| && t == r[..o] + b + r[o + |b|..]
    ensures Spliced(r, o, b, t)
  {
  }

  /** The bytes extracted from the n-th permuted state, or none. */
  lemma OutputPart(s: Bits, t: Bits, r: nat, n: nat, offset: nat, len: nat, k: nat)
    requires |s| == 1600 && t == KeccakF(s) && IsRate(r) && offset + len <= r && k + r == n * r + offset
    ensures BytesAt(Iterate(s, n), offset, len) == OutSeq(t, r, k, len)
  {
    hide KeccakF, Iterate, BytesAt, OutSeq;
    if n == 0 {
      assert len == 0 && k == 0;
    } else {
      IterateShift(s, n - 1);
      assert (n - 1) * r + r == n * r;
      OutOfBlock(t, r, n - 1, offset, len, k);
    }
  }

  // ----- without a context

  /** `keccak_absorb`; clearing the state is left to the caller. */
  method KeccakAbsorb(a: array<Word>, r: nat, m: seq<byte>, p: byte)
    requires a.Length == 50 && IsRate(r) && StateOf(a[..]) == NoBits(1600)
    modifies a
    ensures KeccakF(StateOf(a[..])) == Sealed(m, p, r)
  {
    hide StateOf, Absorbing, KeccakF, XorAt, ToBits, Rest, Tail, NoBits;
    AbsorbNothing(r);
    WholeRest(0, r);
    var cur := 0;
    assert m[..0] == [];
    while |m| - cur >= r
      invariant 0 <= cur <= |m| && StateOf(a[..]) == Absorbing(m[..cur], r) && Rest(cur, r) == 0
    {
      XorBytes(a, m[cur..cur + r], 0);
      Permute(a);
      AbsorbBlock(m[..cur], r, m[cur..cur + r]);
      assert m[..cur] + m[cur..cur + r] == m[..cur + r];
      cur := cur + r;
    }
    AbsorbPart(m[..cur], r, m[cur..]);
    assert m[..cur] + m[cur..] == m;
    if |m| - cur > 0 {
      XorBytes(a, m[cur..], 0);
    } else {
      assert m[..cur] == m;
    }
    AbsorbBlock(m, r, Tail(p, r - Rest(|m|, r)));
    XorTail(a, r, |m| - cur, p);
  }

  /** One pass of `keccak_squeezeblocks`. */
  method SqueezeWhole(h: array<byte>, o: nat, a: array<Word>, r: nat, ghost s: Bits, ghost n: nat, ghost k: nat)
    requires a.Length == 50 && IsRate(r) && |s| == 1600 && StateOf(a[..]) == Iterate(s, n) && k == Times(n, r)
    requires o + r <= h.Length && h as object != a
    modifies a, h
    ensures StateOf(a[..]) == Iterate(s, n + 1)
    ensures h[..] == old(h[..o]) + OutSeq(KeccakF(s), r, k, r) + old(h[o + r..])
  {
    hide StateOf, KeccakF, OutSeq, BytesAt;
    Permute(a);
    assert (n + 1) * r == n * r + r;
    OutputPart(s, KeccakF(s), r, n + 1, 0, r, k);
    ExtractBytes(a, h, o, 0, r);
  }

  /** The number of bytes in n blocks. */
  function Times(n: nat, r: nat): (k: nat)
    ensures k == n * r
  {
    n * r
  }

  /** The same, behind the blocks already squeezed. */
  method SqueezeNext(h: array<byte>, o: nat, done: nat, a: array<Word>, r: nat, ghost h0: seq<byte>, ghost s: Bits,
      ghost n: nat, ghost k: nat)
    requires a.Length == 50 && IsRate(r) && |s| == 1600 && StateOf(a[..]) == Iterate(s, n) && k + done == Times(n, r)
    requires o + done + r <= h.Length == |h0| && h as object != a
        && Spliced(h0, o, OutSeq(KeccakF(s), r, k, done), h[..])
    modifies a, h
    ensures StateOf(a[..]) == Iterate(s, n + 1) && Spliced(h0, o, OutSeq(KeccakF(s), r, k, done + r), h[..])
  {
    hide StateOf, KeccakF, Spliced, OutSeq, Iterate, Times;
    ghost var g, t := h[..], KeccakF(s);
    SqueezeWhole(h, o + done, a, r, s, n, k + done);
    OutSeqAppend(t, r, k, done, r);
    SplicedMore(h0, o, OutSeq(t, r, k, done), OutSeq(t, r, k + done, r), g, h[..]);
  }

  /** `keccak_squeezeblocks`, into h[o..], continuing after n blocks. */
  method KeccakSqueezeBlocks(h: array<byte>, o: nat, nblocks: nat, a: array<Word>, r: nat, ghost s: Bits, ghost n: nat)
    requires a.Length == 50 && IsRate(r) && |s| == 1600 && StateOf(a[..]) == Iterate(s, n)
    requires o + Times(nblocks, r) <= h.Length && h as object != a
    modifies a, h
    ensures StateOf(a[..]) == Iterate(s, n + nblocks)
    ensures h[..] == old(h[..o]) + OutSeq(KeccakF(s), r, Times(n, r), Times(nblocks, r))
        + old(h[o + Times(nblocks, r)..])
  {
    hide StateOf, KeccakF, Spliced, OutSeq, Iterate, Times;
    ghost var h0, t := h[..], KeccakF(s);
    ghost var k, l := Times(n, r), Times(nblocks, r);
    NoBlocks(r);
    BlockCount(0, nblocks, n, r, 0, k, l);
    SplicedNone(h0, o);
    NoOutput(t, r, k);
    var i, done := 0, 0;
    while i < nblocks
      invariant 0 <= i <= nblocks && StateOf(a[..]) == Iterate(s, n + i) && 0 <= done <= l
      invariant k + done == Times(n + i, r) && done == Times(i, r)
      invariant Spliced(h0, o, OutSeq(t, r, k, done), h[..])
    {
      BlockCount(i, nblocks, n, r, done, k, l);
      SqueezeNext(h, o, done, a, r, h0, s, n + i, k);
      i := i + 1;
      done := done + r;
    }
    SplicedIs(h0, o, OutSeq(t, r, k, l), h[..]);
  }

  lemma NoBlocks(r: nat)
    ensures Times(0, r) == 0
  {
  }

  lemma NoOutput(t: Bits, r: nat, k: nat)
    requires |t| == 1600 && IsRate(r)
    ensures OutSeq(t, r, k, 0) == []
  {
  }

  lemma TimesAdd(a: nat, b: nat, r: nat)
    ensures Times(a + b, r) == Times(a, r) + Times(b, r) && Times(1, r) == r
  {
  }

  lemma BlockCount(i: nat, m: nat, n: nat, r: nat, done: nat, k: nat, l: nat)
    requires i <= m && done == Times(i, r) && k == Times(n, r) && l == Times(m, r)
    ensures k + done == Times(n + i, r)
    ensures i < m ==> done + r <= l && done + r == Times(i + 1, r) && k + done + r == Times(n + i + 1, r)
  {
    hide Times;
    TimesAdd(n, i, r);
    TimesAdd(i, 1, r);
    TimesAdd(n + i, 1, r);
    if i < m {
      TimesAdd(i + 1, m - i - 1, r);
    }
  }
}
