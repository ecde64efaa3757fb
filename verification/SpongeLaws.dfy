/** The sponge in bits: what each block does to the state, what the padding looks like, where the output comes from. */
module SpongeLaws {
  import opened Bytes
  import opened KeccakSpec
  import opened LaneBytes  // ToBits
  import opened StateBytes  // XorAt
  import opened Sponge
  import opened Symmetric  // SpongeOutput
  import opened CodecLaws  // RawBit

  /** Bytes spell bits from their least significant one. */
  lemma BitOfString(b: seq<byte>, k: nat)
    requires k < 8 * |b|
    ensures ToBits(b)[k] == (RawBit(b, k) == 1)
  {
    hide RawBit;
    BitIs(b[k / 8], k % 8);
    hide BitsOf;
    RawBitIs(b, k);
  }

  lemma RawBitIs(b: seq<byte>, k: nat)
    requires k < 8 * |b|
    ensures RawBit(b, k) == (b[k / 8] as int) / Power(2, k % 8) % 2
  {
  }

  // ----- the permutation

  /** The permutation runs 24 rounds, with indices 0 to 23: it is the end of every trail of rounds from s. */
  lemma {:induction false} PermutationIsTrail(t: seq<Bits>, n: nat)
    requires n <= 24 && |t| == 25 && |t[0]| == 1600
    requires forall i {:trigger t[i]} :: 0 <= i < 24 ==> |t[i]| == 1600 && t[i + 1] == Round(t[i], i)
    ensures t[n] == Rounds(t[0], n) && (n == 24 ==> t[n] == KeccakF(t[0]))
    decreases n
  {
    hide Round;
    if n > 0 {
      PermutationIsTrail(t, n - 1);
      assert t[n - 1 + 1] == Round(t[n - 1], n - 1);
    }
  }

  // ----- absorbing

  /** Absorbing starts from zeros. */
  lemma NothingAbsorbed(w: nat)
    requires 0 < w <= 1600
    ensures AbsorbBlocks([], w) == seq(1600, _ => false)
  {
  }

  /** A block is added to the first w bits of the state, the others stay, and the permutation follows. */
  lemma BlockAbsorbed(p: Bits, b: Bits, w: nat, t: Bits)
    requires 0 < w <= 1600 && |b| == w && |t| == 1600
    requires forall k :: 0 <= k < 1600 ==> t[k] == (AbsorbBlocks(p, w)[k] != (k < w && b[k]))
    ensures AbsorbBlocks(p + b, w) == KeccakF(t)
  {
    var s := AbsorbBlocks(p, w);
    assert (p + b)[..|p|] == p && (p + b)[|p|..] == b;
    assert AbsorbBlocks(p + b, w) == KeccakF(XorAt(s, 0, b)) by { hide KeccakF, XorAt; }
    hide KeccakF, AbsorbBlocks;
    assert XorAt(s, 0, b) == t;
  }

  // ----- padding

  /** A one, zeros, and a one, up to the next multiple of the rate. */
  lemma PadShape(x: nat, m: nat, n: nat)
    requires x > 0
    ensures var p := Pad(x, m);
            && p[0] && p[|p| - 1] && (forall i :: 0 < i < |p| - 1 ==> !p[i])
            && (m + |p|) % x == 0 && (n >= 2 && (m + n) % x == 0 ==> |p| <= n)
  {
    PadFills(x, m);
    if n >= 2 && (m + n) % x == 0 && n < |Pad(x, m)| {
      var k := |Pad(x, m)|;
      assert 2 <= k < 2 + x;
      MultiplesApart(m + n, m + k, x);
    }
  }

  lemma MultiplesApart(a: nat, b: nat, x: nat)
    requires x > 0 && a % x == 0 && b % x == 0 && a < b
    ensures b >= a + x
  {
    assert a == x * (a / x) && b == x * (b / x);
    Spaced(x, a / x, b / x);
  }

  // ----- squeezing

  /** Bit j of output block q is bit j of the state after q permutations. */
  lemma {:induction false} SqueezedBit(s: Bits, w: nat, n: nat, q: nat, j: nat)
    requires |s| == 1600 && 0 < w <= 1600 && q < n && j < w
    ensures q * w + j < n * w && SqueezeBlocks(s, w, n)[q * w + j] == Iterate(s, q)[j]
    decreases n
  {
    hide KeccakF, Iterate;
    BlockFits(w, q, n, j);
    SqueezeStep(s, w, n);
    if q < n - 1 {
      SqueezedBit(s, w, n - 1, q, j);
    }
  }

  lemma BlockFits(w: nat, q: nat, n: nat, j: nat)
    requires q < n && j < w
    ensures q * w + j < n * w && (q < n - 1 ==> q * w + j < (n - 1) * w) && n * w == (n - 1) * w + w
  {
    Spaced(w, q, n);
    if q < n - 1 {
      Spaced(w, q, n - 1);
    }
  }

  /** Output bit j of block q, for a whole message: all bits of a digest or stream. */
  lemma SpongeBit(m: Bits, r: nat, n: nat, l: nat, q: nat, j: nat)
    requires IsRate(r) && l <= n * r && j < 8 * r && q * (8 * r) + j < 8 * l
    ensures SpongeOutput(m, r, n, l)[q * (8 * r) + j] == Iterate(AbsorbBlocks(m + Pad(8 * r, |m|), 8 * r), q)[j]
  {
    hide Iterate, AbsorbBlocks, Pad, SqueezeBlocks;
    BlockOf(8 * r, q, n, j);
    SqueezedBit(AbsorbBlocks(m + Pad(8 * r, |m|), 8 * r), 8 * r, n, q, j);
  }

  lemma BlockOf(w: nat, q: nat, n: nat, j: nat)
    requires q * w + j < n * w
    ensures q < n
  {
    LaterStarts(w, q, n);
  }

  lemma LaterStarts(w: nat, q: nat, n: nat)
    ensures q >= n ==> q * w >= n * w
  {
    if q >= n {
      assert (q - n) * w >= 0;
    }
  }
}
