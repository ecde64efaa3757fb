/** mlkem/ntt.c: the in-place transforms over `int16_t r[256]`. */
module Transform {
  import opened Modular
  import opened Reduce
  import opened Ring
  import opened Zetas
  import opened NttMath

  /** Every coefficient lies in [-b, b]. */
  ghost predicate Bounded(s: seq<int>, b: int) {
    forall i :: 0 <= i < |s| ==> -b <= s[i] <= b
  }

  /** The block of s starting at o holds v, up to multiples of Q. */
  ghost predicate HoldsAt(s: seq<int>, o: nat, v: Vec) {
    o + |v| <= |s| && CongSeq(s[o..o + |v|], v)
  }

  /** Writing elsewhere keeps a block. */
  lemma HoldsFrame(s: seq<int>, t: seq<int>, o: nat, v: Vec)
    requires |s| == |t| && HoldsAt(s, o, v)
    requires forall i :: o <= i < o + |v| ==> t[i] == s[i]
    ensures HoldsAt(t, o, v)
  {
    assert s[o..o + |v|] == t[o..o + |v|];
  }

  // ----- where each node of the tree lives in the array

  /** Start of the block of node k, among the nodes with n coefficients. */
  function Offset(k: nat, n: nat): (o: nat)
    requires IsNode(k, n)
    ensures o + n <= 256
  {
    k * n - 256
  }

  lemma OffsetChildren(k: nat, n: nat)
    requires IsNode(k, 2 * n) && n >= 2
    ensures IsNode(2 * k, n) && IsNode(2 * k + 1, n) && 1 <= k < 128
    ensures Offset(2 * k, n) == Offset(k, 2 * n) && Offset(2 * k + 1, n) == Offset(k, 2 * n) + n
  {
  }

  lemma OffsetDisjoint(k: nat, n: nat, m: nat)
    requires IsNode(k, n) && IsNode(m, n) && k < m
    ensures Offset(k, n) + n <= Offset(m, n)
  {
  }

  /** The input polynomial reduced modulo X^n - Factor(k), following the path from the root. */
  function Residue(a: Vec, k: nat): (r: Vec)
    requires |a| == 256 && 1 <= k < 256
    ensures IsNode(k, |r|)
    decreases k
  {
    if k == 1 then a
    else
      HalfNode(k, |Residue(a, k / 2)|);
      Lo(Residue(a, k / 2), if k % 2 == 0 then Z(k / 2) else -Z(k / 2))
  }

  lemma HalfNode(k: nat, n: nat)
    requires 1 < k < 256 && IsNode(k / 2, n)
    ensures 1 <= k / 2 < 128 && n % 2 == 0 && IsNode(k, n / 2)
  {
  }

  lemma ResidueChildren(a: Vec, k: nat)
    requires |a| == 256 && 1 <= k < 128
    ensures |Residue(a, k)| % 2 == 0
    ensures Residue(a, 2 * k) == Lo(Residue(a, k), Z(k)) && Residue(a, 2 * k + 1) == Lo(Residue(a, k), -Z(k))
  {
    hide Lo, Z;
    hide IsNode;
    HalfNode(2 * k, |Residue(a, k)|);
  }

  lemma OffsetRoot()
    ensures IsNode(1, 256) && Offset(1, 256) == 0
  {
  }

  lemma NodeSize(k: nat, n: nat, m: nat)
    requires IsNode(k, n) && IsNode(k, m)
    ensures n == m && 1 <= k < 256 && n >= 2
  {
  }

  lemma NodeParent(k: nat, n: nat)
    requires 1 < k && IsNode(k, n)
    ensures IsNode(k / 2, 2 * n) && 1 <= k / 2 < 128
  {
  }

  lemma SliceHalves(t: Vec, o: nat, x: Vec, y: Vec)
    requires o + |x| + |y| <= |t| && t[o..o + |x| + |y|] == x + y
    ensures t[o..o + |x|] == x && t[o + |x|..o + |x| + |y|] == y
  {
    assert t[o..o + |x| + |y|][..|x|] == t[o..o + |x|];
    assert t[o..o + |x| + |y|][|x|..] == t[o + |x|..o + |x| + |y|];
  }

  /** The slice of the transform below node k is the transform of its residue. */
  lemma {:induction false} ResidueSubtree(a: Vec, k: nat, n: nat)
    requires |a| == 256 && IsNode(k, n)
    ensures 1 <= k < 256 && |Residue(a, k)| == n
    ensures Ntt(a)[Offset(k, n)..Offset(k, n) + n] == NttTree(Residue(a, k), k)
    decreases k
  {
    hide *;
    NodeSize(k, n, n);
    NodeSize(k, n, |Residue(a, k)|);
    if k == 1 {
      ResidueRoot(a, n);
    } else {
      var p := k / 2;
      NodeParent(k, n);
      ResidueSubtree(a, p, 2 * n);
      ResidueChildren(a, p);
      var b := Residue(a, p);
      NttStep(b, p);
      OffsetChildren(p, n);
      var x, y := NttTree(Lo(b, Z(p)), 2 * p), NttTree(Lo(b, -Z(p)), 2 * p + 1);
      SliceHalves(Ntt(a), Offset(p, 2 * n), x, y);
    }
  }

  lemma ResidueRoot(a: Vec, n: nat)
    requires |a| == 256 && IsNode(1, n)
    ensures n == 256 && Offset(1, 256) == 0 && Residue(a, 1) == a
    ensures Ntt(a)[0..256] == NttTree(a, 1)
  {
    hide NttTree;
  }

  // ----- twiddle factors

  /** A factor small enough for `fqmul` with any int16. */
  type twiddle = z: int16 | -1664 <= z <= 1664

  function Twiddle(k: nat): (z: twiddle)
    requires k < 128
    ensures z == Zeta(k)
  {
    ZetaRange(k);
    Zeta(k)
  }

  lemma Signs(x: int, y: int)
    ensures -x * y == -(x * y) && x * -y == -(x * y) && -x * -y == x * y
  {
  }

  lemma MulBound(x: int, y: int, a: int, b: int)
    requires -a <= x <= a && -b <= y <= b
    ensures -(a * b) <= x * y <= a * b
  {
    var u, v := if x < 0 then -x else x, if y < 0 then -y else y;
    assert u * v <= a * v by { assert (a - u) * v >= 0; }
    assert a * v <= a * b by { assert a * (b - v) >= 0; }
    Signs(x, y);
  }

  /** `fqmul` with a factor from the table. */
  function TwiddleMul(z: twiddle, x: int16): (r: int16)
    ensures -3328 <= r <= 3328
    ensures Cong(0x1_0000 * r, z * x)
  {
    MulBound(z, x, 1664, 0x8000);
    FqMul(z, x)
  }

  /** A factor of at most 1664 and an argument of at most b: the tight bound of Montgomery reduction. */
  function Product(b: int): int {
    (1664 * b + 3329 * 0x8000) / 0x1_0000
  }

  lemma TwiddleMulBound(z: twiddle, x: int16, b: int)
    requires -b <= x <= b
    ensures -Product(b) <= TwiddleMul(z, x) <= Product(b)
  {
    MulBound(z, x, 1664, b);
    MulBound(z, x, 1664, 0x8000);
    hide Cong;
    assert TwiddleMul(z, x) == FqMul(z, x);
    hide FqMul;
  }

  /** The bound after one butterfly on coefficients of at most b. */
  function Grown(b: int): int {
    b + Product(b)
  }

  lemma Cancel16(a: int, b: int)
    requires Cong(0x1_0000 * a, 0x1_0000 * b)
    ensures Cong(a, b)
  {
    CongCancel(a, b, 0x1_0000, 169);
  }

  /** `fqmul` with a table entry multiplies by the twiddle factor of FIPS 203. */
  lemma TwiddleMulCong(k: nat, v: int16)
    requires k < 128
    ensures Cong(TwiddleMul(Twiddle(k), v), Z(k) * v)
  {
    hide *;
    var x: int, r: int := v, TwiddleMul(Twiddle(k), v);
    ZetaIsRoot(k);
    CongBy(x, x, 0);
    CongMul(Zeta(k), 0x1_0000 * Z(k), x, x);
    CongTrans(0x1_0000 * r, Zeta(k) * x, 0x1_0000 * Z(k) * x);
    assert 0x1_0000 * Z(k) * x == 0x1_0000 * (Z(k) * x);
    Cancel16(r, Z(k) * x);
  }

  // ----- ntt

  /** Coefficient i after one block of forward butterflies. */
  function Forward(s: seq<int16>, start: nat, len: nat, zeta: twiddle, i: nat): int16
    requires start + 2 * len <= |s| && i < |s|
  {
    if start <= i < start + len then Add16(s[i], TwiddleMul(zeta, s[i + len]))
    else if start + len <= i < start + 2 * len then Sub16(s[i - len], TwiddleMul(zeta, s[i]))
    else s[i]
  }

  ghost predicate IsForward(s: seq<int16>, t: seq<int16>, start: nat, len: nat, zeta: twiddle)
  {
    |s| == |t| && start + 2 * len <= |s| && forall i :: 0 <= i < |s| ==> t[i] == Forward(s, start, len, zeta, i)
  }

  lemma ForwardPair(s: seq<int16>, start: nat, len: nat, zeta: twiddle, j: nat)
    requires start + 2 * len <= |s| && start <= j < start + len
    ensures Forward(s, start, len, zeta, j) == Add16(s[j], TwiddleMul(zeta, s[j + len]))
    ensures Forward(s, start, len, zeta, j + len) == Sub16(s[j], TwiddleMul(zeta, s[j + len]))
  {
    hide TwiddleMul, Add16, Sub16;
  }

  lemma ForwardFrame(s: seq<int16>, start: nat, len: nat, zeta: twiddle, i: nat)
    requires start + 2 * len <= |s| && i < |s| && !(start <= i < start + 2 * len)
    ensures Forward(s, start, len, zeta, i) == s[i]
  {
  }

  /** The innermost loop of `ntt`. */
  method ForwardBlock(r: array<int16>, start: nat, len: nat, zeta: twiddle)
    requires start + 2 * len <= r.Length
    modifies r
    ensures IsForward(old(r[..]), r[..], start, len, zeta)
  {
    hide TwiddleMul, Add16, Sub16, Forward;
    ghost var s := r[..];
    var j := start;
    while j < start + len
      invariant start <= j <= start + len
      invariant forall i :: 0 <= i < r.Length && (start <= i < j || start + len <= i < j + len) ==>
            r[i] == Forward(s, start, len, zeta, i)
      invariant forall i :: 0 <= i < r.Length && !(start <= i < j || start + len <= i < j + len) ==> r[i] == s[i]
    {
      ForwardPair(s, start, len, zeta, j);
      var t := TwiddleMul(zeta, r[j + len]);
      r[j + len] := Sub16(r[j], t);
      r[j] := Add16(r[j], t);
      j := j + 1;
    }
    forall i: nat | i < r.Length && !(start <= i < start + 2 * len) {
      ForwardFrame(s, start, len, zeta, i);
    }
  }

  lemma ForwardValue(s: seq<int16>, start: nat, len: nat, k: nat, i: nat, x: int, y: int, bound: int)
    requires start + 2 * len <= |s| && i < len && k < 128 && x == s[start + i] && y == s[start + len + i]
    requires -bound <= x <= bound && -bound <= y <= bound && Grown(bound) < 0x8000
    ensures var u := Forward(s, start, len, Twiddle(k), start + i);
            var v := Forward(s, start, len, Twiddle(k), start + len + i);
            Cong(u, x + Z(k) * y) && Cong(v, x + -Z(k) * y) && -Grown(bound) <= u <= Grown(bound)
                && -Grown(bound) <= v <= Grown(bound)
  {
    hide *;
    ForwardPair(s, start, len, Twiddle(k), start + i);
    var t: int := TwiddleMul(Twiddle(k), y);
    TwiddleMulCong(k, y);
    TwiddleMulBound(Twiddle(k), y, bound);
    GrownIs(bound);
    Fits16(x, t);
    CongBy(x, x, 0);
    CongAdd(x, x, t, Z(k) * y);
    assert -Z(k) * y == -(Z(k) * y);
  }

  lemma GrownIs(b: int)
    ensures Grown(b) == b + Product(b)
  {
  }

  lemma ForwardBounds(s: seq<int16>, t: seq<int16>, o: nat, k: nat, len: nat, bound: int)
    requires k < 128 && IsForward(s, t, o, len, Twiddle(k))
    requires (forall i :: o <= i < o + 2 * len ==> -bound <= s[i] <= bound) && Grown(bound) < 0x8000
    ensures forall i :: o <= i < o + 2 * len ==> -Grown(bound) <= t[i] <= Grown(bound)
  {
    hide Z, Twiddle, Forward, Cong, Grown;
    forall i | o <= i < o + 2 * len ensures -Grown(bound) <= t[i] <= Grown(bound) {
      var j := if i < o + len then i - o else i - o - len;
      ForwardValue(s, o, len, k, j, s[o + j], s[o + len + j], bound);
    }
  }

  /** One block of forward butterflies splits the polynomial it holds. */
  lemma ForwardSplits(s: seq<int16>, t: seq<int16>, o: nat, k: nat, len: nat, v: Vec, bound: int)
    requires k < 128 && |v| == 2 * len && HoldsAt(s, o, v)
    requires IsForward(s, t, o, len, Twiddle(k))
    requires (forall i :: o <= i < o + 2 * len ==> -bound <= s[i] <= bound) && Grown(bound) < 0x8000
    ensures HoldsAt(t, o, Lo(v, Z(k))) && HoldsAt(t, o + len, Lo(v, -Z(k)))
  {
    hide *;
    ForwardStart(s, t, o, k, len, v);
    var b, x, y := s[o..o + 2 * len], t[o..o + len], t[o + len..o + len + len];
    ForwardLo(s, t, o, k, len, b, x, y, bound);
    HoldsLo(t, o, x, b, v, len, Z(k));
    HoldsLo(t, o + len, y, b, v, len, -Z(k));
  }

  lemma ForwardStart(s: seq<int16>, t: seq<int16>, o: nat, k: nat, len: nat, v: Vec)
    requires k < 128 && |v| == 2 * len && HoldsAt(s, o, v) && IsForward(s, t, o, len, Twiddle(k))
    ensures |s| == |t| && o + 2 * len <= |s| && CongSeq(s[o..o + 2 * len], v)
  {
    hide CongSeq, Twiddle;
  }

  lemma HoldsLo(t: seq<int>, o: nat, x: Vec, b: Vec, v: Vec, n: nat, z: int)
    requires o + n <= |t| && x == t[o..o + n] && |b| == |v| == 2 * n && CongSeq(b, v) && CongSeq(x, Lo(b, z))
    ensures HoldsAt(t, o, Lo(v, z))
  {
    hide CongSeq, Lo;
    CongLo(b, v, z);
    CongSeqTrans(x, Lo(b, z), Lo(v, z));
  }

  /** The two halves a forward step leaves. */
  lemma ForwardLo(s: seq<int16>, t: seq<int16>, o: nat, k: nat, len: nat, b: Vec, x: Vec, y: Vec, bound: int)
    requires k < 128 && o + 2 * len <= |s| && IsForward(s, t, o, len, Twiddle(k))
    requires b == s[o..o + 2 * len] && x == t[o..o + len] && y == t[o + len..o + len + len]
    requires (forall i :: o <= i < o + 2 * len ==> -bound <= s[i] <= bound) && Grown(bound) < 0x8000
    ensures |s| == |t| && CongSeq(x, Lo(b, Z(k))) && CongSeq(y, Lo(b, -Z(k)))
  {
    hide Z, Twiddle, Forward, Cong, Lo, Grown;
    var lo, hi := Lo(b, Z(k)), Lo(b, -Z(k));
    forall i | 0 <= i < len ensures Cong(x[i], lo[i]) && Cong(y[i], hi[i]) {
      var p, q := s[o + i], s[o + len + i];
      ForwardValue(s, o, len, k, i, p, q, bound);
      LoAt(b, Z(k), i, p, q);
      LoAt(b, -Z(k), i, p, q);
    }
  }

  lemma LoAt(v: Vec, z: int, i: nat, x: int, y: int)
    requires |v| % 2 == 0 && i < |v| / 2 && v[i] == x && v[|v| / 2 + i] == y
    ensures Lo(v, z)[i] == x + z * y
  {
  }

  lemma Fits16(x: int, y: int)
    ensures -0x8000 <= x + y < 0x8000 ==> Add16(x, y) == x + y
    ensures -0x8000 <= x - y < 0x8000 ==> Sub16(x, y) == x - y
  {
  }

  /** Node k has been reached by the forward transform of a. */
  ghost predicate HoldsResidue(s: seq<int>, a: Vec, k: nat, n: nat) {
    |s| == |a| == 256 && IsNode(k, n) && HoldsAt(s, Offset(k, n), Residue(a, k))
  }

  /** A layer: nodes k0 .. 2 * k0 - 1 with 2 * len coefficients each. */
  predicate IsLayer(k0: nat, len: nat) {
    || (k0 == 1 && len == 128) || (k0 == 2 && len == 64) || (k0 == 4 && len == 32) || (k0 == 8 && len == 16)
    || (k0 == 16 && len == 8) || (k0 == 32 && len == 4) || (k0 == 64 && len == 2) || (k0 == 128 && len == 1)
  }

  lemma LayerNodes(k0: nat, len: nat, k: nat)
    requires IsLayer(k0, len) && k0 <= k < 2 * k0
    ensures IsNode(k, 2 * len)
    ensures Offset(k, 2 * len) == (k - k0) * (2 * len)
  {
  }

  /** The loop state of `ntt` inside a layer: nodes from k on are still whole, the earlier ones are split. */
  ghost predicate InLayer(s: seq<int>, a: Vec, k0: nat, k: nat, n: nat, len: nat) {
    && |s| == |a| == 256 && IsLayer(k0, len) && k0 <= k <= 2 * k0 && n == 2 * len
    && (forall m :: k <= m < 2 * k0 ==> HoldsResidue(s, a, m, n))
    && (forall c :: 2 * k0 <= c < 2 * k ==> HoldsResidue(s, a, c, len))
  }

  lemma HoldsResidueFrame(s: seq<int>, t: seq<int>, a: Vec, k: nat, n: nat)
    requires |s| == |t| && HoldsResidue(s, a, k, n)
    requires forall i :: Offset(k, n) <= i < Offset(k, n) + n ==> t[i] == s[i]
    ensures HoldsResidue(t, a, k, n)
  {
    hide CongSeq, Residue, Offset;
    hide IsNode;
    NodeSize(k, n, n);
    NodeSize(k, n, |Residue(a, k)|);
    HoldsFrame(s, t, Offset(k, n), Residue(a, k));
  }

  /** Splitting node k of a layer moves the loop of `ntt` on to node k + 1. */
  lemma InLayerStep(s: seq<int16>, t: seq<int16>, a: Vec, k0: nat, k: nat, n: nat, len: nat, bound: int)
    requires InLayer(s, a, k0, k, n, len) && k < 2 * k0 && len >= 2 && k < 128 && IsNode(k, n)
    requires IsForward(s, t, Offset(k, n), len, Twiddle(k))
    requires (forall i :: Offset(k, n) <= i < 256 ==> -bound <= s[i] <= bound) && Grown(bound) < 0x8000
    ensures InLayer(t, a, k0, k + 1, n, len)
  {
    hide IsLayer, IsNode, Offset, Twiddle, IsForward, HoldsResidue;
    assert HoldsResidue(s, a, k, n);
    NodeSplits(s, t, a, k, n, len, bound);
    forall m | k + 1 <= m < 2 * k0 ensures HoldsResidue(t, a, m, n) {
      assert HoldsResidue(s, a, m, n);
      LaterNodeKept(s, t, a, k, n, len, m);
    }
    forall c | 2 * k0 <= c < 2 * (k + 1) ensures HoldsResidue(t, a, c, len) {
      if c < 2 * k {
        assert HoldsResidue(s, a, c, len);
        EarlierNodeKept(s, t, a, k, n, len, c);
      } else {
        assert c == 2 * k || c == 2 * k + 1;
      }
    }
    ForwardFrames(s, t, Offset(k, n), len, Twiddle(k));
  }

  lemma LaterNodeKept(s: seq<int16>, t: seq<int16>, a: Vec, k: nat, n: nat, len: nat, m: nat)
    requires n == 2 * len && k < 128 && k < m && HoldsResidue(s, a, m, n) && IsNode(k, n)
    requires IsForward(s, t, Offset(k, n), len, Twiddle(k))
    ensures HoldsResidue(t, a, m, n)
  {
    hide IsNode, IsForward, Offset, Twiddle, HoldsResidue;
    HoldsNode(s, a, m, n);
    OffsetDisjoint(k, n, m);
    ForwardFrames(s, t, Offset(k, n), len, Twiddle(k));
    HoldsResidueFrame(s, t, a, m, n);
  }

  lemma EarlierNodeKept(s: seq<int16>, t: seq<int16>, a: Vec, k: nat, n: nat, len: nat, c: nat)
    requires n == 2 * len && len >= 2 && k < 128 && c < 2 * k && HoldsResidue(s, a, c, len) && IsNode(k, n)
    requires IsForward(s, t, Offset(k, n), len, Twiddle(k))
    ensures HoldsResidue(t, a, c, len)
  {
    hide IsNode, IsForward, Offset, Twiddle, HoldsResidue;
    HoldsNode(s, a, c, len);
    OffsetChildren(k, len);
    OffsetDisjoint(c, len, 2 * k);
    ForwardFrames(s, t, Offset(k, n), len, Twiddle(k));
    HoldsResidueFrame(s, t, a, c, len);
  }

  lemma HoldsNode(s: seq<int>, a: Vec, k: nat, n: nat)
    requires HoldsResidue(s, a, k, n)
    ensures |s| == 256 && IsNode(k, n)
  {
  }

  lemma NodeSplits(s: seq<int16>, t: seq<int16>, a: Vec, k: nat, n: nat, len: nat, bound: int)
    requires n == 2 * len && len >= 2 && k < 128 && HoldsResidue(s, a, k, n) && IsNode(k, n)
    requires IsForward(s, t, Offset(k, n), len, Twiddle(k))
    requires (forall i :: Offset(k, n) <= i < Offset(k, n) + n ==> -bound <= s[i] <= bound) && Grown(bound) < 0x8000
    ensures HoldsResidue(t, a, 2 * k, len) && HoldsResidue(t, a, 2 * k + 1, len)
  {
    hide IsNode, Offset, Twiddle, HoldsAt, IsForward, Residue;
    OffsetChildren(k, len);
    NodeSize(k, n, n);
    NodeSize(k, n, |Residue(a, k)|);
    ForwardFrames(s, t, Offset(k, n), len, Twiddle(k));
    ForwardSplits(s, t, Offset(k, n), k, len, Residue(a, k), bound);
    ResidueChildren(a, k);
  }

  lemma ForwardFrames(s: seq<int16>, t: seq<int16>, o: nat, len: nat, zeta: twiddle)
    requires IsForward(s, t, o, len, zeta)
    ensures |s| == |t| && forall i :: 0 <= i < |s| && !(o <= i < o + 2 * len) ==> t[i] == s[i]
  {
    hide Add16, Sub16, TwiddleMul;
  }

  /** The bound after n layers. */
  function GrownBy(b: int, n: nat): int {
    if n == 0 then b else Grown(GrownBy(b, n - 1))
  }

  lemma {:induction false} GrownMonotone(a: int, b: int, m: nat, n: nat)
    requires 0 <= a <= b && m <= n
    ensures 0 <= GrownBy(a, m) <= GrownBy(b, n)
    decreases n
  {
    if n > 0 {
      GrownMonotone(a, b, if m == 0 then 0 else m - 1, n - 1);
    }
  }

  lemma GrownOnce(b: int, n: nat, x: int, y: int)
    requires GrownBy(b, n) == x && Grown(x) == y
    ensures GrownBy(b, n + 1) == y
  {
    hide Grown;
  }

  /**
   Seven layers keep coefficients of at most 16943 within an int16, and those of at most 3197 within what `invntt` can
   add.
   */
  lemma GrowthLimits()
    ensures GrownBy(16943, 7) == 0x7fff && GrownBy(3197, 7) <= 16383
  {
    hide GrownBy;
    GrownNone(16943);
    GrownOnce(16943, 0, 16943, 19037);
    GrownOnce(16943, 1, 19037, 21184);
    GrownOnce(16943, 2, 21184, 23386);
    GrownOnce(16943, 3, 23386, 25644);
    GrownOnce(16943, 4, 25644, 27959);
    GrownOnce(16943, 5, 27959, 30333);
    GrownOnce(16943, 6, 30333, 32767);
    GrownNone(3197);
    GrownOnce(3197, 0, 3197, 4942);
    GrownOnce(3197, 1, 4942, 6731);
    GrownOnce(3197, 2, 6731, 8566);
    GrownOnce(3197, 3, 8566, 10447);
    GrownOnce(3197, 4, 10447, 12376);
    GrownOnce(3197, 5, 12376, 14354);
    GrownOnce(3197, 6, 14354, 16382);
  }

  lemma GrownNone(b: int)
    ensures GrownBy(b, 0) == b
  {
  }

  /** Where the bound stands before a layer: 128, 64, ..., 2 are layers 0 to 6. */
  function LayerOf(len: nat): nat {
    if len == 128 then 0 else if len == 64 then 1 else if len == 32 then 2 else if len == 16 then 3
    else if len == 8 then 4 else if len == 4 then 5 else if len == 2 then 6 else 7
  }

  /** No layer can overflow. */
  lemma LayerFits(b: int, k0: nat, len: nat)
    requires 0 <= b <= 16943 && IsLayer(k0, len) && len >= 2
    ensures LayerOf(len / 2) == LayerOf(len) + 1
    ensures Grown(GrownBy(b, LayerOf(len))) == GrownBy(b, LayerOf(len / 2)) < 0x8000
  {
    GrowthLimits();
    hide Grown;
    GrownMonotone(b, 16943, LayerOf(len) + 1, 7);
  }

  lemma InLayerRoot(a: Vec)
    requires |a| == 256
    ensures InLayer(a, a, 1, 1, 256, 128)
  {
    hide NttTree;
    ResidueRoot(a, 256);
    CongRefl(a);
    assert a[0..256] == a;
    assert HoldsResidue(a, a, 1, 256);
  }

  lemma LayerEnd(k0: nat, len: nat, k: nat)
    requires IsLayer(k0, len) && k0 <= k <= 2 * k0
    ensures (k - k0) * (2 * len) < 256 <==> k < 2 * k0
  {
  }

  lemma InLayerDone(s: seq<int>, a: Vec, k0: nat, n: nat, len: nat)
    requires InLayer(s, a, k0, 2 * k0, n, len) && len >= 2
    ensures InLayer(s, a, 2 * k0, 2 * k0, len, len / 2)
  {
    hide HoldsResidue;
    assert IsLayer(2 * k0, len / 2) && 2 * (len / 2) == len;
  }

  lemma NttDone(s: seq<int>, a: Vec)
    requires InLayer(s, a, 128, 128, 2, 1)
    ensures CongSeq(s, Ntt(a))
  {
    hide Ntt, NttTree, Residue, Cong;
    forall i | 0 <= i < 256 ensures Cong(s[i], Ntt(a)[i]) {
      var c, o := 128 + i / 2, i - i % 2;
      assert HoldsResidue(s, a, c, 2);
      ResidueSubtree(a, c, 2);
      NttLeaf(Residue(a, c), c);
      assert Offset(c, 2) == o;
      var x, y := s[o..o + 2], Ntt(a)[o..o + 2];
      assert CongSeq(x, y);
      assert x[i % 2] == s[i] && y[i % 2] == Ntt(a)[i];
    }
  }

  /** The invariant of the loop over blocks in `ntt`. */
  ghost predicate NttLoop(s: seq<int>, a: Vec, k0: nat, k: nat, start: nat, len: nat, bound: int) {
    && InLayer(s, a, k0, k, 2 * len, len)
    && start == (k - k0) * (2 * len) && (start < 256 <==> k < 2 * k0)
    && (forall i :: 0 <= i < start && i < 256 ==> -Grown(bound) <= s[i] <= Grown(bound))
    && (forall i :: start <= i < 256 ==> -bound <= s[i] <= bound)
  }

  lemma NttLoopBlock(s: seq<int>, a: Vec, k0: nat, k: nat, start: nat, len: nat, bound: int)
    requires NttLoop(s, a, k0, k, start, len, bound) && start < 256 && len >= 2
    ensures IsNode(k, 2 * len) && k < 128 && start == Offset(k, 2 * len) && start + 2 * len <= 256
  {
    hide HoldsResidue;
    LayerNodes(k0, len, k);
  }

  lemma NttLoopStep(s: seq<int16>, t: seq<int16>, a: Vec, k0: nat, k: nat, start: nat, len: nat, bound: int)
    requires NttLoop(s, a, k0, k, start, len, bound) && start < 256 && len >= 2 && Grown(bound) < 0x8000
    requires k < 128 && IsForward(s, t, start, len, Twiddle(k))
    ensures NttLoop(t, a, k0, k + 1, start + 2 * len, len, bound)
  {
    hide InLayer, IsForward, Twiddle, IsLayer, IsNode, Offset;
    NttLoopBlock(s, a, k0, k, start, len, bound);
    InLayerStep(s, t, a, k0, k, 2 * len, len, bound);
    InLayerSize(t, a, k0, k + 1, 2 * len, len);
    LayerEnd(k0, len, k + 1);
    ForwardFrames(s, t, start, len, Twiddle(k));
    ForwardBounds(s, t, start, k, len, bound);
    assert (k + 1 - k0) * (2 * len) == start + 2 * len;
  }

  lemma InLayerSize(s: seq<int>, a: Vec, k0: nat, k: nat, n: nat, len: nat)
    requires InLayer(s, a, k0, k, n, len)
    ensures |s| == 256 && IsLayer(k0, len) && k0 <= k <= 2 * k0
  {
  }

  /** `ntt`: seven layers of butterflies on coefficients of at most b. */
  method NttInPlace(r: array<int16>, ghost b: int)
    requires r.Length == 256 && 0 <= b <= 16943 && Bounded(r[..], b)
    modifies r
    ensures CongSeq(r[..], Ntt(old(r[..]))) && Bounded(r[..], GrownBy(b, 7))
  {
    ghost var a: Vec := r[..];
    hide Twiddle, InLayer, IsForward, Ntt, Grown, GrownBy;
    var k: nat, len: nat := 1, 128;
    InLayerRoot(a);
    GrownNone(b);
    while len >= 2
      invariant IsLayer(k, len) && InLayer(r[..], a, k, k, 2 * len, len)
      invariant Bounded(r[..], GrownBy(b, LayerOf(len)))
      decreases len
    {
      var start: nat := 0;
      ghost var k0, bound := k, GrownBy(b, LayerOf(len));
      LayerFits(b, k, len);
      LayerEnd(k0, len, k);
      while start < 256
        invariant NttLoop(r[..], a, k0, k, start, len, bound)
        decreases 256 - start
      {
        ghost var s := r[..];
        NttLoopBlock(s, a, k0, k, start, len, bound);
        var zeta := Twiddle(k);
        ForwardBlock(r, start, len, zeta);
        NttLoopStep(s, r[..], a, k0, k, start, len, bound);
        k := k + 1;
        start := start + 2 * len;
      }
      InLayerDone(r[..], a, k0, 2 * len, len);
      len := len / 2;
    }
    NttDone(r[..], a);
  }

  // ----- invntt

  /** Coefficient i after one block of inverse butterflies. */
  function Backward(s: seq<int16>, start: nat, len: nat, zeta: twiddle, i: nat): int16
    requires start + 2 * len <= |s| && i < |s|
  {
    if start <= i < start + len then BarrettReduce(Add16(s[i], s[i + len]))
    else if start + len <= i < start + 2 * len then TwiddleMul(zeta, Sub16(s[i], s[i - len]))
    else s[i]
  }

  ghost predicate IsBackward(s: seq<int16>, t: seq<int16>, start: nat, len: nat, zeta: twiddle)
  {
    |s| == |t| && start + 2 * len <= |s| && forall i :: 0 <= i < |s| ==> t[i] == Backward(s, start, len, zeta, i)
  }

  lemma BackwardPair(s: seq<int16>, start: nat, len: nat, zeta: twiddle, j: nat)
    requires start + 2 * len <= |s| && start <= j < start + len
    ensures Backward(s, start, len, zeta, j) == BarrettReduce(Add16(s[j], s[j + len]))
    ensures Backward(s, start, len, zeta, j + len) == TwiddleMul(zeta, Sub16(s[j + len], s[j]))
  {
    hide TwiddleMul, Add16, Sub16, BarrettReduce;
  }

  lemma BackwardFrame(s: seq<int16>, start: nat, len: nat, zeta: twiddle, i: nat)
    requires start + 2 * len <= |s| && i < |s| && !(start <= i < start + 2 * len)
    ensures Backward(s, start, len, zeta, i) == s[i]
  {
  }

  lemma BackwardFrames(s: seq<int16>, t: seq<int16>, o: nat, len: nat, zeta: twiddle)
    requires IsBackward(s, t, o, len, zeta)
    ensures |s| == |t| && forall i :: 0 <= i < |s| && !(o <= i < o + 2 * len) ==> t[i] == s[i]
  {
    hide Add16, Sub16, TwiddleMul, BarrettReduce;
  }

  /** The innermost loop of `invntt`. */
  method BackwardBlock(r: array<int16>, start: nat, len: nat, zeta: twiddle)
    requires start + 2 * len <= r.Length
    modifies r
    ensures IsBackward(old(r[..]), r[..], start, len, zeta)
  {
    hide TwiddleMul, Add16, Sub16, BarrettReduce, Backward;
    ghost var s := r[..];
    var j := start;
    while j < start + len
      invariant start <= j <= start + len
      invariant forall i :: 0 <= i < r.Length && (start <= i < j || start + len <= i < j + len) ==>
            r[i] == Backward(s, start, len, zeta, i)
      invariant forall i :: 0 <= i < r.Length && !(start <= i < j || start + len <= i < j + len) ==> r[i] == s[i]
    {
      BackwardPair(s, start, len, zeta, j);
      var t := r[j];
      r[j] := BarrettReduce(Add16(t, r[j + len]));
      r[j + len] := Sub16(r[j + len], t);
      r[j + len] := TwiddleMul(zeta, r[j + len]);
      j := j + 1;
    }
    forall i: nat | i < r.Length && !(start <= i < start + 2 * len) {
      BackwardFrame(s, start, len, zeta, i);
    }
  }

  /** No sum or difference of two coefficients within 16383 leaves the int16 range. */
  lemma BackwardValue(s: seq<int16>, start: nat, len: nat, k: nat, i: nat, x: int, y: int)
    requires start + 2 * len <= |s| && i < len && k < 128 && x == s[start + i] && y == s[start + len + i]
    requires -16383 <= x <= 16383 && -16383 <= y <= 16383
    ensures var u := Backward(s, start, len, Twiddle(k), start + i);
            var v := Backward(s, start, len, Twiddle(k), start + len + i);
            Cong(u, x + y) && Cong(v, Z(k) * (y - x)) && -3328 <= u <= 3328 && -3328 <= v <= 3328
  {
    hide *;
    BackwardPair(s, start, len, Twiddle(k), start + i);
    Fits16(x, y);
    Fits16(y, x);
    TwiddleMulCong(k, y - x);
  }

  lemma BackwardBounds(s: seq<int16>, t: seq<int16>, o: nat, k: nat, len: nat)
    requires k < 128 && IsBackward(s, t, o, len, Twiddle(k)) && Bounded(s, 16383)
    ensures Bounded(t, 16383)
  {
    BackwardFrames(s, t, o, len, Twiddle(k));
    hide Z, Twiddle, Backward, Cong;
    forall i | o <= i < o + 2 * len ensures -16383 <= t[i] <= 16383 {
      var j := if i < o + len then i - o else i - o - len;
      BackwardValue(s, o, len, k, j, s[o + j], s[o + len + j]);
    }
  }

  lemma MergeAt(lo: Vec, hi: Vec, w: int, i: nat, x: int, y: int)
    requires |lo| == |hi| && i < |lo| && x == lo[i] && y == hi[i]
    ensures Merge(lo, hi, w)[i] == x + y && Merge(lo, hi, w)[|lo| + i] == w * (y - x)
  {
  }

  /** One block of inverse butterflies merges the two halves it holds. */
  lemma BackwardMerges(s: seq<int16>, t: seq<int16>, o: nat, k: nat, len: nat, lo: Vec, hi: Vec)
    requires k < 128 && |lo| == |hi| == len && HoldsAt(s, o, lo) && HoldsAt(s, o + len, hi)
    requires IsBackward(s, t, o, len, Twiddle(k)) && Bounded(s, 16383)
    ensures HoldsAt(t, o, Merge(lo, hi, Z(k)))
  {
    hide *;
    BackwardStart(s, t, o, k, len, lo, hi);
    var a, b, w := s[o..o + len], s[o + len..o + len + len], t[o..o + len + len];
    BackwardMerge(s, t, o, k, len, a, b, w);
    CongMerge(a, lo, b, hi, Z(k));
    CongSeqTrans(w, Merge(a, b, Z(k)), Merge(lo, hi, Z(k)));
    HoldsSlice(t, o, w, Merge(lo, hi, Z(k)));
  }

  lemma BackwardStart(s: seq<int16>, t: seq<int16>, o: nat, k: nat, len: nat, lo: Vec, hi: Vec)
    requires k < 128 && |lo| == |hi| == len && HoldsAt(s, o, lo) && HoldsAt(s, o + len, hi)
        && IsBackward(s, t, o, len, Twiddle(k))
    ensures |s| == |t| && o + len + len <= |s| && CongSeq(s[o..o + len], lo) && CongSeq(s[o + len..o + len + len], hi)
  {
    hide CongSeq, Twiddle;
  }

  lemma HoldsSlice(t: seq<int>, o: nat, x: Vec, v: Vec)
    requires o + |x| <= |t| && x == t[o..o + |x|] && CongSeq(x, v)
    ensures HoldsAt(t, o, v)
  {
  }

  /** What a backward step leaves. */
  lemma BackwardMerge(s: seq<int16>, t: seq<int16>, o: nat, k: nat, len: nat, a: Vec, b: Vec, w: Vec)
    requires k < 128 && o + len + len <= |s| == |t| && IsBackward(s, t, o, len, Twiddle(k)) && Bounded(s, 16383)
    requires a == s[o..o + len] && b == s[o + len..o + len + len] && w == t[o..o + len + len]
    ensures CongSeq(w, Merge(a, b, Z(k)))
  {
    hide Z, Twiddle, Backward, Cong, Merge;
    var x, y, m := t[o..o + len], t[o + len..o + len + len], Merge(a, b, Z(k));
    forall i | 0 <= i < len ensures Cong(x[i], m[i]) && Cong(y[i], m[len + i]) {
      var p, q := s[o + i], s[o + len + i];
      BackwardValue(s, o, len, k, i, p, q);
      MergeAt(a, b, Z(k), i, p, q);
    }
    assert CongSeq(x + y, m) by {
      forall i | 0 <= i < 2 * len ensures Cong((x + y)[i], m[i]) {
        if i >= len {
          var j := i - len;
          assert (x + y)[i] == y[j] && m[len + j] == m[i];
        }
      }
    }
    assert w == x + y;
  }

  /** Node k has been reached by the inverse transform of r. */
  ghost predicate HoldsInverse(s: seq<int>, r: Vec, k: nat, n: nat) {
    |s| == |r| == 256 && IsNode(k, n) && HoldsAt(s, Offset(k, n), InvTree(r[Offset(k, n)..Offset(k, n) + n], k))
  }

  lemma HoldsInverseFrame(s: seq<int>, t: seq<int>, r: Vec, k: nat, n: nat)
    requires |s| == |t| && HoldsInverse(s, r, k, n)
    requires forall i :: Offset(k, n) <= i < Offset(k, n) + n ==> t[i] == s[i]
    ensures HoldsInverse(t, r, k, n)
  {
    hide CongSeq, InvTree, Offset, IsNode;
    HoldsFrame(s, t, Offset(k, n), InvTree(r[Offset(k, n)..Offset(k, n) + n], k));
  }

  lemma HoldsInverseNode(s: seq<int>, r: Vec, k: nat, n: nat)
    requires HoldsInverse(s, r, k, n)
    ensures IsNode(k, n) && |s| == |r| == 256
  {
  }

  lemma InverseChildren(r: Vec, k: nat, n: nat, len: nat)
    requires |r| == 256 && n == 2 * len && len >= 2 && IsNode(k, n)
    ensures IsNode(2 * k, len) && IsNode(2 * k + 1, len)
    ensures var o := Offset(k, n);
            Offset(2 * k, len) == o && Offset(2 * k + 1, len) == o + len && o + n <= 256 &&
            InvTree(r[o..o + n], k) == Merge(InvTree(r[o..o + len], 2 * k),
                InvTree(r[o + len..o + len + len], 2 * k + 1), Z(Mirror(k, n)))
  {
    hide *;
    OffsetChildren(k, len);
    var o := Offset(k, n);
    InverseHalves(r[o..o + n], r[o..o + len], r[o + len..o + len + len], k);
  }

  lemma InverseHalves(b: Vec, x: Vec, y: Vec, k: nat)
    requires |x| == |y| >= 2 && b == x + y && IsNode(k, |b|)
    ensures IsNode(2 * k, |x|) && IsNode(2 * k + 1, |y|)
    ensures InvTree(b, k) == Merge(InvTree(x, 2 * k), InvTree(y, 2 * k + 1), Z(Mirror(k, |b|)))
  {
    hide *;
    InvStep(x, y, k);
  }

  lemma NodeMerges(s: seq<int16>, t: seq<int16>, r: Vec, k: nat, n: nat, len: nat)
    requires n == 2 * len && len >= 2 && IsNode(k, n)
    requires HoldsInverse(s, r, 2 * k, len) && HoldsInverse(s, r, 2 * k + 1, len) && Bounded(s, 16383)
    requires IsBackward(s, t, Offset(k, n), len, Twiddle(Mirror(k, n)))
    ensures HoldsInverse(t, r, k, n)
  {
    hide IsNode, Offset, Twiddle, HoldsAt, IsBackward, InvTree, Mirror, Bounded;
    InverseChildren(r, k, n, len);
    var o := Offset(k, n);
    BackwardFrames(s, t, o, len, Twiddle(Mirror(k, n)));
    BackwardMerges(s, t, o, Mirror(k, n), len, InvTree(r[o..o + len], 2 * k),
        InvTree(r[o + len..o + len + len], 2 * k + 1));
  }

  /** The loop state of `invntt` inside a layer: nodes before k are merged, the children of the others are not. */
  ghost predicate InMerge(s: seq<int>, r: Vec, k0: nat, k: nat, n: nat, len: nat) {
    && |s| == |r| == 256 && IsLayer(k0, len) && k0 <= k <= 2 * k0 && n == 2 * len
    && (forall m :: k0 <= m < k ==> HoldsInverse(s, r, m, n))
    && (forall c :: 2 * k <= c < 4 * k0 ==> HoldsInverse(s, r, c, len))
  }

  lemma InMergeStep(s: seq<int16>, t: seq<int16>, r: Vec, k0: nat, k: nat, n: nat, len: nat)
    requires InMerge(s, r, k0, k, n, len) && k < 2 * k0 && len >= 2 && IsNode(k, n) && Bounded(s, 16383)
    requires IsBackward(s, t, Offset(k, n), len, Twiddle(Mirror(k, n)))
    ensures InMerge(t, r, k0, k + 1, n, len)
  {
    hide IsLayer, IsNode, Offset, Twiddle, IsBackward, HoldsInverse, Mirror, Bounded;
    assert HoldsInverse(s, r, 2 * k, len) && HoldsInverse(s, r, 2 * k + 1, len);
    NodeMerges(s, t, r, k, n, len);
    forall m | k0 <= m < k + 1 ensures HoldsInverse(t, r, m, n) {
      if m < k {
        assert HoldsInverse(s, r, m, n);
        EarlierMergeKept(s, t, r, k, n, len, m);
      }
    }
    forall c | 2 * (k + 1) <= c < 4 * k0 ensures HoldsInverse(t, r, c, len) {
      assert HoldsInverse(s, r, c, len);
      LaterChildKept(s, t, r, k, n, len, c);
    }
    BackwardFrames(s, t, Offset(k, n), len, Twiddle(Mirror(k, n)));
  }

  lemma EarlierMergeKept(s: seq<int16>, t: seq<int16>, r: Vec, k: nat, n: nat, len: nat, m: nat)
    requires n == 2 * len && len >= 2 && m < k && HoldsInverse(s, r, m, n) && IsNode(k, n)
    requires IsBackward(s, t, Offset(k, n), len, Twiddle(Mirror(k, n)))
    ensures HoldsInverse(t, r, m, n)
  {
    hide IsNode, IsBackward, Offset, Twiddle, HoldsInverse, Mirror;
    HoldsInverseNode(s, r, m, n);
    OffsetDisjoint(m, n, k);
    BackwardFrames(s, t, Offset(k, n), len, Twiddle(Mirror(k, n)));
    HoldsInverseFrame(s, t, r, m, n);
  }

  lemma LaterChildKept(s: seq<int16>, t: seq<int16>, r: Vec, k: nat, n: nat, len: nat, c: nat)
    requires n == 2 * len && len >= 2 && 2 * k + 1 < c && HoldsInverse(s, r, c, len) && IsNode(k, n)
    requires IsBackward(s, t, Offset(k, n), len, Twiddle(Mirror(k, n)))
    ensures HoldsInverse(t, r, c, len)
  {
    hide IsNode, IsBackward, Offset, Twiddle, HoldsInverse, Mirror;
    HoldsInverseNode(s, r, c, len);
    OffsetChildren(k, len);
    OffsetDisjoint(2 * k + 1, len, c);
    BackwardFrames(s, t, Offset(k, n), len, Twiddle(Mirror(k, n)));
    HoldsInverseFrame(s, t, r, c, len);
  }

  /** The invariant of the loop over blocks in `invntt`; the table index k runs backwards. */
  ghost predicate InvLoop(s: seq<int>, r: Vec, k0: nat, m: nat, start: nat, len: nat, k: int) {
    && InMerge(s, r, k0, m, 2 * len, len)
    && start == (m - k0) * (2 * len) && (start < 256 <==> m < 2 * k0)
    && k == 3 * k0 - 1 - m
    && Bounded(s, 16383)
  }

  lemma InvLoopBlock(s: seq<int>, r: Vec, k0: nat, m: nat, start: nat, len: nat, k: int)
    requires InvLoop(s, r, k0, m, start, len, k) && start < 256 && len >= 2
    ensures IsNode(m, 2 * len) && start == Offset(m, 2 * len) && start + 2 * len <= 256
    ensures 0 <= k < 128 && k == Mirror(m, 2 * len)
  {
    hide HoldsInverse;
    LayerNodes(k0, len, m);
  }

  lemma InvLoopStep(s: seq<int16>, t: seq<int16>, r: Vec, k0: nat, m: nat, start: nat, len: nat, k: nat)
    requires InvLoop(s, r, k0, m, start, len, k) && start < 256 && len >= 2
    requires k < 128 && IsBackward(s, t, start, len, Twiddle(k))
    ensures InvLoop(t, r, k0, m + 1, start + 2 * len, len, k - 1)
  {
    InvLoopBlock(s, r, k0, m, start, len, k);
    InMergeStep(s, t, r, k0, m, 2 * len, len);
    LayerEnd(k0, len, m + 1);
    hide InMerge, IsBackward, Twiddle, Bounded;
    BackwardBounds(s, t, start, k, len);
    assert (m + 1 - k0) * (2 * len) == start + 2 * len;
  }

  lemma InvRoot(r: Vec)
    requires |r| == 256
    ensures InMerge(r, r, 64, 64, 4, 2)
  {
    hide CongSeq;
    forall c | 128 <= c < 256 ensures HoldsInverse(r, r, c, 2) {
      var o := Offset(c, 2);
      NttLeaf(r[o..o + 2], c);
      CongRefl(r[o..o + 2]);
    }
  }

  lemma InMergeDone(s: seq<int>, r: Vec, k0: nat, n: nat, len: nat)
    requires InMerge(s, r, k0, 2 * k0, n, len) && 2 <= len < 128
    ensures InMerge(s, r, k0 / 2, k0 / 2, 2 * n, n) && IsLayer(k0 / 2, n) && k0 % 2 == 0
  {
    hide HoldsInverse;
    assert IsLayer(k0 / 2, n) && k0 == 2 * (k0 / 2);
  }

  lemma InvDone(s: seq<int>, r: Vec)
    requires InMerge(s, r, 1, 2, 256, 128)
    ensures CongSeq(s, InvTree(r, 1))
  {
    hide InvTree, CongSeq;
    assert HoldsInverse(s, r, 1, 256);
    OffsetRoot();
    assert r[0..256] == r && s[0..256] == s;
  }

  lemma InvLoopEnd(s: seq<int>, r: Vec, k0: nat, m: nat, start: nat, len: nat, k: int)
    requires InvLoop(s, r, k0, m, start, len, k) && start >= 256
    ensures m == 2 * k0 && k == k0 - 1 && |s| == 256 && IsLayer(k0, len)
    ensures InMerge(s, r, k0, 2 * k0, 2 * len, len) && Bounded(s, 16383)
  {
    hide HoldsInverse;
  }

  /** 1441 is 2^32 / 128: one factor 2^16 is spent by `fqmul`, the other stays. */
  lemma FinalFactor(v: int16, x: int)
    requires x == v
    ensures Cong(TwiddleMul(1441, v), 0x1_0000 * 3303 * x)
  {
    var r: int := TwiddleMul(1441, v);
    CongBy(1441, 0x1_0000 * (0x1_0000 * 3303), (1441 - 0x1_0000 * (0x1_0000 * 3303)) / 3329);
    hide *;
    CongBy(x, x, 0);
    CongMul(1441, 0x1_0000 * (0x1_0000 * 3303), x, x);
    CongTrans(0x1_0000 * r, 1441 * x, 0x1_0000 * (0x1_0000 * 3303) * x);
    assert 0x1_0000 * (0x1_0000 * 3303) * x == 0x1_0000 * (0x1_0000 * 3303 * x);
    Cancel16(r, 0x1_0000 * 3303 * x);
  }

  lemma FinalFactors(s: seq<int16>, t: seq<int16>, a: Vec)
    requires |s| == |t| == |a| == 256 && CongSeq(s, InvTree(a, 1))
    requires forall i :: 0 <= i < 256 ==> t[i] == TwiddleMul(1441, s[i])
    ensures CongSeq(t, Scale(0x1_0000, InvNtt(a))) && Bounded(t, 3328)
  {
    var w: Vec := s;
    FinalFactorAll(s, t, w);
    hide *;
    CongScaleBy(0x1_0000 * 3303, w, InvTree(a, 1));
    CongSeqTrans(t, Scale(0x1_0000 * 3303, w), Scale(0x1_0000 * 3303, InvTree(a, 1)));
    ScaleScale(0x1_0000, 3303, InvTree(a, 1));
    InvNttIs(a);
  }

  lemma InvNttIs(a: Vec)
    requires |a| == 256
    ensures InvNtt(a) == Scale(3303, InvTree(a, 1))
  {
    hide InvTree, Scale;
  }

  lemma FinalFactorAll(s: seq<int16>, t: seq<int16>, w: Vec)
    requires |s| == |t| == 256 && s == w
    requires forall i :: 0 <= i < 256 ==> t[i] == TwiddleMul(1441, s[i])
    ensures CongSeq(t, Scale(0x1_0000 * 3303, w)) && Bounded(t, 3328)
  {
    hide TwiddleMul, Scale, Cong;
    forall i | 0 <= i < 256 ensures Cong(t[i], Scale(0x1_0000 * 3303, w)[i]) && -3328 <= t[i] <= 3328 {
      var x := w[i];
      FinalFactor(s[i], x);
      ScaleAt(0x1_0000 * 3303, w, i, x);
    }
  }

  lemma ScaleAt(s: int, a: Vec, i: nat, x: int)
    requires i < |a| && a[i] == x
    ensures Scale(s, a)[i] == s * x
  {
  }

  /** The last loop of `invntt`. */
  method FinalLoop(r: array<int16>)
    modifies r
    ensures forall i :: 0 <= i < r.Length ==> r[i] == TwiddleMul(1441, old(r[i]))
  {
    hide TwiddleMul;
    ghost var t := r[..];
    var j := 0;
    while j < r.Length
      invariant 0 <= j <= r.Length
      invariant forall i :: 0 <= i < j ==> r[i] == TwiddleMul(1441, t[i])
      invariant forall i :: j <= i < r.Length ==> r[i] == t[i]
    {
      r[j] := TwiddleMul(1441, r[j]);
      j := j + 1;
    }
  }

  /** `invntt`. The final factor 1441 = 2^32 / 128 leaves the inverse transform times 2^16. */
  method InvNttInPlace(r: array<int16>)
    requires r.Length == 256 && Bounded(r[..], 16383)
    modifies r
    ensures CongSeq(r[..], Scale(0x1_0000, InvNtt(old(r[..]))))
    ensures Bounded(r[..], 3328)
  {
    ghost var a: Vec := r[..];
    hide Twiddle, InMerge, IsBackward, InvNtt, InvTree;
    var k: int, len: nat := 127, 2;
    ghost var k0: nat := 64;
    InvRoot(a);
    while len <= 128
      invariant len <= 128 ==>
            IsLayer(k0, len) && len >= 2 && InMerge(r[..], a, k0, k0, 2 * len, len) && k == 2 * k0 - 1
      invariant len > 128 ==> len == 256 && InMerge(r[..], a, 1, 2, 256, 128)
      invariant Bounded(r[..], 16383)
      decreases 256 - len
    {
      var start: nat := 0;
      ghost var m := k0;
      LayerEnd(k0, len, m);
      while start < 256
        invariant InvLoop(r[..], a, k0, m, start, len, k)
        decreases 256 - start
      {
        ghost var s := r[..];
        InvLoopBlock(s, a, k0, m, start, len, k);
        var zeta := Twiddle(k);
        k := k - 1;
        BackwardBlock(r, start, len, zeta);
        InvLoopStep(s, r[..], a, k0, m, start, len, k + 1);
        start, m := start + 2 * len, m + 1;
      }
      InvLoopEnd(r[..], a, k0, m, start, len, k);
      if len < 128 {
        InMergeDone(r[..], a, k0, 2 * len, len);
      }
      k0 := k0 / 2;
      len := 2 * len;
    }
    InvDone(r[..], a);
    ghost var t := r[..];
    FinalLoop(r);
    FinalFactors(t, r[..], a);
  }

  // ----- both transforms

  /** `ntt` and then `invntt`: the input times 2^16. */
  method NttRoundTrip(r: array<int16>)
    requires r.Length == 256 && Bounded(r[..], 3197)
    modifies r
    ensures CongSeq(r[..], Scale(0x1_0000, old(r[..]))) && Bounded(r[..], 3328)
  {
    hide CongSeq, Ntt, InvNtt, Scale, GrownBy;
    ghost var a := r[..];
    NttInPlace(r, 3197);
    GrowthLimits();
    ghost var b := r[..];
    InvNttInPlace(r);
    RoundTrip(a, b, r[..]);
  }

  /** Whatever representatives the two transforms compute. */
  lemma RoundTrip(a: Vec, b: Vec, c: Vec)
    requires |a| == |b| == |c| == 256 && CongSeq(b, Ntt(a)) && CongSeq(c, Scale(0x1_0000, InvNtt(b)))
    ensures CongSeq(c, Scale(0x1_0000, a))
  {
    hide CongSeq, Ntt, InvNtt, Scale;
    CongInvNtt(b, Ntt(a));
    InvNttOfNtt(a);
    CongSeqTrans(InvNtt(b), InvNtt(Ntt(a)), a);
    CongScaleBy(0x1_0000, InvNtt(b), a);
    CongSeqTrans(c, Scale(0x1_0000, InvNtt(b)), Scale(0x1_0000, a));
  }
}
