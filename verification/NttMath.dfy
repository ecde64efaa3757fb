/**
 The number-theoretic transform as a recursion over the tree of moduli
 X^256 + 1, X^128 - Z(1), X^128 + Z(1), ..., and what it preserves.
 Node k of the tree, with n coefficients, is the ring Z[X]/(X^n - Factor(k)).
 */
module NttMath {
  import opened Modular
  import opened Ring
  import opened Zetas

  /** Nodes are numbered 1 (256 coefficients), 2..3 (128 coefficients), ..., 128..255 (2 coefficients). */
  predicate IsNode(k: nat, n: nat) {
    || (k == 1 && n == 256)
    || (2 <= k < 4 && n == 128)
    || (4 <= k < 8 && n == 64)
    || (8 <= k < 16 && n == 32)
    || (16 <= k < 32 && n == 16)
    || (32 <= k < 64 && n == 8)
    || (64 <= k < 128 && n == 4)
    || (128 <= k < 256 && n == 2)
  }

  lemma NodeChildren(k: nat, n: nat)
    requires IsNode(k, n) && n > 2
    ensures n % 2 == 0 && 1 <= k < 128 && IsNode(2 * k, n / 2) && IsNode(2 * k + 1, n / 2)
  {
  }

  /** Remainder of v modulo X^n - z, for 2n coefficients. */
  function Lo(v: Vec, z: int): (r: Vec)
    requires |v| % 2 == 0
    ensures |r| == |v| / 2
  {
    var n := |v| / 2;
    Add(v[..n], Scale(z, v[n..]))
  }

  function NttTree(a: Vec, k: nat): (r: Vec)
    requires IsNode(k, |a|)
    ensures |r| == |a|
    decreases |a|
  {
    if |a| == 2 then a
    else
      NodeChildren(k, |a|);
      NttTree(Lo(a, Z(k)), 2 * k) + NttTree(Lo(a, -Z(k)), 2 * k + 1)
  }

  lemma NttLeaf(a: Vec, k: nat)
    requires IsNode(k, |a|) && |a| <= 2
    ensures |a| == 2 && NttTree(a, k) == a && InvTree(a, k) == a
  {
  }

  lemma NttStep(a: Vec, k: nat)
    requires IsNode(k, |a|) && |a| > 2
    ensures |a| % 2 == 0 && 1 <= k < 128 && IsNode(2 * k, |a| / 2) && IsNode(2 * k + 1, |a| / 2)
    ensures NttTree(a, k) == NttTree(Lo(a, Z(k)), 2 * k) + NttTree(Lo(a, -Z(k)), 2 * k + 1)
  {
    hide Lo, Z, IsNode;
    NodeChildren(k, |a|);
  }

  /** One butterfly of the inverse transform: undoes Lo(v, z), Lo(v, -z) up to a factor 2 if w * z = -1. */
  function Merge(lo: Vec, hi: Vec, w: int): (r: Vec)
    requires |lo| == |hi|
    ensures |r| == 2 * |lo|
  {
    Add(lo, hi) + Scale(w, Sub(hi, lo))
  }

  /** Index of the twiddle factor `invntt` uses at node k: its layer of the table read backwards. */
  function Mirror(k: nat, n: nat): (m: nat)
    requires IsNode(k, n) && n > 2
    ensures m < 128
  {
    768 / n - 1 - k
  }

  function InvTree(r: Vec, k: nat): (a: Vec)
    requires IsNode(k, |r|)
    ensures |a| == |r|
    decreases |r|
  {
    if |r| == 2 then r
    else
      NodeChildren(k, |r|);
      var n := |r| / 2;
      Merge(InvTree(r[..n], 2 * k), InvTree(r[n..], 2 * k + 1), Z(Mirror(k, |r|)))
  }

  lemma InvStep(x: Vec, y: Vec, k: nat)
    requires |x| == |y| && |x| >= 2 && IsNode(k, |x| + |y|)
    ensures 1 <= k < 128 && IsNode(2 * k, |x|) && IsNode(2 * k + 1, |x|)
    ensures InvTree(x + y, k) == Merge(InvTree(x, 2 * k), InvTree(y, 2 * k + 1), Z(Mirror(k, 2 * |x|)))
  {
    NodeChildren(k, |x| + |y|);
    InvUnfold(x + y, k, |x|);
    hide *;
    assert (x + y)[..|x|] == x && (x + y)[|x|..] == y;
  }

  lemma InvUnfold(r: Vec, k: nat, n: nat)
    requires IsNode(k, |r|) && |r| == 2 * n && n >= 2 && IsNode(2 * k, n) && IsNode(2 * k + 1, n)
    ensures InvTree(r, k) == Merge(InvTree(r[..n], 2 * k), InvTree(r[n..], 2 * k + 1), Z(Mirror(k, |r|)))
  {
    hide Z, Merge, Mirror, IsNode;
  }

  // ----- linearity

  lemma LoAdd(a: Vec, b: Vec, z: int)
    requires |a| == |b| && |a| % 2 == 0
    ensures Lo(Add(a, b), z) == Add(Lo(a, z), Lo(b, z))
  {
    var n := |a| / 2;
    assert Add(a, b)[..n] == Add(a[..n], b[..n]) && Add(a, b)[n..] == Add(a[n..], b[n..]);
    hide Add, Scale;
    ScaleAdd(z, a[n..], b[n..]);
    AddSwap(a[..n], b[..n], Scale(z, a[n..]), Scale(z, b[n..]));
  }

  lemma LoScale(s: int, a: Vec, z: int)
    requires |a| % 2 == 0
    ensures Lo(Scale(s, a), z) == Scale(s, Lo(a, z))
  {
    var n := |a| / 2;
    assert Scale(s, a)[..n] == Scale(s, a[..n]) && Scale(s, a)[n..] == Scale(s, a[n..]);
    hide Add, Scale;
    ScaleAdd(s, a[..n], Scale(z, a[n..]));
    ScaleScale(s, z, a[n..]);
    ScaleScale(z, s, a[n..]);
  }

  lemma CongLo(a: Vec, b: Vec, z: int)
    requires CongSeq(a, b) && |a| % 2 == 0
    ensures CongSeq(Lo(a, z), Lo(b, z))
  {
    hide Add, Scale, Cong;
    var n := |a| / 2;
    assert CongSeq(a[..n], b[..n]) && CongSeq(a[n..], b[n..]);
    CongRefl([z]);
    assert Cong([z][0], [z][0]);
    CongScale(z, z, a[n..], b[n..]);
    CongAddSeq(a[..n], b[..n], Scale(z, a[n..]), Scale(z, b[n..]));
  }

  lemma CongConcat(a: Vec, b: Vec, c: Vec, d: Vec)
    requires CongSeq(a, b) && CongSeq(c, d)
    ensures CongSeq(a + c, b + d)
  {
  }

  lemma {:induction false} NttAdd(a: Vec, b: Vec, k: nat)
    requires IsNode(k, |a|) && |a| == |b|
    ensures NttTree(Add(a, b), k) == Add(NttTree(a, k), NttTree(b, k))
    decreases |a|
  {
    hide *;
    if |a| > 2 {
      NttStep(a, k);
      NttStep(b, k);
      NttStep(Add(a, b), k);
      var z := Z(k);
      LoAdd(a, b, z);
      LoAdd(a, b, -z);
      NttAdd(Lo(a, z), Lo(b, z), 2 * k);
      NttAdd(Lo(a, -z), Lo(b, -z), 2 * k + 1);
      AddConcat(NttTree(Lo(a, z), 2 * k), NttTree(Lo(a, -z), 2 * k + 1), NttTree(Lo(b, z), 2 * k),
          NttTree(Lo(b, -z), 2 * k + 1));
    } else {
      NttLeaf(a, k);
      NttLeaf(b, k);
      NttLeaf(Add(a, b), k);
    }
  }

  lemma AddConcat(a: Vec, b: Vec, c: Vec, d: Vec)
    requires |a| == |c| && |b| == |d|
    ensures Add(a + b, c + d) == Add(a, c) + Add(b, d)
  {
  }

  lemma ScaleConcat(s: int, a: Vec, b: Vec)
    ensures Scale(s, a + b) == Scale(s, a) + Scale(s, b)
  {
  }

  lemma {:induction false} NttScale(s: int, a: Vec, k: nat)
    requires IsNode(k, |a|)
    ensures NttTree(Scale(s, a), k) == Scale(s, NttTree(a, k))
    decreases |a|
  {
    hide *;
    if |a| > 2 {
      NttStep(a, k);
      NttStep(Scale(s, a), k);
      var z := Z(k);
      LoScale(s, a, z);
      LoScale(s, a, -z);
      NttScale(s, Lo(a, z), 2 * k);
      NttScale(s, Lo(a, -z), 2 * k + 1);
      ScaleConcat(s, NttTree(Lo(a, z), 2 * k), NttTree(Lo(a, -z), 2 * k + 1));
    } else {
      NttLeaf(a, k);
      NttLeaf(Scale(s, a), k);
    }
  }

  lemma {:induction false} CongNtt(a: Vec, b: Vec, k: nat)
    requires IsNode(k, |a|) && CongSeq(a, b)
    ensures CongSeq(NttTree(a, k), NttTree(b, k))
    decreases |a|
  {
    hide *;
    CongLen(a, b);
    if |a| > 2 {
      NttStep(a, k);
      NttStep(b, k);
      var z := Z(k);
      CongLo(a, b, z);
      CongLo(a, b, -z);
      CongNtt(Lo(a, z), Lo(b, z), 2 * k);
      CongNtt(Lo(a, -z), Lo(b, -z), 2 * k + 1);
      CongConcat(NttTree(Lo(a, z), 2 * k), NttTree(Lo(b, z), 2 * k), NttTree(Lo(a, -z), 2 * k + 1),
          NttTree(Lo(b, -z), 2 * k + 1));
    } else {
      NttLeaf(a, k);
      NttLeaf(b, k);
    }
  }

  lemma CongLen(a: Vec, b: Vec)
    requires CongSeq(a, b)
    ensures |a| == |b|
  {
  }

  // ----- inversion

  /** Merging the two halves of a split vector doubles it. */
  lemma MergeLo(v: Vec, z: int, w: int)
    requires |v| % 2 == 0 && Cong(z * w, -1)
    ensures CongSeq(Merge(Lo(v, z), Lo(v, -z), w), Scale(2, v))
  {
    var n := |v| / 2;
    var m := Merge(Lo(v, z), Lo(v, -z), w);
    forall i | 0 <= i < |v| ensures Cong(m[i], 2 * v[i]) {
      if i < n {
        assert m[i] == v[i] + z * v[n + i] + (v[i] + -z * v[n + i]);
        assert m[i] - 2 * v[i] == 0;
      } else {
        var x, y := v[i - n], v[i];
        assert m[i] == w * ((x + -z * y) - (x + z * y));
        assert m[i] == -2 * y * (z * w);
        CongMul(-2 * y, -2 * y, z * w, -1);
      }
    }
  }

  /** Splitting a merged vector doubles both halves. */
  lemma LoMerge(lo: Vec, hi: Vec, z: int, w: int)
    requires |lo| == |hi| && Cong(z * w, -1)
    ensures CongSeq(Lo(Merge(lo, hi, w), z), Scale(2, lo)) && CongSeq(Lo(Merge(lo, hi, w), -z), Scale(2, hi))
  {
    hide Cong;
    var n, m := |lo|, Merge(lo, hi, w);
    var a, b := Lo(m, z), Lo(m, -z);
    forall i | 0 <= i < n ensures Cong(a[i], 2 * lo[i]) && Cong(b[i], 2 * hi[i]) {
      MergePair(lo[i], hi[i], z, w);
      assert m[i] == lo[i] + hi[i] && m[n + i] == w * (hi[i] - lo[i]);
    }
  }

  lemma MergePair(x: int, y: int, z: int, w: int)
    requires Cong(z * w, -1)
    ensures Cong(x + y + z * (w * (y - x)), 2 * x) && Cong(x + y + -z * (w * (y - x)), 2 * y)
  {
    hide Cong;
    CongMul(y - x, y - x, z * w, -1) by { CongBy(y - x, y - x, 0); }
    CongBy(x + y, x + y, 0);
    CongAdd(x + y, x + y, (y - x) * (z * w), (y - x) * -1);
    assert (y - x) * (z * w) == z * (w * (y - x));
    assert -z * (w * (y - x)) == -((y - x) * (z * w));
  }

  lemma CongMerge(a: Vec, b: Vec, c: Vec, d: Vec, w: int)
    requires CongSeq(a, b) && CongSeq(c, d) && |a| == |c|
    ensures CongSeq(Merge(a, c, w), Merge(b, d, w))
  {
    hide Add, Sub, Scale, Cong;
    CongAddSeq(a, b, c, d);
    CongAddSeq(c, d, a, b);
    CongBy(w, w, 0);
    CongScale(w, w, Sub(c, a), Sub(d, b));
  }

  lemma MergeScale(s: int, a: Vec, b: Vec, w: int)
    requires |a| == |b|
    ensures Merge(Scale(s, a), Scale(s, b), w) == Scale(s, Merge(a, b, w))
  {
    ScaleConcat(s, Add(a, b), Scale(w, Sub(b, a)));
    ScaleAdd(s, a, b);
    assert Sub(Scale(s, b), Scale(s, a)) == Scale(s, Sub(b, a)) by {
      forall i | 0 <= i < |a| ensures s * b[i] - s * a[i] == s * (b[i] - a[i]) {
      }
    }
    hide Add, Sub, Scale;
    ScaleScale(w, s, Sub(b, a));
    ScaleScale(s, w, Sub(b, a));
  }

  lemma MirrorInverse(k: nat, n: nat)
    requires IsNode(k, n) && n > 2
    ensures 1 <= k < 128 && Cong(Z(k) * Z(Mirror(k, n)), -1)
  {
    hide Z;
    Pow2Values();
    var l := if n == 256 then 0 else if n == 128 then 1 else if n == 64 then 2 else if n == 32 then 3
             else if n == 16 then 4 else if n == 8 then 5 else 6;
    ZMirror(k, l);
  }

  lemma {:induction false} CongInv(a: Vec, b: Vec, k: nat)
    requires IsNode(k, |a|) && CongSeq(a, b)
    ensures CongSeq(InvTree(a, k), InvTree(b, k))
    decreases |a|
  {
    hide *;
    CongLen(a, b);
    if |a| > 2 {
      NodeEven(k, |a|);
      var n := |a| / 2;
      var a0, a1, b0, b1 := a[..n], a[n..], b[..n], b[n..];
      assert a == a0 + a1 && b == b0 + b1;
      CongSlices(a, b, n);
      InvStep(a0, a1, k);
      InvStep(b0, b1, k);
      CongInv(a0, b0, 2 * k);
      CongInv(a1, b1, 2 * k + 1);
      CongMerge(InvTree(a0, 2 * k), InvTree(b0, 2 * k), InvTree(a1, 2 * k + 1), InvTree(b1, 2 * k + 1),
          Z(Mirror(k, |a|)));
    } else {
      NttLeaf(a, k);
      NttLeaf(b, k);
    }
  }

  lemma CongSlices(a: Vec, b: Vec, n: nat)
    requires CongSeq(a, b) && n <= |a|
    ensures |a| == |b| && CongSeq(a[..n], b[..n]) && CongSeq(a[n..], b[n..])
  {
  }

  lemma {:induction false} InvScale(s: int, r: Vec, k: nat)
    requires IsNode(k, |r|)
    ensures InvTree(Scale(s, r), k) == Scale(s, InvTree(r, k))
    decreases |r|
  {
    hide *;
    if |r| > 2 {
      NodeEven(k, |r|);
      var n := |r| / 2;
      var x, y := r[..n], r[n..];
      assert r == x + y;
      ScaleConcat(s, x, y);
      InvStep(x, y, k);
      InvStep(Scale(s, x), Scale(s, y), k);
      InvScale(s, x, 2 * k);
      InvScale(s, y, 2 * k + 1);
      MergeScale(s, InvTree(x, 2 * k), InvTree(y, 2 * k + 1), Z(Mirror(k, |r|)));
    } else {
      NttLeaf(r, k);
      NttLeaf(Scale(s, r), k);
    }
  }

  /** The inverse transform undoes the transform, up to a factor 2 per layer. */
  lemma {:induction false} InvOfNtt(a: Vec, k: nat)
    requires IsNode(k, |a|)
    ensures CongSeq(InvTree(NttTree(a, k), k), Scale(|a| / 2, a))
    decreases |a|
  {
    hide *;
    if |a| <= 2 {
      NttLeaf(a, k);
      ScaleOne(a);
      CongRefl(a);
    } else {
      NodeEven(k, |a|);
      NttStep(a, k);
      MirrorInverse(k, |a|);
      var n, z, w := |a| / 2, Z(k), Z(Mirror(k, |a|));
      var lo, hi := Lo(a, z), Lo(a, -z);
      var x, y := NttTree(lo, 2 * k), NttTree(hi, 2 * k + 1);
      InvStep(x, y, k);
      InvOfNtt(lo, 2 * k);
      InvOfNtt(hi, 2 * k + 1);
      CongMerge(InvTree(x, 2 * k), Scale(n / 2, lo), InvTree(y, 2 * k + 1), Scale(n / 2, hi), w);
      MergeScale(n / 2, lo, hi, w);
      MergeLo(a, z, w);
      CongScaleBy(n / 2, Merge(lo, hi, w), Scale(2, a));
      ScaleScale(n / 2, 2, a);
      CongSeqTrans(InvTree(x + y, k), Scale(n / 2, Merge(lo, hi, w)), Scale(n, a));
    }
  }

  /** The transform undoes the inverse transform, up to a factor 2 per layer. */
  lemma {:induction false} NttOfInv(r: Vec, k: nat)
    requires IsNode(k, |r|)
    ensures CongSeq(NttTree(InvTree(r, k), k), Scale(|r| / 2, r))
    decreases |r|, 0
  {
    hide *;
    if |r| <= 2 {
      NttLeaf(r, k);
      ScaleOne(r);
      CongRefl(r);
    } else {
      NodeEven(k, |r|);
      var n := |r| / 2;
      var x, y := r[..n], r[n..];
      assert r == x + y;
      InvStep(x, y, k);
      MirrorInverse(k, |r|);
      var z, w := Z(k), Z(Mirror(k, |r|));
      var lo, hi := InvTree(x, 2 * k), InvTree(y, 2 * k + 1);
      var m := Merge(lo, hi, w);
      NttStep(m, k);
      LoMerge(lo, hi, z, w);
      NttHalf(Lo(m, z), x, 2 * k);
      NttHalf(Lo(m, -z), y, 2 * k + 1);
      ScaleConcat(n, x, y);
      CongConcat(NttTree(Lo(m, z), 2 * k), Scale(n, x), NttTree(Lo(m, -z), 2 * k + 1), Scale(n, y));
    }
  }

  lemma {:induction false} NttHalf(b: Vec, r: Vec, k: nat)
    requires IsNode(k, |r|) && |r| % 2 == 0 && CongSeq(b, Scale(2, InvTree(r, k)))
    ensures |b| == |r| && CongSeq(NttTree(b, k), Scale(|r|, r))
    decreases |r|, 1
  {
    hide *;
    var inv := InvTree(r, k);
    CongLen(b, Scale(2, inv));
    CongNtt(b, Scale(2, inv), k);
    NttScale(2, inv, k);
    NttOfInv(r, k);
    CongScaleBy(2, NttTree(inv, k), Scale(|r| / 2, r));
    ScaleScale(2, |r| / 2, r);
    CongSeqTrans(NttTree(b, k), Scale(2, NttTree(inv, k)), Scale(|r|, r));
  }

  lemma NodeEven(k: nat, n: nat)
    requires IsNode(k, n) && n > 2
    ensures n / 2 % 2 == 0 && n % 2 == 0
  {
  }

  lemma ScaleOne(a: Vec)
    ensures Scale(1, a) == a
  {
  }

  lemma CongScaleBy(s: int, a: Vec, b: Vec)
    requires CongSeq(a, b)
    ensures CongSeq(Scale(s, a), Scale(s, b))
  {
    CongBy(s, s, 0);
    CongScale(s, s, a, b);
  }

  // ----- the transform is a ring homomorphism

  lemma {:induction false} LoAct(p: Vec, v: Vec, z: int)
    requires |v| % 2 == 0 && |v| > 0
    ensures Lo(Act(p, v, z * z), z) == Act(p, Lo(v, z), z)
    decreases |p|
  {
    if |p| > 0 {
      hide Add, Scale, MulX, Lo;
      LoAct(p[1..], v, z);
      var a := Act(p[1..], v, z * z);
      LoAdd(Scale(p[0], v), MulX(a, z * z), z);
      LoScale(p[0], v, z);
      LoMulX(a, z);
    } else {
      LoZero(|v|, z);
    }
  }

  lemma LoZero(n: nat, z: int)
    requires n % 2 == 0
    ensures Lo(Zero(n), z) == Zero(n / 2)
  {
  }

  /** The key step: X^n = z is compatible with X^2n = z^2. */
  lemma LoMulX(v: Vec, z: int)
    requires |v| % 2 == 0 && |v| > 0
    ensures Lo(MulX(v, z * z), z) == MulX(Lo(v, z), z)
  {
    var n := |v| / 2;
    var a, b := Lo(MulX(v, z * z), z), MulX(Lo(v, z), z);
    forall i | 0 <= i < n ensures a[i] == b[i] {
      if i == 0 {
        assert a[0] == z * z * v[2 * n - 1] + z * v[n - 1];
        assert b[0] == z * (v[n - 1] + z * v[2 * n - 1]);
      } else {
        assert a[i] == v[i - 1] + z * v[n + i - 1];
        assert b[i] == v[i - 1] + z * v[n + i - 1];
      }
    }
  }

  /** A polynomial acts on Z[X]/(X^n - z) through its own remainder. */
  lemma ActLo(p: Vec, w: Vec, z: int)
    requires |p| == 2 * |w| && |w| > 0
    ensures Act(p, w, z) == Act(Lo(p, z), w, z)
  {
    var n := |w|;
    assert p == p[..n] + p[n..];
    hide Add, Scale, Act, MulXPow;
    ActSplit(p[..n], p[n..], w, z);
    MulXPowAll(Act(p[n..], w, z), z);
    ActScaleLeft(z, p[n..], w, z);
    ActAddLeft(p[..n], Scale(z, p[n..]), w, z);
  }

  lemma LoMul(a: Vec, b: Vec, z: int)
    requires |a| == |b| > 0 && |a| % 2 == 0
    ensures Lo(Mul(a, b, z * z), z) == Mul(Lo(a, z), Lo(b, z), z)
  {
    hide Lo, Act;
    LoAct(a, b, z);
    ActLo(a, Lo(b, z), z);
  }

  /** Coefficient i of a product of residues modulo X^2 - c. */
  function BaseCoeff(x: Vec, y: Vec, c: int, i: nat): int
    requires |x| == |y| && |x| % 2 == 0 && i < |x|
  {
    if i % 2 == 0 then x[i] * y[i] + c * (x[i + 1] * y[i + 1]) else x[i - 1] * y[i] + x[i] * y[i - 1]
  }

  /** Pairwise products modulo X^2 - Factor(leaf), X^2 - Factor(leaf + 1), ... (Algorithm 11 of FIPS 203). */
  function BaseMul(x: Vec, y: Vec, leaf: nat): (r: Vec)
    requires |x| == |y| && |x| % 2 == 0 && 128 <= leaf && leaf + |x| / 2 <= 256
    ensures |r| == |x|
  {
    seq(|x|, i requires 0 <= i < |x| => BaseCoeff(x, y, Factor(leaf + i / 2), i))
  }

  lemma BaseMulConcat(a: Vec, b: Vec, c: Vec, d: Vec, leaf: nat)
    requires |a| == |b| && |c| == |d| && |a| % 2 == 0 && |c| % 2 == 0
    requires 128 <= leaf && leaf + (|a| + |c|) / 2 <= 256
    ensures BaseMul(a + c, b + d, leaf) == BaseMul(a, b, leaf) + BaseMul(c, d, leaf + |a| / 2)
  {
    hide *;
    var l, x, y := BaseMul(a + c, b + d, leaf), BaseMul(a, b, leaf), BaseMul(c, d, leaf + |a| / 2);
    forall i | 0 <= i < |a| + |c| ensures l[i] == (x + y)[i] {
      BaseMulAt(a + c, b + d, leaf, i);
      BaseCoeffConcat(a, b, c, d, Factor(leaf + i / 2), i);
      if i < |a| {
        BaseMulAt(a, b, leaf, i);
      } else {
        BaseMulAt(c, d, leaf + |a| / 2, i - |a|);
        HalfShift(i, |a|);
      }
    }
  }

  lemma HalfShift(i: nat, n: nat)
    requires n % 2 == 0 && n <= i
    ensures n / 2 + (i - n) / 2 == i / 2
  {
  }

  lemma BaseMulAt(x: Vec, y: Vec, leaf: nat, i: nat)
    requires |x| == |y| && |x| % 2 == 0 && 128 <= leaf && leaf + |x| / 2 <= 256 && i < |x|
    ensures leaf + i / 2 < 256 && BaseMul(x, y, leaf)[i] == BaseCoeff(x, y, Factor(leaf + i / 2), i)
  {
    hide Factor, BaseCoeff;
  }

  lemma BaseCoeffConcat(a: Vec, b: Vec, c: Vec, d: Vec, f: int, i: nat)
    requires |a| == |b| && |c| == |d| && |a| % 2 == 0 && |c| % 2 == 0 && i < |a| + |c|
    ensures BaseCoeff(a + c, b + d, f, i) == if i < |a| then BaseCoeff(a, b, f, i) else BaseCoeff(c, d, f, i - |a|)
  {
    if i >= |a| {
      assert (i - |a|) % 2 == i % 2;
    }
  }

  lemma MulPair(a: Vec, b: Vec, c: int)
    requires |a| == |b| == 2
    ensures Mul(a, b, c) == [a[0] * b[0] + c * (a[1] * b[1]), a[0] * b[1] + a[1] * b[0]]
  {
    MulIsSchoolbook(a, b, c);
    hide Act;
    assert SchoolbookCoeff(a, b, c, 0, 1) == a[0] * b[0] && SchoolbookCoeff(a, b, c, 1, 1) == a[0] * b[1];
    assert SchoolbookCoeff(a, b, c, 0, 2) == a[0] * b[0] + c * (a[1] * b[1]);
    assert SchoolbookCoeff(a, b, c, 1, 2) == a[0] * b[1] + a[1] * b[0];
  }

  /** The first of the n / 2 leaves below node k. */
  function FirstLeaf(k: nat, n: nat): (leaf: nat)
    requires IsNode(k, n)
    ensures n % 2 == 0 && 128 <= leaf && leaf + n / 2 <= 256
  {
    k * (n / 2)
  }

  lemma FirstLeafChildren(k: nat, n: nat)
    requires IsNode(k, n) && n > 2
    ensures n % 4 == 0 && 1 <= k < 128 && IsNode(2 * k, n / 2) && IsNode(2 * k + 1, n / 2)
    ensures FirstLeaf(2 * k, n / 2) == FirstLeaf(k, n) && FirstLeaf(2 * k + 1, n / 2) == FirstLeaf(k, n) + n / 4
  {
  }

  /** The transform turns products modulo X^n - Factor(k) into pairwise products. */
  lemma {:induction false} NttMul(a: Vec, b: Vec, k: nat)
    requires IsNode(k, |a|) && |a| == |b|
    ensures 1 <= k < 256 && |a| > 0 && |a| % 2 == 0 && FirstLeaf(k, |a|) + |a| / 2 <= 256
    ensures CongSeq(NttTree(Mul(a, b, Factor(k)), k), BaseMul(NttTree(a, k), NttTree(b, k), FirstLeaf(k, |a|)))
    decreases |a|
  {
    hide *;
    NodeRange(k, |a|);
    if |a| <= 2 {
      NttLeaf(a, k);
      NttLeaf(b, k);
      NttLeaf(Mul(a, b, Factor(k)), k);
      MulLeaf(a, b, k);
      CongRefl(Mul(a, b, Factor(k)));
    } else {
      FirstLeafChildren(k, |a|);
      var leaf, z := FirstLeaf(k, |a|), Z(k);
      var m, m' := Mul(a, b, Factor(k)), Mul(a, b, z * z);
      NttStep(a, k);
      NttStep(b, k);
      NttStep(m', k);
      CongFactor(a, b, k);
      CongNtt(m, m', k);
      LoMul(a, b, z);
      LoMulNeg(a, b, z);
      FactorChildren(k);
      NttMul(Lo(a, z), Lo(b, z), 2 * k);
      NttMul(Lo(a, -z), Lo(b, -z), 2 * k + 1);
      var x, y := NttTree(Lo(a, z), 2 * k), NttTree(Lo(b, z), 2 * k);
      var u, v := NttTree(Lo(a, -z), 2 * k + 1), NttTree(Lo(b, -z), 2 * k + 1);
      BaseMulConcat(x, y, u, v, leaf);
      CongConcat(NttTree(Lo(m', z), 2 * k), BaseMul(x, y, leaf), NttTree(Lo(m', -z), 2 * k + 1),
          BaseMul(u, v, leaf + |a| / 4));
      CongSeqTrans(NttTree(m, k), NttTree(m', k), BaseMul(x + u, y + v, leaf));
    }
  }

  lemma LoMulNeg(a: Vec, b: Vec, z: int)
    requires |a| == |b| > 0 && |a| % 2 == 0
    ensures Lo(Mul(a, b, z * z), -z) == Mul(Lo(a, -z), Lo(b, -z), -z)
  {
    hide *;
    LoMul(a, b, -z);
    assert (-z) * (-z) == z * z;
  }

  lemma MulLeaf(a: Vec, b: Vec, k: nat)
    requires |a| == |b| == 2 && IsNode(k, 2)
    ensures BaseMul(a, b, FirstLeaf(k, 2)) == Mul(a, b, Factor(k))
  {
    hide Mul, Factor;
    MulPair(a, b, Factor(k));
  }

  lemma FactorChildren(k: nat)
    requires 1 <= k < 128
    ensures Factor(2 * k) == Z(k) && Factor(2 * k + 1) == -Z(k)
  {
    hide Z;
  }

  lemma NodeRange(k: nat, n: nat)
    requires IsNode(k, n)
    ensures n % 2 == 0 && n >= 2 && 1 <= k < 256
  {
  }

  lemma CongFactor(a: Vec, b: Vec, k: nat)
    requires 1 <= k < 128 && |a| == |b| > 0
    ensures CongSeq(Mul(a, b, Factor(k)), Mul(a, b, Z(k) * Z(k)))
  {
    hide Act, Z, Factor;
    ZSquare(k);
    CongSym(Z(k) * Z(k), Factor(k));
    CongRefl(a);
    CongRefl(b);
    hide Cong, CongSeq;
    CongAct(a, a, b, b, Factor(k), Z(k) * Z(k));
  }

  // ----- the transforms of R = Z[X]/(X^256 + 1), as in section 4.3 of FIPS 203

  function Ntt(a: Vec): (r: Vec)
    requires |a| == 256
    ensures |r| == 256
  {
    NttTree(a, 1)
  }

  /** 3303 is the inverse of 128 = 2^7 modulo Q. */
  function InvNtt(r: Vec): (a: Vec)
    requires |r| == 256
    ensures |a| == 256
  {
    Scale(3303, InvTree(r, 1))
  }

  function PolyMul(a: Vec, b: Vec): (r: Vec)
    requires |a| == |b| == 256
    ensures |r| == 256
  {
    Mul(a, b, -1)
  }

  function PointMul(x: Vec, y: Vec): (r: Vec)
    requires |x| == |y| == 256
    ensures |r| == 256
  {
    BaseMul(x, y, 128)
  }

  /** The polynomial product by its textbook definition. */
  lemma PolyMulIsSchoolbook(a: Vec, b: Vec)
    requires |a| == |b| == 256
    ensures PolyMul(a, b) == Schoolbook(a, b, -1)
  {
    hide Mul;
    MulIsSchoolbook(a, b, -1);
  }

  lemma NttHomomorphism(a: Vec, b: Vec)
    requires |a| == |b| == 256
    ensures CongSeq(Ntt(PolyMul(a, b)), PointMul(Ntt(a), Ntt(b)))
  {
    hide NttTree, Mul, BaseMul, CongSeq;
    NttMul(a, b, 1);
  }

  lemma Cong128()
    ensures Cong(3303 * 128, 1)
  {
  }

  lemma CongScaled(s: int, a: Vec)
    requires Cong(s, 1)
    ensures CongSeq(Scale(s, a), a)
  {
    CongRefl(a);
    CongScale(s, 1, a, a);
    ScaleOne(a);
  }

  lemma InvNttOfNtt(a: Vec)
    requires |a| == 256
    ensures CongSeq(InvNtt(Ntt(a)), a)
  {
    hide NttTree, InvTree, CongSeq, Cong, Scale;
    InvOfNtt(a, 1);
    CongScaleBy(3303, InvTree(NttTree(a, 1), 1), Scale(128, a));
    ScaleScale(3303, 128, a);
    Cong128();
    CongScaled(3303 * 128, a);
    CongSeqTrans(InvNtt(Ntt(a)), Scale(3303 * 128, a), a);
  }

  lemma NttOfInvNtt(r: Vec)
    requires |r| == 256
    ensures CongSeq(Ntt(InvNtt(r)), r)
  {
    hide NttTree, InvTree, CongSeq, Cong, Scale;
    NttOfInv(r, 1);
    NttScale(3303, InvTree(r, 1), 1);
    CongScaleBy(3303, NttTree(InvTree(r, 1), 1), Scale(128, r));
    ScaleScale(3303, 128, r);
    Cong128();
    CongScaled(3303 * 128, r);
    CongSeqTrans(Ntt(InvNtt(r)), Scale(3303 * 128, r), r);
  }

  lemma CongInvNtt(a: Vec, b: Vec)
    requires |a| == |b| == 256 && CongSeq(a, b)
    ensures CongSeq(InvNtt(a), InvNtt(b))
  {
    hide InvTree, CongSeq, Scale;
    CongInv(a, b, 1);
    CongScaleBy(3303, InvTree(a, 1), InvTree(b, 1));
  }

  /** Multiplying pointwise between the transforms is multiplying polynomials. */
  lemma ConvolutionTheorem(a: Vec, b: Vec)
    requires |a| == |b| == 256
    ensures CongSeq(InvNtt(PointMul(Ntt(a), Ntt(b))), PolyMul(a, b))
  {
    hide *;
    NttHomomorphism(a, b);
    CongSeqSym(Ntt(PolyMul(a, b)), PointMul(Ntt(a), Ntt(b)));
    CongInvNtt(PointMul(Ntt(a), Ntt(b)), Ntt(PolyMul(a, b)));
    InvNttOfNtt(PolyMul(a, b));
    CongSeqTrans(InvNtt(PointMul(Ntt(a), Ntt(b))), InvNtt(Ntt(PolyMul(a, b))), PolyMul(a, b));
  }
}
