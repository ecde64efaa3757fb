/** What multiplication and the transform are: shifts of one factor with the sign of X^256 = -1, and evaluation. */
module RingLaws {
  import opened Modular
  import opened Ring
  import opened Zetas
  import opened NttMath
  import opened Vectors  // IsVector
  import opened Correctness  // DotPoly

  // ----- products

  /** X^i. */
  function Monomial(i: nat): (r: Vec)
    requires i < 256
    ensures |r| == 256
  {
    seq(256, j requires 0 <= j < 256 => if j == i then 1 else 0)
  }

  /** Multiplying by X^i moves every coefficient i places up; those that leave come back negated. */
  lemma MonomialShifts(b: Vec, i: nat, k: nat)
    requires |b| == 256 && i < 256 && k < 256
    ensures PolyMul(Monomial(i), b)[k] == if i <= k then b[k - i] else -b[256 + k - i]
  {
    PolyMulIsSchoolbook(Monomial(i), b);
    TermOfMonomial(b, i, k, 256);
    hide *;
    SchoolbookAt(Monomial(i), b, k);
  }

  lemma SchoolbookAt(a: Vec, b: Vec, k: nat)
    requires |a| == |b| == 256 && k < 256
    ensures Schoolbook(a, b, -1)[k] == SchoolbookCoeff(a, b, -1, k, 256)
  {
    hide SchoolbookCoeff;
  }

  lemma {:induction false} TermOfMonomial(b: Vec, i: nat, k: nat, n: nat)
    requires |b| == 256 && i < 256 && k < 256 && n <= 256
    ensures SchoolbookCoeff(Monomial(i), b, -1, k, n)
         == if n <= i then 0 else if i <= k then b[k - i] else -b[256 + k - i]
    decreases n
  {
    if n > 0 {
      TermOfMonomial(b, i, k, n - 1);
    }
  }

  /** Adding c to coefficient i of a factor adds c X^i times the other one to the product. */
  lemma CoefficientMoves(a: Vec, b: Vec, i: nat, c: int)
    requires |a| == |b| == 256 && i < 256
    ensures PolyMul(a[i := a[i] + c], b) == Add(PolyMul(a, b), Scale(c, PolyMul(Monomial(i), b)))
  {
    hide Act;
    assert a[i := a[i] + c] == Add(a, Scale(c, Monomial(i)));
    ActAddLeft(a, Scale(c, Monomial(i)), b, -1);
    ActScaleLeft(c, Monomial(i), b, -1);
  }

  /** Inner products have one term for each of the two, three or four polynomials. */
  lemma DotTerms(x: seq<Vec>, y: seq<Vec>, j: nat)
    requires |x| == |y| && IsVector(x) && IsVector(y) && j < 256
    ensures |x| == 2 ==> DotPoly(x, y, 2)[j] == PolyMul(x[0], y[0])[j] + PolyMul(x[1], y[1])[j]
    ensures |x| == 3 ==>
      DotPoly(x, y, 3)[j] == PolyMul(x[0], y[0])[j] + PolyMul(x[1], y[1])[j] + PolyMul(x[2], y[2])[j]
    ensures |x| == 4 ==>
      DotPoly(x, y, 4)[j] == PolyMul(x[0], y[0])[j] + PolyMul(x[1], y[1])[j] + PolyMul(x[2], y[2])[j]
        + PolyMul(x[3], y[3])[j]
  {
    hide PolyMul;
    if |x| >= 2 {
      assert DotPoly(x, y, 1)[j] == DotPoly(x, y, 0)[j] + PolyMul(x[0], y[0])[j];
      assert DotPoly(x, y, 2)[j] == DotPoly(x, y, 1)[j] + PolyMul(x[1], y[1])[j];
    }
    if |x| >= 3 {
      assert DotPoly(x, y, 3)[j] == DotPoly(x, y, 2)[j] + PolyMul(x[2], y[2])[j];
    }
    if |x| >= 4 {
      assert DotPoly(x, y, 4)[j] == DotPoly(x, y, 3)[j] + PolyMul(x[3], y[3])[j];
    }
  }

  // ----- evaluation

  /** The even (p = 0) or odd (p = 1) coefficients of a as a polynomial, at x. */
  function Eval(a: Vec, p: nat, x: int): (v: int)
    requires |a| % 2 == 0 && p < 2
    decreases |a|
  {
    if |a| == 0 then 0 else a[p] + x * Eval(a[2..], p, x)
  }

  function IntPower(x: int, n: nat): (r: int) {
    if n == 0 then 1 else x * IntPower(x, n - 1)
  }

  lemma {:induction false} EvalAppend(a: Vec, b: Vec, p: nat, x: int)
    requires |a| % 2 == 0 && |b| % 2 == 0 && p < 2
    ensures Eval(a + b, p, x) == Eval(a, p, x) + IntPower(x, |a| / 2) * Eval(b, p, x)
    decreases |a|
  {
    if |a| == 0 {
      assert a + b == b;
    } else {
      assert (a + b)[2..] == a[2..] + b;
      EvalAppend(a[2..], b, p, x);
      EvalSteps(a, b, p, x);
      hide *;
      Distribute(x, Eval(a[2..], p, x), IntPower(x, |a| / 2 - 1), Eval(b, p, x));
    }
  }

  lemma EvalSteps(a: Vec, b: Vec, p: nat, x: int)
    requires |a| % 2 == 0 && |b| % 2 == 0 && p < 2 && |a| > 0
    ensures Eval(a + b, p, x) == a[p] + x * Eval((a + b)[2..], p, x)
    ensures Eval(a, p, x) == a[p] + x * Eval(a[2..], p, x)
    ensures IntPower(x, |a| / 2) == x * IntPower(x, |a| / 2 - 1) && |a[2..]| / 2 == |a| / 2 - 1
  {
  }

  lemma Distribute(x: int, u: int, w: int, v: int)
    ensures x * (u + w * v) == x * u + x * w * v
  {
  }

  lemma {:induction false} EvalLinear(a: Vec, b: Vec, s: int, p: nat, x: int)
    requires |a| == |b| && |a| % 2 == 0 && p < 2
    ensures Eval(Add(a, Scale(s, b)), p, x) == Eval(a, p, x) + s * Eval(b, p, x)
    decreases |a|
  {
    if |a| > 0 {
      var r := Add(a, Scale(s, b));
      assert r[2..] == Add(a[2..], Scale(s, b[2..]));
      EvalLinear(a[2..], b[2..], s, p, x);
      assert r[p] == a[p] + s * b[p];
      assert Eval(r, p, x) == r[p] + x * Eval(r[2..], p, x);
      LinearStep(x, s, a[p], b[p], Eval(a[2..], p, x), Eval(b[2..], p, x));
    }
  }

  lemma LinearStep(x: int, s: int, a: int, b: int, u: int, v: int)
    ensures a + s * b + x * (u + s * v) == (a + x * u) + s * (b + x * v)
  {
  }

  /** Leaf l is below node (k, n): leaves are the nodes from 128 on. */
  predicate Below(l: nat, k: nat, n: nat)
    requires IsNode(k, n)
  {
    FirstLeaf(k, n) <= l < FirstLeaf(k, n) + n / 2
  }

  lemma BelowChild(l: nat, k: nat, n: nat) returns (c: nat)
    requires IsNode(k, n) && n > 2 && Below(l, k, n)
    ensures n % 2 == 0 && IsNode(c, n / 2) && Below(l, c, n / 2) && 1 <= k < 128 && c / 2 == k
  {
    FirstLeafChildren(k, n);
    c := if l < FirstLeaf(2 * k, n / 2) + n / 4 then 2 * k else 2 * k + 1;
  }

  lemma LeafRange(l: nat, k: nat, n: nat)
    requires IsNode(k, n) && Below(l, k, n)
    ensures 1 <= k < 256 && 1 <= l < 256 && n % 2 == 0 && (n == 2 ==> l == k)
  {
    NodeRange(k, n);
  }

  lemma Quarters(n: nat)
    requires n % 2 == 0 && n / 2 % 2 == 0
    ensures n / 2 / 2 == n / 4 && n / 2 == 2 * (n / 4)
  {
  }

  /** The modulus of a leaf, to the power n / 2, is the modulus of the node above it. */
  lemma {:induction false} LeafPower(l: nat, k: nat, n: nat)
    requires IsNode(k, n) && Below(l, k, n)
    ensures 1 <= k < 256 && 1 <= l < 256 && Cong(IntPower(Factor(l), n / 2), Factor(k))
    decreases n
  {
    LeafRange(l, k, n);
    if n == 2 {
      hide *;
      FirstPower(Factor(l));
    } else {
      NodeRange(k, n);
      var c := BelowChild(l, k, n);
      NodeEven(k, n);
      hide *;
      Quarters(n);
      LeafPower(l, c, n / 2);
      ChildSquare(c);
      SquaredPower(Factor(l), n / 4, Factor(c), Factor(k));
    }
  }

  lemma FirstPower(x: int)
    ensures Cong(IntPower(x, 1), x)
  {
    assert IntPower(x, 1) == x * IntPower(x, 0);
    CongBy(x, x, 0);
  }

  lemma SquaredPower(x: int, n: nat, f: int, g: int)
    requires Cong(IntPower(x, n), f) && Cong(f * f, g)
    ensures Cong(IntPower(x, 2 * n), g)
  {
    hide *;
    var t := IntPower(x, n);
    PowerSum(x, n, n);
    CongMul(t, f, t, f);
    CongTrans(t * t, f * f, g);
  }

  lemma {:induction false} PowerSum(x: int, m: nat, n: nat)
    ensures IntPower(x, m + n) == IntPower(x, m) * IntPower(x, n)
  {
    if m > 0 {
      PowerSum(x, m - 1, n);
      assert x * (IntPower(x, m - 1) * IntPower(x, n)) == x * IntPower(x, m - 1) * IntPower(x, n);
    }
  }

  lemma ChildSquare(c: nat)
    requires 2 <= c < 256
    ensures Cong(Factor(c) * Factor(c), Factor(c / 2))
  {
    hide Z, Cong;
    ZSquare(c / 2);
    assert -Z(c / 2) * -Z(c / 2) == Z(c / 2) * Z(c / 2);
  }

  /** Where the pair of leaf l is, in the transform of node k. */
  function PairOf(l: nat, k: nat, n: nat): (i: nat)
    requires IsNode(k, n) && Below(l, k, n)
    ensures 2 * i + 1 < n
  {
    l - FirstLeaf(k, n)
  }

  lemma ChildPair(a: Vec, k: nat, l: nat, c: nat, p: nat)
    requires IsNode(k, |a|) && |a| > 2 && |a| % 2 == 0 && Below(l, k, |a|) && p < 2
    requires c / 2 == k && IsNode(c, |a| / 2) && Below(l, c, |a| / 2)
    ensures 1 <= c < 256 && |Lo(a, Factor(c))| == |a| / 2
    ensures NttTree(a, k)[2 * PairOf(l, k, |a|) + p] == NttTree(Lo(a, Factor(c)), c)[2 * PairOf(l, c, |a| / 2) + p]
  {
    hide NttTree, Lo, Z;
    NttStep(a, k);
    FirstLeafChildren(k, |a|);
    NodeRange(c, |a| / 2);
    assert PairOf(l, k, |a|) == if c == 2 * k then PairOf(l, c, |a| / 2) else |a| / 4 + PairOf(l, c, |a| / 2);
  }

  /** Below every node the transform holds the values of the even and of the odd part at the modulus of the leaf. */
  lemma {:induction false} TreeEvaluates(a: Vec, k: nat, l: nat, p: nat)
    requires IsNode(k, |a|) && Below(l, k, |a|) && p < 2
    ensures |a| % 2 == 0 && 1 <= l < 256 && Cong(NttTree(a, k)[2 * PairOf(l, k, |a|) + p], Eval(a, p, Factor(l)))
    decreases |a|
  {
    hide *;
    NodeRange(k, |a|);
    if |a| == 2 {
      LeafEvaluates(a, k, l, p);
    } else {
      var c := BelowChild(l, k, |a|);
      ChildPair(a, k, l, c, p);
      LeafPower(l, c, |a| / 2);
      NodeEven(k, |a|);
      var b, x := Lo(a, Factor(c)), Factor(l);
      TreeEvaluates(b, c, l, p);
      LoEvaluates(a, |a| / 2, Factor(c), x, p);
      CongTrans(NttTree(b, c)[2 * PairOf(l, c, |a| / 2) + p], Eval(b, p, x), Eval(a, p, x));
    }
  }

  lemma LeafEvaluates(a: Vec, k: nat, l: nat, p: nat)
    requires IsNode(k, |a|) && Below(l, k, |a|) && p < 2 && |a| == 2
    ensures 1 <= l < 256 && Cong(NttTree(a, k)[2 * PairOf(l, k, 2) + p], Eval(a, p, Factor(l)))
  {
    LeafRange(l, k, 2);
    NttLeaf(a, k);
    hide Factor, NttTree;
    assert Eval(a[2..], p, Factor(l)) == 0;
    CongBy(a[p], Eval(a, p, Factor(l)), 0);
  }

  lemma LoEvaluates(a: Vec, n: nat, z: int, x: int, p: nat)
    requires |a| == 2 * n && n % 2 == 0 && p < 2 && Cong(IntPower(x, n / 2), z)
    ensures Cong(Eval(Lo(a, z), p, x), Eval(a, p, x))
  {
    assert a == a[..n] + a[n..];
    assert Lo(a, z) == Add(a[..n], Scale(z, a[n..]));
    hide *;
    EvalAppend(a[..n], a[n..], p, x);
    EvalLinear(a[..n], a[n..], z, p, x);
    var u, v, w := Eval(a[..n], p, x), Eval(a[n..], p, x), IntPower(x, n / 2);
    CongSym(w, z);
    CongBy(v, v, 0);
    CongBy(u, u, 0);
    CongMul(z, w, v, v);
    CongAdd(u, u, z * v, w * v);
  }

  /** The modulus of leaf i is X^2 - 17^(2 BitRev7(i) + 1). */
  lemma LeafRoot(i: nat)
    requires i < 128
    ensures Cong(Factor(128 + i), Root(2 * BitRev(i, 7) + 1))
  {
    hide *;
    LeafExponent(i);
    LeafSign(i, 2 * BitRev(i / 2, 6) + 1);
    SignedRoot(Factor(128 + i), i % 2 == 1, 2 * BitRev(i / 2, 6) + 1, 2 * BitRev(i, 7) + 1);
  }

  lemma SignedRoot(x: int, negated: bool, e: nat, f: nat)
    requires x == (if negated then -Root(e) else Root(e)) && f == (if negated then 128 else 0) + e
    ensures Cong(x, Root(f))
  {
    hide *;
    if negated {
      NegatedRoot(e);
    } else {
      CongBy(x, Root(f), 0);
    }
  }

  lemma LeafSign(i: nat, e: nat)
    requires i < 128 && (128 + i) / 2 == 64 + i / 2 && BitRev(64 + i / 2, 7) == e
    ensures Factor(128 + i) == if i % 2 == 1 then -Root(e) else Root(e)
  {
    hide Root, BitRev;
  }

  lemma NegatedRoot(e: nat)
    ensures Cong(-Root(e), Root(128 + e))
  {
    hide *;
    RootPowers();
    RootAdd(128, e);
    CongBy(Root(e), Root(e), 0);
    CongMul(Root(128), -1, Root(e), Root(e));
    CongSym(Root(128 + e), -1 * Root(e));
  }

  lemma LeafExponent(i: nat)
    requires i < 128
    ensures (128 + i) / 2 == 64 + i / 2 && BitRev(64 + i / 2, 7) == 2 * BitRev(i / 2, 6) + 1
    ensures 2 * BitRev(i, 7) + 1 == (if i % 2 == 1 then 128 else 0) + (2 * BitRev(i / 2, 6) + 1)
  {
    Pow2Values();
    BitRevAddBit(i / 2, 6, 7);
    BitRevShort(i / 2, 6);
  }

  /**
   The transform evaluates: pair i holds the even and the odd part of the polynomial at 17^(2 BitRev7(i) + 1)
   (section 4.3 of FIPS 203).
   */
  lemma NttEvaluates(a: Vec, i: nat, p: nat)
    requires |a| == 256 && i < 128 && p < 2
    ensures Cong(Ntt(a)[2 * i + p], Eval(a, p, Root(2 * BitRev(i, 7) + 1)))
  {
    hide *;
    PairEvaluates(a, i, p);
    LeafRoot(i);
    var x, y := Factor(128 + i), Root(2 * BitRev(i, 7) + 1);
    EvalCong(a, p, x, y);
    CongTrans(Ntt(a)[2 * i + p], Eval(a, p, x), Eval(a, p, y));
  }

  lemma PairEvaluates(a: Vec, i: nat, p: nat)
    requires |a| == 256 && i < 128 && p < 2
    ensures Cong(Ntt(a)[2 * i + p], Eval(a, p, Factor(128 + i)))
  {
    hide *;
    RootPair(i);
    NttIsTree(a);
    TreeEvaluates(a, 1, 128 + i, p);
  }

  lemma RootPair(i: nat)
    requires i < 128
    ensures IsNode(1, 256) && Below(128 + i, 1, 256) && PairOf(128 + i, 1, 256) == i
  {
  }

  lemma NttIsTree(a: Vec)
    requires |a| == 256
    ensures IsNode(1, |a|) && Ntt(a) == NttTree(a, 1)
  {
    hide NttTree;
  }

  lemma {:induction false} EvalCong(a: Vec, p: nat, x: int, y: int)
    requires |a| % 2 == 0 && p < 2 && Cong(x, y)
    ensures Cong(Eval(a, p, x), Eval(a, p, y))
    decreases |a|
  {
    if |a| == 0 {
      CongBy(0, 0, 0);
    } else {
      EvalCong(a[2..], p, x, y);
      hide Cong;
      var u, v := Eval(a[2..], p, x), Eval(a[2..], p, y);
      CongMul(x, y, u, v);
      CongBy(a[p], a[p], 0);
      CongAdd(a[p], a[p], x * u, y * v);
    }
  }
}
