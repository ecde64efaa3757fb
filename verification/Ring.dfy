/**
 The rings Z[X]/(X^n - c), with elements given by their n integer coefficients.
 Everything here is exact over the integers; reduction modulo Q is a congruence on top.
 */
module Ring {
  import opened Modular

  type Vec = seq<int>

  function Zero(n: nat): (r: Vec)
    ensures |r| == n
  {
    seq(n, _ => 0)
  }

  function Add(a: Vec, b: Vec): (r: Vec)
    requires |a| == |b|
    ensures |r| == |a|
  {
    seq(|a|, i requires 0 <= i < |a| => a[i] + b[i])
  }

  function Scale(s: int, a: Vec): (r: Vec)
    ensures |r| == |a|
  {
    seq(|a|, i requires 0 <= i < |a| => s * a[i])
  }

  function Sub(a: Vec, b: Vec): (r: Vec)
    requires |a| == |b|
    ensures |r| == |a|
  {
    seq(|a|, i requires 0 <= i < |a| => a[i] - b[i])
  }

  /** X * v in Z[X]/(X^n - c). */
  function MulX(v: Vec, c: int): (r: Vec)
    requires |v| > 0
    ensures |r| == |v|
  {
    [c * v[|v| - 1]] + v[..|v| - 1]
  }

  /** The polynomial with coefficients p (of any length), times v, by Horner's rule. */
  function Act(p: Vec, v: Vec, c: int): (r: Vec)
    requires |v| > 0
    ensures |r| == |v|
    decreases |p|
  {
    if |p| == 0 then Zero(|v|) else Add(Scale(p[0], v), MulX(Act(p[1..], v, c), c))
  }

  // ----- the module laws, one line each

  lemma AddAssoc(a: Vec, b: Vec, d: Vec)
    requires |a| == |b| == |d|
    ensures Add(Add(a, b), d) == Add(a, Add(b, d))
  {
  }

  lemma AddSwap(a: Vec, b: Vec, d: Vec, e: Vec)
    requires |a| == |b| == |d| == |e|
    ensures Add(Add(a, b), Add(d, e)) == Add(Add(a, d), Add(b, e))
  {
  }

  lemma AddZero(a: Vec)
    ensures Add(a, Zero(|a|)) == a && Add(Zero(|a|), a) == a
  {
  }

  lemma ScaleAdd(s: int, a: Vec, b: Vec)
    requires |a| == |b|
    ensures Scale(s, Add(a, b)) == Add(Scale(s, a), Scale(s, b))
  {
    forall i | 0 <= i < |a| ensures s * (a[i] + b[i]) == s * a[i] + s * b[i] {
    }
  }

  lemma ScaleSum(s: int, t: int, a: Vec)
    ensures Scale(s + t, a) == Add(Scale(s, a), Scale(t, a))
  {
    forall i | 0 <= i < |a| ensures (s + t) * a[i] == s * a[i] + t * a[i] {
    }
  }

  lemma ScaleScale(s: int, t: int, a: Vec)
    ensures Scale(s * t, a) == Scale(s, Scale(t, a))
  {
    forall i | 0 <= i < |a| ensures s * t * a[i] == s * (t * a[i]) {
    }
  }

  lemma ScaleZero(s: int, n: nat)
    ensures Scale(s, Zero(n)) == Zero(n)
  {
  }

  lemma MulXAdd(a: Vec, b: Vec, c: int)
    requires |a| == |b| > 0
    ensures MulX(Add(a, b), c) == Add(MulX(a, c), MulX(b, c))
  {
    var n := |a|;
    assert c * (a[n - 1] + b[n - 1]) == c * a[n - 1] + c * b[n - 1];
  }

  lemma MulXScale(s: int, a: Vec, c: int)
    requires |a| > 0
    ensures MulX(Scale(s, a), c) == Scale(s, MulX(a, c))
  {
    var n := |a|;
    assert c * (s * a[n - 1]) == s * (c * a[n - 1]);
  }

  lemma MulXZero(n: nat, c: int)
    requires n > 0
    ensures MulX(Zero(n), c) == Zero(n)
  {
  }

  // ----- Act is linear in its first argument

  lemma {:induction false} ActAddLeft(p: Vec, q: Vec, v: Vec, c: int)
    requires |v| > 0 && |p| == |q|
    ensures Act(Add(p, q), v, c) == Add(Act(p, v, c), Act(q, v, c))
    decreases |p|
  {
    if |p| > 0 {
      assert Add(p, q)[1..] == Add(p[1..], q[1..]) && Add(p, q)[0] == p[0] + q[0];
      hide Add, Scale, MulX, Zero;
      ActAddLeft(p[1..], q[1..], v, c);
      var a, b := Act(p[1..], v, c), Act(q[1..], v, c);
      MulXAdd(a, b, c);
      ScaleSum(p[0], q[0], v);
      AddSwap(Scale(p[0], v), Scale(q[0], v), MulX(a, c), MulX(b, c));
    } else {
      AddZero(Zero(|v|));
    }
  }

  lemma {:induction false} ActScaleLeft(s: int, p: Vec, v: Vec, c: int)
    requires |v| > 0
    ensures Act(Scale(s, p), v, c) == Scale(s, Act(p, v, c))
    decreases |p|
  {
    if |p| > 0 {
      assert Scale(s, p)[1..] == Scale(s, p[1..]) && Scale(s, p)[0] == s * p[0];
      hide Add, Scale, MulX, Zero;
      ActScaleLeft(s, p[1..], v, c);
      var a := Act(p[1..], v, c);
      MulXScale(s, a, c);
      ScaleScale(s, p[0], v);
      ScaleAdd(s, Scale(p[0], v), MulX(a, c));
    } else {
      ScaleZero(s, |v|);
    }
  }

  /** X^j * v. */
  function MulXPow(j: nat, v: Vec, c: int): (r: Vec)
    requires |v| > 0
    ensures |r| == |v|
  {
    if j == 0 then v else MulX(MulXPow(j - 1, v, c), c)
  }

  /** For j <= n the top j coefficients wrap around, each multiplied by c. */
  lemma {:induction false} MulXPowAt(j: nat, v: Vec, c: int, i: nat)
    requires j <= |v| && i < |v|
    ensures MulXPow(j, v, c)[i] == if i < j then c * v[|v| + i - j] else v[i - j]
    decreases j
  {
    if j > 0 {
      MulXPowAt(j - 1, v, c, if i == 0 then |v| - 1 else i - 1);
    }
  }

  lemma MulXPowAll(v: Vec, c: int)
    requires |v| > 0
    ensures MulXPow(|v|, v, c) == Scale(c, v)
  {
    forall i | 0 <= i < |v| ensures MulXPow(|v|, v, c)[i] == Scale(c, v)[i] {
      MulXPowAt(|v|, v, c, i);
    }
  }

  lemma {:induction false} ActSplit(p: Vec, q: Vec, v: Vec, c: int)
    requires |v| > 0
    ensures Act(p + q, v, c) == Add(Act(p, v, c), MulXPow(|p|, Act(q, v, c), c))
    decreases |p|
  {
    hide Add, Scale, MulX, Zero;
    var z := Act(q, v, c);
    if |p| > 0 {
      assert (p + q)[1..] == p[1..] + q;
      ActSplit(p[1..], q, v, c);
      var a, b := Act(p[1..], v, c), MulXPow(|p| - 1, z, c);
      MulXAdd(a, b, c);
      AddAssoc(Scale(p[0], v), MulX(a, c), MulX(b, c));
    } else {
      assert p + q == q;
      AddZero(z);
    }
  }

  // ----- the ring with n coefficients on both sides

  /** The product in Z[X]/(X^n - c). */
  function Mul(a: Vec, b: Vec, c: int): (r: Vec)
    requires |a| == |b| > 0
    ensures |r| == |a|
  {
    Act(a, b, c)
  }

  // ----- the textbook product

  /** Coefficient k of a partial product: terms wrapping past X^n are multiplied by c. */
  function SchoolbookCoeff(a: Vec, b: Vec, c: int, k: nat, terms: nat): int
    requires |a| == |b| && k < |a| && terms <= |a|
  {
    if terms == 0 then 0
    else
      var i := terms - 1;
      SchoolbookCoeff(a, b, c, k, i) + (if i <= k then a[i] * b[k - i] else c * (a[i] * b[|a| + k - i]))
  }

  function Schoolbook(a: Vec, b: Vec, c: int): (r: Vec)
    requires |a| == |b|
    ensures |r| == |a|
  {
    seq(|a|, k requires 0 <= k < |a| => SchoolbookCoeff(a, b, c, k, |a|))
  }

  lemma ActSingle(s: int, b: Vec, c: int)
    requires |b| > 0
    ensures Act([s], b, c) == Scale(s, b)
  {
    hide Add, Scale, MulX, Zero;
    assert Act([s][1..], b, c) == Zero(|b|);
    MulXZero(|b|, c);
    AddZero(Scale(s, b));
  }

  lemma {:induction false} ActPrefix(a: Vec, b: Vec, c: int, k: nat, terms: nat)
    requires |a| == |b| && k < |a| && terms <= |a|
    ensures Act(a[..terms], b, c)[k] == SchoolbookCoeff(a, b, c, k, terms)
    decreases terms
  {
    if terms > 0 {
      var i := terms - 1;
      hide Act, MulXPow, MulX;
      assert a[..terms] == a[..i] + [a[i]];
      ActSplit(a[..i], [a[i]], b, c);
      ActSingle(a[i], b, c);
      MulXPowAt(i, Scale(a[i], b), c, k);
      ActPrefix(a, b, c, k, i);
    }
  }

  /** Horner's rule computes the textbook product. */
  lemma MulIsSchoolbook(a: Vec, b: Vec, c: int)
    requires |a| == |b| > 0
    ensures Mul(a, b, c) == Schoolbook(a, b, c)
  {
    hide Act, SchoolbookCoeff;
    assert a[..|a|] == a;
    forall k | 0 <= k < |a| ensures Mul(a, b, c)[k] == Schoolbook(a, b, c)[k] {
      ActPrefix(a, b, c, k, |a|);
    }
  }

  // ----- compatibility with congruence

  lemma CongAddSeq(a: Vec, b: Vec, d: Vec, e: Vec)
    requires CongSeq(a, b) && CongSeq(d, e) && |a| == |d|
    ensures CongSeq(Add(a, d), Add(b, e)) && CongSeq(Sub(a, d), Sub(b, e))
  {
    hide Cong;
    forall i | 0 <= i < |a| ensures Cong(a[i] + d[i], b[i] + e[i]) && Cong(a[i] - d[i], b[i] - e[i]) {
      CongAdd(a[i], b[i], d[i], e[i]);
    }
  }

  lemma CongScale(s: int, t: int, a: Vec, b: Vec)
    requires Cong(s, t) && CongSeq(a, b)
    ensures CongSeq(Scale(s, a), Scale(t, b))
  {
    hide Cong;
    forall i | 0 <= i < |a| ensures Cong(s * a[i], t * b[i]) {
      CongMul(s, t, a[i], b[i]);
    }
  }

  lemma CongMulX(v: Vec, w: Vec, c: int, d: int)
    requires CongSeq(v, w) && Cong(c, d) && |v| > 0
    ensures CongSeq(MulX(v, c), MulX(w, d))
  {
    hide Cong;
    CongMul(c, d, v[|v| - 1], w[|v| - 1]);
  }

  lemma {:induction false} CongAct(p: Vec, q: Vec, v: Vec, w: Vec, c: int, d: int)
    requires CongSeq(p, q) && CongSeq(v, w) && Cong(c, d) && |v| > 0
    ensures CongSeq(Act(p, v, c), Act(q, w, d))
    decreases |p|
  {
    hide Add, Scale, MulX, Cong;
    if |p| > 0 {
      CongAct(p[1..], q[1..], v, w, c, d);
      CongScale(p[0], q[0], v, w);
      var a, b := Act(p[1..], v, c), Act(q[1..], w, d);
      CongMulX(a, b, c, d);
      CongAddSeq(Scale(p[0], v), Scale(q[0], w), MulX(a, c), MulX(b, d));
    } else {
      CongRefl(Zero(|v|));
    }
  }

  lemma CongRefl(a: Vec)
    ensures CongSeq(a, a)
  {
  }
}
