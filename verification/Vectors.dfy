/** Vectors and matrices over the transformed ring: what the matrix products of ML-KEM satisfy. */
module Vectors {
  import opened Modular
  import opened Ring
  import opened Zetas
  import opened NttMath

  // ----- PointMul is a commutative, associative, bilinear product

  /** The coefficients of pair p of a product. */
  lemma PointPair(x: Vec, y: Vec, p: nat, f: int, x0: int, x1: int, y0: int, y1: int)
    requires |x| == |y| == 256 && p < 128 && f == Factor(128 + p)
    requires x0 == x[2 * p] && x1 == x[2 * p + 1] && y0 == y[2 * p] && y1 == y[2 * p + 1]
    ensures PointMul(x, y)[2 * p] == x0 * y0 + f * (x1 * y1)
    ensures PointMul(x, y)[2 * p + 1] == x0 * y1 + x1 * y0
  {
    hide Factor, BaseMul;
    BaseMulAt(x, y, 128, 2 * p);
    BaseMulAt(x, y, 128, 2 * p + 1);
    assert (2 * p + 1) / 2 == p;
  }

  lemma PairsEqual(a: Vec, b: Vec)
    requires |a| == |b| == 256
    requires forall p :: 0 <= p < 128 ==> a[2 * p] == b[2 * p] && a[2 * p + 1] == b[2 * p + 1]
    ensures a == b
  {
    forall i | 0 <= i < 256 ensures a[i] == b[i] {
      var p := i / 2;
      assert a[2 * p] == b[2 * p] && a[2 * p + 1] == b[2 * p + 1];
    }
  }

  lemma PointComm(x: Vec, y: Vec)
    requires |x| == |y| == 256
    ensures PointMul(x, y) == PointMul(y, x)
  {
    hide PointMul, Factor;
    forall p | 0 <= p < 128
      ensures PointMul(x, y)[2 * p] == PointMul(y, x)[2 * p] && PointMul(x, y)[2 * p + 1] == PointMul(y, x)[2 * p + 1]
    {
      var f, x0, x1, y0, y1 := Factor(128 + p), x[2 * p], x[2 * p + 1], y[2 * p], y[2 * p + 1];
      PointPair(x, y, p, f, x0, x1, y0, y1);
      PointPair(y, x, p, f, y0, y1, x0, x1);
    }
    PairsEqual(PointMul(x, y), PointMul(y, x));
  }

  lemma PointAdd(x: Vec, y: Vec, z: Vec)
    requires |x| == |y| == |z| == 256
    ensures PointMul(x, Add(y, z)) == Add(PointMul(x, y), PointMul(x, z))
  {
    hide PointMul, Factor;
    var l, r := PointMul(x, Add(y, z)), Add(PointMul(x, y), PointMul(x, z));
    forall p | 0 <= p < 128 ensures l[2 * p] == r[2 * p] && l[2 * p + 1] == r[2 * p + 1] {
      var f, x0, x1 := Factor(128 + p), x[2 * p], x[2 * p + 1];
      var y0, y1, z0, z1 := y[2 * p], y[2 * p + 1], z[2 * p], z[2 * p + 1];
      PointPair(x, y, p, f, x0, x1, y0, y1);
      PointPair(x, z, p, f, x0, x1, z0, z1);
      PointPair(x, Add(y, z), p, f, x0, x1, y0 + z0, y1 + z1);
      PairAdds(f, x0, x1, y0, y1, z0, z1);
    }
    PairsEqual(l, r);
  }

  lemma PairAdds(f: int, x0: int, x1: int, y0: int, y1: int, z0: int, z1: int)
    ensures x0 * (y0 + z0) + f * (x1 * (y1 + z1)) == x0 * y0 + f * (x1 * y1) + (x0 * z0 + f * (x1 * z1))
    ensures x0 * (y1 + z1) + x1 * (y0 + z0) == x0 * y1 + x1 * y0 + (x0 * z1 + x1 * z0)
  {
    assert x1 * (y1 + z1) == x1 * y1 + x1 * z1;
    assert f * (x1 * y1 + x1 * z1) == f * (x1 * y1) + f * (x1 * z1);
  }

  lemma PointAssoc(x: Vec, y: Vec, z: Vec)
    requires |x| == |y| == |z| == 256
    ensures PointMul(PointMul(x, y), z) == PointMul(x, PointMul(y, z))
  {
    hide PointMul, Factor;
    var l, r := PointMul(PointMul(x, y), z), PointMul(x, PointMul(y, z));
    forall p | 0 <= p < 128 ensures l[2 * p] == r[2 * p] && l[2 * p + 1] == r[2 * p + 1] {
      var f, x0, x1 := Factor(128 + p), x[2 * p], x[2 * p + 1];
      var y0, y1, z0, z1 := y[2 * p], y[2 * p + 1], z[2 * p], z[2 * p + 1];
      PointPair(x, y, p, f, x0, x1, y0, y1);
      PointPair(y, z, p, f, y0, y1, z0, z1);
      PointPair(PointMul(x, y), z, p, f, x0 * y0 + f * (x1 * y1), x0 * y1 + x1 * y0, z0, z1);
      PointPair(x, PointMul(y, z), p, f, x0, x1, y0 * z0 + f * (y1 * z1), y0 * z1 + y1 * z0);
      PairAssociates(f, x0, x1, y0, y1, z0, z1);
    }
    PairsEqual(l, r);
  }

  lemma PairAssociates(f: int, x0: int, x1: int, y0: int, y1: int, z0: int, z1: int)
    ensures (x0 * y0 + f * (x1 * y1)) * z0 + f * ((x0 * y1 + x1 * y0) * z1)
         == x0 * (y0 * z0 + f * (y1 * z1)) + f * (x1 * (y0 * z1 + y1 * z0))
    ensures (x0 * y0 + f * (x1 * y1)) * z1 + (x0 * y1 + x1 * y0) * z0
         == x0 * (y0 * z1 + y1 * z0) + x1 * (y0 * z0 + f * (y1 * z1))
  {
    TripleProduct(x0, y0, z0); TripleProduct(x1, y1, z0); TripleProduct(x0, y1, z1); TripleProduct(x1, y0, z1);
    TripleProduct(x0, y0, z1); TripleProduct(x1, y1, z1); TripleProduct(x0, y1, z0); TripleProduct(x1, y0, z0);
    Distributed(x0 * y0, f, x1 * y1, z0); Distributed(x0 * y0, f, x1 * y1, z1);
    Distributed(y0 * z0, f, y1 * z1, x0); Distributed(y0 * z0, f, y1 * z1, x1);
    assert (x0 * y1 + x1 * y0) * z1 == x0 * y1 * z1 + x1 * y0 * z1
        && (x0 * y1 + x1 * y0) * z0 == x0 * y1 * z0 + x1 * y0 * z0;
    assert x1 * (y0 * z1 + y1 * z0) == x1 * (y0 * z1) + x1 * (y1 * z0)
        && x0 * (y0 * z1 + y1 * z0) == x0 * (y0 * z1) + x0 * (y1 * z0);
    assert f * (x0 * y1 * z1 + x1 * y0 * z1) == f * (x0 * y1 * z1) + f * (x1 * y0 * z1);
    assert f * (x1 * (y0 * z1) + x1 * (y1 * z0)) == f * (x1 * (y0 * z1)) + f * (x1 * (y1 * z0));
  }

  lemma TripleProduct(x: int, y: int, z: int)
    ensures x * y * z == x * (y * z)
  {
  }

  lemma Distributed(a: int, f: int, b: int, z: int)
    ensures (a + f * b) * z == a * z + f * (b * z)
    ensures z * (a + f * b) == z * a + f * (z * b)
  {
    assert (a + f * b) * z == a * z + f * b * z;
    assert z * (a + f * b) == z * a + z * (f * b);
    TripleProduct(f, b, z);
    TripleProduct(z, f, b);
    TripleProduct(f, z, b);
    assert z * f * b == f * z * b;
  }

  lemma PointZero(x: Vec)
    requires |x| == 256
    ensures PointMul(x, Zero(256)) == Zero(256)
  {
    hide PointMul, Factor;
    var l := PointMul(x, Zero(256));
    forall p | 0 <= p < 128 ensures l[2 * p] == 0 && l[2 * p + 1] == 0 {
      PointPair(x, Zero(256), p, Factor(128 + p), x[2 * p], x[2 * p + 1], 0, 0);
    }
    PairsEqual(l, Zero(256));
  }

  lemma PointCong(x: Vec, y: Vec, u: Vec, v: Vec)
    requires |x| == |y| == |u| == |v| == 256 && CongSeq(x, u) && CongSeq(y, v)
    ensures CongSeq(PointMul(x, y), PointMul(u, v))
  {
    hide PointMul, Factor, Cong;
    forall i | 0 <= i < 256 ensures Cong(PointMul(x, y)[i], PointMul(u, v)[i]) {
      var p := i / 2;
      var f, x0, x1, y0, y1 := Factor(128 + p), x[2 * p], x[2 * p + 1], y[2 * p], y[2 * p + 1];
      var u0, u1, v0, v1 := u[2 * p], u[2 * p + 1], v[2 * p], v[2 * p + 1];
      PointPair(x, y, p, f, x0, x1, y0, y1);
      PointPair(u, v, p, f, u0, u1, v0, v1);
      PairCong(f, x0, x1, y0, y1, u0, u1, v0, v1);
    }
  }

  lemma PairCong(f: int, x0: int, x1: int, y0: int, y1: int, u0: int, u1: int, v0: int, v1: int)
    requires Cong(x0, u0) && Cong(x1, u1) && Cong(y0, v0) && Cong(y1, v1)
    ensures Cong(x0 * y0 + f * (x1 * y1), u0 * v0 + f * (u1 * v1)) && Cong(x0 * y1 + x1 * y0, u0 * v1 + u1 * v0)
  {
    hide Cong;
    CongMul(x0, u0, y0, v0);
    CongMul(x1, u1, y1, v1);
    CongMul(x0, u0, y1, v1);
    CongMul(x1, u1, y0, v0);
    CongBy(f, f, 0);
    CongMul(f, f, x1 * y1, u1 * v1);
    CongAdd(x0 * y0, u0 * v0, f * (x1 * y1), f * (u1 * v1));
    CongAdd(x0 * y1, u0 * v1, x1 * y0, u1 * v0);
  }

  // ----- dot products

  ghost predicate IsVector(v: seq<Vec>) {
    forall i :: 0 <= i < |v| ==> |v[i]| == 256
  }

  ghost predicate CongVector(v: seq<Vec>, w: seq<Vec>) {
    |v| == |w| && IsVector(v) && IsVector(w) && forall i :: 0 <= i < |v| ==> CongSeq(v[i], w[i])
  }

  /** The sum of the first n products of entries. */
  ghost function Dot(x: seq<Vec>, y: seq<Vec>, n: nat): (r: Vec)
    requires n <= |x| && n <= |y| && IsVector(x) && IsVector(y)
    ensures |r| == 256
  {
    if n == 0 then Zero(256) else Add(Dot(x, y, n - 1), PointMul(x[n - 1], y[n - 1]))
  }

  lemma {:induction false} DotCong(x: seq<Vec>, y: seq<Vec>, u: seq<Vec>, v: seq<Vec>, n: nat)
    requires n <= |x| && n <= |y| && CongVector(x, u) && CongVector(y, v)
    ensures CongSeq(Dot(x, y, n), Dot(u, v, n))
  {
    hide CongSeq, PointMul, Add;
    if n > 0 {
      DotCong(x, y, u, v, n - 1);
      PointCong(x[n - 1], y[n - 1], u[n - 1], v[n - 1]);
      CongAddSeq(Dot(x, y, n - 1), Dot(u, v, n - 1), PointMul(x[n - 1], y[n - 1]), PointMul(u[n - 1], v[n - 1]));
    } else {
      CongRefl(Zero(256));
    }
  }

  ghost function AddVectors(x: seq<Vec>, y: seq<Vec>): (r: seq<Vec>)
    requires |x| == |y| && IsVector(x) && IsVector(y)
    ensures |r| == |x| && IsVector(r)
  {
    seq(|x|, i requires 0 <= i < |x| => Add(x[i], y[i]))
  }

  lemma {:induction false} DotAdd(x: seq<Vec>, y: seq<Vec>, z: seq<Vec>, n: nat)
    requires n <= |x| && n <= |y| == |z| && IsVector(x) && IsVector(y) && IsVector(z)
    ensures Dot(x, AddVectors(y, z), n) == Add(Dot(x, y, n), Dot(x, z, n))
  {
    hide PointMul, Add;
    if n > 0 {
      DotAdd(x, y, z, n - 1);
      PointAdd(x[n - 1], y[n - 1], z[n - 1]);
      AddSwap(Dot(x, y, n - 1), Dot(x, z, n - 1), PointMul(x[n - 1], y[n - 1]), PointMul(x[n - 1], z[n - 1]));
    } else {
      AddZero(Zero(256));
    }
  }

  lemma {:induction false} DotComm(x: seq<Vec>, y: seq<Vec>, n: nat)
    requires n <= |x| && n <= |y| && IsVector(x) && IsVector(y)
    ensures Dot(x, y, n) == Dot(y, x, n)
  {
    hide PointMul, Add;
    if n > 0 {
      DotComm(x, y, n - 1);
      PointComm(x[n - 1], y[n - 1]);
    }
  }

  // ----- matrices

  ghost predicate IsMatrix(a: seq<seq<Vec>>, k: nat) {
    |a| == k && forall i :: 0 <= i < k ==> |a[i]| == k && IsVector(a[i])
  }

  ghost function Transpose(a: seq<seq<Vec>>, k: nat): (t: seq<seq<Vec>>)
    requires IsMatrix(a, k)
    ensures IsMatrix(t, k) && forall i, j :: 0 <= i < k && 0 <= j < k ==> t[i][j] == a[j][i]
  {
    seq(k, i requires 0 <= i < k => seq(k, j requires 0 <= j < k => a[j][i]))
  }

  ghost function MatVec(a: seq<seq<Vec>>, x: seq<Vec>, k: nat): (r: seq<Vec>)
    requires IsMatrix(a, k) && |x| == k && IsVector(x)
    ensures |r| == k && IsVector(r)
  {
    seq(k, i requires 0 <= i < k => Dot(a[i], x, k))
  }

  /** x_i times (entry i of row times y), summed, is y times the row's product with x. */
  lemma {:induction false} RowSwap(row: seq<Vec>, x: seq<Vec>, y: Vec, z: seq<Vec>, n: nat)
    requires n <= |row| == |x| == |z| && IsVector(row) && IsVector(x) && IsVector(z) && |y| == 256
    requires forall i :: 0 <= i < |z| ==> z[i] == PointMul(row[i], y)
    ensures Dot(x, z, n) == PointMul(Dot(row, x, n), y)
  {
    hide PointMul, Add;
    if n > 0 {
      RowSwap(row, x, y, z, n - 1);
      var a, s, d := row[n - 1], x[n - 1], Dot(row, x, n - 1);
      PointAssoc(s, a, y);
      PointComm(s, a);
      PointComm(Add(d, PointMul(a, s)), y);
      PointAdd(y, d, PointMul(a, s));
      PointComm(d, y);
      PointComm(PointMul(a, s), y);
    } else {
      PointZero(y);
      PointComm(y, Zero(256));
    }
  }

  /** The sum over the first n columns of the transposed product. */
  ghost function Partial(a: seq<seq<Vec>>, y: seq<Vec>, k: nat, n: nat): (r: seq<Vec>)
    requires IsMatrix(a, k) && |y| == k && IsVector(y) && n <= k
    ensures |r| == k && IsVector(r)
  {
    seq(k, i requires 0 <= i < k => Dot(Transpose(a, k)[i], y, n))
  }

  lemma {:induction false} TransposeStep(a: seq<seq<Vec>>, x: seq<Vec>, y: seq<Vec>, k: nat, n: nat)
    requires IsMatrix(a, k) && |x| == |y| == k && IsVector(x) && IsVector(y) && n <= k
    ensures Dot(x, Partial(a, y, k, n), k) == Dot(MatVec(a, x, k), y, n)
  {
    hide PointMul, Add, Dot;
    if n > 0 {
      var row, b := a[n - 1], y[n - 1];
      TransposeStep(a, x, y, k, n - 1);
      var z := seq(k, i requires 0 <= i < k => PointMul(row[i], b));
      PartialStep(a, y, k, n, z);
      DotAdd(x, Partial(a, y, k, n - 1), z, k);
      RowSwap(row, x, b, z, k);
      DotStep(MatVec(a, x, k), y, n);
    } else {
      PartialNone(a, y, k);
      DotZero(x, Partial(a, y, k, 0), k);
      DotNone(MatVec(a, x, k), y);
    }
  }

  lemma DotStep(x: seq<Vec>, y: seq<Vec>, n: nat)
    requires 0 < n <= |x| && n <= |y| && IsVector(x) && IsVector(y)
    ensures Dot(x, y, n) == Add(Dot(x, y, n - 1), PointMul(x[n - 1], y[n - 1]))
  {
    hide PointMul, Add;
  }

  lemma DotNone(x: seq<Vec>, y: seq<Vec>)
    requires IsVector(x) && IsVector(y)
    ensures Dot(x, y, 0) == Zero(256)
  {
  }

  lemma PartialStep(a: seq<seq<Vec>>, y: seq<Vec>, k: nat, n: nat, z: seq<Vec>)
    requires IsMatrix(a, k) && |y| == |z| == k && IsVector(y) && IsVector(z) && 0 < n <= k
    requires forall i :: 0 <= i < k ==> z[i] == PointMul(a[n - 1][i], y[n - 1])
    ensures Partial(a, y, k, n) == AddVectors(Partial(a, y, k, n - 1), z)
  {
    hide PointMul, Add, Dot;
    var l, r := Partial(a, y, k, n), AddVectors(Partial(a, y, k, n - 1), z);
    forall i | 0 <= i < k ensures l[i] == r[i] {
      DotStep(Transpose(a, k)[i], y, n);
    }
  }

  lemma PartialNone(a: seq<seq<Vec>>, y: seq<Vec>, k: nat)
    requires IsMatrix(a, k) && |y| == k && IsVector(y)
    ensures forall i :: 0 <= i < k ==> Partial(a, y, k, 0)[i] == Zero(256)
  {
  }

  lemma {:induction false} DotZero(x: seq<Vec>, z: seq<Vec>, n: nat)
    requires n <= |x| && n <= |z| && IsVector(x) && IsVector(z) && forall i :: 0 <= i < |z| ==> z[i] == Zero(256)
    ensures Dot(x, z, n) == Zero(256)
  {
    hide PointMul, Add;
    if n > 0 {
      DotZero(x, z, n - 1);
      PointZero(x[n - 1]);
      AddZero(Zero(256));
    }
  }

  /** x . (A^T y) = (A x) . y: why decryption can undo encryption. */
  lemma TransposeSwap(a: seq<seq<Vec>>, x: seq<Vec>, y: seq<Vec>, k: nat)
    requires IsMatrix(a, k) && |x| == |y| == k && IsVector(x) && IsVector(y)
    ensures Dot(x, MatVec(Transpose(a, k), y, k), k) == Dot(MatVec(a, x, k), y, k)
  {
    hide Dot;
    TransposeStep(a, x, y, k, k);
    assert Partial(a, y, k, k) == MatVec(Transpose(a, k), y, k);
  }
}
