/** Multiplication in the transformed domain: `basemul` and `basemul_acc` (mlkem/ntt.c) and the loops over them. */
module Products {
  import opened Modular
  import opened Reduce
  import opened Ring
  import opened Zetas
  import opened NttMath
  import opened Transform

  /** What `fqmul` can reduce. */
  predicate Reducible(a: int, b: int) {
    -Q * 0x8000 <= a * b < Q * 0x8000
  }

  /** `fqmul` of two coefficients. */
  function Mul16(x: int16, y: int16): (r: int16)
    requires Reducible(x, y)
    ensures Cong(0x1_0000 * r, x * y)
    ensures -3328 <= r <= 3328
  {
    FqMul(x, y)
  }

  predicate IsSmall(x: int, y: int) {
    -4096 <= x <= 4096 && -1664 <= y <= 1664
  }

  /** A coefficient below 2^12 and a centred one: the tight bound of Montgomery reduction. */
  lemma Mul16Tight(x: int16, y: int16)
    requires IsSmall(x, y)
    ensures Reducible(x, y) && -1768 <= Mul16(x, y) <= 1768
  {
    MulBound(x, y, 4096, 1664);
    hide Cong;
  }

  /** `fqmul` of such a product with a table entry. */
  lemma TwiddleMulTight(z: twiddle, x: int16)
    requires -1768 <= x <= 1768
    ensures -1709 <= TwiddleMul(z, x) <= 1709
  {
    MulBound(z, x, 1664, 1768);
    MulBound(z, x, 1664, 0x8000);
    hide Cong;
    assert TwiddleMul(z, x) == FqMul(z, x);
    hide FqMul;
  }

  /** `basemul` (add false) and `basemul_acc` (add true) on one pair of coefficients. */
  function Low(add: bool, r0: int16, a0: int16, a1: int16, b0: int16, b1: int16, zeta: twiddle): int16
    requires Reducible(a1, b1) && Reducible(a0, b0)
  {
    var t := TwiddleMul(zeta, Mul16(a1, b1));
    Add16(if add then Add16(r0, t) else t, Mul16(a0, b0))
  }

  function High(add: bool, r1: int16, a0: int16, a1: int16, b0: int16, b1: int16): int16
    requires Reducible(a0, b1) && Reducible(a1, b0)
  {
    var t := Mul16(a0, b1);
    Add16(if add then Add16(r1, t) else t, Mul16(a1, b0))
  }

  /** The table entry for pair p: `zetas[64 + p / 2]`, negated for odd p. */
  function PairZeta(p: nat): twiddle
    requires p < 128
  {
    if p % 2 == 0 then Twiddle(64 + p / 2) else -Twiddle(64 + p / 2)
  }

  /** The other coefficient of a pair. */
  function Other(i: nat): (j: nat)
    ensures i < 256 ==> j < 256
  {
    if i % 2 == 0 then i + 1 else i - 1
  }

  /** Every product that is taken can be reduced. */
  predicate Operands(x: seq<int>, y: seq<int>) {
    |x| == |y| == 256 && forall i :: 0 <= i < 256 ==> Reducible(x[i], y[i]) && Reducible(x[i], y[Other(i)])
  }

  /** The operands the code has: 12-bit numbers, and centred ones. */
  predicate SmallOperands(x: seq<int>, y: seq<int>) {
    |x| == |y| == 256 && (forall i :: 0 <= i < 256 ==> -4096 <= x[i] <= 4096) && forall i :: 0 <= i < 256 ==>
          -1664 <= y[i] <= 1664
  }

  lemma SmallOk(x: seq<int16>, y: seq<int16>)
    requires SmallOperands(x, y)
    ensures Operands(x, y)
  {
    hide Reducible;
    forall i | 0 <= i < 256 ensures Reducible(x[i], y[i]) && Reducible(x[i], y[Other(i)]) {
      Mul16Tight(x[i], y[i]);
      Mul16Tight(x[i], y[Other(i)]);
    }
  }

  /** How much a coefficient can grow when a product is added. */
  predicate GrowsBy(x: seq<int>, y: seq<int>, step: int) {
    Operands(x, y) && (step == 6656 || (step == 3536 && SmallOperands(x, y)))
  }

  lemma ReducibleAt(x: seq<int16>, y: seq<int16>, i: nat, j: nat)
    requires Operands(x, y) && i < 256 && j == Other(i)
    ensures Reducible(x[i], y[i]) && Reducible(x[i], y[j])
  {
    hide Reducible, Other;
  }

  lemma Neighbours(p: nat)
    ensures Other(2 * p) == 2 * p + 1 && Other(2 * p + 1) == 2 * p
  {
  }

  /** The products taken for one pair of coefficients. */
  lemma PairReducible(x: seq<int16>, y: seq<int16>, p: nat)
    requires Operands(x, y) && p < 128
    ensures Reducible(x[2 * p], y[2 * p]) && Reducible(x[2 * p + 1], y[2 * p + 1])
    ensures Reducible(x[2 * p], y[2 * p + 1]) && Reducible(x[2 * p + 1], y[2 * p])
  {
    hide *;
    Neighbours(p);
    OperandSizes(x, y);
    ReducibleAt(x, y, 2 * p, 2 * p + 1);
    ReducibleAt(x, y, 2 * p + 1, 2 * p);
  }

  lemma OperandSizes(x: seq<int16>, y: seq<int16>)
    requires Operands(x, y)
    ensures |x| == |y| == 256
  {
  }

  lemma PairSmall(x: seq<int16>, y: seq<int16>, step: int, i: nat, j: nat)
    requires GrowsBy(x, y, step) && i < 256 && j < 256
    ensures step == 6656 || (step == 3536 && IsSmall(x[i], y[j]))
  {
    hide Operands;
  }

  /** Coefficient i after multiplying (or multiplying and adding) pairwise. */
  function MontCoeff(add: bool, r: seq<int16>, x: seq<int16>, y: seq<int16>, i: nat): int16
    requires |r| == 256 && Operands(x, y) && i < 256
  {
    var p := 2 * (i / 2);
    PairReducible(x, y, i / 2);
    if i % 2 == 0 then Low(add, r[i], x[p], x[p + 1], y[p], y[p + 1], PairZeta(i / 2))
    else High(add, r[i], x[p], x[p + 1], y[p], y[p + 1])
  }

  function MontMul(add: bool, r: seq<int16>, x: seq<int16>, y: seq<int16>): (t: seq<int16>)
    requires |r| == 256 && Operands(x, y)
    ensures |t| == 256
  {
    seq(256, i requires 0 <= i < 256 => MontCoeff(add, r, x, y, i))
  }

  // ----- what the pairs compute

  lemma PairZetaFactor(p: nat)
    requires p < 128
    ensures Cong(PairZeta(p), 0x1_0000 * Factor(128 + p))
  {
    hide *;
    var k := 64 + p / 2;
    var z: int, f := Zeta(k), Z(k);
    ZetaIsRoot(k);
    PairZetaSign(p);
    if p % 2 == 1 {
      CongNeg(z, 0x1_0000 * f);
      assert -(0x1_0000 * f) == 0x1_0000 * -f;
    }
  }

  lemma PairZetaSign(p: nat)
    requires p < 128
    ensures PairZeta(p) == if p % 2 == 0 then Zeta(64 + p / 2) else -Zeta(64 + p / 2)
    ensures Factor(128 + p) == if p % 2 == 0 then Z(64 + p / 2) else -Z(64 + p / 2)
  {
    hide Z, Zeta;
  }

  lemma CongNeg(a: int, b: int)
    requires Cong(a, b)
    ensures Cong(-a, -b)
  {
  }

  lemma LowMeans(add: bool, r: int16, a0: int16, a1: int16, b0: int16, b1: int16, p: nat, bound: int, step: int)
    requires Reducible(a0, b0) && Reducible(a1, b1) && p < 128
    requires step == 6656 || (step == 3536 && IsSmall(a0, b0) && IsSmall(a1, b1))
    requires -bound <= r <= bound && 0 <= bound && bound + step <= 0x7fff
    ensures var x0: int, x1: int, y0: int, y1: int, r0: int := a0, a1, b0, b1, r;
            var t := Low(add, r, a0, a1, b0, b1, PairZeta(p));
            Cong(0x1_0000 * t, (if add then 0x1_0000 * r0 else 0) + (x0 * y0 + Factor(128 + p) * (x1 * y1))) &&
            -step - (if add then bound else 0) <= t <= step + (if add then bound else 0)
  {
    var x0: int, x1: int, y0: int, y1: int, r0: int := a0, a1, b0, b1, r;
    hide Mul16, TwiddleMul, PairZeta, Add16, Sub16, Factor, Cong, Reducible;
    var zeta := PairZeta(p);
    var u: int, v: int := Mul16(a1, b1), Mul16(a0, b0);
    var w: int := TwiddleMul(zeta, u);
    if step == 3536 {
      Mul16Tight(a1, b1);
      Mul16Tight(a0, b0);
      TwiddleMulTight(zeta, u);
    }
    Fits16(r0, w);
    Fits16(w, v);
    Fits16(r0 + w, v);
    assert Low(add, r, a0, a1, b0, b1, zeta) == (if add then r0 else 0) + w + v;
    hide *;
    Mul16Means(a1, b1, x1, y1);
    Mul16Means(a0, b0, x0, y0);
    TwiddleFactor(p, u, w, x1 * y1);
    CongBy(0x1_0000 * r0, 0x1_0000 * r0, 0);
    CongAdd(0x1_0000 * w, Factor(128 + p) * (x1 * y1), 0x1_0000 * v, x0 * y0);
    CongAdd(0x1_0000 * r0, 0x1_0000 * r0, 0x1_0000 * w + 0x1_0000 * v, Factor(128 + p) * (x1 * y1) + x0 * y0);
  }

  lemma Mul16Means(a: int16, b: int16, x: int, y: int)
    requires Reducible(a, b) && x == a && y == b
    ensures Cong(0x1_0000 * Mul16(a, b), x * y)
  {
    hide Cong;
  }

  lemma TwiddleMeans(a: twiddle, b: int16, x: int, y: int)
    requires x == a && y == b
    ensures Cong(0x1_0000 * TwiddleMul(a, b), x * y)
  {
    hide Cong;
  }

  lemma TwiddleFactor(p: nat, u: int16, w: int, m: int)
    requires p < 128 && w == TwiddleMul(PairZeta(p), u) && Cong(0x1_0000 * u, m)
    ensures Cong(0x1_0000 * w, Factor(128 + p) * m)
  {
    hide *;
    var z: int, x: int := PairZeta(p), u;
    TwiddleMeans(PairZeta(p), u, z, x);
    PairZetaFactor(p);
    var f := Factor(128 + p);
    CongBy(x, x, 0);
    CongBy(f, f, 0);
    CongMul(z, 0x1_0000 * f, x, x);
    CongMul(f, f, 0x1_0000 * x, m);
    assert 0x1_0000 * f * x == f * (0x1_0000 * x);
    CongTrans(0x1_0000 * w, z * x, 0x1_0000 * f * x);
    CongTrans(0x1_0000 * w, f * (0x1_0000 * x), f * m);
  }

  lemma HighMeans(add: bool, r: int16, a0: int16, a1: int16, b0: int16, b1: int16, bound: int, step: int)
    requires Reducible(a0, b1) && Reducible(a1, b0)
    requires step == 6656 || (step == 3536 && IsSmall(a0, b1) && IsSmall(a1, b0))
    requires -bound <= r <= bound && 0 <= bound && bound + step <= 0x7fff
    ensures var x0: int, x1: int, y0: int, y1: int, r0: int := a0, a1, b0, b1, r;
            var t := High(add, r, a0, a1, b0, b1);
            Cong(0x1_0000 * t, (if add then 0x1_0000 * r0 else 0) + (x0 * y1 + x1 * y0)) &&
            -step - (if add then bound else 0) <= t <= step + (if add then bound else 0)
  {
    var x0: int, x1: int, y0: int, y1: int, r0: int := a0, a1, b0, b1, r;
    hide Mul16, Add16, Sub16, Cong, Reducible;
    var u: int, v: int := Mul16(a0, b1), Mul16(a1, b0);
    if step == 3536 {
      Mul16Tight(a0, b1);
      Mul16Tight(a1, b0);
    }
    Fits16(r0, u);
    Fits16(u, v);
    Fits16(r0 + u, v);
    assert High(add, r, a0, a1, b0, b1) == (if add then r0 else 0) + u + v;
    hide *;
    Mul16Means(a0, b1, x0, y1);
    Mul16Means(a1, b0, x1, y0);
    CongBy(0x1_0000 * r0, 0x1_0000 * r0, 0);
    CongAdd(0x1_0000 * u, x0 * y1, 0x1_0000 * v, x1 * y0);
    CongAdd(0x1_0000 * r0, 0x1_0000 * r0, 0x1_0000 * u + 0x1_0000 * v, x0 * y1 + x1 * y0);
  }

  // ----- whole polynomials

  lemma MontCoeffMeans(add: bool, r: seq<int16>, x: seq<int16>, y: seq<int16>, i: nat, bound: int, step: int, rv: Vec,
      xv: Vec, yv: Vec)
    requires |r| == 256 && GrowsBy(x, y, step) && i < 256 && rv == r && xv == x && yv == y
    requires -bound <= r[i] <= bound && 0 <= bound && bound + step <= 0x7fff
    ensures var t := MontCoeff(add, r, x, y, i);
            Cong(0x1_0000 * t, (if add then 0x1_0000 * rv[i] else 0) + PointMul(xv, yv)[i]) &&
            -step - (if add then bound else 0) <= t <= step + (if add then bound else 0)
  {
    hide Low, High, PairZeta, Factor, Cong, BaseMul, BaseCoeff, Reducible, Operands;
    OperandSizes(x, y);
    var p := 2 * (i / 2);
    BaseMulAt(xv, yv, 128, i);
    var x0, x1, y0, y1 := xv[p], xv[p + 1], yv[p], yv[p + 1];
    BaseCoeffPair(xv, yv, Factor(128 + i / 2), i, x0, x1, y0, y1);
    PairReducible(x, y, i / 2);
    hide GrowsBy, IsSmall;
    if i % 2 == 0 {
      PairSmall(x, y, step, p, p);
      PairSmall(x, y, step, p + 1, p + 1);
      LowMeans(add, r[i], x[p], x[p + 1], y[p], y[p + 1], i / 2, bound, step);
    } else {
      PairSmall(x, y, step, p, p + 1);
      PairSmall(x, y, step, p + 1, p);
      HighMeans(add, r[i], x[p], x[p + 1], y[p], y[p + 1], bound, step);
    }
  }

  lemma BaseCoeffPair(x: Vec, y: Vec, c: int, i: nat, x0: int, x1: int, y0: int, y1: int)
    requires |x| == |y| && |x| % 2 == 0 && i < |x|
    requires var p := 2 * (i / 2); x0 == x[p] && x1 == x[p + 1] && y0 == y[p] && y1 == y[p + 1]
    ensures BaseCoeff(x, y, c, i) == if i % 2 == 0 then x0 * y0 + c * (x1 * y1) else x0 * y1 + x1 * y0
  {
  }

  /** The Montgomery products are the products of FIPS 203 divided by 2^16; each addition grows r by at most step. */
  lemma MontMulMeans(add: bool, r: seq<int16>, x: seq<int16>, y: seq<int16>, bound: int, step: int)
    requires |r| == 256 && GrowsBy(x, y, step) && 0 <= bound && bound + step <= 0x7fff && (add ==> Bounded(r, bound))
    ensures CongSeq(Scale(0x1_0000, MontMul(add, r, x, y)), if add then Add(Scale(0x1_0000, r), PointMul(x, y))
    else PointMul(x, y))
    ensures Bounded(MontMul(add, r, x, y), step + (if add then bound else 0))
  {
    hide MontCoeff, Scale, Add, PointMul, Cong, Operands, SmallOperands;
    OperandSizes(x, y);
    var rv: Vec, xv: Vec, yv: Vec, t: Vec := r, x, y, MontMul(add, r, x, y);
    var d := PointMul(xv, yv);
    var w := if add then Add(Scale(0x1_0000, rv), d) else d;
    var z := Scale(0x1_0000, t);
    forall i | 0 <= i < 256
      ensures Cong(z[i], w[i])
      ensures -step - (if add then bound else 0) <= t[i] <= step + (if add then bound else 0)
    {
      if add {
        MontCoeffMeans(true, r, x, y, i, bound, step, rv, xv, yv);
        AddScaleAt(0x1_0000, rv, d, i, rv[i]);
      } else {
        MontCoeffFresh(r, x, y, i, step, xv, yv);
      }
      ScaleAt(0x1_0000, t, i, t[i]);
    }
  }

  /** Without accumulation the old value does not matter. */
  lemma MontCoeffFresh(r: seq<int16>, x: seq<int16>, y: seq<int16>, i: nat, step: int, xv: Vec, yv: Vec)
    requires |r| == 256 && GrowsBy(x, y, step) && i < 256 && xv == x && yv == y
    ensures var t := MontCoeff(false, r, x, y, i); Cong(0x1_0000 * t, PointMul(xv, yv)[i]) && -step <= t <= step
  {
    var zero: seq<int16> := seq(256, _ => 0);
    hide Mul16, PairZeta, TwiddleMul, Add16, Operands, SmallOperands, PointMul, Cong, Reducible;
    assert MontCoeff(false, r, x, y, i) == MontCoeff(false, zero, x, y, i);
    MontCoeffMeans(false, zero, x, y, i, 0, step, zero, xv, yv);
  }

  lemma AddScaleAt(s: int, a: Vec, b: Vec, i: nat, x: int)
    requires |a| == |b| && i < |a| && a[i] == x
    ensures Add(Scale(s, a), b)[i] == s * x + b[i]
  {
  }

  // ----- the code

  /** `basemul`: the operands are copied first, so r may overlap them. */
  method Basemul(r: array<int16>, o: nat, a: array<int16>, ao: nat, b: array<int16>, bo: nat, zeta: twiddle)
    requires o + 2 <= r.Length && ao + 2 <= a.Length && bo + 2 <= b.Length
    requires Reducible(a[ao], b[bo]) && Reducible(a[ao + 1], b[bo + 1]) && Reducible(a[ao], b[bo + 1])
        && Reducible(a[ao + 1], b[bo])
    modifies r
    ensures r[o] == old(Low(false, r[o], a[ao], a[ao + 1], b[bo], b[bo + 1], zeta))
    ensures r[o + 1] == old(High(false, r[o + 1], a[ao], a[ao + 1], b[bo], b[bo + 1]))
    ensures forall i :: 0 <= i < r.Length && i != o && i != o + 1 ==> r[i] == old(r[i])
  {
    hide Mul16, TwiddleMul, Add16, Reducible;
    var a0, a1, b0, b1 := a[ao], a[ao + 1], b[bo], b[bo + 1];
    r[o] := Mul16(a1, b1);
    r[o] := TwiddleMul(zeta, r[o]);
    r[o] := Add16(r[o], Mul16(a0, b0));
    r[o + 1] := Mul16(a0, b1);
    r[o + 1] := Add16(r[o + 1], Mul16(a1, b0));
  }

  /** `basemul_acc`. */
  method BasemulAcc(r: array<int16>, o: nat, a: array<int16>, ao: nat, b: array<int16>, bo: nat, zeta: twiddle)
    requires o + 2 <= r.Length && ao + 2 <= a.Length && bo + 2 <= b.Length
    requires Reducible(a[ao], b[bo]) && Reducible(a[ao + 1], b[bo + 1]) && Reducible(a[ao], b[bo + 1])
        && Reducible(a[ao + 1], b[bo])
    modifies r
    ensures r[o] == old(Low(true, r[o], a[ao], a[ao + 1], b[bo], b[bo + 1], zeta))
    ensures r[o + 1] == old(High(true, r[o + 1], a[ao], a[ao + 1], b[bo], b[bo + 1]))
    ensures forall i :: 0 <= i < r.Length && i != o && i != o + 1 ==> r[i] == old(r[i])
  {
    hide Mul16, TwiddleMul, Add16, Reducible;
    var a0, a1, b0, b1 := a[ao], a[ao + 1], b[bo], b[bo + 1];
    var t := Mul16(a1, b1);
    r[o] := Add16(r[o], TwiddleMul(zeta, t));
    r[o] := Add16(r[o], Mul16(a0, b0));
    r[o + 1] := Add16(r[o + 1], Mul16(a0, b1));
    r[o + 1] := Add16(r[o + 1], Mul16(a1, b0));
  }

  /** Whether entries lo .. hi - 1 of t are the products of x and y into r. */
  ghost predicate Multiplied(add: bool, r: seq<int16>, x: seq<int16>, y: seq<int16>, t: seq<int16>, lo: int, hi: int) {
    && |r| == |t| == 256 && Operands(x, y) && 0 <= lo <= hi <= 256
    && forall i :: lo <= i < hi ==> t[i] == MontCoeff(add, r, x, y, i)
  }

  /** Group k of an array still holds the values of s. */
  ghost predicate Group(a: seq<int16>, o: nat, s: seq<int16>, k: nat) {
    && 4 * k + 4 <= |s| && o + 4 <= |a|
    && a[o] == s[4 * k] && a[o + 1] == s[4 * k + 1] && a[o + 2] == s[4 * k + 2] && a[o + 3] == s[4 * k + 3]
  }

  /**
   The two calls made for each group of four coefficients: `doublebasemul` of mlkem/matacc.c,
   and the loop bodies of `poly_basemul_montgomery` and `poly_frombytes_basemul_montgomery`.
   The operands are group k of x (found in a, from ao on) and of y (found in b).
   */
  method DoubleBasemul(r: array<int16>, a: array<int16>, ao: nat, b: array<int16>, k: nat, add: bool,
                       ghost r0: seq<int16>, ghost x: seq<int16>, ghost y: seq<int16>)
    requires r.Length == b.Length == 256 && k < 64 && (a == r ==> ao == 4 * k)
    requires Multiplied(add, r0, x, y, r[..], 0, 4 * k)
    requires Group(r[..], 4 * k, r0, k) && Group(a[..], ao, x, k) && Group(b[..], 4 * k, y, k)
    modifies r
    ensures Multiplied(add, r0, x, y, r[..], 0, 4 * k + 4)
    ensures forall i :: 4 * k + 4 <= i < 256 ==> r[i] == old(r[i])
  {
    hide Low, High, PairZeta, MontCoeff, Operands, Reducible;
    var o := 4 * k;
    PairReducible(x, y, 2 * k);
    PairReducible(x, y, 2 * k + 1);
    MontCoeffPair(add, r0, x, y, 2 * k, o);
    MontCoeffPair(add, r0, x, y, 2 * k + 1, o + 2);
    if !add {
      Basemul(r, o, a, ao, b, o, PairZeta(2 * k));
      Basemul(r, o + 2, a, ao + 2, b, o + 2, PairZeta(2 * k + 1));
    } else {
      BasemulAcc(r, o, a, ao, b, o, PairZeta(2 * k));
      BasemulAcc(r, o + 2, a, ao + 2, b, o + 2, PairZeta(2 * k + 1));
    }
  }

  lemma MontCoeffPair(add: bool, r: seq<int16>, x: seq<int16>, y: seq<int16>, p: nat, o: nat)
    requires |r| == 256 && Operands(x, y) && p < 128 && o == 2 * p
    ensures Reducible(x[o], y[o]) && Reducible(x[o + 1], y[o + 1]) && Reducible(x[o], y[o + 1])
        && Reducible(x[o + 1], y[o])
    ensures MontCoeff(add, r, x, y, o) == Low(add, r[o], x[o], x[o + 1], y[o], y[o + 1], PairZeta(p))
    ensures MontCoeff(add, r, x, y, o + 1) == High(add, r[o + 1], x[o], x[o + 1], y[o], y[o + 1])
  {
    hide Low, High, PairZeta, Reducible, Operands;
    PairReducible(x, y, p);
  }

  /** `poly_basemul_montgomery`; r may be one of the operands. */
  method PolyBasemul(r: array<int16>, a: array<int16>, b: array<int16>, add: bool)
    requires r.Length == a.Length == b.Length == 256 && Operands(a[..], b[..])
    modifies r
    ensures r[..] == MontMul(add, old(r[..]), old(a[..]), old(b[..]))
  {
    hide MontCoeff, Operands;
    ghost var r0, x, y := r[..], a[..], b[..];
    var i: nat := 0;
    while i < 64
      invariant i <= 64
      invariant Multiplied(add, r0, x, y, r[..], 0, 4 * i)
      invariant forall k :: 4 * i <= k < 256 ==> r[k] == r0[k] && a[k] == x[k] && b[k] == y[k]
    {
      DoubleBasemul(r, a, 4 * i, b, i, add, r0, x, y);
      i := i + 1;
    }
  }
}
