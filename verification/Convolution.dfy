/** Multiplying two polynomials with the code of mlkem/ntt.c: transform, multiply pairwise, transform back. */
module Convolution {
  import opened Modular
  import opened Ring
  import opened NttMath
  import opened Vectors
  import opened Transform
  import opened Products
  import opened Indcpa

  /**
   The result is the schoolbook product in Z_Q[X]/(X^256 + 1), for any representatives x, y, t and u that the
   code computes on the way: the 2^-16 of the Montgomery products and the 2^16 of the inverse transform cancel.
   */
  lemma MontgomeryConvolution(a: Vec, b: Vec, r: seq<int16>, x: seq<int16>, y: seq<int16>, u: Vec)
    requires |a| == |b| == |r| == |u| == 256 && Operands(x, y) && CongSeq(x, Ntt(a)) && CongSeq(y, Ntt(b))
    requires CongSeq(u, Scale(0x1_0000, InvNtt(MontMul(false, r, x, y))))
    ensures CongSeq(u, Schoolbook(a, b, -1))
  {
    hide CongSeq, Ntt, InvNtt, PointMul, PolyMul, Schoolbook, MontMul, Scale, Operands;
    var t := MontMul(false, r, x, y);
    OperandSizes(x, y);
    MontMulMeans(false, r, x, y, 0, 6656);
    PointCong(x, y, Ntt(a), Ntt(b));
    CongSeqTrans(Scale(0x1_0000, t), PointMul(x, y), PointMul(Ntt(a), Ntt(b)));
    FactorsCancel(t, PointMul(Ntt(a), Ntt(b)), u);
    ConvolutionTheorem(a, b);
    CongSeqTrans(u, InvNtt(PointMul(Ntt(a), Ntt(b))), PolyMul(a, b));
    PolyMulIsSchoolbook(a, b);
  }

  /** The sequence `poly_ntt`, `poly_ntt`, `poly_basemul` into its second operand, `poly_invntt_tomont`. */
  method MultiplyInPlace(a: array<int16>, b: array<int16>)
    requires a != b && a.Length == b.Length == 256 && Bounded(a[..], 16943) && Bounded(b[..], 16943)
    modifies a, b
    ensures CongSeq(b[..], Schoolbook(old(a[..]), old(b[..]), -1)) && Bounded(b[..], 3328)
  {
    hide CongSeq, Ntt, InvNtt, Schoolbook, MontMul, Scale, Operands;
    ghost var a0, b0 := a[..], b[..];
    PolyNtt(a);
    PolyNtt(b);
    ghost var x, y := a[..], b[..];
    CentredOperands(x, y);
    PolyBasemul(b, a, b, false);
    MontMulMeans(false, y, x, y, 0, 6656);
    InvNttInPlace(b);
    MontgomeryConvolution(a0, b0, y, x, y, b[..]);
  }

  lemma CentredOperands(x: seq<int16>, y: seq<int16>)
    requires |x| == |y| == 256 && Bounded(x, 1664) && Bounded(y, 1664)
    ensures Operands(x, y)
  {
    hide Operands;
    SmallOk(x, y);
  }

  /** `poly_ntt` and then `poly_invntt_tomont`, for every input that the transform can take. */
  method TransformAndBack(r: array<int16>)
    requires r.Length == 256 && Bounded(r[..], 16943)
    modifies r
    ensures CongSeq(r[..], Scale(0x1_0000, old(r[..]))) && Bounded(r[..], 3328)
  {
    hide CongSeq, Ntt, InvNtt, Scale;
    ghost var a := r[..];
    PolyNtt(r);
    ghost var b := r[..];
    InvNttInPlace(r);
    RoundTrip(a, b, r[..]);
  }
}
