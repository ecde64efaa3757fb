/** Arithmetic modulo the ML-KEM prime, and the C fixed-width conversions the code relies on. */
module Modular {

  const Q: int := 3329

  /** A value of the C type `int16_t`. */
  type int16 = x: int | -0x8000 <= x < 0x8000

  /** Conversion to `int16_t`: two's complement wrap-around. */
  function I16(x: int): int16 {
    (x + 0x8000) % 0x1_0000 - 0x8000
  }

  /** A sum or difference computed in `int` and stored to an `int16_t`. */
  function Add16(x: int, y: int): int16 {
    I16(x + y)
  }

  function Sub16(x: int, y: int): int16 {
    I16(x - y)
  }

  /** Conversion to `uint32_t`. */
  function U32(x: int): int {
    x % 0x1_0000_0000
  }

  ghost predicate Cong(a: int, b: int) {
    (a - b) % Q == 0
  }

  ghost predicate CongSeq(a: seq<int>, b: seq<int>) {
    |a| == |b| && forall i :: 0 <= i < |a| ==> Cong(a[i], b[i])
  }

  lemma CongBy(a: int, b: int, k: int)
    requires a - b == Q * k
    ensures Cong(a, b)
  {
  }

  lemma CongAdd(a: int, b: int, c: int, d: int)
    requires Cong(a, b) && Cong(c, d)
    ensures Cong(a + c, b + d) && Cong(a - c, b - d)
  {
  }

  lemma CongMul(a: int, b: int, c: int, d: int)
    requires Cong(a, b) && Cong(c, d)
    ensures Cong(a * c, b * d)
  {
    var k, l := (a - b) / Q, (c - d) / Q;
    assert a == b + Q * k && c == d + Q * l;
    assert a * c - b * d == Q * (k * d + b * l + Q * k * l) by {
      assert (b + Q * k) * (d + Q * l) == b * d + Q * (k * d) + Q * (b * l) + Q * (Q * k * l);
    }
    CongBy(a * c, b * d, k * d + b * l + Q * k * l);
  }

  lemma CongSym(a: int, b: int)
    requires Cong(a, b)
    ensures Cong(b, a)
  {
  }

  lemma CongTrans(a: int, b: int, c: int)
    requires Cong(a, b) && Cong(b, c)
    ensures Cong(a, c)
  {
  }

  /** A factor that is invertible modulo Q cancels. */
  lemma CongCancel(a: int, b: int, f: int, g: int)
    requires Cong(f * g, 1) && Cong(f * a, f * b)
    ensures Cong(a, b)
  {
    hide Cong;
    CongMul(f * a, f * b, g, g);
    CongMul(f * g, 1, a, a);
    CongMul(f * g, 1, b, b);
    assert f * a * g == f * g * a && f * b * g == f * g * b;
    CongSym(f * g * a, a);
    CongTrans(a, f * g * a, f * g * b);
    CongTrans(a, f * g * b, b);
  }

  lemma CongSeqTrans(a: seq<int>, b: seq<int>, c: seq<int>)
    requires CongSeq(a, b) && CongSeq(b, c)
    ensures CongSeq(a, c)
  {
    forall i | 0 <= i < |a| ensures Cong(a[i], c[i]) { CongTrans(a[i], b[i], c[i]); }
  }

  lemma CongSeqSym(a: seq<int>, b: seq<int>)
    requires CongSeq(a, b)
    ensures CongSeq(b, a)
  {
    forall i | 0 <= i < |a| ensures Cong(b[i], a[i]) { CongSym(a[i], b[i]); }
  }

  /** The representative closest to zero; this is what `barrett_reduce` returns. */
  function Centred(x: int): (r: int)
    ensures -1664 <= r <= 1664 && Cong(r, x)
  {
    var m := x % Q;
    if m > 1664 then m - Q else m
  }

  lemma CentredUnique(r: int, x: int)
    requires -1664 <= r <= 1664 && Cong(r, x)
    ensures r == Centred(x)
  {
  }

  lemma CongIffMod(a: int, b: int)
    ensures Cong(a, b) <==> a % Q == b % Q
  {
  }
}
