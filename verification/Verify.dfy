/** The masked forms of compare and select in mlkem/verify.c. */
module Verify {
  import opened Bytes

  /** `-(uint64_t) r >> 63`, which `indcpa_enc_cmp` spells `~rc + 1`. */
  function IsNonzero(rc: bv64): (r: byte)
    requires rc <= 0xff
    ensures r == if rc == 0 then 0 else 1
  {
    ((!rc + 1) >> 63) as byte
  }

  /** The loop shared by `verify` and the two `cmp_` functions of mlkem/poly.c: collect the differing bits. */
  method OrDifferences(rc: byte, a: seq<byte>, b: seq<byte>) returns (r: byte)
    requires |a| == |b|
    ensures r == 0 <==> rc == 0 && a == b
  {
    r := rc;
    var i := 0;
    while i < |a|
      invariant 0 <= i <= |a|
      invariant r == 0 <==> rc == 0 && forall k :: 0 <= k < i ==> a[k] == b[k]
    {
      OrXorZero(r, a[i], b[i]);
      r := r | (a[i] ^ b[i]);
      i := i + 1;
    }
  }

  lemma OrXorZero(r: byte, a: byte, b: byte)
    ensures r | (a ^ b) == 0 <==> r == 0 && a == b
  {
  }

  /** `verify`. */
  method Verify(a: seq<byte>, b: seq<byte>) returns (r: byte)
    requires |a| == |b|
    ensures r == if a == b then 0 else 1
  {
    var d := OrDifferences(0, a, b);
    WidenZero(d);
    r := IsNonzero(d as bv64);
  }

  lemma WidenZero(d: byte)
    ensures d as bv64 <= 0xff && (d as bv64 == 0 <==> d == 0)
  {
  }

  /** The select under a mask of all ones or all zeros, in `cmov` and, on 16 bits, in `cmov_int16`. */
  lemma MaskedSelect(r: byte, x: byte, b: byte)
    requires b == 0 || b == 1
    ensures r ^ (-b & (r ^ x)) == if b == 1 then x else r
  {
  }

  /** `cmov` on the first |x| bytes of r. */
  method Cmov(r: array<byte>, x: seq<byte>, b: byte)
    requires (b == 0 || b == 1) && |x| <= r.Length
    modifies r
    ensures r[..] == if b == 1 then x + old(r[|x|..]) else old(r[..])
  {
    var i := 0;
    while i < |x|
      invariant 0 <= i <= |x|
      invariant forall k :: 0 <= k < r.Length ==> r[k] == if k < i && b == 1 then x[k] else old(r[k])
    {
      MaskedSelect(r[i], x[i], b);
      r[i] := r[i] ^ (-b & (r[i] ^ x[i]));
      i := i + 1;
    }
  }

  /** `cmov_int16`, on the 16-bit words that represent the two numbers. */
  function CmovWord(r: bv16, v: bv16, b: bv16): (w: bv16)
    requires b == 0 || b == 1
    ensures w == if b == 1 then v else r
  {
    r ^ (-b & (r ^ v))
  }
}
