/**
 Serialisation of coefficients: ByteEncode_d and ByteDecode_d of section 4.2.1 of FIPS 203, and the shifts and masks
 of mlkem/poly.c.
 */
module Encode {
  import opened Bytes

  predicate IsPacking(d: nat) {
    d in {1, 4, 5, 10, 11, 12}
  }

  /** 2^d. */
  function Base(d: nat): (b: nat)
    requires IsPacking(d)
    ensures b > 1
  {
    if d == 1 then 2 else if d == 4 then 16 else if d == 5 then 32 else if d == 10 then 1024 else if d == 11 then 2048
    else 4096
  }

  /** The code handles this many coefficients at a time ... */
  function GroupSize(d: nat): (g: nat)
    requires IsPacking(d)
    ensures g > 0
  {
    if d == 10 then 4 else if d == 12 then 2 else 8
  }

  /** ... which fill this many bytes. */
  function GroupBytes(d: nat): (g: nat)
    requires IsPacking(d)
    ensures g > 0
  {
    if d == 10 then 5 else if d == 12 then 3 else d
  }

  function ToBytes(s: seq<nat>): (b: seq<byte>)
    ensures |b| == |s|
  {
    seq(|s|, i requires 0 <= i < |s| => Byte(s[i]))
  }

  function FromBytes(b: seq<byte>): (s: seq<nat>)
    ensures |s| == |b| && Below(s, 256)
  {
    seq(|b|, i requires 0 <= i < |b| => Value8(b[i]))
  }

  lemma FromToBytes(s: seq<nat>)
    requires Below(s, 256)
    ensures FromBytes(ToBytes(s)) == s
  {
    hide Value8, Byte;
    forall i | 0 <= i < |s| ensures Value8(Byte(s[i])) == s[i] {
      ValueOfByte(s[i]);
    }
  }

  lemma ToFromBytes(b: seq<byte>)
    ensures ToBytes(FromBytes(b)) == b
  {
    hide Value8, Byte;
    forall i | 0 <= i < |b| ensures Byte(Value8(b[i])) == b[i] {
      ByteOfValue(b[i]);
    }
  }

  /** The bits of a group of d-bit numbers, regrouped into bytes: one little-endian number in two bases. */
  function EncodeGroup(d: nat, t: seq<nat>): (b: seq<byte>)
    requires IsPacking(d) && |t| == GroupSize(d)
    ensures |b| == GroupBytes(d)
  {
    ToBytes(Digits(Value(t, Base(d)), 256, GroupBytes(d)))
  }

  function DecodeGroup(d: nat, b: seq<byte>): (t: seq<nat>)
    requires IsPacking(d) && |b| == GroupBytes(d)
    ensures |t| == GroupSize(d)
  {
    Digits(Value(FromBytes(b), 256), Base(d), GroupSize(d))
  }

  lemma GroupPowers(d: nat)
    requires IsPacking(d)
    ensures Power(Base(d), GroupSize(d)) == Power(256, GroupBytes(d))
  {
    if d == 1 { assert Power(2, 8) == Power(256, 1); }
    else if d == 4 { assert Power(16, 8) == Power(256, 4); }
    else if d == 5 { assert Power(32, 8) == Power(256, 5); }
    else if d == 10 { assert Power(1024, 4) == Power(256, 5); }
    else if d == 11 { assert Power(2048, 8) == Power(256, 11); }
    else { assert Power(4096, 2) == Power(256, 3); }
  }

  lemma DecodeEncodeGroup(d: nat, t: seq<nat>)
    requires IsPacking(d) && |t| == GroupSize(d) && Below(t, Base(d))
    ensures DecodeGroup(d, EncodeGroup(d, t)) == t
  {
    hide *;
    GroupPowers(d);
    DigitsOfValue(t, Base(d));
    var v := Value(t, Base(d));
    ValueOfDigits(v, 256, GroupBytes(d));
    FromToBytes(Digits(v, 256, GroupBytes(d)));
    GroupDefs(d, t, EncodeGroup(d, t));
  }

  lemma EncodeDecodeGroup(d: nat, b: seq<byte>)
    requires IsPacking(d) && |b| == GroupBytes(d)
    ensures EncodeGroup(d, DecodeGroup(d, b)) == b && Below(DecodeGroup(d, b), Base(d))
  {
    hide *;
    GroupPowers(d);
    DigitsOfValue(FromBytes(b), 256);
    var v := Value(FromBytes(b), 256);
    ValueOfDigits(v, Base(d), GroupSize(d));
    ToFromBytes(b);
    GroupDefs(d, DecodeGroup(d, b), b);
  }

  lemma GroupDefs(d: nat, t: seq<nat>, b: seq<byte>)
    requires IsPacking(d) && |t| == GroupSize(d) && |b| == GroupBytes(d)
    ensures EncodeGroup(d, t) == ToBytes(Digits(Value(t, Base(d)), 256, GroupBytes(d)))
    ensures DecodeGroup(d, b) == Digits(Value(FromBytes(b), 256), Base(d), GroupSize(d))
  {
    hide Base, GroupSize, GroupBytes, Value, Digits, ToBytes, FromBytes;
  }

  // ----- whole sequences, n groups at a time

  lemma LastGroup(n: nat, g: nat)
    requires n > 0
    ensures 0 <= (n - 1) * g && n * g == (n - 1) * g + g
  {
  }

  function ByteEncode(d: nat, t: seq<nat>, n: nat): (b: seq<byte>)
    requires IsPacking(d) && |t| == n * GroupSize(d)
    ensures |b| == n * GroupBytes(d)
  {
    if n == 0 then []
    else
      LastGroup(n, GroupSize(d));
      LastGroup(n, GroupBytes(d));
      var m := (n - 1) * GroupSize(d);
      ByteEncode(d, t[..m], n - 1) + EncodeGroup(d, t[m..])
  }

  function ByteDecode(d: nat, b: seq<byte>, n: nat): (t: seq<nat>)
    requires IsPacking(d) && |b| == n * GroupBytes(d)
    ensures |t| == n * GroupSize(d)
  {
    if n == 0 then []
    else
      LastGroup(n, GroupSize(d));
      LastGroup(n, GroupBytes(d));
      var m := (n - 1) * GroupBytes(d);
      ByteDecode(d, b[..m], n - 1) + DecodeGroup(d, b[m..])
  }

  lemma {:induction false} DecodeEncode(d: nat, t: seq<nat>, n: nat)
    requires IsPacking(d) && |t| == n * GroupSize(d) && Below(t, Base(d))
    ensures ByteDecode(d, ByteEncode(d, t, n), n) == t
  {
    hide Base, GroupSize, GroupBytes, EncodeGroup, DecodeGroup;
    if n > 0 {
      var m, k := (n - 1) * GroupSize(d), (n - 1) * GroupBytes(d);
      DecodeEncode(d, t[..m], n - 1);
      DecodeEncodeGroup(d, t[m..]);
      var b := ByteEncode(d, t, n);
      assert b[..k] == ByteEncode(d, t[..m], n - 1) && b[k..] == EncodeGroup(d, t[m..]);
      assert t == t[..m] + t[m..];
    }
  }

  lemma {:induction false} EncodeDecode(d: nat, b: seq<byte>, n: nat)
    requires IsPacking(d) && |b| == n * GroupBytes(d)
    ensures ByteEncode(d, ByteDecode(d, b, n), n) == b
    ensures Below(ByteDecode(d, b, n), Base(d))
  {
    hide Base, GroupSize, GroupBytes, EncodeGroup, DecodeGroup;
    if n > 0 {
      var m, k := (n - 1) * GroupSize(d), (n - 1) * GroupBytes(d);
      EncodeDecode(d, b[..k], n - 1);
      EncodeDecodeGroup(d, b[k..]);
      var t := ByteDecode(d, b, n);
      assert t[..m] == ByteDecode(d, b[..k], n - 1) && t[m..] == DecodeGroup(d, b[k..]);
      assert b == b[..k] + b[k..];
    }
  }

  // ----- the whole encoding is one number written in two bases

  lemma ValueHead(s: seq<nat>, base: nat)
    requires |s| > 0
    ensures Value(s, base) == s[0] + base * Value(s[1..], base)
  {
  }

  lemma HornerStep(base: nat, p: nat, v: nat, w: nat)
    ensures base * (v + p * w) == base * v + base * p * w
  {
  }

  lemma {:induction false} ValueAppend(s: seq<nat>, t: seq<nat>, base: nat)
    ensures Value(s + t, base) == Value(s, base) + Power(base, |s|) * Value(t, base)
    decreases |s|
  {
    if |s| > 0 {
      assert (s + t)[1..] == s[1..] + t;
      ValueAppend(s[1..], t, base);
      ValueHead(s + t, base);
      ValueHead(s, base);
      HornerStep(base, Power(base, |s| - 1), Value(s[1..], base), Value(t, base));
    } else {
      assert s + t == t;
    }
  }

  lemma {:induction false} PowerAdd(base: nat, a: nat, b: nat)
    ensures Power(base, a + b) == Power(base, a) * Power(base, b)
  {
    if a > 0 {
      PowerAdd(base, a - 1, b);
      HornerStep(base, Power(base, a - 1), 0, Power(base, b));
    }
  }

  lemma {:induction false} PowersOfGroups(d: nat, n: nat)
    requires IsPacking(d)
    ensures Power(Base(d), n * GroupSize(d)) == Power(256, n * GroupBytes(d))
  {
    hide Base, GroupSize, GroupBytes, Power;
    if n > 0 {
      LastGroup(n, GroupSize(d));
      LastGroup(n, GroupBytes(d));
      PowersOfGroups(d, n - 1);
      GroupPowers(d);
      PowerAdd(Base(d), (n - 1) * GroupSize(d), GroupSize(d));
      PowerAdd(256, (n - 1) * GroupBytes(d), GroupBytes(d));
    } else {
      PowerZero(Base(d));
      PowerZero(256);
    }
  }

  lemma PowerZero(b: nat)
    ensures Power(b, 0) == 1
  {
  }

  lemma GroupValue(d: nat, t: seq<nat>)
    requires IsPacking(d) && |t| == GroupSize(d) && Below(t, Base(d))
    ensures Value(FromBytes(EncodeGroup(d, t)), 256) == Value(t, Base(d))
  {
    hide *;
    GroupPowers(d);
    DigitsOfValue(t, Base(d));
    ValueOfDigits(Value(t, Base(d)), 256, GroupBytes(d));
    FromToBytes(Digits(Value(t, Base(d)), 256, GroupBytes(d)));
    GroupDefs(d, t, EncodeGroup(d, t));
  }

  /** ByteEncode_d: bit j of coefficient i is bit d * i + j of the bytes, i.e. both spell the same number. */
  lemma {:induction false} EncodeSpellsNumber(d: nat, t: seq<nat>, n: nat)
    requires IsPacking(d) && |t| == n * GroupSize(d) && Below(t, Base(d))
    ensures Value(FromBytes(ByteEncode(d, t, n)), 256) == Value(t, Base(d))
  {
    hide Base, GroupSize, GroupBytes, EncodeGroup, FromBytes, Power;
    if n > 0 {
      var m, k := (n - 1) * GroupSize(d), (n - 1) * GroupBytes(d);
      LastGroup(n, GroupSize(d));
      var x, y := t[..m], t[m..];
      EncodeSpellsNumber(d, x, n - 1);
      GroupValue(d, y);
      var a, b := ByteEncode(d, x, n - 1), EncodeGroup(d, y);
      FromBytesAppend(a, b);
      ValueAppend(FromBytes(a), FromBytes(b), 256);
      ValueAppend(x, y, Base(d));
      assert t == x + y;
      PowersOfGroups(d, n - 1);
    }
  }

  lemma FromBytesAppend(a: seq<byte>, b: seq<byte>)
    ensures FromBytes(a + b) == FromBytes(a) + FromBytes(b)
  {
    hide Value8;
  }
}
