/** The round constants of fips202/keccakf1600.c are those of Algorithm 6 of FIPS 202, split into even and odd bits. */
module KeccakConstants {
  import opened KeccakSpec
  import opened Halves
  import opened KeccakTable
  import opened Bytes
  import opened Encode  // ValueAppend
  import opened Packing  // Value4

  /** A table entry as a `uint32_t`. */
  function WordOf(n: nat): Word {
    seq(32, i requires 0 <= i < 32 => Digits(n, 2, 32)[i] == 1)
  }

  /** The two words of round constant ir. */
  function ConstantWords(ir: nat): (rc: seq<Word>)
    requires ir < 24
    ensures |rc| == 2
  {
    [WordOf(RoundConstant(2 * ir)), WordOf(RoundConstant(2 * ir + 1))]
  }

  // ----- the shift register, seven steps at a time

  /** The register after 7 * ir steps. */
  function Register(ir: nat): bv8
    requires ir < 24
  {
    if ir < 8 then [0x1, 0x80, 0xd8, 0x1a, 0xdf, 0x9, 0x35, 0x4f][ir]
    else if ir < 16 then [0xca, 0x70, 0x41, 0xec, 0xd5, 0xcd, 0x63, 0xab][ir - 8]
    else [0xaa, 0x2a, 0xf2, 0xe8, 0x37, 0x3e, 0xb, 0x44][ir - 16]
  }

  function Step7(s: bv8): bv8 {
    LfsrStep(LfsrStep(LfsrStep(LfsrStep(LfsrStep(LfsrStep(LfsrStep(s)))))))
  }

  lemma RegisterStep(ir: nat)
    requires ir < 23
    ensures Step7(Register(ir)) == Register(ir + 1)
  {
    if ir == 0 {} else if ir == 1 {} else if ir == 2 {} else if ir == 3 {} else if ir == 4 {} else if ir == 5 {}
    else if ir == 6 {} else if ir == 7 {} else if ir == 8 {} else if ir == 9 {} else if ir == 10 {} else if ir == 11 {}
    else if ir == 12 {} else if ir == 13 {} else if ir == 14 {} else if ir == 15 {} else if ir == 16 {}
    else if ir == 17 {}
    else if ir == 18 {} else if ir == 19 {} else if ir == 20 {} else if ir == 21 {} else {}
  }

  lemma LfsrNext(t: nat)
    ensures Lfsr(t + 1) == LfsrStep(Lfsr(t))
  {
    hide LfsrStep;
  }

  lemma Lfsr7(t: nat)
    ensures Lfsr(t + 1) == LfsrStep(Lfsr(t)) && Lfsr(t + 2) == LfsrStep(Lfsr(t + 1))
        && Lfsr(t + 3) == LfsrStep(Lfsr(t + 2))
    ensures Lfsr(t + 4) == LfsrStep(Lfsr(t + 3)) && Lfsr(t + 5) == LfsrStep(Lfsr(t + 4))
        && Lfsr(t + 6) == LfsrStep(Lfsr(t + 5))
    ensures Lfsr(t + 7) == Step7(Lfsr(t))
  {
    hide Lfsr, LfsrStep;
    LfsrNext(t); LfsrNext(t + 1); LfsrNext(t + 2); LfsrNext(t + 3); LfsrNext(t + 4); LfsrNext(t + 5); LfsrNext(t + 6);
  }

  lemma {:induction false} RegisterIsLfsr(ir: nat)
    requires ir < 24
    ensures Lfsr(7 * ir) == Register(ir)
  {
    if ir > 0 {
      RegisterIsLfsr(ir - 1);
      hide *;
      Lfsr7(7 * (ir - 1));
      RegisterStep(ir - 1);
    }
  }

  /** The bit that step t of the register contributes. */
  function Output(s: bv8): nat {
    if s & 1 != 0 then 1 else 0
  }

  /** The seven bits that make round constant ir, from register state s. */
  predicate RowFits(ir: nat, s: bv8)
    requires ir < 24
  {
    var s1 := LfsrStep(s);
    var s2 := LfsrStep(s1);
    var s3 := LfsrStep(s2);
    var s4 := LfsrStep(s3);
    var s5 := LfsrStep(s4);
    var s6 := LfsrStep(s5);
    && RoundConstant(2 * ir) == Output(s)
    && RoundConstant(2 * ir + 1)
       == Output(s1) + 2 * Output(s2) + 8 * Output(s3) + 128 * Output(s4) + 0x8000 * Output(s5)
           + 0x8000_0000 * Output(s6)
  }

  lemma RowsFit0(ir: nat)
    requires 0 <= ir < 6
    ensures RowFits(ir, Register(ir))
  {
    if ir == 0 {} else if ir == 1 {} else if ir == 2 {} else if ir == 3 {} else if ir == 4 {} else {}
  }

  lemma RowsFit6(ir: nat)
    requires 6 <= ir < 12
    ensures RowFits(ir, Register(ir))
  {
    if ir == 6 {} else if ir == 7 {} else if ir == 8 {} else if ir == 9 {} else if ir == 10 {} else {}
  }

  lemma RowsFit12(ir: nat)
    requires 12 <= ir < 18
    ensures RowFits(ir, Register(ir))
  {
    if ir == 12 {} else if ir == 13 {} else if ir == 14 {} else if ir == 15 {} else if ir == 16 {} else {}
  }

  lemma RowsFit18(ir: nat)
    requires 18 <= ir < 24
    ensures RowFits(ir, Register(ir))
  {
    if ir == 18 {} else if ir == 19 {} else if ir == 20 {} else if ir == 21 {} else if ir == 22 {} else {}
  }

  // ----- the bits of the table entries

  lemma ValueOne(b: nat)
    ensures Value([b], 2) == b && Value([], 2) == 0
  {
  }

  lemma ValueZeros(n: nat)
    ensures Value(seq(n, _ => 0), 2) == 0
  {
    if n > 0 {
      var s := seq(n, _ => 0);
      assert s[1..] == seq(n - 1, _ => 0);
      ValueZeros(n - 1);
    }
  }

  /** The number with bits t from position n on. */
  lemma ValueShifted(n: nat, t: seq<nat>)
    ensures Value(seq(n, _ => 0) + t, 2) == Power(2, n) * Value(t, 2)
  {
    hide Value, Power;
    ValueAppend(seq(n, _ => 0), t, 2);
    ValueZeros(n);
  }

  /** Six bits at positions 0, 1, 3, 7, 15 and 31. */
  function Spaced(b1: nat, b2: nat, b3: nat, b4: nat, b5: nat, b6: nat): (s: seq<nat>)
    ensures |s| == 32
  {
    [b1, b2, 0, b3, 0, 0, 0, b4] + seq(7, _ => 0) + [b5] + seq(15, _ => 0) + [b6]
  }

  lemma SpacedValue(b1: nat, b2: nat, b3: nat, b4: nat, b5: nat, b6: nat)
    ensures Value(Spaced(b1, b2, b3, b4, b5, b6), 2) == b1 + 2 * b2 + 8 * b3 + 128 * b4 + 0x8000 * b5 + 0x8000_0000 * b6
  {
    var a, b, c := [b1, b2, 0, b3, 0, 0, 0, b4], seq(7, _ => 0) + [b5], seq(15, _ => 0) + [b6];
    assert Spaced(b1, b2, b3, b4, b5, b6) == a + (b + c);
    Powers();
    hide Power, Spaced;
    ValueAppend(a, b + c, 2);
    ValueAppend(b, c, 2);
    ValueShifted(7, [b5]);
    ValueShifted(15, [b6]);
    ValueOne(b5);
    ValueOne(b6);
    EightBits(b1, b2, b3, b4);
  }

  lemma Powers()
    ensures Power(2, 7) == 128 && Power(2, 8) == 256 && Power(2, 15) == 0x8000
  {
  }

  lemma EightBits(b1: nat, b2: nat, b3: nat, b4: nat)
    ensures Value([b1, b2, 0, b3, 0, 0, 0, b4], 2) == b1 + 2 * b2 + 8 * b3 + 128 * b4
  {
    var s := [b1, b2, 0, b3, 0, 0, 0, b4];
    assert s == [b1, b2, 0, b3] + [0, 0, 0, b4];
    Value4([b1, b2, 0, b3], 2);
    Value4([0, 0, 0, b4], 2);
    assert Power(2, 4) == 16;
    hide Power, Value;
    ValueAppend([b1, b2, 0, b3], [0, 0, 0, b4], 2);
  }

  /** The entry at an odd index has its bits where Algorithm 6 wants them. */
  lemma SpacedBelow(b1: nat, b2: nat, b3: nat, b4: nat, b5: nat, b6: nat)
    requires b1 < 2 && b2 < 2 && b3 < 2 && b4 < 2 && b5 < 2 && b6 < 2
    ensures Below(Spaced(b1, b2, b3, b4, b5, b6), 2)
  {
  }

  lemma OddWord(n: nat, b1: nat, b2: nat, b3: nat, b4: nat, b5: nat, b6: nat)
    requires b1 < 2 && b2 < 2 && b3 < 2 && b4 < 2 && b5 < 2 && b6 < 2
    requires n == b1 + 2 * b2 + 8 * b3 + 128 * b4 + 0x8000 * b5 + 0x8000_0000 * b6
    ensures forall i :: 0 <= i < 32 ==> WordOf(n)[i] == (Spaced(b1, b2, b3, b4, b5, b6)[i] == 1)
  {
    var s := Spaced(b1, b2, b3, b4, b5, b6);
    SpacedBelow(b1, b2, b3, b4, b5, b6);
    hide Spaced, Digits, Value, Below;
    SpacedValue(b1, b2, b3, b4, b5, b6);
    DigitsOfValue(s, 2);
  }

  lemma EvenWord(b: nat)
    requires b < 2
    ensures forall i :: 0 <= i < 32 ==> WordOf(b)[i] == (i == 0 && b == 1)
  {
    var s := [b] + seq(31, _ => 0);
    assert Below(s, 2);
    ValueOne(b);
    assert Power(2, 1) == 2;
    hide Value, Digits, Power;
    ValueAppend([b], seq(31, _ => 0), 2);
    ValueZeros(31);
    DigitsOfValue(s, 2);
  }

  /** The table holds the round constants, bit by bit. */
  lemma ConstantsFit(ir: nat)
    requires ir < 24
    ensures IsConstant(ConstantWords(ir), ir)
  {
    hide WordOf, RoundConstant, Lfsr, LfsrStep, Register, Step7, RoundBit;
    var t, s := 7 * ir, Register(ir);
    RegisterIsLfsr(ir);
    Lfsr7(t);
    if ir < 6 { RowsFit0(ir); } else if ir < 12 { RowsFit6(ir); } else if ir < 18 { RowsFit12(ir); }
    else { RowsFit18(ir); }
    var b0, b1, b2, b3, b4, b5, b6 := Output(Lfsr(t)), Output(Lfsr(t + 1)), Output(Lfsr(t + 2)), Output(Lfsr(t + 3)),
      Output(Lfsr(t + 4)), Output(Lfsr(t + 5)), Output(Lfsr(t + 6));
    EvenWord(b0);
    OddWord(RoundConstant(2 * ir + 1), b1, b2, b3, b4, b5, b6);
    hide Spaced, Output;
    forall z | 0 <= z < 64 ensures ConstantWords(ir)[z % 2][z / 2] == RoundBit(ir, z) {
      RoundBitIs(ir, z, b0, b1, b2, b3, b4, b5, b6);
    }
  }

  lemma RoundBitIs(ir: nat, z: nat, b0: nat, b1: nat, b2: nat, b3: nat, b4: nat, b5: nat, b6: nat)
    requires z < 64 && b0 == Output(Lfsr(7 * ir)) && b1 == Output(Lfsr(7 * ir + 1)) && b2 == Output(Lfsr(7 * ir + 2))
        && b3 == Output(Lfsr(7 * ir + 3))
    requires b4 == Output(Lfsr(7 * ir + 4)) && b5 == Output(Lfsr(7 * ir + 5)) && b6 == Output(Lfsr(7 * ir + 6))
    ensures RoundBit(ir, z) == if z % 2 == 0 then z / 2 == 0 && b0 == 1 else Spaced(b1, b2, b3, b4, b5, b6)[z / 2] == 1
  {
    hide Lfsr;
  }
}
