/** What the S-box circuit of test/common/aes.c computes: section 5.1.1 of FIPS 197. */
module AesSbox {
  import opened KeccakSpec  // Bits
  import opened AesSpec

  const NOUGHT: Bits := [false, false, false, false, false, false, false, false]
  const ONE: Bits := [true, false, false, false, false, false, false, false]

  // ----- GF(2^8) modulo x^8 + x^4 + x^3 + x + 1

  /** x t, plus a if the next coefficient is set. */
  function HornerStep(t: Bits, a: Bits, bit: bool): (r: Bits)
    requires |t| == |a| == 8
    ensures |r| == 8
  {
    var c := t[7];
    [c != (bit && a[0]), (t[0] != c) != (bit && a[1]), t[1] != (bit && a[2]), (t[2] != c) != (bit && a[3]),
     (t[3] != c) != (bit && a[4]), t[4] != (bit && a[5]), t[5] != (bit && a[6]), t[6] != (bit && a[7])]
  }

  lemma HornerIs(t: Bits, a: Bits, bit: bool)
    requires |t| == |a| == 8
    ensures var u, x := Times2(t), HornerStep(t, a, bit);
            && x[0] == (u[0] != (bit && a[0])) && x[1] == (u[1] != (bit && a[1]))
            && x[2] == (u[2] != (bit && a[2])) && x[3] == (u[3] != (bit && a[3]))
            && x[4] == (u[4] != (bit && a[4])) && x[5] == (u[5] != (bit && a[5]))
            && x[6] == (u[6] != (bit && a[6])) && x[7] == (u[7] != (bit && a[7]))
  {
  }

  /** The product: the coefficients of b from the highest down. */
  function Product(a: Bits, b: Bits): (r: Bits)
    requires |a| == |b| == 8
    ensures |r| == 8
  {
    var t7 := HornerStep(NOUGHT, a, b[7]);
    var t6 := HornerStep(t7, a, b[6]);
    var t5 := HornerStep(t6, a, b[5]);
    var t4 := HornerStep(t5, a, b[4]);
    var t3 := HornerStep(t4, a, b[3]);
    var t2 := HornerStep(t3, a, b[2]);
    var t1 := HornerStep(t2, a, b[1]);
    HornerStep(t1, a, b[0])
  }

  /** The inverse, with zero as its own. */
  predicate IsInverse(x: Bits, y: Bits) {
    |x| == |y| == 8 && if x == NOUGHT then y == NOUGHT else Product(x, y) == ONE
  }

  /** Bit i is b[i] + b[i + 4] + b[i + 5] + b[i + 6] + b[i + 7] + c[i], where c is 0x63. */
  function Affine(b: Bits): (s: Bits)
    requires |b| == 8
    ensures |s| == 8
  {
    [Odd5(b[0], b[4], b[5], b[6], b[7]) != true, Odd5(b[1], b[5], b[6], b[7], b[0]) != true,
        Odd5(b[2], b[6], b[7], b[0], b[1]),
     Odd5(b[3], b[7], b[0], b[1], b[2]), Odd5(b[4], b[0], b[1], b[2], b[3]), Odd5(b[5], b[1], b[2], b[3], b[4]) != true,
     Odd5(b[6], b[2], b[3], b[4], b[5]) != true, Odd5(b[7], b[3], b[4], b[5], b[6])]
  }

  /** The affine map backwards. */
  function Unaffine(s: Bits): (y: Bits)
    requires |s| == 8
    ensures |y| == 8
  {
    [((s[2] != s[5]) != s[7]) != true, (s[3] != s[6]) != s[0], ((s[4] != s[7]) != s[1]) != true, (s[5] != s[0]) != s[2],
     (s[6] != s[1]) != s[3], (s[7] != s[2]) != s[4], (s[0] != s[3]) != s[5], (s[1] != s[4]) != s[6]]
  }

  lemma AffineUnaffine(s: Bits)
    requires |s| == 8
    ensures Affine(Unaffine(s)) == s
  {
  }

  // ----- the wires of the circuit

  /** A gate only reads earlier wires, and later gates do not change it. */
  lemma {:induction false} WireIs(p: seq<Gate>, n: nat, x: Bits, k: nat)
    requires k < n <= |p| && p[k].a < |x| + k && p[k].b < |x| + k
    ensures Wires(p, n, x)[|x| + k] == GateValue(p[k], Wires(p, n, x))
    decreases n
  {
    if k < n - 1 {
      WireIs(p, n - 1, x, k);
    }
  }

  lemma {:induction false} InputWire(p: seq<Gate>, n: nat, x: Bits, k: nat)
    requires n <= |p| && k < |x|
    ensures Wires(p, n, x)[k] == x[k]
  {
    if n > 0 {
      InputWire(p, n - 1, x, k);
    }
  }

  /** Every wire is what its gate makes of two others. */
  ghost predicate IsRun(w: Bits) {
    |w| == 123 && forall k {:trigger SboxGate(k)} :: 0 <= k < 115 ==> w[8 + k] == GateValue(SboxGate(k), w)
  }

  predicate Follows0(w: Bits)
    requires |w| == 123
  {
    && w[8] == (w[3] != w[5]) && w[9] == (w[0] != w[6]) && w[10] == (w[0] != w[3]) && w[11] == (w[0] != w[5])
    && w[12] == (w[1] != w[2]) && w[13] == (w[12] != w[7]) && w[14] == (w[13] != w[3]) && w[15] == (w[9] != w[8])
    && w[16] == (w[13] != w[0]) && w[17] == (w[13] != w[6]) && w[18] == (w[17] != w[11]) && w[19] == (w[4] != w[15])
    && w[20] == (w[19] != w[5]) && w[21] == (w[19] != w[1]) && w[22] == (w[20] != w[7]) && w[23] == (w[20] != w[12])
    && w[24] == (w[21] != w[10]) && w[25] == (w[7] != w[24]) && w[26] == (w[23] != w[24]) && w[27] == (w[23] != w[11])
    && w[28] == (w[12] != w[24]) && w[29] == (w[9] != w[28]) && w[30] == (w[0] != w[28])
  }

  lemma Program0()
    ensures SboxGate(0) == Xor(3, 5) && SboxGate(1) == Xor(0, 6) && SboxGate(2) == Xor(0, 3)
         && SboxGate(3) == Xor(0, 5) && SboxGate(4) == Xor(1, 2) && SboxGate(5) == Xor(12, 7)
         && SboxGate(6) == Xor(13, 3) && SboxGate(7) == Xor(9, 8) && SboxGate(8) == Xor(13, 0)
         && SboxGate(9) == Xor(13, 6) && SboxGate(10) == Xor(17, 11) && SboxGate(11) == Xor(4, 15)
         && SboxGate(12) == Xor(19, 5) && SboxGate(13) == Xor(19, 1) && SboxGate(14) == Xor(20, 7)
         && SboxGate(15) == Xor(20, 12) && SboxGate(16) == Xor(21, 10) && SboxGate(17) == Xor(7, 24)
         && SboxGate(18) == Xor(23, 24) && SboxGate(19) == Xor(23, 11) && SboxGate(20) == Xor(12, 24)
         && SboxGate(21) == Xor(9, 28) && SboxGate(22) == Xor(0, 28)
  {
  }

  lemma Run0(w: Bits)
    requires |w| == 123 && IsRun(w)
    ensures Follows0(w)
  {
    Program0();
    hide SboxGate;
  }

  predicate Follows1(w: Bits)
    requires |w| == 123
  {
    && w[31] == (w[15] && w[20]) && w[32] == (w[18] && w[22]) && w[33] == (w[32] != w[31]) && w[34] == (w[14] && w[7])
    && w[35] == (w[34] != w[31]) && w[36] == (w[9] && w[28]) && w[37] == (w[17] && w[13]) && w[38] == (w[37] != w[36])
    && w[39] == (w[16] && w[25]) && w[40] == (w[39] != w[36]) && w[41] == (w[10] && w[24]) && w[42] == (w[8] && w[26])
    && w[43] == (w[42] != w[41]) && w[44] == (w[11] && w[23]) && w[45] == (w[44] != w[41]) && w[46] == (w[33] != w[43])
    && w[47] == (w[35] != w[45]) && w[48] == (w[38] != w[43]) && w[49] == (w[40] != w[45]) && w[50] == (w[46] != w[21])
    && w[51] == (w[47] != w[27]) && w[52] == (w[48] != w[29]) && w[53] == (w[49] != w[30])
  }

  lemma Program1()
    ensures SboxGate(23) == And(15, 20) && SboxGate(24) == And(18, 22) && SboxGate(25) == Xor(32, 31)
         && SboxGate(26) == And(14, 7) && SboxGate(27) == Xor(34, 31) && SboxGate(28) == And(9, 28)
         && SboxGate(29) == And(17, 13) && SboxGate(30) == Xor(37, 36) && SboxGate(31) == And(16, 25)
         && SboxGate(32) == Xor(39, 36) && SboxGate(33) == And(10, 24) && SboxGate(34) == And(8, 26)
         && SboxGate(35) == Xor(42, 41) && SboxGate(36) == And(11, 23) && SboxGate(37) == Xor(44, 41)
         && SboxGate(38) == Xor(33, 43) && SboxGate(39) == Xor(35, 45) && SboxGate(40) == Xor(38, 43)
         && SboxGate(41) == Xor(40, 45) && SboxGate(42) == Xor(46, 21) && SboxGate(43) == Xor(47, 27)
         && SboxGate(44) == Xor(48, 29) && SboxGate(45) == Xor(49, 30)
  {
  }

  lemma Run1(w: Bits)
    requires |w| == 123 && IsRun(w)
    ensures Follows1(w)
  {
    Program1();
    hide SboxGate;
  }

  predicate Follows2(w: Bits)
    requires |w| == 123
  {
    && w[54] == (w[50] != w[51]) && w[55] == (w[50] && w[52]) && w[56] == (w[53] != w[55]) && w[57] == (w[54] && w[56])
    && w[58] == (w[57] != w[51]) && w[59] == (w[52] != w[53]) && w[60] == (w[51] != w[55]) && w[61] == (w[60] && w[59])
    && w[62] == (w[61] != w[53]) && w[63] == (w[52] != w[62]) && w[64] == (w[56] != w[62]) && w[65] == (w[53] && w[64])
    && w[66] == (w[65] != w[63]) && w[67] == (w[56] != w[65]) && w[68] == (w[58] && w[67]) && w[69] == (w[54] != w[68])
    && w[70] == (w[69] != w[66]) && w[71] == (w[58] != w[62]) && w[72] == (w[58] != w[69]) && w[73] == (w[62] != w[66])
    && w[74] == (w[71] != w[70]) && w[75] == (w[73] && w[20]) && w[76] == (w[66] && w[22])
  }

  lemma Program2()
    ensures SboxGate(46) == Xor(50, 51) && SboxGate(47) == And(50, 52) && SboxGate(48) == Xor(53, 55)
         && SboxGate(49) == And(54, 56) && SboxGate(50) == Xor(57, 51) && SboxGate(51) == Xor(52, 53)
         && SboxGate(52) == Xor(51, 55) && SboxGate(53) == And(60, 59) && SboxGate(54) == Xor(61, 53)
         && SboxGate(55) == Xor(52, 62) && SboxGate(56) == Xor(56, 62) && SboxGate(57) == And(53, 64)
         && SboxGate(58) == Xor(65, 63) && SboxGate(59) == Xor(56, 65) && SboxGate(60) == And(58, 67)
         && SboxGate(61) == Xor(54, 68) && SboxGate(62) == Xor(69, 66) && SboxGate(63) == Xor(58, 62)
         && SboxGate(64) == Xor(58, 69) && SboxGate(65) == Xor(62, 66) && SboxGate(66) == Xor(71, 70)
         && SboxGate(67) == And(73, 20) && SboxGate(68) == And(66, 22)
  {
  }

  lemma Run2(w: Bits)
    requires |w| == 123 && IsRun(w)
    ensures Follows2(w)
  {
    Program2();
    hide SboxGate;
  }

  predicate Follows3(w: Bits)
    requires |w| == 123
  {
    && w[77] == (w[62] && w[7]) && w[78] == (w[72] && w[28]) && w[79] == (w[69] && w[13]) && w[80] == (w[58] && w[25])
    && w[81] == (w[71] && w[24]) && w[82] == (w[74] && w[26]) && w[83] == (w[70] && w[23]) && w[84] == (w[73] && w[15])
    && w[85] == (w[66] && w[18]) && w[86] == (w[62] && w[14]) && w[87] == (w[72] && w[9]) && w[88] == (w[69] && w[17])
    && w[89] == (w[58] && w[16]) && w[90] == (w[71] && w[10]) && w[91] == (w[74] && w[8]) && w[92] == (w[70] && w[11])
    && w[93] == (w[90] != w[91]) && w[94] == (w[85] != w[86]) && w[95] == (w[80] != w[88]) && w[96] == (w[84] != w[85])
    && w[97] == (w[77] != w[87]) && w[98] == (w[77] != w[80]) && w[99] == (w[82] != w[83])
  }

  lemma Program3()
    ensures SboxGate(69) == And(62, 7) && SboxGate(70) == And(72, 28) && SboxGate(71) == And(69, 13)
         && SboxGate(72) == And(58, 25) && SboxGate(73) == And(71, 24) && SboxGate(74) == And(74, 26)
         && SboxGate(75) == And(70, 23) && SboxGate(76) == And(73, 15) && SboxGate(77) == And(66, 18)
         && SboxGate(78) == And(62, 14) && SboxGate(79) == And(72, 9) && SboxGate(80) == And(69, 17)
         && SboxGate(81) == And(58, 16) && SboxGate(82) == And(71, 10) && SboxGate(83) == And(74, 8)
         && SboxGate(84) == And(70, 11) && SboxGate(85) == Xor(90, 91) && SboxGate(86) == Xor(85, 86)
         && SboxGate(87) == Xor(80, 88) && SboxGate(88) == Xor(84, 85) && SboxGate(89) == Xor(77, 87)
         && SboxGate(90) == Xor(77, 80) && SboxGate(91) == Xor(82, 83)
  {
  }

  lemma Run3(w: Bits)
    requires |w| == 123 && IsRun(w)
    ensures Follows3(w)
  {
    Program3();
    hide SboxGate;
  }

  predicate Follows4(w: Bits)
    requires |w| == 123
  {
    && w[100] == (w[75] != w[78]) && w[101] == (w[81] != w[82]) && w[102] == (w[91] != w[92])
        && w[103] == (w[87] != w[95])
    && w[104] == (w[97] != w[100]) && w[105] == (w[79] != w[93]) && w[106] == (w[78] != w[101])
        && w[107] == (w[93] != w[104])
    && w[108] == (w[89] != w[104]) && w[109] == (w[99] != w[105]) && w[110] == (w[96] != w[105])
        && w[111] == (w[79] != w[106])
    && w[112] == (w[108] != w[109]) && w[113] == (w[76] != w[110]) && w[114] == (w[106] != w[110])
        && w[115] == (w[103] == w[109])
    && w[116] == (w[95] == w[107]) && w[117] == (w[111] != w[112]) && w[118] == (w[100] != w[113])
        && w[119] == (w[98] != w[113])
    && w[120] == (w[94] != w[112]) && w[121] == (w[111] == w[118]) && w[122] == (w[102] == w[117])
  }

  lemma Program4()
    ensures SboxGate(92) == Xor(75, 78) && SboxGate(93) == Xor(81, 82) && SboxGate(94) == Xor(91, 92)
         && SboxGate(95) == Xor(87, 95) && SboxGate(96) == Xor(97, 100) && SboxGate(97) == Xor(79, 93)
         && SboxGate(98) == Xor(78, 101) && SboxGate(99) == Xor(93, 104) && SboxGate(100) == Xor(89, 104)
         && SboxGate(101) == Xor(99, 105) && SboxGate(102) == Xor(96, 105) && SboxGate(103) == Xor(79, 106)
         && SboxGate(104) == Xor(108, 109) && SboxGate(105) == Xor(76, 110) && SboxGate(106) == Xor(106, 110)
         && SboxGate(107) == XorNot(103, 109) && SboxGate(108) == XorNot(95, 107) && SboxGate(109) == Xor(111, 112)
         && SboxGate(110) == Xor(100, 113) && SboxGate(111) == Xor(98, 113) && SboxGate(112) == Xor(94, 112)
         && SboxGate(113) == XorNot(111, 118) && SboxGate(114) == XorNot(102, 117)
  {
  }

  lemma Run4(w: Bits)
    requires |w| == 123 && IsRun(w)
    ensures Follows4(w)
  {
    Program4();
    hide SboxGate;
  }

  // ----- the S-box of FIPS 197

  lemma Backward(k: nat)
    requires k < 115
    ensures SboxGate(k).a < 8 + k && SboxGate(k).b < 8 + k
  {
    if k < 50 { FirstGates(k); } else if k < 80 { MiddleGates(k); } else { LastGates(k); }
    hide SboxGate;
  }

  lemma FirstGates(k: nat)
    requires k < 50
    ensures SboxGate(k).a < 8 + k && SboxGate(k).b < 8 + k
  {
  }

  lemma MiddleGates(k: nat)
    requires 50 <= k < 80
    ensures SboxGate(k).a < 8 + k && SboxGate(k).b < 8 + k
  {
  }

  lemma LastGates(k: nat)
    requires 80 <= k < 115
    ensures SboxGate(k).a < 8 + k && SboxGate(k).b < 8 + k
  {
  }

  lemma RunOf(x: Bits)
    requires |x| == 8
    ensures IsRun(Wires(SBOX_GATES, 115, x)) && forall k :: 0 <= k < 8 ==> Wires(SBOX_GATES, 115, x)[k] == x[k]
  {
    var w := Wires(SBOX_GATES, 115, x);
    forall k {:trigger SboxGate(k)} | 0 <= k < 115 ensures w[8 + k] == GateValue(SboxGate(k), w) {
      Backward(k);
      assert SBOX_GATES[k] == SboxGate(k);
      hide SboxGate;
      WireIs(SBOX_GATES, 115, x, k);
    }
    forall k | 0 <= k < 8 ensures w[k] == x[k] {
      InputWire(SBOX_GATES, 115, x, k);
    }
  }

  /** The circuit as equations between its wires. */
  predicate IsCircuit(w: Bits) {
    |w| == 123 && Follows0(w) && Follows1(w) && Follows2(w) && Follows3(w) && Follows4(w)
  }

  function Input(w: Bits): (x: Bits)
    requires |w| == 123
    ensures |x| == 8
  {
    [w[7], w[6], w[5], w[4], w[3], w[2], w[1], w[0]]
  }

  function Output(w: Bits): (s: Bits)
    requires |w| == 123
    ensures |s| == 8
  {
    [w[116], w[115], w[120], w[119], w[118], w[122], w[121], w[114]]
  }

  lemma Inverts0000(w: Bits)
    requires IsCircuit(w) && !w[0] && !w[1] && !w[2] && !w[3]
    ensures IsInverse(Input(w), Unaffine(Output(w)))
  {
  }

  lemma Inverts0001(w: Bits)
    requires IsCircuit(w) && !w[0] && !w[1] && !w[2] && w[3]
    ensures IsInverse(Input(w), Unaffine(Output(w)))
  {
  }

  lemma Inverts0010(w: Bits)
    requires IsCircuit(w) && !w[0] && !w[1] && w[2] && !w[3]
    ensures IsInverse(Input(w), Unaffine(Output(w)))
  {
  }

  lemma Inverts0011(w: Bits)
    requires IsCircuit(w) && !w[0] && !w[1] && w[2] && w[3]
    ensures IsInverse(Input(w), Unaffine(Output(w)))
  {
  }

  lemma Inverts0100(w: Bits)
    requires IsCircuit(w) && !w[0] && w[1] && !w[2] && !w[3]
    ensures IsInverse(Input(w), Unaffine(Output(w)))
  {
  }

  lemma Inverts0101(w: Bits)
    requires IsCircuit(w) && !w[0] && w[1] && !w[2] && w[3]
    ensures IsInverse(Input(w), Unaffine(Output(w)))
  {
  }

  lemma Inverts0110(w: Bits)
    requires IsCircuit(w) && !w[0] && w[1] && w[2] && !w[3]
    ensures IsInverse(Input(w), Unaffine(Output(w)))
  {
  }

  lemma Inverts0111(w: Bits)
    requires IsCircuit(w) && !w[0] && w[1] && w[2] && w[3]
    ensures IsInverse(Input(w), Unaffine(Output(w)))
  {
  }

  lemma Inverts1000(w: Bits)
    requires IsCircuit(w) && w[0] && !w[1] && !w[2] && !w[3]
    ensures IsInverse(Input(w), Unaffine(Output(w)))
  {
  }

  lemma Inverts1001(w: Bits)
    requires IsCircuit(w) && w[0] && !w[1] && !w[2] && w[3]
    ensures IsInverse(Input(w), Unaffine(Output(w)))
  {
  }

  lemma Inverts1010(w: Bits)
    requires IsCircuit(w) && w[0] && !w[1] && w[2] && !w[3]
    ensures IsInverse(Input(w), Unaffine(Output(w)))
  {
  }

  lemma Inverts1011(w: Bits)
    requires IsCircuit(w) && w[0] && !w[1] && w[2] && w[3]
    ensures IsInverse(Input(w), Unaffine(Output(w)))
  {
  }

  lemma Inverts1100(w: Bits)
    requires IsCircuit(w) && w[0] && w[1] && !w[2] && !w[3]
    ensures IsInverse(Input(w), Unaffine(Output(w)))
  {
  }

  lemma Inverts1101(w: Bits)
    requires IsCircuit(w) && w[0] && w[1] && !w[2] && w[3]
    ensures IsInverse(Input(w), Unaffine(Output(w)))
  {
  }

  lemma Inverts1110(w: Bits)
    requires IsCircuit(w) && w[0] && w[1] && w[2] && !w[3]
    ensures IsInverse(Input(w), Unaffine(Output(w)))
  {
  }

  lemma Inverts1111(w: Bits)
    requires IsCircuit(w) && w[0] && w[1] && w[2] && w[3]
    ensures IsInverse(Input(w), Unaffine(Output(w)))
  {
  }

  /** Half of the input bits at a time are decided, so that every case is small. */
  lemma CircuitInverts(w: Bits)
    requires IsCircuit(w)
    ensures IsInverse(Input(w), Unaffine(Output(w)))
  {
    assert |w| == 123;
    hide *;
    if w[0] {
      if w[1] {
        if w[2] {
          if w[3] { Inverts1111(w); } else { Inverts1110(w); }
        } else {
          if w[3] { Inverts1101(w); } else { Inverts1100(w); }
        }
      } else {
        if w[2] {
          if w[3] { Inverts1011(w); } else { Inverts1010(w); }
        } else {
          if w[3] { Inverts1001(w); } else { Inverts1000(w); }
        }
      }
    } else {
      if w[1] {
        if w[2] {
          if w[3] { Inverts0111(w); } else { Inverts0110(w); }
        } else {
          if w[3] { Inverts0101(w); } else { Inverts0100(w); }
        }
      } else {
        if w[2] {
          if w[3] { Inverts0011(w); } else { Inverts0010(w); }
        } else {
          if w[3] { Inverts0001(w); } else { Inverts0000(w); }
        }
      }
    }
  }

  lemma RunIsCircuit(w: Bits)
    requires |w| == 123 && IsRun(w)
    ensures IsCircuit(w)
  {
    hide IsRun, Follows0, Follows1, Follows2, Follows3, Follows4;
    Run0(w);
    Run1(w);
    Run2(w);
    Run3(w);
    Run4(w);
  }

  lemma SboxWires(x: Bits, v: Bits, w: Bits)
    requires |x| == |v| == 8 && v == seq(8, i requires 0 <= i < 8 => x[7 - i])
    requires w == Wires(SBOX_GATES, 115, v) && |w| == 123 && forall k :: 0 <= k < 8 ==> w[k] == v[k]
    ensures Input(w) == x && Output(w) == Sbox(x)
  {
    hide Wires, SBOX_GATES;
    InputIs(x, v, w);
    OutputIs(w, Sbox(x));
  }

  lemma InputIs(x: Bits, v: Bits, w: Bits)
    requires |x| == |v| == 8 && v == seq(8, i requires 0 <= i < 8 => x[7 - i])
    requires |w| == 123 && forall k :: 0 <= k < 8 ==> w[k] == v[k]
    ensures Input(w) == x
  {
    var a := Input(w);
    assert a[0] == w[7] && a[1] == w[6] && a[2] == w[5] && a[3] == w[4] && a[4] == w[3] && a[5] == w[2]
        && a[6] == w[1] && a[7] == w[0];
    forall i | 0 <= i < 8 ensures a[i] == x[i] {
      assert a[i] == w[7 - i];
    }
  }

  lemma OutputIs(w: Bits, s: Bits)
    requires |w| == 123 && |s| == 8 && |SBOX_OUTPUTS| == 8
    requires forall i :: 0 <= i < 8 ==> SBOX_OUTPUTS[7 - i] < 123 && s[i] == w[SBOX_OUTPUTS[7 - i]]
    ensures Output(w) == s
  {
    assert SBOX_OUTPUTS[7 - 0] == 116 && SBOX_OUTPUTS[7 - 1] == 115 && SBOX_OUTPUTS[7 - 2] == 120
        && SBOX_OUTPUTS[7 - 3] == 119;
    assert SBOX_OUTPUTS[7 - 4] == 118 && SBOX_OUTPUTS[7 - 5] == 122 && SBOX_OUTPUTS[7 - 6] == 121
        && SBOX_OUTPUTS[7 - 7] == 114;
    hide SBOX_OUTPUTS;
    assert Output(w) == [s[0], s[1], s[2], s[3], s[4], s[5], s[6], s[7]];
  }

  /** The affine map, after inversion in GF(2^8). */
  lemma SboxIsFips197(x: Bits) returns (y: Bits)
    requires |x| == 8
    ensures IsInverse(x, y) && Sbox(x) == Affine(y)
  {
    var v := seq(8, i requires 0 <= i < 8 => x[7 - i]);
    var w := Wires(SBOX_GATES, 115, v);
    RunOf(v);
    SboxWires(x, v, w);
    hide *;
    RunIsCircuit(w);
    CircuitInverts(w);
    y := Unaffine(Output(w));
    AffineUnaffine(Sbox(x));
  }
}
