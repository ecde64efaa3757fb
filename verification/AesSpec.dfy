/**
 AES as FIPS 197 describes it, on blocks of 128 bits; the S-box is the circuit of test/common/aes.c on one byte.
 Bit i of the byte in row r and column c is bit 32 * c + 8 * r + i.
 */
module AesSpec {
  import opened KeccakSpec  // Bits, Xor
  import opened Halves  // Word

  type Block = s: Bits | |s| == 128 witness seq(128, _ => false)

  // ----- the S-box: a straight-line program of gates

  /** A gate reads two earlier wires; wires 0 to 7 are the inputs x0 to x7. */
  datatype Gate = Xor(a: nat, b: nat) | XorNot(a: nat, b: nat) | And(a: nat, b: nat)

  function Wire(w: Bits, k: nat): bool {
    if k < |w| then w[k] else false
  }

  function GateValue(g: Gate, w: Bits): bool {
    match g
    case Xor(a, b) => Wire(w, a) != Wire(w, b)
    case XorNot(a, b) => Wire(w, a) == Wire(w, b)
    case And(a, b) => Wire(w, a) && Wire(w, b)
  }

  /** All wires after the first n gates. */
  function Wires(p: seq<Gate>, n: nat, x: Bits): (w: Bits)
    requires n <= |p|
    ensures |w| == |x| + n
  {
    if n == 0 then x else
      var w := Wires(p, n - 1, x);
      w + [GateValue(p[n - 1], w)]
  }

  /** Line k of `br_aes_ct64_bitslice_Sbox`; the comments name the variables that are set. */
  function SboxGate(k: nat): Gate
    requires k < 115
  {
    if k < 5 then [Xor(3, 5), Xor(0, 6), Xor(0, 3), Xor(0, 5), Xor(1, 2)][k]  // y14 y13 y9 y8 t0
    else if k < 10 then [Xor(12, 7), Xor(13, 3), Xor(9, 8), Xor(13, 0), Xor(13, 6)][k - 5]  // y1 y4 y12 y2 y5
    else if k < 15 then [Xor(17, 11), Xor(4, 15), Xor(19, 5), Xor(19, 1), Xor(20, 7)][k - 10]  // y3 t1 y15 y20 y6
    else if k < 20 then [Xor(20, 12), Xor(21, 10), Xor(7, 24), Xor(23, 24), Xor(23, 11)][k - 15]  // y10 y11 y7 y17 y19
    else if k < 25 then [Xor(12, 24), Xor(9, 28), Xor(0, 28), And(15, 20), And(18, 22)][k - 20]  // y16 y21 y18 t2 t3
    else if k < 30 then [Xor(32, 31), And(14, 7), Xor(34, 31), And(9, 28), And(17, 13)][k - 25]  // t4 t5 t6 t7 t8
    else if k < 35 then [Xor(37, 36), And(16, 25), Xor(39, 36), And(10, 24), And(8, 26)][k - 30]  // t9 t10 t11 t12 t13
    // t14 t15 t16 t17 t18
    else if k < 40 then [Xor(42, 41), And(11, 23), Xor(44, 41), Xor(33, 43), Xor(35, 45)][k - 35]
    // t19 t20 t21 t22 t23
    else if k < 45 then [Xor(38, 43), Xor(40, 45), Xor(46, 21), Xor(47, 27), Xor(48, 29)][k - 40]
    // t24 t25 t26 t27 t28
    else if k < 50 then [Xor(49, 30), Xor(50, 51), And(50, 52), Xor(53, 55), And(54, 56)][k - 45]
    // t29 t30 t31 t32 t33
    else if k < 55 then [Xor(57, 51), Xor(52, 53), Xor(51, 55), And(60, 59), Xor(61, 53)][k - 50]
    // t34 t35 t36 t37 t38
    else if k < 60 then [Xor(52, 62), Xor(56, 62), And(53, 64), Xor(65, 63), Xor(56, 65)][k - 55]
    // t39 t40 t41 t42 t43
    else if k < 65 then [And(58, 67), Xor(54, 68), Xor(69, 66), Xor(58, 62), Xor(58, 69)][k - 60]
    else if k < 70 then [Xor(62, 66), Xor(71, 70), And(73, 20), And(66, 22), And(62, 7)][k - 65]  // t44 t45 z0 z1 z2
    else if k < 75 then [And(72, 28), And(69, 13), And(58, 25), And(71, 24), And(74, 26)][k - 70]  // z3 z4 z5 z6 z7
    else if k < 80 then [And(70, 23), And(73, 15), And(66, 18), And(62, 14), And(72, 9)][k - 75]  // z8 z9 z10 z11 z12
    else if k < 85 then [And(69, 17), And(58, 16), And(71, 10), And(74, 8), And(70, 11)][k - 80]  // z13 z14 z15 z16 z17
    // t46 t47 t48 t49 t50
    else if k < 90 then [Xor(90, 91), Xor(85, 86), Xor(80, 88), Xor(84, 85), Xor(77, 87)][k - 85]
    // t51 t52 t53 t54 t55
    else if k < 95 then [Xor(77, 80), Xor(82, 83), Xor(75, 78), Xor(81, 82), Xor(91, 92)][k - 90]
    // t56 t57 t58 t59 t60
    else if k < 100 then [Xor(87, 95), Xor(97, 100), Xor(79, 93), Xor(78, 101), Xor(93, 104)][k - 95]
    // t61 t62 t63 t64 t65
    else if k < 105 then [Xor(89, 104), Xor(99, 105), Xor(96, 105), Xor(79, 106), Xor(108, 109)][k - 100]
    // t66 s0 s6 s7 t67
    else if k < 110 then [Xor(76, 110), Xor(106, 110), XorNot(103, 109), XorNot(95, 107), Xor(111, 112)][k - 105]
    else [Xor(100, 113), Xor(98, 113), Xor(94, 112), XorNot(111, 118), XorNot(102, 117)][k - 110]  // s3 s4 s5 s1 s2
  }

  const SBOX_GATES: seq<Gate> := seq(115, k requires 0 <= k < 115 => SboxGate(k))

  /** Where s0 to s7 are found. */
  const SBOX_OUTPUTS: seq<nat> := [114, 121, 122, 118, 119, 120, 115, 116]

  lemma OutputsExist()
    ensures |SBOX_GATES| == 115 && |SBOX_OUTPUTS| == 8 && forall i :: 0 <= i < 8 ==> SBOX_OUTPUTS[i] < 123
  {
  }

  /** x7 and s7 are the low bits. */
  function Sbox(x: Bits): (y: Bits)
    requires |x| == 8
    ensures |y| == 8
  {
    OutputsExist();
    var w := Wires(SBOX_GATES, 115, seq(8, i requires 0 <= i < 8 => x[7 - i]));
    seq(8, i requires 0 <= i < 8 => w[SBOX_OUTPUTS[7 - i]])
  }

  // ----- the cipher

  function ByteAt(s: Bits, k: nat): (b: Bits)
    requires 8 * k + 8 <= |s|
    ensures |b| == 8
  {
    s[8 * k..8 * k + 8]
  }

  function SubBytes(s: Block): Block {
    seq(128, k requires 0 <= k < 128 => Sbox(ByteAt(s, k / 8))[k % 8])
  }

  /** Row r moves left by r columns. */
  function ShiftRows(s: Block): Block {
    seq(128, k requires 0 <= k < 128 => s[(32 * (k / 32 + k / 8 % 4) + k % 32) % 128])
  }

  /** Multiplication by x modulo x^8 + x^4 + x^3 + x + 1. */
  function Times2(b: Bits): (y: Bits)
    requires |b| == 8
    ensures |y| == 8
  {
    [b[7], b[0] != b[7], b[1], b[2] != b[7], b[3] != b[7], b[4], b[5], b[6]]
  }

  /** The byte d rows below byte k of the same column. */
  function Below4(s: Block, k: nat, d: nat): (b: Bits)
    requires k < 16
    ensures |b| == 8
  {
    ByteAt(s, 4 * (k / 4) + (k + d) % 4)
  }

  /** 2 a[r] + 3 a[r + 1] + a[r + 2] + a[r + 3], where 3 a = 2 a + a. */
  function MixByte(s: Block, k: nat, i: nat): bool
    requires k < 16 && i < 8
  {
    var a, b, c, d := Below4(s, k, 0), Below4(s, k, 1), Below4(s, k, 2), Below4(s, k, 3);
    Odd5(Times2(a)[i], Times2(b)[i], b[i], c[i], d[i])
  }

  /** Exclusive or of five bits. */
  function Odd5(a: bool, b: bool, c: bool, d: bool, e: bool): bool {
    (((a != b) != c) != d) != e
  }

  function MixColumns(s: Block): Block {
    seq(128, k requires 0 <= k < 128 => MixByte(s, k / 8, k % 8))
  }

  function AddRoundKey(s: Block, k: Block): Block {
    seq(128, i requires 0 <= i < 128 => s[i] != k[i])
  }

  /** The state after n full rounds. */
  function FullRounds(s: Block, keys: nat -> Block, n: nat): Block {
    if n == 0 then AddRoundKey(s, keys(0))
    else AddRoundKey(MixColumns(ShiftRows(SubBytes(FullRounds(s, keys, n - 1)))), keys(n))
  }

  /** The cipher of section 5.1 of FIPS 197, with nr rounds. */
  function Cipher(s: Block, keys: nat -> Block, nr: nat): Block
    requires nr > 0
  {
    AddRoundKey(ShiftRows(SubBytes(FullRounds(s, keys, nr - 1))), keys(nr))
  }

  // ----- the key expansion of section 5.2 of FIPS 197

  /** The bytes move down by one, i.e. to less significant places. */
  function RotWord(w: Word): Word {
    w[8..] + w[..8]
  }

  function SubWord(w: Word): Word {
    seq(32, k requires 0 <= k < 32 => Sbox(ByteAt(w, k / 8))[k % 8])
  }

  /** x^k in the lowest byte. */
  function RconByte(k: nat): (b: Bits)
    ensures |b| == 8
  {
    if k == 0 then [true] + seq(7, _ => false) else Times2(RconByte(k - 1))
  }

  function RconWord(k: nat): Word {
    RconByte(k) + seq(24, _ => false)
  }

  /** Word i of the expansion of a key of nk words. */
  function KeyWord(key: Bits, nk: nat, i: nat): Word
    requires nk > 0 && |key| == 32 * nk
  {
    if i < nk then key[32 * i..32 * i + 32]
    else
      var t := KeyWord(key, nk, i - 1);
      WordXor(KeyWord(key, nk, i - nk),
              if i % nk == 0 then WordXor(SubWord(RotWord(t)), RconWord(i / nk - 1))
              else if nk > 6 && i % nk == 4 then SubWord(t)
              else t)
  }

  /** Round key n. */
  function RoundKey(key: Bits, nk: nat, n: nat): Block
    requires nk > 0 && |key| == 32 * nk
  {
    KeyWord(key, nk, 4 * n) + KeyWord(key, nk, 4 * n + 1) + KeyWord(key, nk, 4 * n + 2) + KeyWord(key, nk, 4 * n + 3)
  }
}
