/** The table of twiddle factors in mlkem/ntt.c: powers of 17 in bit-reversed order, times 2^16. */
module Zetas {
  import opened Modular

  /** `zetas`, one row of the C initialiser per branch. */
  function Zeta(k: nat): int
    requires k < 128
  {
    if k < 8 then [-1044, -758, -359, -1517, 1493, 1422, 287, 202][k]
    else if k < 16 then [-171, 622, 1577, 182, 962, -1202, -1474, 1468][k - 8]
    else if k < 24 then [573, -1325, 264, 383, -829, 1458, -1602, -130][k - 16]
    else if k < 32 then [-681, 1017, 732, 608, -1542, 411, -205, -1571][k - 24]
    else if k < 40 then [1223, 652, -552, 1015, -1293, 1491, -282, -1544][k - 32]
    else if k < 48 then [516, -8, -320, -666, -1618, -1162, 126, 1469][k - 40]
    else if k < 56 then [-853, -90, -271, 830, 107, -1421, -247, -951][k - 48]
    else if k < 64 then [-398, 961, -1508, -725, 448, -1065, 677, -1275][k - 56]
    else if k < 72 then [-1103, 430, 555, 843, -1251, 871, 1550, 105][k - 64]
    else if k < 80 then [422, 587, 177, -235, -291, -460, 1574, 1653][k - 72]
    else if k < 88 then [-246, 778, 1159, -147, -777, 1483, -602, 1119][k - 80]
    else if k < 96 then [-1590, 644, -872, 349, 418, 329, -156, -75][k - 88]
    else if k < 104 then [817, 1097, 603, 610, 1322, -1285, -1465, 384][k - 96]
    else if k < 112 then [-1215, -136, 1218, -1335, -874, 220, -1187, -1659][k - 104]
    else if k < 120 then [-1185, -1530, -1278, 794, -1510, -854, -870, 478][k - 112]
    else [-108, -308, 996, 991, 958, -1460, 1522, 1628][k - 120]
  }

  lemma ZetaRange(k: nat)
    requires k < 128
    ensures -1664 <= Zeta(k) <= 1664
  {
  }

  function Pow2(n: nat): (r: nat)
    ensures r > 0
  {
    if n == 0 then 1 else 2 * Pow2(n - 1)
  }

  lemma Pow2Values()
    ensures Pow2(0) == 1 && Pow2(1) == 2 && Pow2(2) == 4 && Pow2(3) == 8
    ensures Pow2(4) == 16 && Pow2(5) == 32 && Pow2(6) == 64 && Pow2(7) == 128
  {
  }

  /** Reversal of the low `bits` bits of k (section 4.3 of FIPS 203 uses seven). */
  function BitRev(k: nat, bits: nat): (r: nat)
    decreases bits
  {
    if bits == 0 then 0 else (if k % 2 == 1 then Pow2(bits - 1) else 0) + BitRev(k / 2, bits - 1)
  }

  /** 17^e; 17 is the primitive 256th root of unity of FIPS 203. */
  function Root(e: nat): int {
    if e == 0 then 1 else 17 * Root(e - 1)
  }

  /** The twiddle factor of FIPS 203, without the Montgomery factor of the table. */
  function Z(k: nat): int
    requires k < 128
  {
    Root(BitRev(k, 7))
  }

  // ----- checking the table entry by entry: each entry follows from an earlier one

  predicate Doubles(j: nat, n: nat, d: nat, g: int)
    requires n + d <= 128
    decreases n - j
  {
    j >= n || ((Zeta(j + d) - g * Zeta(j)) % 3329 == 0 && Doubles(j + 1, n, d, g))
  }

  lemma Rows0() ensures Doubles(0, 4, 4, 2642) {}
  lemma Rows1() ensures Zeta(0) == -1044 && Zeta(1) == -758 && Zeta(2) == -359 && Zeta(3) == -1517 {}
  lemma Rows2() ensures Doubles(0, 8, 8, 1062) {}
  lemma Rows3() ensures Doubles(0, 8, 16, 296) {}
  lemma Rows4() ensures Doubles(8, 16, 16, 296) {}
  lemma Rows5() ensures Doubles(0, 8, 32, 289) {}
  lemma Rows6() ensures Doubles(8, 16, 32, 289) {}
  lemma Rows7() ensures Doubles(16, 24, 32, 289) {}
  lemma Rows8() ensures Doubles(24, 32, 32, 289) {}
  lemma Rows9() ensures Doubles(0, 8, 64, 17) {}
  lemma Rows10() ensures Doubles(8, 16, 64, 17) {}
  lemma Rows11() ensures Doubles(16, 24, 64, 17) {}
  lemma Rows12() ensures Doubles(24, 32, 64, 17) {}
  lemma Rows13() ensures Doubles(32, 40, 64, 17) {}
  lemma Rows14() ensures Doubles(40, 48, 64, 17) {}
  lemma Rows15() ensures Doubles(48, 56, 64, 17) {}
  lemma Rows16() ensures Doubles(56, 64, 64, 17) {}

  lemma {:induction false} DoublesAt(j: nat, n: nat, d: nat, g: int, i: nat)
    requires n + d <= 128 && j <= i < n && Doubles(j, n, d, g)
    ensures Cong(Zeta(i + d), g * Zeta(i))
    decreases i - j
  {
    hide Zeta;
    if j < i {
      DoublesAt(j + 1, n, d, g, i);
    }
  }

  /** 17^(64 / d) modulo Q. */
  function Generator(d: nat): int {
    if d == 1 then 1729 else if d == 2 then 2580 else if d == 4 then 2642 else if d == 8 then 1062
    else if d == 16 then 296 else if d == 32 then 289 else 17
  }

  lemma EntryDoubles(j: nat, d: nat)
    requires d in {1, 2, 4, 8, 16, 32, 64} && j < d
    ensures Cong(Zeta(j + d), Generator(d) * Zeta(j))
  {
    hide Zeta, Doubles;
    if d <= 2 {
      Rows1();
    } else if d == 4 {
      Rows0(); DoublesAt(0, 4, 4, 2642, j);
    } else if d == 8 {
      Rows2(); DoublesAt(0, 8, 8, 1062, j);
    } else if d == 16 {
      EntryDoubles16(j);
    } else if d == 32 {
      EntryDoubles32(j);
    } else {
      EntryDoubles64(j);
    }
  }

  lemma EntryDoubles16(j: nat)
    requires j < 16
    ensures Cong(Zeta(j + 16), 296 * Zeta(j))
  {
    hide Zeta, Doubles;
    if j < 8 { Rows3(); DoublesAt(0, 8, 16, 296, j); }
    else { Rows4(); DoublesAt(8, 16, 16, 296, j); }
  }

  lemma EntryDoubles32(j: nat)
    requires j < 32
    ensures Cong(Zeta(j + 32), 289 * Zeta(j))
  {
    hide Zeta, Doubles;
    if j < 8 { Rows5(); DoublesAt(0, 8, 32, 289, j); }
    else if j < 16 { Rows6(); DoublesAt(8, 16, 32, 289, j); }
    else if j < 24 { Rows7(); DoublesAt(16, 24, 32, 289, j); }
    else { Rows8(); DoublesAt(24, 32, 32, 289, j); }
  }

  lemma EntryDoubles64(j: nat)
    requires j < 64
    ensures Cong(Zeta(j + 64), 17 * Zeta(j))
  {
    hide Zeta, Doubles;
    if j < 8 { Rows9(); DoublesAt(0, 8, 64, 17, j); }
    else if j < 16 { Rows10(); DoublesAt(8, 16, 64, 17, j); }
    else if j < 24 { Rows11(); DoublesAt(16, 24, 64, 17, j); }
    else if j < 32 { Rows12(); DoublesAt(24, 32, 64, 17, j); }
    else if j < 40 { Rows13(); DoublesAt(32, 40, 64, 17, j); }
    else if j < 48 { Rows14(); DoublesAt(40, 48, 64, 17, j); }
    else if j < 56 { Rows15(); DoublesAt(48, 56, 64, 17, j); }
    else { Rows16(); DoublesAt(56, 64, 64, 17, j); }
  }

  // ----- powers of 17

  lemma {:induction false} RootAdd(a: nat, b: nat)
    ensures Root(a + b) == Root(a) * Root(b)
  {
    if a > 0 {
      RootAdd(a - 1, b);
      assert 17 * (Root(a - 1) * Root(b)) == 17 * Root(a - 1) * Root(b);
    }
  }

  lemma RootZero()
    ensures Root(0) == 1
  {
  }

  lemma RootSquare(a: nat, r: int, s: int)
    requires Cong(Root(a), r) && Cong(r * r, s)
    ensures Cong(Root(2 * a), s)
  {
    hide Root, Cong;
    RootAdd(a, a);
    CongMul(Root(a), r, Root(a), r);
    CongTrans(Root(2 * a), r * r, s);
  }

  /** 17 has order 256: its 128th power is -1. */
  lemma RootPowers()
    ensures Cong(Root(1), 17) && Cong(Root(2), 289) && Cong(Root(4), 296) && Cong(Root(8), 1062)
    ensures Cong(Root(16), 2642) && Cong(Root(32), 2580) && Cong(Root(64), 1729) && Cong(Root(128), -1)
  {
    assert Root(1) == 17 * Root(0);
    hide Root;
    RootSquare(1, 17, 289);
    RootSquare(2, 289, 296);
    RootSquare(4, 296, 1062);
    RootSquare(8, 1062, 2642);
    RootSquare(16, 2642, 2580);
    RootSquare(32, 2580, 1729);
    RootSquare(64, 1729, -1);
  }

  // ----- bit reversal

  lemma {:induction false} BitRevAddBit(j: nat, i: nat, bits: nat)
    requires i < bits && j < Pow2(i)
    ensures BitRev(j + Pow2(i), bits) == BitRev(j, bits) + Pow2(bits - 1 - i)
    decreases i
  {
    if i > 0 {
      assert (j + Pow2(i)) % 2 == j % 2 && (j + Pow2(i)) / 2 == j / 2 + Pow2(i - 1);
      BitRevAddBit(j / 2, i - 1, bits - 1);
    } else {
      assert BitRev(1, bits) == Pow2(bits - 1) + BitRev(0, bits - 1);
    }
  }

  lemma {:induction false} BitRevShort(k: nat, bits: nat)
    requires k < Pow2(bits)
    ensures BitRev(k, bits + 1) == 2 * BitRev(k, bits)
    decreases bits
  {
    if bits > 0 {
      BitRevShort(k / 2, bits - 1);
    } else {
      assert BitRev(0, 1) == BitRev(0, 0);
    }
  }

  /** Inside layer l the mirrored index 3 * 2^l - 1 - k has the complementary bit reversal. */
  lemma {:induction false} BitRevMirror(k: nat, l: nat, bits: nat)
    requires l < bits && Pow2(l) <= k < 2 * Pow2(l)
    ensures BitRev(k, bits) + BitRev(3 * Pow2(l) - 1 - k, bits) == Pow2(bits)
    decreases l
  {
    var m := 3 * Pow2(l) - 1 - k;
    if l == 0 {
      assert BitRev(1, bits) == Pow2(bits - 1) + BitRev(0, bits - 1);
      BitRevZero(bits - 1);
    } else {
      var h := Pow2(l - 1);
      assert m / 2 == 3 * h - 1 - k / 2 && k % 2 + m % 2 == 1;
      BitRevMirror(k / 2, l - 1, bits - 1);
    }
  }

  lemma {:induction false} BitRevZero(bits: nat)
    ensures BitRev(0, bits) == 0
  {
    if bits > 0 {
      BitRevZero(bits - 1);
    }
  }

  // ----- the table facts

  /** Every entry of the C table is 2^16 * 17^BitRev7(k) modulo Q. */
  lemma {:induction false} ZetaIsRoot(k: nat)
    requires k < 128
    ensures Cong(Zeta(k), 0x1_0000 * Z(k))
  {
    hide Zeta, Root, BitRev;
    if k == 0 {
      Rows1();
      BitRevZero(7);
      RootZero();
    } else {
      var i := TopBit(k);
      var d, j := Pow2(i), k - Pow2(i);
      ZetaIsRoot(j);
      EntryDoubles(j, d);
      BitRevAddBit(j, i, 7);
      RootAdd(Pow2(6 - i), BitRev(j, 7));
      GeneratorIsRoot(i);
      hide Cong;
      CongMul(Generator(d), Root(Pow2(6 - i)), Zeta(j), 0x1_0000 * Z(j));
      CongTrans(Zeta(k), Generator(d) * Zeta(j), Root(Pow2(6 - i)) * (0x1_0000 * Z(j)));
      assert Root(Pow2(6 - i)) * (0x1_0000 * Z(j)) == 0x1_0000 * Z(k);
    }
  }

  function TopBit(k: nat): (i: nat)
    requires 0 < k < 128
    ensures i < 7 && Pow2(i) <= k < 2 * Pow2(i) && Pow2(i) in {1, 2, 4, 8, 16, 32, 64}
  {
    Pow2Values();
    if k < 2 then 0 else if k < 4 then 1 else if k < 8 then 2 else if k < 16 then 3
    else if k < 32 then 4 else if k < 64 then 5 else 6
  }

  lemma GeneratorIsRoot(i: nat)
    requires i < 7
    ensures Cong(Generator(Pow2(i)), Root(Pow2(6 - i)))
  {
    hide Root, Cong;
    Pow2Values();
    RootPowers();
    CongSym(Root(Pow2(6 - i)), Generator(Pow2(i)));
  }

  /** The modulus X^n - Factor(k) of node k of the transform tree; node 1 is X^256 + 1. */
  function Factor(k: nat): int
    requires 1 <= k < 256
  {
    if k == 1 then -1 else if k % 2 == 0 then Z(k / 2) else -Z(k / 2)
  }

  /** Z(1)^2 = -1, Z(2k)^2 = Z(k) and Z(2k+1)^2 = -Z(k): each modulus splits as (X^n - Z)(X^n + Z). */
  lemma ZSquare(k: nat)
    requires 1 <= k < 128
    ensures Cong(Z(k) * Z(k), Factor(k))
  {
    hide Root, BitRev, Cong;
    var e := BitRev(k, 7);
    RootPowers();
    RootAdd(e, e);
    BitRevDouble(k);
    if k > 1 {
      var f := BitRev(k / 2, 7);
      if k % 2 == 1 {
        RootAdd(128, f);
        CongMul(Root(128), -1, Root(f), Root(f));
      } else {
        CongBy(Root(f), Root(f), 0);
      }
    }
  }

  lemma BitRevDouble(k: nat)
    requires 1 <= k < 128
    ensures 2 * BitRev(k, 7) == if k == 1 then 128 else if k % 2 == 0 then BitRev(k / 2, 7) else 128 + BitRev(k / 2, 7)
  {
    Pow2Values();
    BitRevZero(6);
    if k > 1 {
      BitRevShort(k / 2, 6);
    }
  }

  /** The table read backwards inside a layer supplies -1/Z(k); `invntt` relies on this. */
  lemma ZMirror(k: nat, l: nat)
    requires l < 7 && Pow2(l) <= k < 2 * Pow2(l)
    ensures k < 128 && 0 <= 3 * Pow2(l) - 1 - k < 128
    ensures Cong(Z(k) * Z(3 * Pow2(l) - 1 - k), -1)
  {
    hide Root, BitRev;
    Pow2Values();
    var m := 3 * Pow2(l) - 1 - k;
    BitRevMirror(k, l, 7);
    RootPowers();
    RootAdd(BitRev(k, 7), BitRev(m, 7));
  }
}
