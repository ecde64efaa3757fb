/** Compression and decompression of single coefficients (mlkem/poly.c; section 4.2.1 of FIPS 203). */
module Compress {
  import opened Modular

  /** The widths the parameter sets use: 1 for messages, 4 or 5 for v, 10 or 11 for u. */
  predicate IsWidth(d: nat) {
    d in {1, 4, 5, 10, 11}
  }

  /** 2^d. */
  function Levels(d: nat): (m: nat)
    requires IsWidth(d)
    ensures m > 0
  {
    if d == 1 then 2 else if d == 4 then 16 else if d == 5 then 32 else if d == 10 then 1024 else 2048
  }

  /** Compress_d: 2^d * u / Q rounded to the nearest integer, modulo 2^d. */
  function CompressTo(d: nat, u: int): (y: nat)
    requires IsWidth(d) && 0 <= u < Q
    ensures y < Levels(d)
  {
    (2 * Levels(d) * u + Q) / (2 * Q) % Levels(d)
  }

  /** Decompress_d: Q * y / 2^d rounded to the nearest integer. */
  function DecompressFrom(d: nat, y: nat): (u: int)
    requires IsWidth(d) && y < Levels(d)
    ensures 0 <= u < Q
  {
    (2 * Q * y + Levels(d)) / (2 * Levels(d))
  }

  // ----- the code

  /** `u += (u >> 15) & MLKEM_Q`: the arithmetic shift gives 0 or -1, and -1 keeps all of Q. */
  function ToPositive(u: int16): int {
    u + (if u / 0x8000 == -1 then Q else 0)
  }

  lemma ToPositiveIs(u: int16)
    requires -Q <= u < Q
    ensures 0 <= ToPositive(u) < Q && ToPositive(u) == u % Q
  {
  }

  /**
   The multiply-and-shift of `poly_compress` (d = 4, 5, on `uint32_t`) and `poly_packcompress` (d = 10, 11, on
   `uint64_t`).
   */
  function CompressCode(d: nat, u: int): nat
    requires d in {4, 5, 10, 11} && 0 <= u < Q
  {
    if d == 4 then U32((16 * u + 1665) * 80635) / 0x1000_0000 % 16
    else if d == 5 then U32((32 * u + 1664) * 40318) / 0x800_0000 % 32
    else if d == 10 then (1024 * u + 1665) * 1290167 / 0x1_0000_0000 % 1024
    else (2048 * u + 1664) * 645084 / 0x8000_0000 % 2048
  }

  /** The rounding quotient, bracketed without division. */
  lemma Quotient(d: nat, u: int) returns (y: int)
    requires IsWidth(d) && 0 <= u < Q
    ensures 2 * Q * y <= 2 * Levels(d) * u + Q < 2 * Q * (y + 1)
    ensures 0 <= y <= Levels(d) && CompressTo(d, u) == y % Levels(d)
  {
    y := (2 * Levels(d) * u + Q) / (2 * Q);
  }

  lemma ShiftIs(x: int, m: int, y: int, e: int)
    requires m > 0 && x == m * y + e && 0 <= e < m
    ensures x / m == y
  {
    var q := x / m;
    if q < y {
      MulLe(m, q + 1, y);
    } else if y < q {
      MulLe(m, y + 1, q);
    }
  }

  lemma MulLe(m: int, a: int, b: int)
    requires 0 <= m && a <= b
    ensures m * a <= m * b
  {
  }

  /** Dropping multiples of 2^32 before the shift only drops multiples of the level count. */
  lemma WrapBeforeShift(x: int)
    requires 0 <= x
    ensures U32(x) / 0x1000_0000 % 16 == x / 0x1000_0000 % 16
    ensures U32(x) / 0x800_0000 % 32 == x / 0x800_0000 % 32
  {
    var h, l := x / 0x1_0000_0000, U32(x);
    assert x == 0x1_0000_0000 * h + l;
    hide U32;
    ShiftIs(x, 0x1000_0000, 16 * h + l / 0x1000_0000, l % 0x1000_0000);
    ShiftIs(x, 0x800_0000, 32 * h + l / 0x800_0000, l % 0x800_0000);
  }

  lemma CompressCode4(u: int)
    requires 0 <= u < Q
    ensures CompressCode(4, u) == CompressTo(4, u)
  {
    var y := Quotient(4, u);
    hide CompressTo, Q;
    var x := 16 * u + 1665;
    var rho := x - 3329 * y;
    WrapBeforeShift(x * 80635);
    ShiftIs(x * 80635, 0x1000_0000, y, 80635 * rho - 1541 * y);
  }

  lemma CompressCode5(u: int)
    requires 0 <= u < Q
    ensures CompressCode(5, u) == CompressTo(5, u)
  {
    var y := Quotient(5, u);
    hide CompressTo, Q;
    var x := 32 * u + 1664;
    var rho := x - 3329 * y;
    WrapBeforeShift(x * 40318);
    ShiftIs(x * 40318, 0x800_0000, y, 40318 * rho + 894 * y);
  }

  /** The only coefficient whose scaled value leaves residue 1 is 2079, with quotient 640. */
  lemma Residue10(u: int, y: int)
    requires 0 <= y <= 1024 && 1024 * u + 1665 - 3329 * y == 1
    ensures y == 640
  {
    assert y - 640 == 1024 * (769 * (u - 2079) - 2500 * (y - 640));
  }

  /**
   The multiplier 1290167 is too small by 1353 / Q: only residue 1 could be rounded down, but its quotient is small.
   */
  lemma CompressCode10(u: int)
    requires 0 <= u < Q
    ensures CompressCode(10, u) == CompressTo(10, u)
  {
    var y := Quotient(10, u);
    hide CompressTo, Q;
    var x := 1024 * u + 1665;
    var rho := x - 3329 * y;
    if rho == 1 {
      Residue10(u, y);
    }
    ShiftIs(x * 1290167, 0x1_0000_0000, y, 1290167 * rho - 1353 * y);
  }

  /** The coefficients with the three largest residues are 625, 1875 and 3125. */
  lemma Residue11(u: int, y: int)
    requires 0 <= y <= 2048
    ensures 2048 * u + 1664 - 3329 * y == 3328 ==> y == 384
    ensures 2048 * u + 1664 - 3329 * y == 3327 ==> y == 1153
    ensures 2048 * u + 1664 - 3329 * y == 3326 ==> y == 1922
  {
    if 2048 * u + 1664 - 3329 * y == 3328 {
      assert y - 384 == 2048 * (769 * (u - 625) - 1250 * (y - 384));
    } else if 2048 * u + 1664 - 3329 * y == 3327 {
      assert y - 1153 == 2048 * (769 * (u - 1875) - 1250 * (y - 1153));
    } else if 2048 * u + 1664 - 3329 * y == 3326 {
      assert y - 1922 == 2048 * (769 * (u - 3125) - 1250 * (y - 1922));
    }
  }

  /** The multiplier 645084 is too big by 988 / Q: only the residues from 3326 on could be rounded up. */
  lemma CompressCode11(u: int)
    requires 0 <= u < Q
    ensures CompressCode(11, u) == CompressTo(11, u)
  {
    var y := Quotient(11, u);
    hide CompressTo, Q;
    var x := 2048 * u + 1664;
    var rho := x - 3329 * y;
    Residue11(u, y);
    Error11(rho, y);
    hide CompressCode;
    CompressCode11Is(u);
    ShiftIs(x * 645084, 0x8000_0000, y, 645084 * rho + 988 * y);
  }

  lemma CompressCode11Is(u: int)
    requires 0 <= u < 3329
    ensures CompressCode(11, u) == (2048 * u + 1664) * 645084 / 0x8000_0000 % 2048
  {
  }

  lemma Error11(rho: int, y: int)
    requires 0 <= y <= 2048 && 0 <= rho < 3329 && (rho >= 3326 ==> rho + y <= 5248)
    requires (rho == 3328 ==> y == 384) && (rho == 3327 ==> y == 1153)
    ensures 0 <= 645084 * rho + 988 * y < 0x8000_0000
  {
  }

  /** All four multiply-and-shift forms are exact. */
  lemma CompressCodeExact(d: nat, u: int)
    requires d in {4, 5, 10, 11} && 0 <= u < Q
    ensures CompressCode(d, u) == CompressTo(d, u)
  {
    hide CompressCode, CompressTo;
    if d == 4 { CompressCode4(u); } else if d == 5 { CompressCode5(u); }
    else if d == 10 { CompressCode10(u); } else { CompressCode11(u); }
  }

  // ----- decompression

  /** How far decompressing a compressed coefficient can be from it: round(Q / 2^(d + 1)). */
  function MaxError(d: nat): int
    requires IsWidth(d)
  {
    (Q + Levels(d)) / (2 * Levels(d))
  }

  lemma DecompressQuotient(d: nat, y: nat)
    requires IsWidth(d) && y < Levels(d)
    ensures var m, u := Levels(d), DecompressFrom(d, y); 2 * (m * u) <= 2 * Q * y + m < 2 * (m * u) + 2 * m
  {
    var m := Levels(d);
    var x := 2 * Q * y + m;
    assert x == 2 * m * (x / (2 * m)) + x % (2 * m);
  }

  /** Compression inverts decompression exactly. */
  lemma CompressDecompress(d: nat, y: nat)
    requires IsWidth(d) && y < Levels(d)
    ensures CompressTo(d, DecompressFrom(d, y)) == y
  {
    var u := DecompressFrom(d, y);
    DecompressQuotient(d, y);
    var z := Quotient(d, u);
    RoundBack(Levels(d), Levels(d) * u, y, z);
    SmallMod(y, Levels(d));
  }

  lemma RoundBack(m: int, p: int, y: int, z: int)
    requires 0 < m <= 2048 && 2 * p <= 2 * Q * y + m < 2 * p + 2 * m
    requires 2 * Q * z <= 2 * p + Q < 2 * Q * (z + 1)
    ensures z == y
  {
  }

  lemma SmallMod(y: nat, m: nat)
    requires y < m
    ensures y % m == y
  {
  }

  /** Decompression inverts compression up to the quantisation error, on the circle of residues modulo Q. */
  lemma DecompressCompress(d: nat, u: int)
    requires IsWidth(d) && 0 <= u < Q
    ensures -MaxError(d) <= Centred(DecompressFrom(d, CompressTo(d, u)) - u) <= MaxError(d)
  {
    var y := Quotient(d, u);
    var m := Levels(d);
    var v := DecompressFrom(d, CompressTo(d, u));
    var e := v - u;
    hide Levels;
    if y < m {
      SmallMod(y, m);
      DecompressQuotient(d, y);
      RoundingError(d, u, v, y);
      hide MaxError;
      CentredUnique(e, e);
    } else {
      assert y == m;
      WrapError(d, u);
      hide MaxError;
      CentredUnique(e + Q, e);
    }
  }

  lemma RoundingError(d: nat, u: int, v: int, y: int)
    requires IsWidth(d)
    requires var m := Levels(d);
             2 * (m * v) <= 2 * Q * y + m < 2 * (m * v) + 2 * m && 2 * Q * y <= 2 * m * u + Q < 2 * Q * (y + 1)
    ensures -MaxError(d) <= v - u <= MaxError(d) && -1664 <= v - u <= 1664
  {
  }

  /** Coefficients close to Q compress to level 0, i.e. to the other side of the circle. */
  lemma WrapError(d: nat, u: int)
    requires IsWidth(d) && 0 <= u < Q && 2 * Q * Levels(d) <= 2 * Levels(d) * u + Q
    ensures CompressTo(d, u) == 0 && DecompressFrom(d, 0) == 0
    ensures -MaxError(d) <= Q - u <= MaxError(d) && -1664 <= Q - u <= 1664
  {
  }
}
