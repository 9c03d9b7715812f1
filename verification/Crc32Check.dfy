/** The check value of this checksum: 0xcbf43926 for the nine characters "123456789". */
module Crc32Check {
  import opened Crc32
  import opened Crc32Detection

  // ----- machine words as the code writes them -----

  function Mask(i: nat): bv32 { if i == 0 then 1 else Mask(i - 1) << 1 }

  /** The bits of a number, lowest first. */
  function Number(x: bv32): Word { seq(32, i requires 0 <= i < 32 => Has(x, Mask(i))) }

  predicate Has(x: bv32, m: bv32) { x & m != 0 }

  lemma {:induction false} MaskIsOneBit(i: nat)
    ensures Mask(i) & (Mask(i) - 1) == 0
  {
    if i > 0 {
      MaskIsOneBit(i - 1);
    }
  }

  lemma Masks()
    ensures Mask(0) == 0x1 && Mask(1) == 0x2 && Mask(2) == 0x4 && Mask(3) == 0x8
    ensures Mask(4) == 0x10 && Mask(5) == 0x20 && Mask(6) == 0x40 && Mask(7) == 0x80
    ensures Mask(8) == 0x100 && Mask(9) == 0x200 && Mask(10) == 0x400 && Mask(11) == 0x800
    ensures Mask(12) == 0x1000 && Mask(13) == 0x2000 && Mask(14) == 0x4000 && Mask(15) == 0x8000
    ensures Mask(16) == 0x10000 && Mask(17) == 0x20000 && Mask(18) == 0x40000 && Mask(19) == 0x80000
    ensures Mask(20) == 0x100000 && Mask(21) == 0x200000 && Mask(22) == 0x400000 && Mask(23) == 0x800000
    ensures Mask(24) == 0x1000000 && Mask(25) == 0x2000000 && Mask(26) == 0x4000000 && Mask(27) == 0x8000000
    ensures Mask(28) == 0x10000000 && Mask(29) == 0x20000000 && Mask(30) == 0x40000000 && Mask(31) == 0x80000000
  {
    assert Mask(0) == 0x1 && Mask(1) == 0x2 && Mask(2) == 0x4 && Mask(3) == 0x8;
    assert Mask(4) == 0x10 && Mask(5) == 0x20 && Mask(6) == 0x40 && Mask(7) == 0x80;
    assert Mask(8) == 0x100 && Mask(9) == 0x200 && Mask(10) == 0x400 && Mask(11) == 0x800;
    assert Mask(12) == 0x1000 && Mask(13) == 0x2000 && Mask(14) == 0x4000 && Mask(15) == 0x8000;
    assert Mask(16) == 0x10000 && Mask(17) == 0x20000 && Mask(18) == 0x40000 && Mask(19) == 0x80000;
    assert Mask(20) == 0x100000 && Mask(21) == 0x200000 && Mask(22) == 0x400000 && Mask(23) == 0x800000;
    assert Mask(24) == 0x1000000 && Mask(25) == 0x2000000 && Mask(26) == 0x4000000 && Mask(27) == 0x8000000;
    assert Mask(28) == 0x10000000 && Mask(29) == 0x20000000 && Mask(30) == 0x40000000 && Mask(31) == 0x80000000;
  }

  lemma XorMask(x: bv32, y: bv32, m: bv32)
    requires m & (m - 1) == 0
    ensures (x ^ y) & m != 0 <==> (x & m != 0) != (y & m != 0)
  {
  }

  lemma XorNumber(x: bv32, y: bv32)
    ensures Xor(Number(x), Number(y)) == Number(x ^ y)
  {
    forall i | 0 <= i < 32 ensures Xor(Number(x), Number(y))[i] == Number(x ^ y)[i] {
      MaskIsOneBit(i);
      XorMask(x, y, Mask(i));
    }
  }

  lemma ShiftMask(x: bv32, m: bv32)
    ensures Has(x >> 1, m) <==> Has(x, m << 1)
  {
  }

  lemma ShiftNumber(x: bv32)
    ensures Shr(Number(x), 1) == Number(x >> 1)
  {
    hide Mask, Has;
    var a, b := Shr(Number(x), 1), Number(x >> 1);
    forall i | 0 <= i < 31 ensures a[i] == b[i] {
      MaskNext(i);
      ShiftMask(x, Mask(i));
    }
    LastMask();
    TopBit(x, Mask(31));
    assert a[31] == b[31];
  }

  lemma LastMask()
    ensures Mask(31) == 0x8000_0000
  {
    Masks();
  }

  lemma MaskNext(i: nat)
    ensures Mask(i + 1) == Mask(i) << 1
  {
  }

  lemma TopBit(x: bv32, m: bv32)
    requires m == 0x8000_0000
    ensures !Has(x >> 1, m)
  {
  }

  lemma Constants()
    ensures Number(0xedb88320) == POLYNOMIAL && Number(0) == Zeros(32)
  {
    hide Mask;
    Masks();
    var a := Number(0xedb88320);
    forall i | 0 <= i < 32 ensures a[i] == POLYNOMIAL[i] {
      ConstantBit(i);
    }
  }

  lemma ConstantBit(i: nat)
    requires i < 32
    ensures 0xedb88320 & Mask(i) != 0 <==> POLYNOMIAL[i]
  {
    hide Mask;
    Masks();
    assert i in {0, 1, 2, 3, 4, 5, 6, 7, 8, 9, 10, 11, 12, 13, 14, 15,
                 16, 17, 18, 19, 20, 21, 22, 23, 24, 25, 26, 27, 28, 29, 30, 31};
  }

  function Next(x: bv32): bv32 { if x & 1 == 1 then 0xedb88320 ^ (x >> 1) else x >> 1 }

  lemma StepNumber(x: bv32)
    ensures Step(Number(x)) == Number(Next(x))
  {
    hide Xor, Number, Mask;
    ShiftNumber(x);
    Constants();
    XorNumber(0xedb88320, x >> 1);
    XorNumber(0, x >> 1);
    LowBit(x);
  }

  lemma LowBit(x: bv32)
    ensures Number(x)[0] <==> x & 1 == 1
    ensures 0 ^ (x >> 1) == x >> 1
  {
    OneBit(x);
  }

  lemma OneBit(x: bv32)
    ensures x & 1 == 0 || x & 1 == 1
  {
  }

  // ----- the check value -----

  function NextN(x: bv32, n: nat): bv32
    decreases n
  {
    if n == 0 then x else NextN(Next(x), n - 1)
  }

  lemma {:induction false} StepsNumber(x: bv32, n: nat)
    ensures Steps(Number(x), n) == Number(NextN(x, n))
    decreases n
  {
    hide Step, Number, Next;
    if n > 0 {
      StepNumber(x);
      StepsNumber(Next(x), n - 1);
    }
  }

  /** The eight bits of a character. */
  function Character(c: bv32): Byte { Number(c)[..8] }

  lemma EnterNumber(x: bv32, c: bv32)
    requires c & 0xffff_ff00 == 0
    ensures Enter(Number(x), Character(c)) == Number(NextN(x ^ c, 8))
  {
    hide Xor, Steps;
    WidenCharacter(c);
    XorNumber(x, c);
    StepsNumber(x ^ c, 8);
  }

  lemma WidenCharacter(c: bv32)
    requires c & 0xffff_ff00 == 0
    ensures Widen(Character(c)) == Number(c)
  {
    forall i | 8 <= i < 32 ensures !Number(c)[i] {
      HighMask(c, i);
    }
  }

  lemma HighMask(c: bv32, i: nat)
    requires c & 0xffff_ff00 == 0 && 8 <= i < 32
    ensures c & Mask(i) == 0
  {
    hide Mask;
    Masks();
  }

  // ----- "123456789" -----

  function Digits(from: bv32, n: nat): seq<Byte>
    decreases n
  {
    if n == 0 then [] else [Character(from)] + Digits(from + 1, n - 1)
  }

  /** The characters '1' to '9'. */
  function OneToNine(): seq<Byte> { Digits(0x31, 9) }

  lemma FoldDigit(x: bv32, c: bv32, next: bv32, n: nat)
    requires n > 0 && c & 0xffff_ff00 == 0 && next == NextN(x ^ c, 8)
    ensures Fold(Number(x), Digits(c, n)) == Fold(Number(next), Digits(c + 1, n - 1))
  {
    hide Enter, Number, Character, NextN;
    EnterNumber(x, c);
    assert Digits(c, n)[0] == Character(c) && Digits(c, n)[1..] == Digits(c + 1, n - 1);
  }

  lemma FirstRegisters()
    ensures NextN(0xffffffff ^ 0x31, 8) == 0x7c231048
    ensures NextN(0x7c231048 ^ 0x32, 8) == 0xb0acbb32
    ensures NextN(0xb0acbb32 ^ 0x33, 8) == 0x77b79c2d
  {
  }

  lemma MiddleRegisters()
    ensures NextN(0x77b79c2d ^ 0x34, 8) == 0x641c1f5c
    ensures NextN(0x641c1f5c ^ 0x35, 8) == 0x340ac5e3
    ensures NextN(0x340ac5e3 ^ 0x36, 8) == 0xf68d2c9e
  {
  }

  lemma LastRegisters()
    ensures NextN(0xf68d2c9e ^ 0x37, 8) == 0xaffc9660
    ensures NextN(0xaffc9660 ^ 0x38, 8) == 0x651f2550
    ensures NextN(0x651f2550 ^ 0x39, 8) == 0x340bc6d9
  {
  }

  lemma AllOnesNumber()
    ensures AllOnes() == Number(0xffff_ffff)
  {
    hide Mask;
    forall i | 0 <= i < 32 ensures Number(0xffff_ffff)[i] {
      AllMasks(i);
    }
  }

  lemma AllMasks(i: nat)
    requires i < 32
    ensures Has(0xffff_ffff, Mask(i))
  {
    hide Mask;
    Masks();
    assert i in {0, 1, 2, 3, 4, 5, 6, 7, 8, 9, 10, 11, 12, 13, 14, 15,
                 16, 17, 18, 19, 20, 21, 22, 23, 24, 25, 26, 27, 28, 29, 30, 31};
  }

  /** From the initial value to the final inversion. */
  lemma CheckValue()
    ensures Final(Fold(AllOnes(), OneToNine())) == Number(0xcbf4_3926)
  {
    hide Number, NextN, Fold, Digits, Xor, AllOnes;
    FirstRegisters();
    MiddleRegisters();
    LastRegisters();
    AllOnesNumber();
    FoldDigit(0xffffffff, 0x31, 0x7c231048, 9);
    FoldDigit(0x7c231048, 0x32, 0xb0acbb32, 8);
    FoldDigit(0xb0acbb32, 0x33, 0x77b79c2d, 7);
    FoldDigit(0x77b79c2d, 0x34, 0x641c1f5c, 6);
    FoldDigit(0x641c1f5c, 0x35, 0x340ac5e3, 5);
    FoldDigit(0x340ac5e3, 0x36, 0xf68d2c9e, 4);
    FoldDigit(0xf68d2c9e, 0x37, 0xaffc9660, 3);
    FoldDigit(0xaffc9660, 0x38, 0x651f2550, 2);
    FoldDigit(0x651f2550, 0x39, 0x340bc6d9, 1);
    NoDigits(Number(0x340bc6d9), 0x3a);
    XorNumber(0x340bc6d9, 0xffff_ffff);
  }

  lemma NoDigits(r: Word, c: bv32)
    ensures Fold(r, Digits(c, 0)) == r
  {
  }
}
