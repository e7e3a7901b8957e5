/** The published check value of the checksum, which also fixes its preset and its bit and byte order. */
module KnownAnswers {
  import opened Bytes
  import opened Gf2
  import opened Gf2Eval
  import opened Checksum

  /** n shift steps on a 16-bit word. */
  function Shifts(v: bv16, n: nat): bv16
    decreases n
  {
    if n == 0 then v else Shifts(Shift(v), n - 1)
  }

  lemma {:induction false} ShiftsAre(v: bv16, n: nat)
    ensures MulXn(Residue16(v), n) == Residue16(Shifts(v, n))
    decreases n
  {
    if n > 0 {
      ShiftOnce(v, n);
      ShiftsAre(Shift(v), n - 1);
    }
  }

  lemma {:induction false} ShiftOnce(v: bv16, n: nat)
    requires n > 0
    ensures MulXn(Residue16(v), n) == MulXn(Residue16(Shift(v)), n - 1)
  {
    Residue16Shift(v);
  }

  /** The byte b at the top of the word w. */
  predicate Tops(b: byte, w: bv16) { AtTop(b) == Residue16(w) }

  lemma {:induction false} AbsorbWord(v: bv16, b: byte, w: bv16)
    requires Tops(b, w)
    ensures Absorb(Residue16(v), b) == Residue16(Shifts(v ^ w, 8))
  {
    Residue16Add(v, true, w);
    assert Times(Residue16(w), true) == Residue16(w);
    ShiftsAre(v ^ w, 8);
  }

  lemma {:induction false} EightBits(b: byte)
    ensures ByteBits(b) == [b / 128 % 2 == 1, b / 64 % 2 == 1, b / 32 % 2 == 1, b / 16 % 2 == 1,
                            b / 8 % 2 == 1, b / 4 % 2 == 1, b / 2 % 2 == 1, b % 2 == 1]
  {
    assert Pow2(0) == 1 && Pow2(1) == 2 && Pow2(2) == 4 && Pow2(3) == 8 && Pow2(4) == 16 && Pow2(5) == 32;
    assert Pow2(6) == 64 && Pow2(7) == 128;
    forall i | 0 <= i < 8 ensures ByteBits(b)[i] == ((b / Pow2(7 - i)) % 2 == 1) { BitAt(b, 8, i); }
  }

  lemma {:induction false} DigitTops(d: byte, w: bv16)
    requires 1 <= d <= 9
    requires w == match d case 1 => 0x3100 case 2 => 0x3200 case 3 => 0x3300 case 4 => 0x3400 case 5 => 0x3500
                           case 6 => 0x3600 case 7 => 0x3700 case 8 => 0x3800 case _ => 0x3900
    ensures Tops(0x30 + d, w)
  {
    EightBits(0x30 + d);
    var t := AtTop(0x30 + d);
    forall i | 0 <= i < 16 ensures t[i] == At(w, i) {}
  }

  lemma {:induction false} BitAt(n: nat, k: nat, i: nat)
    requires i < k
    ensures BitsOf(n, k)[i] == ((n / Pow2(k - 1 - i)) % 2 == 1)
  {
    if i < k - 1 {
      BitAt(n / 2, k - 1, i);
      DivideTwice(n, 2, Pow2(k - 2 - i));
    }
  }

  lemma {:induction false} Digit1()
    ensures Absorb(Residue16(0xFFFF), 0x31) == Residue16(0xC782)
  {
    DigitTops(1, 0x3100);
    AbsorbWord(0xFFFF, 0x31, 0x3100);
    assert Shifts(0xCEFF, 8) == Shifts(0x2E7C, 4) == 0xC782;
  }

  lemma {:induction false} Digit2()
    ensures Absorb(Residue16(0xC782), 0x32) == Residue16(0x3DBA)
  {
    DigitTops(2, 0x3200);
    AbsorbWord(0xC782, 0x32, 0x3200);
    assert Shifts(0xF582, 8) == Shifts(0xA9CF, 4) == 0x3DBA;
  }

  lemma {:induction false} Digit3()
    ensures Absorb(Residue16(0x3DBA), 0x33) == Residue16(0x5BCE)
  {
    DigitTops(3, 0x3300);
    AbsorbWord(0x3DBA, 0x33, 0x3300);
    assert Shifts(0x0EBA, 8) == Shifts(0xEBA0, 4) == 0x5BCE;
  }

  lemma {:induction false} Digit4()
    ensures Absorb(Residue16(0x5BCE), 0x34) == Residue16(0x5349)
  {
    DigitTops(4, 0x3400);
    AbsorbWord(0x5BCE, 0x34, 0x3400);
    assert Shifts(0x6FCE, 8) == Shifts(0x9C26, 4) == 0x5349;
  }

  lemma {:induction false} Digit5()
    ensures Absorb(Residue16(0x5349), 0x35) == Residue16(0x4560)
  {
    DigitTops(5, 0x3500);
    AbsorbWord(0x5349, 0x35, 0x3500);
    assert Shifts(0x6649, 8) == Shifts(0x0456, 4) == 0x4560;
  }

  lemma {:induction false} Digit6()
    ensures Absorb(Residue16(0x4560), 0x36) == Residue16(0x2EF4)
  {
    DigitTops(6, 0x3600);
    AbsorbWord(0x4560, 0x36, 0x3600);
    assert Shifts(0x7360, 8) == Shifts(0x46E7, 4) == 0x2EF4;
  }

  lemma {:induction false} Digit7()
    ensures Absorb(Residue16(0x2EF4), 0x37) == Residue16(0x7718)
  {
    DigitTops(7, 0x3700);
    AbsorbWord(0x2EF4, 0x37, 0x3700);
    assert Shifts(0x19F4, 8) == Shifts(0x8F61, 4) == 0x7718;
  }

  lemma {:induction false} Digit8()
    ensures Absorb(Residue16(0x7718), 0x38) == Residue16(0xA12B)
  {
    DigitTops(8, 0x3800);
    AbsorbWord(0x7718, 0x38, 0x3800);
    assert Shifts(0x4F18, 8) == Shifts(0xB104, 4) == 0xA12B;
  }

  lemma {:induction false} Digit9()
    ensures Absorb(Residue16(0xA12B), 0x39) == Residue16(0x29B1)
  {
    DigitTops(9, 0x3900);
    AbsorbWord(0xA12B, 0x39, 0x3900);
    assert Shifts(0x982B, 8) == Shifts(0x1399, 4) == 0x29B1;
  }

  lemma {:induction false} CrcPush(s: seq<byte>, b: byte)
    ensures Crc(s + [b]) == Absorb(Crc(s), b)
  {
    CrcFromPush(ONES, s, b);
  }

  lemma {:induction false} CrcFromPush(r: Residue, s: seq<byte>, b: byte)
    ensures CrcFrom(r, s + [b]) == Absorb(CrcFrom(r, s), b)
    decreases |s|
  {
    if s == [] {
      assert s + [b] == [b] && [b][1..] == [];
    } else {
      assert (s + [b])[1..] == s[1..] + [b];
      CrcFromPush(Absorb(r, s[0]), s[1..], b);
    }
  }

  /** The first n digits, as ASCII. */
  function Digits(n: nat): (s: seq<byte>)
    requires n <= 9
    ensures |s| == n && forall i :: 0 <= i < n ==> s[i] as int == 0x31 + i
  {
    seq(n, i requires 0 <= i < n => 0x31 + i)
  }

  lemma {:induction false} DigitsPush(n: nat)
    requires n < 9
    ensures Crc(Digits(n + 1)) == Absorb(Crc(Digits(n)), 0x31 + n)
  {
    assert Digits(n + 1) == Digits(n) + [0x31 + n];
    CrcPush(Digits(n), 0x31 + n);
  }

  lemma {:induction false} OnesWord()
    ensures ONES == Residue16(0xFFFF)
  {
    forall i | 0 <= i < 16 ensures ONES[i] == At(0xFFFF, i) {}
  }

  /** The word of the first n digits. */
  ghost predicate After(n: nat, v: bv16) { n <= 9 && Crc(Digits(n)) == Residue16(v) }

  lemma {:induction false} AfterNext(n: nat, b: byte, v: bv16, w: bv16)
    requires n < 9 && After(n, v) && b as int == 0x31 + n && Absorb(Residue16(v), b) == Residue16(w)
    ensures After(n + 1, w)
  {
    DigitsPush(n);
  }

  lemma {:induction false} NoDigits()
    ensures After(0, 0xFFFF)
  {
    OnesWord();
    assert Digits(0) == [];
  }

  lemma {:induction false} ThreeDigits()
    ensures After(3, 0x5BCE)
  {
    NoDigits();
    Digit1();
    AfterNext(0, 0x31, 0xFFFF, 0xC782);
    Digit2();
    AfterNext(1, 0x32, 0xC782, 0x3DBA);
    Digit3();
    AfterNext(2, 0x33, 0x3DBA, 0x5BCE);
  }

  lemma {:induction false} SixDigits()
    ensures After(6, 0x2EF4)
  {
    ThreeDigits();
    Digit4();
    AfterNext(3, 0x34, 0x5BCE, 0x5349);
    Digit5();
    AfterNext(4, 0x35, 0x5349, 0x4560);
    Digit6();
    AfterNext(5, 0x36, 0x4560, 0x2EF4);
  }

  lemma {:induction false} NineDigits()
    ensures After(9, 0x29B1)
  {
    SixDigits();
    Digit7();
    AfterNext(6, 0x37, 0x2EF4, 0x7718);
    Digit8();
    AfterNext(7, 0x38, 0x7718, 0xA12B);
    Digit9();
    AfterNext(8, 0x39, 0xA12B, 0x29B1);
  }

  lemma {:induction false} PresetBytes(w: bv16)
    requires w == 0xFFFF
    ensures Residue16(w) == FromBytes(0xFF, 0xFF)
  {
    EightBits(0xFF);
    var t := FromBytes(0xFF, 0xFF);
    forall i | 0 <= i < 16 ensures t[i] == At(w, i) {}
  }

  lemma {:induction false} CheckHigh(w: bv16)
    requires w == 0x29B1
    ensures forall i :: 0 <= i < 8 ==> ByteBits(0x29)[i] == At(w, i)
  {
    EightBits(0x29);
    forall i | 0 <= i < 8 ensures ByteBits(0x29)[i] == At(w, i) {}
  }

  lemma {:induction false} CheckLow(w: bv16)
    requires w == 0x29B1
    ensures forall i :: 0 <= i < 8 ==> ByteBits(0xB1)[i] == At(w, i + 8)
  {
    EightBits(0xB1);
    forall i | 0 <= i < 8 ensures ByteBits(0xB1)[i] == At(w, i + 8) {}
  }

  lemma {:induction false} CheckBytes(w: bv16, hi: byte, lo: byte)
    requires w == 0x29B1 && hi == 0x29 && lo == 0xB1
    ensures Residue16(w) == FromBytes(hi, lo)
  {
    CheckHigh(w);
    CheckLow(w);
    var t := FromBytes(hi, lo);
    forall i | 0 <= i < 16 ensures t[i] == At(w, i) {
      if i >= 8 { assert t[i] == ByteBits(lo)[i - 8] && At(w, i - 8 + 8) == ByteBits(lo)[i - 8]; }
    }
  }

  /** Without any bytes the checksum is its preset, 0xFFFF; of the nine digits "123456789" it is 0x29B1. */
  lemma {:induction false} CheckValue()
    ensures HighByte(Crc([])) == 0xFF && LowByte(Crc([])) == 0xFF
    ensures HighByte(Crc(Digits(9))) == 0x29 && LowByte(Crc(Digits(9))) == 0xB1
  {
    OnesWord();
    NineDigits();
    PresetBytes(0xFFFF);
    CheckBytes(0x29B1, 0x29, 0xB1);
    CrcOfBytes(0xFF, 0xFF);
    CrcOfBytes(0x29, 0xB1);
  }
}
