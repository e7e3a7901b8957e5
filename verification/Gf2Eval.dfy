/** Products of residues computed on 16-bit words, to evaluate powers of x. */
module Gf2Eval {
  import opened Gf2
  import opened Gf2Order

  function Mask(i: nat): bv16
    requires i < 16
  {
    if i == 0 then 0x8000 else if i == 1 then 0x4000 else if i == 2 then 0x2000 else if i == 3 then 0x1000
    else if i == 4 then 0x800 else if i == 5 then 0x400 else if i == 6 then 0x200 else if i == 7 then 0x100
    else if i == 8 then 0x80 else if i == 9 then 0x40 else if i == 10 then 0x20 else if i == 11 then 0x10
    else if i == 12 then 8 else if i == 13 then 4 else if i == 14 then 2 else 1
  }

  predicate Has(v: bv16, mask: bv16) { v & mask != 0 }

  function Shift(r: bv16): bv16 { if r & 0x8000 != 0 then (r << 1) ^ 0x1021 else r << 1 }

  function Add(s: bv16, b: bool, v: bv16): bv16 { if b then s ^ v else s }

  lemma {:induction false} HasXor(a: bv16, c: bv16, m: bv16)
    requires m & (m - 1) == 0
    ensures Has(a ^ c, m) == (Has(a, m) != Has(c, m))
  {}

  lemma {:induction false} HasDouble(a: bv16, m: bv16)
    ensures Has(a << 1, m) == Has(a, m >> 1)
  {}

  lemma {:induction false} HasShift(a: bv16, m: bv16)
    requires m & (m - 1) == 0
    ensures Has(Shift(a), m) == (Has(a, m >> 1) != (Has(a, 0x8000) && Has(0x1021, m)))
  {
    HasDouble(a, m);
    HasXor(a << 1, 0x1021, m);
  }

  lemma {:induction false} MaskFacts(i: nat)
    requires i < 16
    ensures Mask(i) & (Mask(i) - 1) == 0
    ensures Mask(i) >> 1 == if i < 15 then Mask(i + 1) else 0
    ensures Has(0x1021, Mask(i)) == POLY[i]
  {
  }

  predicate At(v: bv16, i: nat)
    requires i < 16
  {
    Has(v, Mask(i))
  }

  lemma {:induction false} AtShift(a: bv16, i: nat)
    requires i < 16
    ensures At(Shift(a), i) == ((i < 15 && At(a, i + 1)) != (At(a, 0) && POLY[i]))
  {
    MaskFacts(i);
    HasShift(a, Mask(i));
    assert !Has(a, 0);
  }

  lemma {:induction false} AtAdd(s: bv16, b: bool, v: bv16, i: nat)
    requires i < 16
    ensures At(Add(s, b, v), i) == (At(s, i) != (b && At(v, i)))
  {
    MaskFacts(i);
    HasXor(s, v, Mask(i));
  }

  function Residue16(v: bv16): (r: Residue)
    ensures forall i :: 0 <= i < 16 ==> r[i] == At(v, i)
  {
    seq(16, i requires 0 <= i < 16 => At(v, i))
  }

  lemma {:induction false} Residue16Shift(a: bv16)
    ensures Residue16(Shift(a)) == MulX(Residue16(a))
  {
    var r, s := Residue16(Shift(a)), MulX(Residue16(a));
    forall i | 0 <= i < 16 ensures r[i] == s[i] {
      AtShift(a, i);
    }
  }

  lemma {:induction false} Residue16Add(s: bv16, b: bool, v: bv16)
    ensures Residue16(Add(s, b, v)) == Xor(Residue16(s), Times(Residue16(v), b))
  {
    var r, t := Residue16(Add(s, b, v)), Xor(Residue16(s), Times(Residue16(v), b));
    forall i | 0 <= i < 16 ensures r[i] == t[i] {
      AtAdd(s, b, v, i);
    }
  }

  /** One step of Horner's rule. */
  function Step(acc: bv16, b: bool, v: bv16): bv16 { Add(Shift(acc), b, v) }

  lemma {:induction false} StepIsHornerStep(acc: bv16, b: bool, v: bv16)
    ensures Residue16(Step(acc, b, v)) == Xor(MulX(Residue16(acc)), Times(Residue16(v), b))
  {
    Residue16Shift(acc);
    Residue16Add(Shift(acc), b, v);
  }

  /** Four steps, for the top four bits of a. */
  function Four(acc: bv16, a: bv16, v: bv16): bv16 {
    Step(Step(Step(Step(acc, Has(a, 0x8000), v), Has(a, 0x4000), v), Has(a, 0x2000), v), Has(a, 0x1000), v)
  }

  /** The product of two words as residues. */
  function Mul(a: bv16, v: bv16): bv16 {
    Four(Four(Four(Four(0, a, v), a << 4, v), a << 8, v), a << 12, v)
  }

  function HornerStep(acc: Residue, b: bool, v: Residue): Residue { Xor(MulX(acc), Times(v, b)) }

  lemma {:induction false} HornerFirst(acc: Residue, x: seq<bool>, v: Residue)
    requires x != []
    ensures Horner(acc, x, v) == Horner(HornerStep(acc, x[0], v), x[1..], v)
  {}

  lemma {:induction false} HornerFour(acc: Residue, x: seq<bool>, v: Residue)
    requires |x| == 4
    ensures Horner(acc, x, v) == HornerStep(HornerStep(HornerStep(HornerStep(acc, x[0], v), x[1], v), x[2], v), x[3], v)
  {
    var r1 := HornerStep(acc, x[0], v);
    var r2 := HornerStep(r1, x[1], v);
    var r3 := HornerStep(r2, x[2], v);
    HornerFirst(acc, x, v);
    HornerFirst(r1, x[1..], v);
    HornerFirst(r2, x[1..][1..], v);
    HornerFirst(r3, x[1..][1..][1..], v);
  }

  lemma {:induction false} StepsAreHorner(acc: bv16, x: seq<bool>, v: bv16, s1: bv16, s2: bv16, s3: bv16)
    requires |x| == 4 && s1 == Step(acc, x[0], v) && s2 == Step(s1, x[1], v) && s3 == Step(s2, x[2], v)
    ensures Residue16(Step(s3, x[3], v)) == Horner(Residue16(acc), x, Residue16(v))
  {
    StepIsHornerStep(acc, x[0], v);
    StepIsHornerStep(s1, x[1], v);
    StepIsHornerStep(s2, x[2], v);
    StepIsHornerStep(s3, x[3], v);
    HornerFour(Residue16(acc), x, Residue16(v));
  }

  lemma {:induction false} Masks()
    ensures Mask(0) == 0x8000 && Mask(1) == 0x4000 && Mask(2) == 0x2000 && Mask(3) == 0x1000
  {}

  lemma {:induction false} FourIsHorner(acc: bv16, a: bv16, v: bv16, x: seq<bool>)
    requires |x| == 4 && forall j :: 0 <= j < 4 ==> x[j] == At(a, j)
    ensures Residue16(Four(acc, a, v)) == Horner(Residue16(acc), x, Residue16(v))
  {
    Masks();
    assert x[0] == At(a, 0) && x[1] == At(a, 1) && x[2] == At(a, 2) && x[3] == At(a, 3);
    var s1 := Step(acc, x[0], v);
    var s2 := Step(s1, x[1], v);
    StepsAreHorner(acc, x, v, s1, s2, Step(s2, x[2], v));
  }

  lemma {:induction false} HasFurther(a: bv16, m: bv16)
    ensures Has(a << 4, m) == Has(a, m >> 4) && Has(a << 8, m) == Has(a, m >> 8) && Has(a << 12, m) == Has(a, m >> 12)
  {}

  lemma {:induction false} MaskFurther(j: nat)
    requires j < 4
    ensures Mask(j) >> 4 == Mask(j + 4) && Mask(j) >> 8 == Mask(j + 8) && Mask(j) >> 12 == Mask(j + 12)
  {}

  lemma {:induction false} AtFurther(a: bv16, j: nat)
    requires j < 4
    ensures At(a << 4, j) == At(a, j + 4) && At(a << 8, j) == At(a, j + 8) && At(a << 12, j) == At(a, j + 12)
  {
    HasFurther(a, Mask(j));
    MaskFurther(j);
  }

  lemma {:induction false} HornerSplit(acc: Residue, x: seq<bool>, v: Residue)
    requires |x| >= 4
    ensures Horner(acc, x, v) == Horner(Horner(acc, x[..4], v), x[4..], v)
  {
    HornerAppend(acc, x[..4], x[4..], v);
    assert x[..4] + x[4..] == x;
  }

  lemma {:induction false} MulIsProduct(a: bv16, v: bv16)
    ensures Residue16(Mul(a, v)) == Product(Residue16(a), Residue16(v))
  {
    var x, w := Residue16(a), Residue16(v);
    var y, z := x[4..], x[4..][4..];
    var f1 := Four(0, a, v);
    var f2 := Four(f1, a << 4, v);
    var f3 := Four(f2, a << 8, v);
    forall j | 0 <= j < 4
      ensures x[..4][j] == At(a, j) && y[..4][j] == At(a << 4, j)
      ensures z[..4][j] == At(a << 8, j) && z[4..][j] == At(a << 12, j)
    {
      AtFurther(a, j);
    }
    FourIsHorner(0, a, v, x[..4]);
    FourIsHorner(f1, a << 4, v, y[..4]);
    FourIsHorner(f2, a << 8, v, z[..4]);
    FourIsHorner(f3, a << 12, v, z[4..]);
    ZeroWord();
    HornerSplit(ZERO, x, w);
    HornerSplit(Residue16(f1), y, w);
    HornerSplit(Residue16(f2), z, w);
  }

  lemma {:induction false} ZeroWord()
    ensures Residue16(0) == ZERO
  {}

  lemma {:induction false} OneWord()
    ensures Residue16(1) == ONE
  {}

  /** w is x^n. */
  ghost predicate IsPower(n: nat, w: bv16) { PowX(n) == Residue16(w) }

  lemma {:induction false} Combine(m: nat, x: bv16, n: nat, y: bv16)
    requires IsPower(m, x) && IsPower(n, y)
    ensures IsPower(m + n, Mul(x, y))
  {
    PowersMultiply(m, n);
    MulIsProduct(x, y);
  }

  lemma {:induction false} Power2() ensures Mul(0x0002, 0x0002) == 0x0004 {}
  lemma {:induction false} Power4() ensures Mul(0x0004, 0x0004) == 0x0010 {}
  lemma {:induction false} Power8() ensures Mul(0x0010, 0x0010) == 0x0100 {}
  lemma {:induction false} Power16() ensures Mul(0x0100, 0x0100) == 0x1021 {}
  lemma {:induction false} Power32() ensures Mul(0x1021, 0x1021) == 0x3730 {}
  lemma {:induction false} Power64() ensures Mul(0x3730, 0x3730) == 0xB861 {}
  lemma {:induction false} Power128() ensures Mul(0xB861, 0xB861) == 0xAEFC {}
  lemma {:induction false} Power256() ensures Mul(0xAEFC, 0xAEFC) == 0x8E29 {}
  lemma {:induction false} Power512() ensures Mul(0x8E29, 0x8E29) == 0x13FC {}
  lemma {:induction false} Power1024() ensures Mul(0x13FC, 0x13FC) == 0x36C4 {}
  lemma {:induction false} Power2048() ensures Mul(0x36C4, 0x36C4) == 0xFD50 {}
  lemma {:induction false} Power4096() ensures Mul(0xFD50, 0xFD50) == 0xAA9E {}
  lemma {:induction false} Power8192() ensures Mul(0xAA9E, 0xAA9E) == 0x881C {}
  lemma {:induction false} Power16384() ensures Mul(0x881C, 0x881C) == 0x4458 {}
  lemma {:induction false} Power32768() ensures Mul(0x4458, 0x4458) == 0x0002 {}
  lemma {:induction false} Power192() ensures Mul(0xAEFC, 0xB861) == 0x650B {}
  lemma {:induction false} Power208() ensures Mul(0x650B, 0x1021) == 0x45B4 {}
  lemma {:induction false} Power216() ensures Mul(0x45B4, 0x0100) == 0xAC61 {}
  lemma {:induction false} Power217() ensures Mul(0xAC61, 0x0002) == 0x48E3 {}
  lemma {:induction false} Power1056() ensures Mul(0x36C4, 0x3730) == 0xF147 {}
  lemma {:induction false} Power1057() ensures Mul(0xF147, 0x0002) == 0xF2AF {}
  lemma {:induction false} Power4608() ensures Mul(0xAA9E, 0x13FC) == 0x54A0 {}
  lemma {:induction false} Power4672() ensures Mul(0x54A0, 0xB861) == 0x0106 {}
  lemma {:induction false} Power4680() ensures Mul(0x0106, 0x0100) == 0x1621 {}
  lemma {:induction false} Power4681() ensures Mul(0x1621, 0x0002) == 0x2C42 {}

  lemma {:induction false} SquaresTo32()
    ensures IsPower(1, 0x0002) && IsPower(8, 0x0100) && IsPower(16, 0x1021) && IsPower(32, 0x3730)
  {
    OneWord();
    Residue16Shift(1);
    assert PowX(1) == MulX(ONE);
    Power2(); Combine(1, 0x0002, 1, 0x0002);
    Power4(); Combine(2, 0x0004, 2, 0x0004);
    Power8(); Combine(4, 0x0010, 4, 0x0010);
    Power16(); Combine(8, 0x0100, 8, 0x0100);
    Power32(); Combine(16, 0x1021, 16, 0x1021);
  }

  lemma {:induction false} SquaresTo1024()
    ensures IsPower(64, 0xB861) && IsPower(128, 0xAEFC) && IsPower(256, 0x8E29)
    ensures IsPower(512, 0x13FC) && IsPower(1024, 0x36C4)
  {
    SquaresTo32();
    Power64(); Combine(32, 0x3730, 32, 0x3730);
    Power128(); Combine(64, 0xB861, 64, 0xB861);
    Power256(); Combine(128, 0xAEFC, 128, 0xAEFC);
    Power512(); Combine(256, 0x8E29, 256, 0x8E29);
    Power1024(); Combine(512, 0x13FC, 512, 0x13FC);
  }

  lemma {:induction false} SquaresTo32768()
    ensures IsPower(4096, 0xAA9E) && IsPower(32768, 0x0002)
  {
    SquaresTo1024();
    Power2048(); Combine(1024, 0x36C4, 1024, 0x36C4);
    Power4096(); Combine(2048, 0xFD50, 2048, 0xFD50);
    Power8192(); Combine(4096, 0xAA9E, 4096, 0xAA9E);
    Power16384(); Combine(8192, 0x881C, 8192, 0x881C);
    Power32768(); Combine(16384, 0x4458, 16384, 0x4458);
  }

  lemma {:induction false} XTo217()
    ensures IsPower(217, 0x48E3)
  {
    SquaresTo32();
    SquaresTo1024();
    Power192(); Combine(128, 0xAEFC, 64, 0xB861);
    Power208(); Combine(192, 0x650B, 16, 0x1021);
    Power216(); Combine(208, 0x45B4, 8, 0x0100);
    Power217(); Combine(216, 0xAC61, 1, 0x0002);
  }

  lemma {:induction false} XTo1057()
    ensures IsPower(1057, 0xF2AF)
  {
    SquaresTo32();
    SquaresTo1024();
    Power1056(); Combine(1024, 0x36C4, 32, 0x3730);
    Power1057(); Combine(1056, 0xF147, 1, 0x0002);
  }

  lemma {:induction false} XTo4681()
    ensures IsPower(4681, 0x2C42)
  {
    SquaresTo32();
    SquaresTo1024();
    SquaresTo32768();
    Power4608(); Combine(4096, 0xAA9E, 512, 0x13FC);
    Power4672(); Combine(4608, 0x54A0, 64, 0xB861);
    Power4680(); Combine(4672, 0x0106, 8, 0x0100);
    Power4681(); Combine(4680, 0x1621, 1, 0x0002);
  }
}
