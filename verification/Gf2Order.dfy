/** The residues form a ring in which x has order exactly 32767 = 7 * 31 * 151. */
module Gf2Order {
  import opened Gf2

  /** Horner's rule: acc * x^|c| + c(x) * v. */
  function Horner(acc: Residue, c: seq<bool>, v: Residue): Residue
    decreases |c|
  {
    if c == [] then acc else Horner(Xor(MulX(acc), Times(v, c[0])), c[1..], v)
  }

  function Product(c: seq<bool>, v: Residue): Residue { Horner(ZERO, c, v) }

  lemma {:induction false} HornerAddsCoefficients(a: Residue, b: Residue, c: seq<bool>, d: seq<bool>, v: Residue)
    requires |c| == |d|
    ensures Horner(Xor(a, b), Xor(c, d), v) == Xor(Horner(a, c, v), Horner(b, d, v))
    decreases |c|
  {
    if c != [] {
      MulXLinear(a, b);
      var a', b' := Xor(MulX(a), Times(v, c[0])), Xor(MulX(b), Times(v, d[0]));
      assert Xor(MulX(Xor(a, b)), Times(v, Xor(c, d)[0])) == Xor(a', b');
      assert Xor(c, d)[1..] == Xor(c[1..], d[1..]);
      HornerAddsCoefficients(a', b', c[1..], d[1..], v);
    }
  }

  lemma {:induction false} HornerAddsValues(a: Residue, b: Residue, c: seq<bool>, v: Residue, w: Residue)
    ensures Horner(Xor(a, b), c, Xor(v, w)) == Xor(Horner(a, c, v), Horner(b, c, w))
    decreases |c|
  {
    if c != [] {
      MulXLinear(a, b);
      var a', b' := Xor(MulX(a), Times(v, c[0])), Xor(MulX(b), Times(w, c[0]));
      assert Xor(MulX(Xor(a, b)), Times(Xor(v, w), c[0])) == Xor(a', b');
      HornerAddsValues(a', b', c[1..], v, w);
    }
  }

  lemma {:induction false} HornerMulX(a: Residue, c: seq<bool>, v: Residue)
    ensures MulX(Horner(a, c, v)) == Horner(MulX(a), c, MulX(v))
    decreases |c|
  {
    if c != [] {
      var a' := Xor(MulX(a), Times(v, c[0]));
      HornerMulX(a', c[1..], v);
      MulXLinear(MulX(a), Times(v, c[0]));
      assert MulX(ZERO) == ZERO;
      assert MulX(Times(v, c[0])) == Times(MulX(v), c[0]);
    }
  }

  lemma {:induction false} HornerSnoc(a: Residue, c: seq<bool>, b: bool, v: Residue)
    ensures Horner(a, c + [b], v) == Xor(MulX(Horner(a, c, v)), Times(v, b))
    decreases |c|
  {
    var d := c + [b];
    if c == [] {
      assert d[1..] == [];
    } else {
      assert d[1..] == c[1..] + [b];
      HornerSnoc(Xor(MulX(a), Times(v, c[0])), c[1..], b, v);
    }
  }

  lemma {:induction false} HornerAppend(a: Residue, c: seq<bool>, d: seq<bool>, v: Residue)
    ensures Horner(a, c + d, v) == Horner(Horner(a, c, v), d, v)
    decreases |c|
  {
    if c == [] {
      assert c + d == d;
    } else {
      assert (c + d)[1..] == c[1..] + d;
      HornerAppend(Xor(MulX(a), Times(v, c[0])), c[1..], d, v);
    }
  }

  lemma {:induction false} HornerZeros(a: Residue, n: nat, v: Residue)
    ensures Horner(a, Zeros(n), v) == MulXn(a, n)
    decreases n
  {
    if n > 0 {
      assert Zeros(n)[1..] == Zeros(n - 1);
      assert Xor(MulX(a), Times(v, false)) == MulX(a);
      HornerZeros(MulX(a), n - 1, v);
    }
  }

  lemma {:induction false} ProductOfZero(c: seq<bool>)
    ensures Product(c, ZERO) == ZERO
    decreases |c|
  {
    if c != [] {
      assert Xor(MulX(ZERO), Times(ZERO, c[0])) == ZERO;
      ProductOfZero(c[1..]);
    }
  }

  lemma {:induction false} ProductOfHorner(c: seq<bool>, a: Residue, d: seq<bool>, w: Residue)
    ensures Product(c, Horner(a, d, w)) == Horner(Product(c, a), d, Product(c, w))
    decreases |d|
  {
    if d != [] {
      var t := Times(w, d[0]);
      ProductOfHorner(c, Xor(MulX(a), t), d[1..], w);
      assert Xor(ZERO, ZERO) == ZERO && MulX(ZERO) == ZERO;
      HornerAddsValues(ZERO, ZERO, c, MulX(a), t);
      HornerMulX(ZERO, c, a);
      ProductOfZero(c);
      assert Product(c, t) == Times(Product(c, w), d[0]);
    }
  }

  lemma {:induction false} ProductsCommute(c: seq<bool>, d: seq<bool>, w: Residue)
    ensures Product(c, Product(d, w)) == Product(d, Product(c, w))
  {
    ProductOfHorner(c, ZERO, d, w);
    ProductOfZero(c);
  }

  /** At most sixteen coefficients, aligned to the bottom. */
  function AtBottom(c: seq<bool>): (r: Residue)
    requires |c| <= 16
    ensures forall i :: 0 <= i < 16 ==> r[i] == (i >= 16 - |c| && c[i - (16 - |c|)])
  {
    seq(16, i requires 0 <= i < 16 => i >= 16 - |c| && c[i - (16 - |c|)])
  }

  lemma {:induction false} AppendCoefficient(d: seq<bool>, b: bool)
    requires |d| < 16
    ensures Xor(MulX(AtBottom(d)), Times(ONE, b)) == AtBottom(d + [b])
  {
    var l, r := Xor(MulX(AtBottom(d)), Times(ONE, b)), AtBottom(d + [b]);
    forall i | 0 <= i < 16 ensures l[i] == r[i] {}
  }

  /** One is the unit: a coefficient string of at most sixteen bits names its own residue. */
  lemma {:induction false} ProductOfOne(c: seq<bool>)
    requires |c| <= 16
    ensures Product(c, ONE) == AtBottom(c)
    decreases |c|
  {
    if c == [] {
      assert AtBottom(c) == ZERO;
    } else {
      var d, b := c[..|c| - 1], c[|c| - 1];
      assert d + [b] == c;
      ProductOfOne(d);
      HornerSnoc(ZERO, d, b, ONE);
      AppendCoefficient(d, b);
    }
  }

  lemma {:induction false} ResidueTimesOne(r: Residue)
    ensures Product(r, ONE) == r
  {
    ProductOfOne(r);
    assert AtBottom(r) == r;
  }

  lemma {:induction false} ProductMulXn(c: seq<bool>, v: Residue, n: nat)
    ensures Product(c, MulXn(v, n)) == MulXn(Product(c, v), n)
    decreases n
  {
    if n > 0 {
      ProductMulXn(c, MulX(v), n - 1);
      HornerMulX(ZERO, c, v);
      assert MulX(ZERO) == ZERO;
    }
  }

  lemma {:induction false} PowerFifteen()
    ensures MulXn(ONE, 15) == TOP
  {
    HornerZeros(ONE, 15, ONE);
    assert TOP[1..] == Zeros(15);
    assert Xor(MulX(ZERO), Times(ONE, true)) == ONE;
    ResidueTimesOne(TOP);
  }

  /** x^16 = x^12 + x^5 + 1 acts the same on every residue. */
  lemma {:induction false} Characteristic(v: Residue)
    ensures Product(POLY, v) == MulXn(v, 16)
  {
    ResidueTimesOne(v);
    ResidueTimesOne(POLY);
    ProductsCommute(POLY, v, ONE);
    PowerFifteen();
    MulXOfTop();
    MulXnStep(ONE, 15);
    ProductMulXn(v, ONE, 16);
  }

  /** a(x) * v, split into the leading coefficient and the others. */
  lemma {:induction false} ProductSplit(a: Residue, v: Residue)
    ensures Product(a, v) == Xor(MulXn(Times(v, a[0]), 15), Product(a[1..], v))
  {
    var tail := a[1..];
    var lead := Times(v, a[0]);
    assert Xor(MulX(ZERO), lead) == lead;
    assert Xor(lead, ZERO) == lead;
    assert Xor(Zeros(15), tail) == tail;
    HornerAddsCoefficients(lead, ZERO, Zeros(15), tail, v);
    HornerZeros(lead, 15, v);
  }

  lemma {:induction false} ProductOfTimes(c: Residue, b: bool, v: Residue)
    ensures Product(Times(c, b), v) == Times(Product(c, v), b)
  {
    if b {
      assert Times(c, b) == c;
    } else {
      HornerZeros(ZERO, 16, v);
      MulXnZero(16);
      assert Times(c, b) == ZERO;
    }
  }

  lemma {:induction false} MulXnOfTimes(v: Residue, b: bool, n: nat)
    ensures MulXn(Times(v, b), n) == Times(MulXn(v, n), b)
  {
    MulXnZero(n);
    if b { assert Times(v, b) == v; } else { assert Times(v, b) == ZERO; }
  }

  lemma {:induction false} ProductDistributes(c: seq<bool>, d: seq<bool>, v: Residue)
    requires |c| == |d|
    ensures Product(Xor(c, d), v) == Xor(Product(c, v), Product(d, v))
  {
    assert Xor(ZERO, ZERO) == ZERO;
    HornerAddsCoefficients(ZERO, ZERO, c, d, v);
  }

  lemma {:induction false} ProductSnocZero(c: seq<bool>, v: Residue)
    ensures Product(c + [false], v) == MulX(Product(c, v))
  {
    HornerSnoc(ZERO, c, false, v);
    assert Xor(MulX(Product(c, v)), Times(v, false)) == MulX(Product(c, v));
  }

  /** (a without its leading coefficient, moved up) plus POLY if that was one. */
  lemma {:induction false} ProductOfShifted(a: Residue, v: Residue)
    ensures Product(MulX(a), v) == Xor(MulX(Product(a[1..], v)), Times(MulXn(v, 16), a[0]))
  {
    MulXSplit(a);
    ProductDistributes(a[1..] + [false], Times(POLY, a[0]), v);
    ProductSnocZero(a[1..], v);
    ProductOfTimes(POLY, a[0], v);
    Characteristic(v);
  }

  lemma {:induction false} ProductOfMulX(a: Residue, v: Residue)
    ensures Product(MulX(a), v) == MulX(Product(a, v))
  {
    var tail := Product(a[1..], v);
    var lead := MulXn(Times(v, a[0]), 15);
    ProductSplit(a, v);
    MulXLinear(lead, tail);
    MulXnStep(Times(v, a[0]), 15);
    MulXnOfTimes(v, a[0], 16);
    ProductOfShifted(a, v);
    assert Xor(MulX(tail), MulX(lead)) == Xor(MulX(lead), MulX(tail));
  }

  /** x^n. */
  function PowX(n: nat): Residue { MulXn(ONE, n) }

  lemma {:induction false} ProductOfPower(n: nat, v: Residue)
    ensures Product(PowX(n), v) == MulXn(v, n)
  {
    if n == 0 {
      ResidueTimesOne(v);
      ResidueTimesOne(ONE);
      ProductsCommute(ONE, v, ONE);
    } else {
      MulXnStep(ONE, n - 1);
      ProductOfMulX(PowX(n - 1), v);
      ProductOfPower(n - 1, v);
      MulXnStep(v, n - 1);
    }
  }

  lemma {:induction false} PowersMultiply(m: nat, n: nat)
    ensures Product(PowX(m), PowX(n)) == PowX(m + n)
  {
    ProductOfPower(m, PowX(n));
    MulXnAdd(ONE, n, m);
  }
}
