/** Polynomials over GF(2) as bit strings, highest power first, and arithmetic modulo
    the CRC generator x^16 + x^12 + x^5 + 1. */
module Gf2 {
  /** A residue: sixteen coefficients, x^15 first. */
  type Residue = r: seq<bool> | |r| == 16 witness seq(16, i => false)

  function Zeros(n: nat): (s: seq<bool>)
    ensures |s| == n && forall i :: 0 <= i < n ==> !s[i]
  {
    seq(n, i => false)
  }

  function Ones(n: nat): (s: seq<bool>)
    ensures |s| == n && forall i :: 0 <= i < n ==> s[i]
  {
    seq(n, i => true)
  }

  function Xor(a: seq<bool>, b: seq<bool>): (r: seq<bool>)
    requires |a| == |b|
    ensures |r| == |a| && forall i :: 0 <= i < |a| ==> r[i] == (a[i] != b[i])
  {
    seq(|a|, i requires 0 <= i < |a| => a[i] != b[i])
  }

  /** The generator without its leading term: x^12 + x^5 + 1, that is 0x1021. */
  const POLY: Residue := [false, false, false, true, false, false, false, false,
                          false, false, true, false, false, false, false, true]
  const ZERO: Residue := Zeros(16)
  /** 0xFFFF, the preset of the checksum register. */
  const ONES: Residue := Ones(16)
  const ONE: Residue := Zeros(15) + [true]
  /** x^15, that is 0x8000. */
  const TOP: Residue := [true] + Zeros(15)

  /** Multiplication by x. */
  function MulX(r: Residue): (s: Residue)
    ensures forall i :: 0 <= i < 16 ==> s[i] == ((i < 15 && r[i + 1]) != (r[0] && POLY[i]))
  {
    var shifted := r[1..] + [false];
    if r[0] then Xor(shifted, POLY) else shifted
  }

  function Times(r: Residue, b: bool): (s: Residue)
    ensures forall i :: 0 <= i < 16 ==> s[i] == (b && r[i])
  {
    if b then r else ZERO
  }

  lemma {:induction false} MulXLinear(a: Residue, b: Residue)
    ensures MulX(Xor(a, b)) == Xor(MulX(a), MulX(b))
  {}

  lemma {:induction false} MulXInjective(a: Residue, b: Residue)
    requires MulX(a) == MulX(b)
    ensures a == b
  {
    assert MulX(a)[15] == MulX(b)[15];
    forall i | 1 <= i < 16 ensures a[i] == b[i] {
      assert MulX(a)[i - 1] == MulX(b)[i - 1];
    }
  }

  lemma {:induction false} MulXSplit(a: Residue)
    ensures MulX(a) == Xor(a[1..] + [false], Times(POLY, a[0]))
  {}

  lemma {:induction false} MulXOfTop()
    ensures MulX(TOP) == POLY
  {}

  /** r * x^n. */
  function MulXn(r: Residue, n: nat): Residue
    decreases n
  {
    if n == 0 then r else MulXn(MulX(r), n - 1)
  }

  lemma {:induction false} MulXnLinear(a: Residue, b: Residue, n: nat)
    ensures MulXn(Xor(a, b), n) == Xor(MulXn(a, n), MulXn(b, n))
    decreases n
  {
    if n > 0 {
      MulXLinear(a, b);
      MulXnLinear(MulX(a), MulX(b), n - 1);
    }
  }

  lemma {:induction false} MulXnAdd(r: Residue, m: nat, n: nat)
    ensures MulXn(MulXn(r, m), n) == MulXn(r, m + n)
    decreases m
  {
    if m > 0 { MulXnAdd(MulX(r), m - 1, n); }
  }

  lemma {:induction false} MulXnStep(r: Residue, n: nat)
    ensures MulXn(r, n + 1) == MulX(MulXn(r, n))
  {
    MulXnAdd(r, n, 1);
    assert MulXn(MulXn(r, n), 1) == MulXn(MulX(MulXn(r, n)), 0);
  }

  lemma {:induction false} MulXnInjective(a: Residue, b: Residue, n: nat)
    requires MulXn(a, n) == MulXn(b, n)
    ensures a == b
    decreases n
  {
    if n > 0 {
      MulXnInjective(MulX(a), MulX(b), n - 1);
      MulXInjective(a, b);
    }
  }

  lemma {:induction false} MulXnZero(n: nat)
    ensures MulXn(ZERO, n) == ZERO
  {
    if n > 0 {
      assert MulX(ZERO) == ZERO;
      MulXnZero(n - 1);
    }
  }

  // ---------------------------------------------------------------------
  // The bit-serial division register.
  // ---------------------------------------------------------------------

  function BitStep(r: Residue, b: bool): Residue {
    MulX(Xor(r, Times(TOP, b)))
  }

  function Feed(r: Residue, x: seq<bool>): Residue
    decreases |x|
  {
    if x == [] then r else Feed(BitStep(r, x[0]), x[1..])
  }

  lemma {:induction false} FeedAppend(r: Residue, x: seq<bool>, y: seq<bool>)
    ensures Feed(r, x + y) == Feed(Feed(r, x), y)
    decreases |x|
  {
    if x == [] {
      assert x + y == y;
    } else {
      assert (x + y)[1..] == x[1..] + y;
      FeedAppend(BitStep(r, x[0]), x[1..], y);
    }
  }

  lemma {:induction false} FeedLinear(a: Residue, b: Residue, x: seq<bool>, y: seq<bool>)
    requires |x| == |y|
    ensures Feed(Xor(a, b), Xor(x, y)) == Xor(Feed(a, x), Feed(b, y))
    decreases |x|
  {
    if x != [] {
      var z := Xor(x, y);
      assert z[1..] == Xor(x[1..], y[1..]);
      FeedLinear(BitStep(a, x[0]), BitStep(b, y[0]), x[1..], y[1..]);
      assert BitStep(Xor(a, b), z[0]) == Xor(BitStep(a, x[0]), BitStep(b, y[0])) by {
        MulXLinear(Xor(a, Times(TOP, x[0])), Xor(b, Times(TOP, y[0])));
        assert Xor(Xor(a, b), Times(TOP, z[0])) == Xor(Xor(a, Times(TOP, x[0])), Xor(b, Times(TOP, y[0])));
      }
    }
  }

  lemma {:induction false} FeedZeros(r: Residue, n: nat)
    ensures Feed(r, Zeros(n)) == MulXn(r, n)
    decreases n
  {
    if n > 0 {
      assert Zeros(n)[1..] == Zeros(n - 1);
      assert Xor(r, Times(TOP, false)) == r;
      FeedZeros(MulX(r), n - 1);
    }
  }

  lemma {:induction false} WordStep(r: Residue, y: Residue, y': Residue)
    requires y' == y[1..] + [false]
    ensures Xor(BitStep(r, y[0]), y') == MulX(Xor(r, y))
  {
    var l, m := Xor(BitStep(r, y[0]), y'), MulX(Xor(r, y));
    forall i | 0 <= i < 16 ensures l[i] == m[i] {}
  }

  /** At most sixteen bits, aligned to the top. */
  function Padded(x: seq<bool>): (r: Residue)
    requires |x| <= 16
    ensures forall i :: 0 <= i < 16 ==> r[i] == (i < |x| && x[i])
  {
    seq(16, i requires 0 <= i < 16 => i < |x| && x[i])
  }

  lemma {:induction false} PaddedTail(x: seq<bool>)
    requires 0 < |x| <= 16
    ensures Padded(x[1..]) == Padded(x)[1..] + [false]
  {}

  /** Feeding at most sixteen bits is adding them, aligned to the top, and then shifting. */
  lemma {:induction false} FeedWord(r: Residue, x: seq<bool>)
    requires |x| <= 16
    ensures Feed(r, x) == MulXn(Xor(r, Padded(x)), |x|)
    decreases |x|
  {
    if x == [] {
      assert Xor(r, Padded(x)) == r;
    } else {
      FeedWord(BitStep(r, x[0]), x[1..]);
      PaddedTail(x);
      WordStep(r, Padded(x), Padded(x[1..]));
    }
  }

  /** A word fed into a register that holds it leaves zero, and no other word does. */
  lemma {:induction false} FeedToZero(r: Residue, x: Residue)
    ensures Feed(r, x) == ZERO <==> r == x
  {
    assert Padded(x) == x;
    FeedWord(r, x);
    MulXnZero(16);
    if Feed(r, x) == ZERO {
      MulXnInjective(Xor(r, x), ZERO, 16);
      forall i | 0 <= i < 16 ensures r[i] == x[i] { assert Xor(r, x)[i] == ZERO[i]; }
      assert r == x;
    }
    if r == x { assert Xor(r, x) == ZERO; }
  }

  // ---------------------------------------------------------------------
  // Long division.
  // ---------------------------------------------------------------------

  /** The generator's sixteen lower terms added in at the top of s, or nothing. */
  function AddPoly(s: seq<bool>, b: bool): (t: seq<bool>)
    ensures |t| == |s|
    ensures forall i :: 0 <= i < |t| ==> t[i] == (s[i] != (b && i < 16 && POLY[i]))
  {
    seq(|s|, i requires 0 <= i < |s| => s[i] != (b && i < 16 && POLY[i]))
  }

  /** Schoolbook division: drop the leading term, taking the generator away if it was one. */
  function Remainder(s: seq<bool>): (r: seq<bool>)
    ensures |s| >= 16 ==> |r| == 16
    decreases |s|
  {
    if |s| <= 16 then s else Remainder(AddPoly(s[1..], s[0]))
  }

  /** The polynomial product of q and the generator: q[0] * (x^16 + POLY) * x^(|q| - 1) + the rest. */
  function Multiple(q: seq<bool>): (s: seq<bool>)
    ensures |s| == |q| + 16
    decreases |q|
  {
    if q == [] then Zeros(16) else [q[0]] + AddPoly(Multiple(q[1..]), q[0])
  }

  /** s is m plus the residue r in its last sixteen places. */
  predicate IsSum(s: seq<bool>, m: seq<bool>, r: Residue)
    requires |s| == |m| >= 16
  {
    forall i :: 0 <= i < |s| ==> s[i] == (m[i] != (|s| - 16 <= i && r[i - (|s| - 16)]))
  }

  lemma {:induction false} DivisionStep(s: seq<bool>, m: seq<bool>, r: Residue)
    requires |s| == |m| + 1 && |m| >= 16
    requires IsSum(AddPoly(s[1..], s[0]), m, r)
    ensures IsSum(s, [s[0]] + AddPoly(m, s[0]), r)
  {
    var t, t' := [s[0]] + AddPoly(m, s[0]), AddPoly(s[1..], s[0]);
    forall i | 0 <= i < |s| ensures s[i] == (t[i] != (|s| - 16 <= i && r[i - (|s| - 16)])) {
      if i > 0 {
        var j := i - 1;
        assert t'[j] == (m[j] != (|t'| - 16 <= j && r[j - (|t'| - 16)]));
      }
    }
  }

  /** Remainder is the remainder: what is taken away is a multiple of the generator. */
  lemma {:induction false} DivisionTheorem(s: seq<bool>) returns (q: seq<bool>)
    requires |s| >= 16
    ensures |q| == |s| - 16 && IsSum(s, Multiple(q), Remainder(s))
    decreases |s|
  {
    if |s| == 16 {
      q := [];
    } else {
      var s' := AddPoly(s[1..], s[0]);
      var q' := DivisionTheorem(s');
      q := [s[0]] + q';
      assert q[1..] == q';
      DivisionStep(s, Multiple(q'), Remainder(s'));
    }
  }

  /** The register r added in at the top of x * x^16. */
  function Load(r: Residue, x: seq<bool>): (s: seq<bool>)
    ensures |s| == |x| + 16
    ensures forall i :: 0 <= i < |s| ==> s[i] == ((i < |x| && x[i]) != (i < 16 && r[i]))
  {
    seq(|x| + 16, i requires 0 <= i < |x| + 16 => (i < |x| && x[i]) != (i < 16 && r[i]))
  }

  /** The register that starts at r and absorbs x ends with a polynomial remainder. */
  lemma {:induction false} FeedIsRemainder(r: Residue, x: seq<bool>)
    ensures Feed(r, x) == Remainder(Load(r, x))
    decreases |x|
  {
    var s := Load(r, x);
    if x == [] {
      assert s == r;
    } else {
      var r' := BitStep(r, x[0]);
      var s' := Load(r', x[1..]);
      FeedIsRemainder(r', x[1..]);
      forall i | 0 <= i < |s'| ensures s'[i] == AddPoly(s[1..], s[0])[i] {
        if i < 16 { assert r'[i] == ((i < 15 && Xor(r, Times(TOP, x[0]))[i + 1]) != (s[0] && POLY[i])); }
      }
      assert s' == AddPoly(s[1..], s[0]);
    }
  }

  // ---------------------------------------------------------------------
  // Which strings leave the register at zero.
  // ---------------------------------------------------------------------

  lemma {:induction false} FirstStep(b: bool)
    ensures BitStep(ZERO, b) == Times(POLY, b)
  {
    MulXOfTop();
    if b { assert Xor(ZERO, TOP) == TOP; } else { assert Xor(ZERO, ZERO) == ZERO && MulX(ZERO) == ZERO; }
  }

  lemma {:induction false} AddPolyIsXor(m: seq<bool>, b: bool)
    requires |m| >= 16
    ensures AddPoly(m, b) == Xor(m, Times(POLY, b) + Zeros(|m| - 16))
  {}

  lemma {:induction false} WordThenZeros(r: Residue, n: nat)
    ensures Feed(r, r + Zeros(n)) == ZERO
  {
    FeedAppend(r, r, Zeros(n));
    FeedToZero(r, r);
    FeedZeros(ZERO, n);
    MulXnZero(n);
  }

  /** Adding what feeds to zero makes no difference. */
  lemma {:induction false} FeedXor(m: seq<bool>, low: seq<bool>, r: Residue)
    requires |m| == |low| && Feed(ZERO, m) == ZERO
    ensures Feed(r, Xor(m, low)) == Feed(r, low)
  {
    FeedLinear(ZERO, r, m, low);
    XorZero(r);
    XorZero(Feed(r, low));
  }

  lemma {:induction false} FeedLeading(b: bool, t: seq<bool>)
    ensures Feed(ZERO, [b] + t) == Feed(Times(POLY, b), t)
  {
    FirstStep(b);
    assert ([b] + t)[1..] == t;
  }

  lemma {:induction false} XorZero(r: Residue)
    ensures Xor(ZERO, r) == r
  {}

  lemma {:induction false} MultipleFeedsToZero(q: seq<bool>)
    ensures Feed(ZERO, Multiple(q)) == ZERO
    decreases |q|
  {
    if q == [] {
      FeedZeros(ZERO, 16);
      MulXnZero(16);
    } else {
      var m, r := Multiple(q[1..]), Times(POLY, q[0]);
      MultipleFeedsToZero(q[1..]);
      WordThenZeros(r, |m| - 16);
      FeedXor(m, r + Zeros(|m| - 16), r);
      AddPolyIsXor(m, q[0]);
      FeedLeading(q[0], AddPoly(m, q[0]));
    }
  }

  lemma {:induction false} SumIsXor(s: seq<bool>, m: seq<bool>, r: Residue)
    requires |s| == |m| >= 16 && IsSum(s, m, r)
    ensures s == Xor(m, Zeros(|s| - 16) + r)
  {}

  lemma {:induction false} FeedLow(n: nat, r: Residue)
    ensures Feed(ZERO, Zeros(n) + r) == ZERO <==> r == ZERO
  {
    FeedAppend(ZERO, Zeros(n), r);
    FeedZeros(ZERO, n);
    MulXnZero(n);
    FeedToZero(ZERO, r);
  }

  /** What leaves zero is a multiple of the generator. */
  lemma {:induction false} ZeroIsMultiple(d: seq<bool>) returns (q: seq<bool>)
    requires |d| >= 16 && Feed(ZERO, d) == ZERO
    ensures |q| == |d| - 16 && d == Multiple(q)
  {
    q := DivisionTheorem(d);
    var n, r := |d| - 16, Remainder(d);
    SumIsXor(d, Multiple(q), r);
    MultipleFeedsToZero(q);
    FeedXor(Multiple(q), Zeros(n) + r, ZERO);
    FeedLow(n, r);
  }

  /** The register leaves zero exactly for the multiples of the generator. */
  lemma {:induction false} ZeroIffMultiple(d: seq<bool>)
    requires |d| >= 16
    ensures Feed(ZERO, d) == ZERO <==> exists q :: |q| == |d| - 16 && d == Multiple(q)
  {
    if Feed(ZERO, d) == ZERO { var q := ZeroIsMultiple(d); }
    if q :| |q| == |d| - 16 && d == Multiple(q) { MultipleFeedsToZero(q); }
  }
}
