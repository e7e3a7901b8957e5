/** The CRC-16 of src/arc_protocol.c: generator x^16 + x^12 + x^5 + 1, register preset to 0xFFFF. */
module Checksum {
  import opened Bytes
  import opened Gf2
  import opened Gf2Order
  import opened Gf2Period

  /** `(uint16_t)b << 8`, as sixteen bits. */
  function AtTop(b: byte): Residue { ByteBits(b) + Zeros(8) }

  /** `((uint16_t)hi << 8) | lo`. */
  function FromBytes(hi: byte, lo: byte): Residue { ByteBits(hi) + ByteBits(lo) }

  /** `(uint8_t)(crc >> 8)`. */
  function HighByte(crc: Residue): byte { ByteOf(crc[..8]) }

  /** `(uint8_t)(crc & 0xFF)`. */
  function LowByte(crc: Residue): byte { ByteOf(crc[8..]) }

  lemma {:induction false} BytesOfCrc(crc: Residue)
    ensures FromBytes(HighByte(crc), LowByte(crc)) == crc
  {
    BitsOfValueOf(crc[..8]);
    BitsOfValueOf(crc[8..]);
  }

  lemma {:induction false} CrcOfBytes(hi: byte, lo: byte)
    ensures HighByte(FromBytes(hi, lo)) == hi && LowByte(FromBytes(hi, lo)) == lo
  {
    var crc := FromBytes(hi, lo);
    assert crc[..8] == ByteBits(hi) && crc[8..] == ByteBits(lo);
    ByteOfBits(hi);
    ByteOfBits(lo);
  }

  /** One byte: added in at the top, then one shift for each of its bits. */
  function Absorb(r: Residue, b: byte): Residue {
    MulXn(Xor(r, AtTop(b)), |ByteBits(b)|)
  }

  /** The register r after it has absorbed the bytes s. */
  function CrcFrom(r: Residue, s: seq<byte>): Residue
    decreases |s|
  {
    if s == [] then r else CrcFrom(Absorb(r, s[0]), s[1..])
  }

  function Crc(s: seq<byte>): Residue { CrcFrom(ONES, s) }

  /** The inner loop of arc_crc16; the uint16_t register is kept as its bits. */
  method ShiftEight(start: Residue) returns (crc: Residue)
    ensures crc == MulXn(start, 8)
  {
    crc := start;
    for b := 0 to 8
      invariant crc == MulXn(start, b)
    {
      ghost var before := crc;
      if crc[0] {
        crc := Xor(crc[1..] + [false], POLY);
      } else {
        crc := crc[1..] + [false];
      }
      assert crc == MulX(before);
      MulXnStep(start, b);
    }
  }

  /** arc_crc16 over the first len bytes of data. */
  method Crc16(data: array<byte>, len: nat) returns (crc: Residue)
    requires len <= data.Length
    ensures crc == Crc(data[..len])
  {
    crc := ONES;
    ghost var s := data[..len];
    for i := 0 to len
      invariant CrcFrom(crc, s[i..]) == Crc(s)
    {
      assert s[i..][0] == data[i] && s[i..][1..] == s[i + 1..];
      crc := ShiftEight(Xor(crc, AtTop(data[i])));
    }
  }

  // ---------------------------------------------------------------------
  // What the checksum is.
  // ---------------------------------------------------------------------

  lemma {:induction false} CrcIsFeed(r: Residue, s: seq<byte>)
    ensures CrcFrom(r, s) == Feed(r, Bits(s))
    decreases |s|
  {
    if s != [] {
      var b := ByteBits(s[0]);
      assert Padded(b) == AtTop(s[0]);
      FeedWord(r, b);
      FeedAppend(r, b, Bits(s[1..]));
      CrcIsFeed(Absorb(r, s[0]), s[1..]);
    }
  }

  /** The loop computes a polynomial remainder: the message times x^16, its first sixteen bits inverted. */
  lemma {:induction false} CrcIsRemainder(s: seq<byte>)
    ensures Crc(s) == Remainder(Load(ONES, Bits(s)))
  {
    CrcIsFeed(ONES, s);
    FeedIsRemainder(ONES, Bits(s));
  }

  lemma {:induction false} BitsAppend(s: seq<byte>, t: seq<byte>)
    ensures Bits(s + t) == Bits(s) + Bits(t)
    decreases |s|
  {
    if s == [] {
      assert s + t == t;
    } else {
      assert (s + t)[1..] == s[1..] + t;
      BitsAppend(s[1..], t);
      assert ByteBits(s[0]) + (Bits(s[1..]) + Bits(t)) == (ByteBits(s[0]) + Bits(s[1..])) + Bits(t);
    }
  }

  /** The comparison arc_frame_parse makes: the last two bytes are the checksum of the others. */
  predicate Passes(s: seq<byte>) {
    |s| >= 2 && Crc(s[..|s| - 2]) == FromBytes(s[|s| - 2], s[|s| - 1])
  }

  /** A string passes exactly when the checksum over all of it, trailer included, is zero. */
  lemma {:induction false} PassesIffZeroResidue(s: seq<byte>)
    requires |s| >= 2
    ensures Passes(s) <==> Crc(s) == ZERO
  {
    var n := |s| - 2;
    var trailer := s[n..];
    assert s == s[..n] + trailer;
    BitsAppend(s[..n], trailer);
    CrcIsFeed(ONES, s);
    CrcIsFeed(ONES, s[..n]);
    FeedAppend(ONES, Bits(s[..n]), Bits(trailer));
    assert Bits(trailer) == FromBytes(s[n], s[n + 1]) by {
      assert trailer[1..] == [s[n + 1]];
      assert Bits([s[n + 1]]) == ByteBits(s[n + 1]) + Bits([s[n + 1]][1..]);
    }
    FeedToZero(Crc(s[..n]), FromBytes(s[n], s[n + 1]));
  }

  lemma {:induction false} OnesCancel()
    ensures Xor(ONES, ONES) == ZERO
  {}

  /** Affine over XOR: for messages of one length, the checksums differ by the remainder of the difference. */
  lemma {:induction false} CrcDifference(s: seq<byte>, t: seq<byte>)
    requires |s| == |t|
    ensures Xor(Crc(s), Crc(t)) == Feed(ZERO, Xor(Bits(s), Bits(t)))
  {
    CrcIsFeed(ONES, s);
    CrcIsFeed(ONES, t);
    OnesCancel();
    FeedLinear(ONES, ONES, Bits(s), Bits(t));
  }

  /** An error pattern goes undetected exactly when it leaves remainder zero. */
  lemma {:induction false} UndetectedIffZero(s: seq<byte>, t: seq<byte>)
    requires |s| == |t| && Passes(s)
    ensures Passes(t) <==> Feed(ZERO, Xor(Bits(s), Bits(t))) == ZERO
  {
    PassesIffZeroResidue(s);
    PassesIffZeroResidue(t);
    CrcDifference(s, t);
    var d := Xor(Crc(s), Crc(t));
    if d == ZERO {
      forall i | 0 <= i < 16 ensures Crc(t)[i] == ZERO[i] { assert d[i] == ZERO[i]; }
    }
  }

  /** An error pattern goes undetected exactly when it is a multiple of the generator. */
  lemma {:induction false} UndetectedIff(s: seq<byte>, t: seq<byte>)
    requires |s| == |t| && Passes(s)
    ensures Passes(t) <==> exists q :: |q| == 8 * |s| - 16 && Xor(Bits(s), Bits(t)) == Multiple(q)
  {
    UndetectedIffZero(s, t);
    ZeroIffMultiple(Xor(Bits(s), Bits(t)));
  }

  // ---------------------------------------------------------------------
  // Which errors it detects.
  // ---------------------------------------------------------------------

  function Weight(x: seq<bool>): nat {
    if x == [] then 0 else (if x[0] then 1 else 0) + Weight(x[1..])
  }

  /** Number of places in which two bit strings of one length differ. */
  function Distance(x: seq<bool>, y: seq<bool>): nat
    requires |x| == |y|
  {
    Weight(Xor(x, y))
  }

  predicate Odd(x: seq<bool>) { Weight(x) % 2 == 1 }

  lemma {:induction false} OddAppend(x: seq<bool>, y: seq<bool>)
    ensures Odd(x + y) == (Odd(x) != Odd(y))
    decreases |x|
  {
    if x == [] {
      assert x + y == y;
    } else {
      assert (x + y)[1..] == x[1..] + y;
      OddAppend(x[1..], y);
    }
  }

  lemma {:induction false} OddXor(x: seq<bool>, y: seq<bool>)
    requires |x| == |y|
    ensures Odd(Xor(x, y)) == (Odd(x) != Odd(y))
    decreases |x|
  {
    if x != [] {
      assert Xor(x, y)[1..] == Xor(x[1..], y[1..]);
      OddXor(x[1..], y[1..]);
    }
  }

  lemma {:induction false} ZerosWeighNothing(n: nat)
    ensures Weight(Zeros(n)) == 0
  {
    if n > 0 {
      assert Zeros(n)[1..] == Zeros(n - 1);
      ZerosWeighNothing(n - 1);
    }
  }

  lemma {:induction false} OddSingle(b: bool)
    ensures Odd([b]) == b
  {
    assert Weight([b]) == (if b then 1 else 0) + Weight([b][1..]);
  }

  lemma {:induction false} OddShifted(r: Residue)
    ensures Odd(r[1..] + [false]) == (Odd(r) != r[0])
  {
    OddAppend(r[1..], [false]);
    OddSingle(false);
    OddSingle(r[0]);
    OddAppend([r[0]], r[1..]);
    assert [r[0]] + r[1..] == r;
  }

  lemma {:induction false} OddTimes(r: Residue, b: bool)
    ensures Odd(Times(r, b)) == (b && Odd(r))
  {
    if b {
      assert Times(r, b) == r;
    } else {
      assert Times(r, b) == Zeros(16);
      ZerosWeighNothing(16);
    }
  }

  /** The generator has an even number of terms, so a shift keeps parity. */
  lemma {:induction false} MulXKeepsParity(r: Residue)
    ensures Odd(MulX(r)) == Odd(r)
  {
    MulXSplit(r);
    OddXor(r[1..] + [false], Times(POLY, r[0]));
    OddShifted(r);
    OddTimes(POLY, r[0]);
    PolyIsOdd();
  }

  lemma {:induction false} PolyIsOdd()
    ensures Odd(POLY)
  {
    var a, b, c := Zeros(3) + [true], Zeros(6) + [true], Zeros(4) + [true];
    assert POLY == a + (b + c);
    OddAppend(a, b + c);
    OddAppend(b, c);
    OddAppend(Zeros(3), [true]);
    OddAppend(Zeros(6), [true]);
    OddAppend(Zeros(4), [true]);
    ZerosWeighNothing(3);
    ZerosWeighNothing(6);
    ZerosWeighNothing(4);
    OddSingle(true);
  }

  lemma {:induction false} TopIsOdd()
    ensures Odd(TOP)
  {
    OddAppend([true], Zeros(15));
    OddSingle(true);
    ZerosWeighNothing(15);
  }

  lemma {:induction false} BitStepParity(r: Residue, b: bool)
    ensures Odd(BitStep(r, b)) == (Odd(r) != b)
  {
    MulXKeepsParity(Xor(r, Times(TOP, b)));
    OddXor(r, Times(TOP, b));
    TopIsOdd();
    OddTimes(TOP, b);
  }

  lemma {:induction false} FeedKeepsParity(r: Residue, x: seq<bool>)
    ensures Odd(Feed(r, x)) == (Odd(r) != Odd(x))
    decreases |x|
  {
    if x != [] {
      FeedKeepsParity(BitStep(r, x[0]), x[1..]);
      BitStepParity(r, x[0]);
    }
  }

  /** The bit string of length n with ones exactly at i and j. */
  function TwoOnes(n: nat, i: nat, j: nat): (x: seq<bool>)
    ensures |x| == n && forall k :: 0 <= k < n ==> x[k] == (k == i || k == j)
  {
    seq(n, k => k == i || k == j)
  }

  lemma {:induction false} FeedTwoOnes(n: nat, i: nat, j: nat)
    requires i < j < n
    ensures Feed(ZERO, TwoOnes(n, i, j)) == ZERO <==> (j - i) % 32767 == 0
  {
    var d := j - i;
    var tail := Zeros(n - j - 1);
    var r := MulXn(TOP, d);
    assert TwoOnes(n, i, j) == Zeros(i) + ([true] + (Zeros(d - 1) + ([true] + tail)));
    FeedAppend(ZERO, Zeros(i), [true] + (Zeros(d - 1) + ([true] + tail)));
    FeedZeros(ZERO, i);
    MulXnZero(i);
    FeedOne(ZERO, Zeros(d - 1) + ([true] + tail));
    assert Xor(ZERO, TOP) == TOP;
    FeedAppend(MulX(TOP), Zeros(d - 1), [true] + tail);
    FeedZeros(MulX(TOP), d - 1);
    FeedOne(r, tail);
    FeedZeros(MulX(Xor(r, TOP)), n - j - 1);
    ZeroIffSame(r, TOP, n - j);
    TopReturns(d);
  }

  lemma {:induction false} FeedOne(r: Residue, x: seq<bool>)
    ensures Feed(r, [true] + x) == Feed(MulX(Xor(r, TOP)), x)
  {
    assert ([true] + x)[1..] == x;
    assert Times(TOP, true) == TOP;
  }

  lemma {:induction false} ZeroIffSame(a: Residue, b: Residue, n: nat)
    requires n > 0
    ensures MulXn(MulX(Xor(a, b)), n - 1) == ZERO <==> a == b
  {
    MulXnZero(n);
    if MulXn(Xor(a, b), n) == ZERO {
      MulXnInjective(Xor(a, b), ZERO, n);
      forall i | 0 <= i < 16 ensures a[i] == b[i] { assert Xor(a, b)[i] == ZERO[i]; }
    }
    if a == b { assert Xor(a, b) == ZERO; }
  }

  lemma {:induction false} TopReturns(d: nat)
    ensures MulXn(TOP, d) == TOP <==> d % 32767 == 0
  {
    PowerFifteen();
    MulXnAdd(ONE, 15, d);
    MulXnAdd(ONE, d, 15);
    OrderOfX(d);
    if MulXn(TOP, d) == TOP { MulXnInjective(PowX(d), ONE, 15); }
  }

  /** A two-bit error is missed exactly when its bits are a multiple of 32767 places apart. */
  lemma {:induction false} TwoBitErrors(s: seq<byte>, t: seq<byte>, i: nat, j: nat)
    requires |s| == |t| && Passes(s) && i < j < 8 * |s|
    requires Xor(Bits(s), Bits(t)) == TwoOnes(8 * |s|, i, j)
    ensures Passes(t) <==> (j - i) % 32767 == 0
  {
    UndetectedIffZero(s, t);
    FeedTwoOnes(8 * |s|, i, j);
  }

  lemma {:induction false} WeightZero(x: seq<bool>)
    requires Weight(x) == 0
    ensures forall k :: 0 <= k < |x| ==> !x[k]
  {
    if x != [] {
      WeightZero(x[1..]);
      forall k | 0 <= k < |x| ensures !x[k] { if k > 0 { assert !x[1..][k - 1]; } }
    }
  }

  lemma {:induction false} WeightOne(x: seq<bool>) returns (i: nat)
    requires Weight(x) == 1
    ensures i < |x| && forall k :: 0 <= k < |x| ==> x[k] == (k == i)
    decreases |x|
  {
    if x[0] {
      i := 0;
      WeightZero(x[1..]);
      forall k | 0 <= k < |x| ensures x[k] == (k == i) { if k > 0 { assert !x[1..][k - 1]; } }
    } else {
      var j := WeightOne(x[1..]);
      i := j + 1;
      forall k | 0 <= k < |x| ensures x[k] == (k == i) { if k > 0 { assert x[1..][k - 1] == (k - 1 == j); } }
    }
  }

  lemma {:induction false} WeightTwo(x: seq<bool>) returns (i: nat, j: nat)
    requires Weight(x) == 2
    ensures i < j < |x| && x == TwoOnes(|x|, i, j)
    decreases |x|
  {
    if x[0] {
      i := 0;
      var j' := WeightOne(x[1..]);
      j := j' + 1;
      forall k | 0 <= k < |x| ensures x[k] == (k == i || k == j) {
        if k > 0 { assert x[1..][k - 1] == (k - 1 == j'); }
      }
    } else {
      var i', j' := WeightTwo(x[1..]);
      i, j := i' + 1, j' + 1;
      forall k | 0 <= k < |x| ensures x[k] == (k == i || k == j) {
        if k > 0 { assert x[1..][k - 1] == (k - 1 == i' || k - 1 == j'); }
      }
    }
  }

  lemma {:induction false} OddIsNonzero(x: seq<bool>)
    requires Odd(x)
    ensures Feed(ZERO, x) != ZERO
  {
    FeedKeepsParity(ZERO, x);
    ZerosWeighNothing(16);
  }

  lemma {:induction false} TwoIsNonzero(x: seq<bool>, i: nat, j: nat)
    requires |x| <= 32767 && i < j < |x| && x == TwoOnes(|x|, i, j)
    ensures Feed(ZERO, x) != ZERO
  {
    FeedTwoOnes(|x|, i, j);
  }

  lemma {:induction false} WeightTwoIsNonzero(x: seq<bool>)
    requires Weight(x) == 2 && |x| <= 32767
    ensures Feed(ZERO, x) != ZERO
  {
    var i, j := WeightTwo(x);
    TwoIsNonzero(x, i, j);
  }

  lemma {:induction false} FewIsNonzero(x: seq<bool>)
    requires 1 <= Weight(x) <= 3 && |x| <= 32767
    ensures Feed(ZERO, x) != ZERO
  {
    var w := Weight(x);
    if w == 2 {
      WeightTwoIsNonzero(x);
    } else {
      assert w == 1 || w == 3;
      OddIsNonzero(x);
    }
  }

  lemma {:induction false} FeedBurst(o: nat, burst: Residue, n: nat)
    ensures Feed(ZERO, Zeros(o) + (burst + Zeros(n))) == MulXn(Feed(ZERO, burst), n)
  {
    FeedAppend(ZERO, Zeros(o), burst + Zeros(n));
    FeedZeros(ZERO, o);
    MulXnZero(o);
    FeedAppend(ZERO, burst, Zeros(n));
    FeedZeros(Feed(ZERO, burst), n);
  }

  lemma {:induction false} BurstMustBeZero(burst: Residue, n: nat)
    requires MulXn(Feed(ZERO, burst), n) == ZERO
    ensures burst == ZERO
  {
    MulXnZero(n);
    MulXnInjective(Feed(ZERO, burst), ZERO, n);
    FeedToZero(ZERO, burst);
  }

  lemma {:induction false} BurstAlone(x: seq<bool>, o: nat)
    requires o + 16 <= |x| && forall k :: 0 <= k < |x| && !(o <= k < o + 16) ==> !x[k]
    ensures x == Zeros(o) + (x[o..o + 16] + Zeros(|x| - o - 16))
  {}

  lemma {:induction false} BurstIsNonzero(x: seq<bool>, o: nat)
    requires o + 16 <= |x| && Feed(ZERO, x) == ZERO
    requires forall k :: 0 <= k < |x| && !(o <= k < o + 16) ==> !x[k]
    ensures x == Zeros(|x|)
  {
    var burst: Residue := x[o..o + 16];
    var n := |x| - o - 16;
    BurstAlone(x, o);
    FeedBurst(o, burst, n);
    BurstMustBeZero(burst, n);
    forall k | 0 <= k < |x| ensures !x[k] {
      if o <= k < o + 16 { assert burst[k - o] == ZERO[k - o]; }
    }
  }

  lemma {:induction false} XorIsZeroIffSame(x: seq<bool>, y: seq<bool>)
    requires |x| == |y|
    ensures Xor(x, y) == Zeros(|x|) <==> x == y
  {
    if Xor(x, y) == Zeros(|x|) {
      forall k | 0 <= k < |x| ensures x[k] == y[k] { assert !Xor(x, y)[k]; }
    }
  }

  lemma {:induction false} BurstsDiffer(x: seq<bool>, y: seq<bool>, o: nat)
    requires |x| == |y| && o + 16 <= |x|
    requires forall k :: 0 <= k < |x| && !(o <= k < o + 16) ==> x[k] == y[k]
    ensures Feed(ZERO, Xor(x, y)) == ZERO ==> x == y
  {
    if Feed(ZERO, Xor(x, y)) == ZERO {
      BurstIsNonzero(Xor(x, y), o);
      XorIsZeroIffSame(x, y);
    }
  }

  /** Strings of one length that both pass differ in an even number of bits, whatever the length. */
  lemma {:induction false} OddErrorsDetected(s: seq<byte>, t: seq<byte>)
    requires |s| == |t| && Passes(s) && Distance(Bits(s), Bits(t)) % 2 == 1
    ensures !Passes(t)
  {
    UndetectedIffZero(s, t);
    OddIsNonzero(Xor(Bits(s), Bits(t)));
  }

  /** Up to 4095 bytes, changing one, two or three bits of a string that passes is always detected. */
  lemma {:induction false} MinimumDistance(s: seq<byte>, t: seq<byte>)
    requires |s| == |t| && Passes(s) && |s| <= 4095
    requires 1 <= Distance(Bits(s), Bits(t)) <= 3
    ensures !Passes(t)
  {
    UndetectedIffZero(s, t);
    FewIsNonzero(Xor(Bits(s), Bits(t)));
  }

  /** Any change confined to sixteen consecutive bits, byte-aligned or not, is detected. */
  lemma {:induction false} BurstsDetected(s: seq<byte>, t: seq<byte>, o: nat)
    requires |s| == |t| && Passes(s) && s != t
    requires o + 16 <= 8 * |s|
    requires forall k :: 0 <= k < 8 * |s| && !(o <= k < o + 16) ==> Bits(s)[k] == Bits(t)[k]
    ensures !Passes(t)
  {
    UndetectedIffZero(s, t);
    BurstsDiffer(Bits(s), Bits(t), o);
    if Bits(s) == Bits(t) { BitsInjective(s, t); }
  }

  /** The generator itself, seventeen bits of which four are set, at position o of n bits. */
  function GeneratorAt(o: nat, n: nat): (x: seq<bool>)
    requires o + 17 <= n
    ensures |x| == n
  {
    Zeros(o) + ([true] + (POLY + Zeros(n - o - 17)))
  }

  lemma {:induction false} GeneratorFeedsToZero(o: nat, n: nat)
    requires o + 17 <= n
    ensures Feed(ZERO, GeneratorAt(o, n)) == ZERO
  {
    var tail := Zeros(n - o - 17);
    FeedAppend(ZERO, Zeros(o), [true] + (POLY + tail));
    FeedZeros(ZERO, o);
    MulXnZero(o);
    FeedOne(ZERO, POLY + tail);
    assert Xor(ZERO, TOP) == TOP;
    MulXOfTop();
    FeedAppend(POLY, POLY, tail);
    FeedToZero(POLY, POLY);
    FeedZeros(ZERO, n - o - 17);
    MulXnZero(n - o - 17);
  }

  lemma {:induction false} WeightAppend(x: seq<bool>, y: seq<bool>)
    ensures Weight(x + y) == Weight(x) + Weight(y)
    decreases |x|
  {
    if x == [] {
      assert x + y == y;
    } else {
      assert (x + y)[1..] == x[1..] + y;
      WeightAppend(x[1..], y);
    }
  }

  lemma {:induction false} WeightOfOne()
    ensures Weight([true]) == 1
  {
    assert [true][1..] == [];
  }

  lemma {:induction false} PolyWeighsThree()
    ensures Weight(POLY) == 3
  {
    var a, b, c := Zeros(3) + [true], Zeros(6) + [true], Zeros(4) + [true];
    assert POLY == a + (b + c);
    WeightAppend(a, b + c);
    WeightAppend(b, c);
    WeightAppend(Zeros(3), [true]);
    WeightAppend(Zeros(6), [true]);
    WeightAppend(Zeros(4), [true]);
    ZerosWeighNothing(3);
    ZerosWeighNothing(6);
    ZerosWeighNothing(4);
    WeightOfOne();
  }

  lemma {:induction false} GeneratorWeighsFour(o: nat, n: nat)
    requires o + 17 <= n
    ensures Weight(GeneratorAt(o, n)) == 4
  {
    var tail := Zeros(n - o - 17);
    WeightAppend(Zeros(o), [true] + (POLY + tail));
    WeightAppend([true], POLY + tail);
    WeightAppend(POLY, tail);
    ZerosWeighNothing(o);
    ZerosWeighNothing(n - o - 17);
    WeightOfOne();
    PolyWeighsThree();
  }

  /** Both bounds are sharp: the generator's own pattern, four bits within seventeen, goes undetected anywhere. */
  lemma {:induction false} FourBitsInSeventeenPass(s: seq<byte>, t: seq<byte>, o: nat)
    requires |s| == |t| && Passes(s) && o + 17 <= 8 * |s|
    requires Xor(Bits(s), Bits(t)) == GeneratorAt(o, 8 * |s|)
    ensures Passes(t) && Distance(Bits(s), Bits(t)) == 4
  {
    UndetectedIffZero(s, t);
    GeneratorFeedsToZero(o, 8 * |s|);
    GeneratorWeighsFour(o, 8 * |s|);
  }
}
