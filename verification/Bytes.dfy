/** Bytes, wider unsigned integers and their bits; the result codes every module returns. */
module Bytes {
  type byte = x: int | 0 <= x < 0x100
  type u16 = x: int | 0 <= x < 0x1_0000
  type u32 = x: int | 0 <= x < 0x1_0000_0000

  /** The negative arc_result_t codes. */
  datatype Error = Buffer | TooShort | TooLong | BadLength | BadCrc | BadCobs | BadArg

  datatype Result<+T> = Ok(value: T) | Err(error: Error)

  function High(x: u16): byte { x / 0x100 }

  function Low(x: u16): byte { x % 0x100 }

  function Join(hi: byte, lo: byte): u16 { hi * 0x100 + lo }

  function Pow2(k: nat): (p: nat)
    ensures p > 0
  {
    if k == 0 then 1 else 2 * Pow2(k - 1)
  }

  /** The low k bits of n, most significant first. */
  function BitsOf(n: nat, k: nat): (r: seq<bool>)
    ensures |r| == k
  {
    if k == 0 then [] else BitsOf(n / 2, k - 1) + [n % 2 == 1]
  }

  /** The number whose bits, most significant first, are s. */
  function ValueOf(s: seq<bool>): (n: nat)
    ensures n < Pow2(|s|)
  {
    if s == [] then 0 else 2 * ValueOf(s[..|s| - 1]) + if s[|s| - 1] then 1 else 0
  }

  lemma {:induction false} ValueOfBitsOf(n: nat, k: nat)
    requires n < Pow2(k)
    ensures ValueOf(BitsOf(n, k)) == n
  {
    if k > 0 {
      var s := BitsOf(n, k);
      assert s[..k - 1] == BitsOf(n / 2, k - 1);
      ValueOfBitsOf(n / 2, k - 1);
    }
  }

  lemma {:induction false} BitsOfValueOf(s: seq<bool>)
    ensures BitsOf(ValueOf(s), |s|) == s
  {
    if s != [] {
      BitsOfValueOf(s[..|s| - 1]);
    }
  }

  /** The eight bits of a byte, most significant first. */
  function ByteBits(b: byte): (r: seq<bool>)
    ensures |r| == 8
  {
    BitsOf(b, 8)
  }

  function ByteOf(s: seq<bool>): byte
    requires |s| == 8
  {
    assert Pow2(8) == 0x100;
    ValueOf(s)
  }

  lemma {:induction false} ByteOfBits(b: byte)
    ensures ByteOf(ByteBits(b)) == b
  {
    assert Pow2(8) == 0x100;
    ValueOfBitsOf(b, 8);
  }

  /** All bits of a byte string, in transmission order. */
  function Bits(s: seq<byte>): (r: seq<bool>)
    ensures |r| == 8 * |s|
  {
    if s == [] then [] else ByteBits(s[0]) + Bits(s[1..])
  }

  lemma {:induction false} BitsInjective(s: seq<byte>, t: seq<byte>)
    requires |s| == |t| && Bits(s) == Bits(t)
    ensures s == t
  {
    if s != [] {
      var x, y := Bits(s), Bits(t);
      assert x[..8] == ByteBits(s[0]) && x[8..] == Bits(s[1..]);
      assert y[..8] == ByteBits(t[0]) && y[8..] == Bits(t[1..]);
      BitsInjective(s[1..], t[1..]);
      ByteOfBits(s[0]);
      ByteOfBits(t[0]);
      assert s == [s[0]] + s[1..] && t == [t[0]] + t[1..];
    }
  }

  /** Bit k of n, that is, whether `n & (1 << k)` is nonzero. */
  predicate HasBit(n: nat, k: nat) {
    if k == 0 then n % 2 == 1 else HasBit(n / 2, k - 1)
  }

  /** In arithmetic terms. */
  lemma {:induction false} HasBitIs(n: nat, k: nat)
    ensures HasBit(n, k) <==> (n / Pow2(k)) % 2 == 1
  {
    if k > 0 {
      HasBitIs(n / 2, k - 1);
      DivideTwice(n, 2, Pow2(k - 1));
    }
  }

  lemma {:induction false} DivideTwice(n: nat, a: nat, p: nat)
    requires a > 0 && p > 0
    ensures a * p > 0 && n / a / p == n / (a * p)
  {
    var m := n / a;
    var q := m / p;
    Divided(n, a);
    Divided(m, p);
    Scaled(a, m % p, p, n % a);
    Expanded(a, q, p, m % p);
    QuotientIs(n, a * p, q, a * (m % p) + n % a);
  }

  lemma {:induction false} Divided(n: nat, p: nat)
    requires p > 0
    ensures n == (n / p) * p + n % p == p * (n / p) + n % p && n % p < p
  {}

  lemma {:induction false} Expanded(a: nat, q: nat, p: nat, r: nat)
    ensures a * (q * p + r) == q * (a * p) + a * r
  {}

  lemma {:induction false} Scaled(a: nat, r: nat, p: nat, low: nat)
    requires r < p && low < a
    ensures 0 <= a * r + low < a * p
  {
    assert a * (r + 1) <= a * p;
  }

  lemma {:induction false} QuotientIs(n: nat, p: nat, q: nat, r: nat)
    requires n == q * p + r && r < p
    ensures n / p == q
  {
    var d := n / p - q;
    assert n == (n / p) * p + n % p;
    assert d * p == (n / p) * p - q * p;
    if d != 0 { NotSmaller(d, p); }
  }

  lemma {:induction false} NotSmaller(d: int, p: nat)
    requires d != 0
    ensures d * p >= p || d * p + p <= 0
  {}

  /** The C operator `|` on unsigned integers. */
  function OrNats(a: nat, b: nat): nat {
    if a == 0 then b
    else if b == 0 then a
    else 2 * OrNats(a / 2, b / 2) + if a % 2 == 1 || b % 2 == 1 then 1 else 0
  }

  lemma {:induction false} OrFits(a: nat, b: nat, k: nat)
    requires a < Pow2(k) && b < Pow2(k)
    ensures OrNats(a, b) < Pow2(k)
  {
    if a != 0 && b != 0 { OrFits(a / 2, b / 2, k - 1); }
  }

  function Or(a: byte, b: byte): byte {
    assert Pow2(8) == 0x100;
    OrFits(a, b, 8);
    OrNats(a, b)
  }

  lemma {:induction false} ZeroHasNoBit(k: nat)
    ensures !HasBit(0, k)
  {
    if k > 0 { ZeroHasNoBit(k - 1); }
  }

  lemma {:induction false} OrHasBit(a: nat, b: nat, k: nat)
    ensures HasBit(OrNats(a, b), k) == (HasBit(a, k) || HasBit(b, k))
  {
    if a == 0 || b == 0 {
      ZeroHasNoBit(k);
    } else if k > 0 {
      OrHasBit(a / 2, b / 2, k - 1);
    }
  }

  /** `x | 1`. */
  lemma {:induction false} OrOne(a: nat)
    ensures OrNats(a, 1) == if a % 2 == 1 then a else a + 1
  {
    if a != 0 { assert OrNats(a / 2, 0) == a / 2; }
  }

  lemma {:induction false} OrNatsCommute(a: nat, b: nat)
    ensures OrNats(a, b) == OrNats(b, a)
  {
    if a != 0 && b != 0 { OrNatsCommute(a / 2, b / 2); }
  }

  lemma {:induction false} OrNatsHalves(a: nat, b: nat)
    ensures OrNats(a, b) / 2 == OrNats(a / 2, b / 2)
    ensures OrNats(a, b) % 2 == 1 <==> a % 2 == 1 || b % 2 == 1
  {}

  lemma {:induction false} OrNatsAssociate(a: nat, b: nat, c: nat)
    ensures OrNats(OrNats(a, b), c) == OrNats(a, OrNats(b, c))
  {
    if a != 0 && b != 0 && c != 0 {
      var l, r := OrNats(OrNats(a, b), c), OrNats(a, OrNats(b, c));
      OrNatsAssociate(a / 2, b / 2, c / 2);
      OrNatsHalves(a, b);
      OrNatsHalves(b, c);
      OrNatsHalves(OrNats(a, b), c);
      OrNatsHalves(a, OrNats(b, c));
      assert l / 2 == r / 2 && l % 2 == r % 2;
    }
  }

  lemma {:induction false} OrNatsIdempotent(a: nat)
    ensures OrNats(a, a) == a
  {
    if a != 0 { OrNatsIdempotent(a / 2); }
  }

  lemma {:induction false} Associate<T>(a: seq<T>, b: seq<T>, c: seq<T>)
    ensures a + (b + c) == (a + b) + c
  {}

  lemma {:induction false} PrefixSlice<T>(s: seq<T>, len: nat, i: nat, j: nat)
    requires i <= j <= len <= |s|
    ensures s[..len][i..j] == s[i..j]
  {}

  /** memcpy between two buffers. */
  method Memcpy(dst: array<byte>, to: nat, src: array<byte>, from: nat, n: nat)
    requires dst != src && to + n <= dst.Length && from + n <= src.Length
    modifies dst
    ensures dst[..] == old(dst[..to]) + src[from..from + n] + old(dst[to + n..])
    ensures dst[..to + n] == old(dst[..to]) + src[from..from + n] && dst[to + n..] == old(dst[to + n..])
  {
    for k := 0 to n
      invariant dst[..] == old(dst[..to]) + src[from..from + k] + old(dst[to + k..])
    {
      dst[to + k] := src[from + k];
    }
  }

  /** `dst[at] = b` where dst is being filled from the front. */
  method Push(dst: array<byte>, at: nat, b: byte)
    requires at < dst.Length
    modifies dst
    ensures dst[..] == old(dst[..at]) + [b] + old(dst[at + 1..])
    ensures dst[..at + 1] == old(dst[..at]) + [b] && dst[at + 1..] == old(dst[at + 1..])
  {
    dst[at] := b;
  }
}
