/** The two back ends of the generator agree: with each other, and with one description of the wire format. */
module CodegenProofs {
  import opened Bytes
  import opened Codegen

  // ---------------------------------------------------------------------
  // The wire format.
  // ---------------------------------------------------------------------

  /** The unsigned number that stands for a value: two's complement for negative ones. */
  function Unsigned(t: FieldType, v: int): nat
    requires InRange(t, v)
  {
    if v < 0 then v + Values(t) else v
  }

  function TwosComplement(t: FieldType, n: nat): int
    requires n < Values(t)
    ensures InRange(t, TwosComplement(t, n))
  {
    if IsSigned(t) && n >= Values(t) / 2 then n - Values(t) else n
  }

  function FieldBytes(t: FieldType, v: int): (s: seq<byte>)
    requires InRange(t, v)
    ensures |s| == Size(t)
  {
    BigEndian(Unsigned(t, v), Size(t))
  }

  lemma {:induction false} BigEndianRoundTrip(n: nat, size: nat)
    requires n < Pow256(size)
    ensures FromBigEndian(BigEndian(n, size)) == n
  {
    if size > 0 {
      var s := BigEndian(n, size);
      assert s[..size - 1] == BigEndian(n / 0x100, size - 1);
      BigEndianRoundTrip(n / 0x100, size - 1);
    }
  }

  lemma {:induction false} FromBigEndianRoundTrip(s: seq<byte>)
    ensures FromBigEndian(s) < Pow256(|s|) && BigEndian(FromBigEndian(s), |s|) == s
  {
    if s != [] {
      FromBigEndianRoundTrip(s[..|s| - 1]);
    }
  }

  lemma {:induction false} SizeAndValues(t: FieldType)
    ensures Pow256(Size(t)) == Values(t)
  {
    assert Pow256(1) == 0x100 && Pow256(2) == 0x100 * Pow256(1);
    assert Pow256(3) == 0x100 * Pow256(2) && Pow256(4) == 0x100 * Pow256(3);
  }

  function FieldValue(t: FieldType, s: seq<byte>): int
    requires |s| == Size(t)
  {
    FromBigEndianRoundTrip(s);
    SizeAndValues(t);
    TwosComplement(t, FromBigEndian(s))
  }

  lemma {:induction false} FieldRoundTrip(t: FieldType, v: int)
    requires InRange(t, v)
    ensures FieldValue(t, FieldBytes(t, v)) == v
  {
    SizeAndValues(t);
    BigEndianRoundTrip(Unsigned(t, v), Size(t));
  }

  lemma {:induction false} BytesRoundTrip(t: FieldType, s: seq<byte>)
    requires |s| == Size(t)
    ensures InRange(t, FieldValue(t, s)) && FieldBytes(t, FieldValue(t, s)) == s
  {
    FromBigEndianRoundTrip(s);
    SizeAndValues(t);
  }

  /** All fields have a value, each in the range of its type. */
  predicate Fits(fields: seq<Field>, values: map<string, int>) {
    forall f :: f in fields ==> f.name in values && InRange(f.ftype, values[f.name])
  }

  /** The payload: the fields in order, each big-endian. */
  function WireBytes(fields: seq<Field>, values: map<string, int>): (s: seq<byte>)
    requires Fits(fields, values)
    ensures |s| == PayloadSize(fields)
  {
    if fields == [] then [] else FieldBytes(fields[0].ftype, values[fields[0].name]) + WireBytes(fields[1..], values)
  }

  // ---------------------------------------------------------------------
  // C: one field.
  // ---------------------------------------------------------------------

  lemma {:induction false} Shifts()
    ensures Pow2(8) == 0x100 && Pow2(16) == 0x1_0000 && Pow2(24) == 0x100_0000
  {
    PowAdd(8, 8);
    PowAdd(16, 8);
  }

  lemma {:induction false} PowAdd(a: nat, b: nat)
    ensures Pow2(a + b) == Pow2(a) * Pow2(b)
  {
    if b > 0 {
      PowAdd(a, b - 1);
      PowStep(a + b);
      PowStep(b);
      DoubleProduct(Pow2(a), Pow2(b - 1));
    }
  }

  lemma {:induction false} PowStep(n: nat)
    requires n > 0
    ensures Pow2(n) == 2 * Pow2(n - 1)
  {}

  lemma {:induction false} DoubleProduct(x: nat, y: nat)
    ensures x * (2 * y) == 2 * (x * y)
  {}

  /** Bits that do not overlap: | is +. */
  lemma {:induction false} OrIsSum(hi: nat, lo: nat, k: nat)
    requires lo < Pow2(k)
    ensures OrNats(hi * Pow2(k), lo) == hi * Pow2(k) + lo
  {
    if k > 0 && lo > 0 && hi > 0 {
      var a := hi * Pow2(k);
      assert a == 2 * (hi * Pow2(k - 1));
      OrIsSum(hi, lo / 2, k - 1);
    }
  }

  ghost predicate Evaluates(g: Target, m: Machine, x: Expr, t: FieldType, v: int) {
    m.Machine? && Eval(g, m, x) == CValue(t, v)
  }

  /** A shifted and masked byte of a nonnegative value. */
  lemma {:induction false} ByteAtIs(g: Target, m: Machine, x: Expr, t: FieldType, v: nat, bits: nat)
    requires Evaluates(g, m, x, t, v) && bits < 8 * Size(t)
    ensures Evaluates(g, m, ByteAt(x, bits), U8, (v / Pow2(bits)) % 0x100)
  {
    if bits > 0 {
      assert Eval(g, m, Shr(x, bits)) == CValue(Promoted(g, t), v / Pow2(bits));
    }
  }

  lemma {:induction false} EvalIgnoresOut(g: Target, m: Machine, o: seq<byte>, e: Expr)
    requires m.Machine?
    ensures Eval(g, m.(out := o), e) == Eval(g, m, e)
    decreases e
  {
    match e
    case Member(_, _) =>
    case Local(_, _) =>
    case InByte(_) =>
    case Cast(_, e0) => EvalIgnoresOut(g, m, o, e0);
    case Shr(e0, _) => EvalIgnoresOut(g, m, o, e0);
    case Shl(e0, _) => EvalIgnoresOut(g, m, o, e0);
    case MaskByte(e0) => EvalIgnoresOut(g, m, o, e0);
    case BitOr(l, r) =>
      EvalIgnoresOut(g, m, o, l);
      EvalIgnoresOut(g, m, o, r);
  }

  lemma {:induction false} RunAppend(g: Target, m: Machine, a: seq<Stmt>, b: seq<Stmt>)
    ensures Run(g, m, a + b) == Run(g, Run(g, m, a), b)
    decreases |a|
  {
    if a == [] {
      assert a + b == b;
    } else {
      assert (a + b)[1..] == a[1..] + b;
      RunAppend(g, Exec(g, m, a[0]), a[1..], b);
    }
  }

  lemma {:induction false} RunOne(g: Target, m: Machine, s: Stmt)
    ensures Run(g, m, [s]) == Exec(g, m, s)
  {
    assert [s][1..] == [];
  }

  /** s over out, from offset on. */
  function Splice(out: seq<byte>, offset: nat, s: seq<byte>): (r: seq<byte>)
    requires offset + |s| <= |out|
    ensures |r| == |out|
  {
    out[..offset] + s + out[offset + |s|..]
  }

  lemma {:induction false} SpliceTwice(out: seq<byte>, offset: nat, a: seq<byte>, b: seq<byte>)
    requires offset + |a| + |b| <= |out|
    ensures Splice(Splice(out, offset, a), offset + |a|, b) == Splice(out, offset, a + b)
  {}

  lemma {:induction false} SpliceAtStart(out: seq<byte>, s: seq<byte>)
    requires |s| <= |out|
    ensures Splice(out, 0, s) == s + out[|s|..]
  {}

  lemma {:induction false} SpliceNothing(out: seq<byte>, offset: nat)
    requires offset <= |out|
    ensures Splice(out, offset, []) == out
  {}

  lemma {:induction false} SpliceOne(out: seq<byte>, offset: nat, b: byte)
    requires offset < |out|
    ensures out[offset := b] == Splice(out, offset, [b])
  {}

  /** Running ss from m stores s at offset, and x keeps its value. */
  ghost predicate Wrote(g: Target, m: Machine, ss: seq<Stmt>, offset: nat, s: seq<byte>, x: Expr, t: FieldType,
          v: int) {
    && m.Machine? && offset + |s| <= |m.out| && Run(g, m, ss) == m.(out := Splice(m.out, offset, s))
    && Evaluates(g, m.(out := Splice(m.out, offset, s)), x, t, v)
  }

  lemma {:induction false} WroteTwice(g: Target, m: Machine, ss: seq<Stmt>, ss': seq<Stmt>, offset: nat,
          s: seq<byte>, s': seq<byte>, x: Expr, t: FieldType, v: int)
    requires Wrote(g, m, ss, offset, s, x, t, v) && offset + |s| + |s'| <= |m.out|
    requires Wrote(g, m.(out := Splice(m.out, offset, s)), ss', offset + |s|, s', x, t, v)
    ensures Wrote(g, m, ss + ss', offset, s + s', x, t, v)
  {
    RunAppend(g, m, ss, ss');
    SpliceTwice(m.out, offset, s, s');
  }

  lemma {:induction false} StoreOne(g: Target, m: Machine, e: Expr, b: byte, offset: nat, x: Expr, t: FieldType, v: int)
    requires Evaluates(g, m, e, U8, b) && Evaluates(g, m, x, t, v) && offset < |m.out|
    ensures Wrote(g, m, [Store(offset, e)], offset, [b], x, t, v)
  {
    RunOne(g, m, Store(offset, e));
    SpliceOne(m.out, offset, b);
    EvalIgnoresOut(g, m, Splice(m.out, offset, [b]), x);
  }

  /** `out[offset] = (uint8_t)((x >> bits) & 0xFF);` */
  lemma {:induction false} StoreByte(g: Target, m: Machine, x: Expr, t: FieldType, v: nat, bits: nat, offset: nat,
          b: byte)
    requires Evaluates(g, m, x, t, v) && bits < 8 * Size(t) && offset < |m.out| && b == (v / Pow2(bits)) % 0x100
    ensures Wrote(g, m, [Store(offset, ByteAt(x, bits))], offset, [b], x, t, v)
  {
    ByteAtIs(g, m, x, t, v, bits);
    StoreOne(g, m, ByteAt(x, bits), b, offset, x, t, v);
  }

  lemma {:induction false} BigEndian2(v: nat)
    ensures BigEndian(v, 2) == [(v / 0x100) % 0x100, v % 0x100]
  {
    assert BigEndian(v / 0x100, 1) == BigEndian(v / 0x100 / 0x100, 0) + [(v / 0x100) % 0x100];
  }

  lemma {:induction false} BigEndian4(v: nat)
    ensures BigEndian(v, 4) == [(v / 0x100_0000) % 0x100, (v / 0x1_0000) % 0x100] + [(v / 0x100) % 0x100, v % 0x100]
  {
    var w := v / 0x1_0000;
    assert v / 0x100 / 0x100 == w && w / 0x100 == v / 0x100_0000;
    BigEndian2(w);
    assert BigEndian(v / 0x100, 3) == BigEndian(w, 2) + [(v / 0x100) % 0x100];
  }

  lemma {:induction false} RunHalf(g: Target, m: Machine, x: Expr, t: FieldType, v: nat, offset: nat, bits: nat,
          a: byte, b: byte)
    requires Evaluates(g, m, x, t, v) && offset + 2 <= |m.out| && bits + 8 < 8 * Size(t)
    requires a == (v / Pow2(bits + 8)) % 0x100 && b == (v / Pow2(bits)) % 0x100
    ensures Wrote(g, m, [Store(offset, ByteAt(x, bits + 8)), Store(offset + 1, ByteAt(x, bits))], offset, [a, b], x, t, v)
  {
    var s, s' := [Store(offset, ByteAt(x, bits + 8))], [Store(offset + 1, ByteAt(x, bits))];
    StoreByte(g, m, x, t, v, bits + 8, offset, a);
    StoreByte(g, m.(out := Splice(m.out, offset, [a])), x, t, v, bits, offset + 1, b);
    WroteTwice(g, m, s, s', offset, [a], [b], x, t, v);
    assert s + s' == [Store(offset, ByteAt(x, bits + 8)), Store(offset + 1, ByteAt(x, bits))] && [a] + [b] == [a, b];
  }

  lemma {:induction false} RunStores16(g: Target, m: Machine, x: Expr, v: nat, offset: nat)
    requires Evaluates(g, m, x, U16, v) && offset + 2 <= |m.out|
    ensures Run(g, m, Stores16(x, offset)) == m.(out := Splice(m.out, offset, BigEndian(v, 2)))
  {
    Shifts();
    BigEndian2(v);
    RunHalf(g, m, x, U16, v, offset, 0, (v / 0x100) % 0x100, v % 0x100);
  }

  lemma {:induction false} RunStores32(g: Target, m: Machine, x: Expr, v: nat, offset: nat)
    requires Evaluates(g, m, x, U32, v) && offset + 4 <= |m.out|
    ensures Run(g, m, Stores32(x, offset)) == m.(out := Splice(m.out, offset, BigEndian(v, 4)))
  {
    Shifts();
    var a, b: byte := (v / 0x100_0000) % 0x100, (v / 0x1_0000) % 0x100;
    var c, d: byte := (v / 0x100) % 0x100, v % 0x100;
    RunHalf(g, m, x, U32, v, offset, 16, a, b);
    RunHalf(g, m.(out := Splice(m.out, offset, [a, b])), x, U32, v, offset + 2, 0, c, d);
    WroteTwice(g, m, [Store(offset, ByteAt(x, 24)), Store(offset + 1, ByteAt(x, 16))],
               [Store(offset + 2, ByteAt(x, 8)), Store(offset + 3, ByteAt(x, 0))], offset, [a, b], [c, d], x, U32, v);
    BigEndian4(v);
    Stores32Split(x, offset);
  }

  lemma {:induction false} Stores32Split(x: Expr, offset: nat)
    ensures Stores32(x, offset) == [Store(offset, ByteAt(x, 24)), Store(offset + 1, ByteAt(x, 16))] +
                                   [Store(offset + 2, ByteAt(x, 8)), Store(offset + 3, ByteAt(x, 0))]
  {}

  lemma {:induction false} WrapUnsigned(t: FieldType, u: FieldType, v: int)
    requires InRange(t, v) && ((t == I16 && u == U16) || (t == I32 && u == U32))
    ensures Wrap(u, v) == Unsigned(t, v) && Wrap(u, Unsigned(t, v)) == Unsigned(t, v)
  {}

  /** `uint16_t f_wire = (uint16_t)msg->f;` and likewise for 32 bits. */
  lemma {:induction false} DeclareWire(g: Target, m: Machine, f: Field, t: FieldType)
    requires m.Machine? && f.name in m.fields && InRange(f.ftype, m.fields[f.name])
    requires (f.ftype == I16 && t == U16) || (f.ftype == I32 && t == U32)
    ensures Exec(g, m, Declare(t, WireName(f.name), Cast(t, Member(f.name, f.ftype)))) ==
            m.(locals := m.locals[WireName(f.name) := Unsigned(f.ftype, m.fields[f.name])])
  {
    var v, x := m.fields[f.name], Member(f.name, f.ftype);
    WrapUnsigned(f.ftype, t, v);
    assert Eval(g, m, x) == CValue(f.ftype, v);
    assert Eval(g, m, Cast(t, x)) == CValue(t, Unsigned(f.ftype, v));
  }

  lemma {:induction false} EncodeByteRuns(g: Target, m: Machine, f: Field, offset: nat)
    requires m.Machine? && f.name in m.fields && InRange(f.ftype, m.fields[f.name]) && offset < |m.out|
    requires f.ftype == U8 || f.ftype == I8
    ensures Run(g, m, CEncodeField(f, offset)) ==
            m.(out := Splice(m.out, offset, FieldBytes(f.ftype, m.fields[f.name])))
  {
    var v, x := m.fields[f.name], Member(f.name, f.ftype);
    assert Eval(g, m, x) == CValue(f.ftype, v);
    assert f.ftype == I8 ==> Eval(g, m, Cast(U8, x)) == CValue(U8, v % 0x100);
    RunOne(g, m, Store(offset, if f.ftype == U8 then x else Cast(U8, x)));
    SpliceOne(m.out, offset, v % 0x100);
    assert FieldBytes(f.ftype, v) == [v % 0x100];
  }

  /** The statements for one field store its bytes at its offset and nothing else. */
  lemma {:induction false} EncodeFieldRuns(g: Target, m: Machine, f: Field, offset: nat)
    requires m.Machine? && f.name in m.fields && InRange(f.ftype, m.fields[f.name]) && offset + Size(f.ftype) <= |m.out|
    ensures var r := Run(g, m, CEncodeField(f, offset));
            && r.Machine? && r.fields == m.fields
            && r.out == Splice(m.out, offset, FieldBytes(f.ftype, m.fields[f.name]))
  {
    var v, x, w := m.fields[f.name], Member(f.name, f.ftype), WireName(f.name);
    match f.ftype
    case U8 => EncodeByteRuns(g, m, f, offset);
    case I8 => EncodeByteRuns(g, m, f, offset);
    case U16 => RunStores16(g, m, x, v, offset);
    case U32 => RunStores32(g, m, x, v, offset);
    case I16 =>
      var declare := Declare(U16, w, Cast(U16, x));
      DeclareWire(g, m, f, U16);
      RunOne(g, m, declare);
      RunAppend(g, m, [declare], Stores16(Local(w, U16), offset));
      RunStores16(g, Exec(g, m, declare), Local(w, U16), Unsigned(I16, v), offset);
    case I32 =>
      var declare := Declare(U32, w, Cast(U32, x));
      DeclareWire(g, m, f, U32);
      RunOne(g, m, declare);
      RunAppend(g, m, [declare], Stores32(Local(w, U32), offset));
      RunStores32(g, Exec(g, m, declare), Local(w, U32), Unsigned(I32, v), offset);
  }

  // ---------------------------------------------------------------------
  // C: whole messages.
  // ---------------------------------------------------------------------

  lemma {:induction false} EncoderRuns(g: Target, m: Machine, fields: seq<Field>, offset: nat)
    requires m.Machine? && Fits(fields, m.fields) && offset + PayloadSize(fields) <= |m.out|
    ensures var r := Run(g, m, CEncoder(fields, offset));
            r.Machine? && r.fields == m.fields && r.out == Splice(m.out, offset, WireBytes(fields, m.fields))
    decreases |fields|
  {
    if fields == [] {
      SpliceNothing(m.out, offset);
    } else {
      var f, rest := fields[0], fields[1..];
      EncodeFieldRuns(g, m, f, offset);
      var m1 := Run(g, m, CEncodeField(f, offset));
      RunAppend(g, m, CEncodeField(f, offset), CEncoder(rest, offset + Size(f.ftype)));
      EncoderRuns(g, m1, rest, offset + Size(f.ftype));
      SpliceTwice(m.out, offset, FieldBytes(f.ftype, m.fields[f.name]), WireBytes(rest, m.fields));
    }
  }

  /** The emitted C encoder runs without undefined behaviour on either target and writes exactly the payload. */
  lemma {:induction false} CEncodeWrites(g: Target, fields: seq<Field>, values: map<string, int>, out: seq<byte>)
    requires Fits(fields, values)
    ensures |out| < PayloadSize(fields) ==> CEncode(g, fields, values, out) == Err(Buffer)
    ensures |out| >= PayloadSize(fields) ==>
              var r := CEncode(g, fields, values, out);
              r.Ok? && r.value.Machine? && r.value.out == WireBytes(fields, values) + out[PayloadSize(fields)..]
  {
    if |out| >= PayloadSize(fields) {
      EncoderRuns(g, Machine(values, map[], [], out), fields, 0);
      SpliceAtStart(out, WireBytes(fields, values));
    }
  }

  /** The indices a list of statements stores to, in order. */
  function Written(ss: seq<Stmt>): seq<nat> {
    if ss == [] then [] else (if ss[0].Store? then [ss[0].index] else []) + Written(ss[1..])
  }

  function Range(lo: nat, n: nat): (s: seq<nat>)
    ensures |s| == n
  {
    seq(n, i requires 0 <= i < n => lo + i)
  }

  lemma {:induction false} WrittenAppend(a: seq<Stmt>, b: seq<Stmt>)
    ensures Written(a + b) == Written(a) + Written(b)
    decreases |a|
  {
    if a == [] {
      assert a + b == b;
    } else {
      var head := if a[0].Store? then [a[0].index] else [];
      assert (a + b)[0] == a[0] && (a + b)[1..] == a[1..] + b;
      WrittenAppend(a[1..], b);
      Associate(head, Written(a[1..]), Written(b));
    }
  }

  lemma {:induction false} WrittenOne(s: Stmt)
    ensures Written([s]) == if s.Store? then [s.index] else []
  {
    assert [s][1..] == [];
  }

  lemma {:induction false} WrittenPair(offset: nat, x: Expr, y: Expr)
    ensures Written([Store(offset, x), Store(offset + 1, y)]) == Range(offset, 2)
  {
    WrittenAppend([Store(offset, x)], [Store(offset + 1, y)]);
    WrittenOne(Store(offset, x));
    WrittenOne(Store(offset + 1, y));
    assert [Store(offset, x)] + [Store(offset + 1, y)] == [Store(offset, x), Store(offset + 1, y)];
  }

  lemma {:induction false} WrittenStores32(x: Expr, offset: nat)
    ensures Written(Stores32(x, offset)) == Range(offset, 4)
  {
    var a, b := [Store(offset, ByteAt(x, 24)), Store(offset + 1, ByteAt(x, 16))],
                [Store(offset + 2, ByteAt(x, 8)), Store(offset + 3, ByteAt(x, 0))];
    WrittenPair(offset, ByteAt(x, 24), ByteAt(x, 16));
    WrittenPair(offset + 2, ByteAt(x, 8), ByteAt(x, 0));
    WrittenAppend(a, b);
    assert a + b == Stores32(x, offset);
    assert Range(offset, 2) + Range(offset + 2, 2) == Range(offset, 4);
  }

  lemma {:induction false} WrittenField(f: Field, offset: nat)
    ensures Written(CEncodeField(f, offset)) == Range(offset, Size(f.ftype))
  {
    var x, w := Member(f.name, f.ftype), WireName(f.name);
    match f.ftype
    case U8 => WrittenOne(Store(offset, x));
    case I8 => WrittenOne(Store(offset, Cast(U8, x)));
    case U16 => WrittenPair(offset, ByteAt(x, 8), ByteAt(x, 0));
    case U32 => WrittenStores32(x, offset);
    case I16 =>
      var y := Local(w, U16);
      WrittenOne(Declare(U16, w, Cast(U16, x)));
      WrittenAppend([Declare(U16, w, Cast(U16, x))], Stores16(y, offset));
      WrittenPair(offset, ByteAt(y, 8), ByteAt(y, 0));
    case I32 =>
      var y := Local(w, U32);
      WrittenOne(Declare(U32, w, Cast(U32, x)));
      WrittenAppend([Declare(U32, w, Cast(U32, x))], Stores32(y, offset));
      WrittenStores32(y, offset);
  }

  lemma {:induction false} RangeAppend(offset: nat, m: nat, n: nat)
    ensures Range(offset, m) + Range(offset + m, n) == Range(offset, m + n)
  {}

  lemma {:induction false} RangesWritten(a: seq<Stmt>, b: seq<Stmt>, offset: nat, m: nat, n: nat)
    requires Written(a) == Range(offset, m) && Written(b) == Range(offset + m, n)
    ensures Written(a + b) == Range(offset, m + n)
  {
    WrittenAppend(a, b);
    RangeAppend(offset, m, n);
  }

  /** The emitted encoder stores to each of the bytes 0 .. payload_size - 1 exactly once, in order. */
  lemma {:induction false} EachByteOnce(fields: seq<Field>, offset: nat)
    ensures Written(CEncoder(fields, offset)) == Range(offset, PayloadSize(fields))
    decreases |fields|
  {
    if fields != [] {
      var f, rest := fields[0], fields[1..];
      var n := Size(f.ftype);
      WrittenField(f, offset);
      EachByteOnce(rest, offset + n);
      RangesWritten(CEncodeField(f, offset), CEncoder(rest, offset + n), offset, n, PayloadSize(rest));
    }
  }

  // ---------------------------------------------------------------------
  // C: decoding.
  // ---------------------------------------------------------------------

  lemma {:induction false} FromBigEndian1(b: byte)
    ensures FromBigEndian([b]) == b
  {
    assert [b][..0] == [];
  }

  lemma {:induction false} FromBigEndianPush(s: seq<byte>, b: byte)
    ensures FromBigEndian(s + [b]) == FromBigEndian(s) * 0x100 + b
  {
    assert (s + [b])[..|s|] == s;
  }

  lemma {:induction false} FromBigEndian2(a: byte, b: byte)
    ensures FromBigEndian([a, b]) == a * 0x100 + b
  {
    FromBigEndian1(a);
    FromBigEndianPush([a], b);
    assert [a] + [b] == [a, b];
  }

  lemma {:induction false} FromBigEndian4(a: byte, b: byte, c: byte, d: byte)
    ensures FromBigEndian([a, b, c, d]) == ((a * 0x100 + b) * 0x100 + c) * 0x100 + d
  {
    FromBigEndian2(a, b);
    FromBigEndianPush([a, b], c);
    FromBigEndianPush([a, b] + [c], d);
    assert [a, b] + [c] + [d] == [a, b, c, d];
  }

  lemma {:induction false} ShiftedByte(g: Target, m: Machine, t: FieldType, offset: nat, bits: nat, power: nat)
    requires m.Machine? && offset < |m.input| && power == Pow2(bits)
    requires (t == U16 && bits == 8 && power == 0x100) ||
             (t == U32 && ((bits == 8 && power == 0x100) || (bits == 16 && power == 0x1_0000) ||
                           (bits == 24 && power == 0x100_0000)))
    ensures Evaluates(g, m, Shl(Cast(t, InByte(offset)), bits), Promoted(g, t), m.input[offset] * power)
  {
    PlainByte(g, m, t, offset);
    ShiftIs(g, m, Cast(t, InByte(offset)), t, m.input[offset], bits, power);
  }

  /** Shifting left within the promoted type. */
  lemma {:induction false} ShiftIs(g: Target, m: Machine, e: Expr, t: FieldType, v: nat, bits: nat, power: nat)
    requires Evaluates(g, m, e, t, v) && power == Pow2(bits) && bits < 8 * Size(Promoted(g, t))
    requires InRange(Promoted(g, t), v * power)
    ensures Evaluates(g, m, Shl(e, bits), Promoted(g, t), v * power)
  {
    assert Eval(g, m, Shl(e, bits)) == Shifted(Promoted(g, t), v * power);
    InRangeWraps(Promoted(g, t), v * power);
  }

  lemma {:induction false} InRangeWraps(t: FieldType, v: nat)
    requires InRange(t, v)
    ensures Wrap(t, v) == v
  {}

  lemma {:induction false} PlainByte(g: Target, m: Machine, t: FieldType, offset: nat)
    requires m.Machine? && offset < |m.input| && (t == U16 || t == U32)
    ensures Evaluates(g, m, Cast(t, InByte(offset)), t, m.input[offset])
  {
    assert Eval(g, m, InByte(offset)) == CValue(U8, m.input[offset]);
  }

  lemma {:induction false} Loads16Is(g: Target, m: Machine, offset: nat)
    requires m.Machine? && offset + 2 <= |m.input|
    ensures Evaluates(g, m, Loads16(offset), Promoted(g, U16), FromBigEndian(m.input[offset..offset + 2]))
  {
    var a, b := m.input[offset], m.input[offset + 1];
    Shifts();
    ShiftedByte(g, m, U16, offset, 8, 0x100);
    PlainByte(g, m, U16, offset + 1);
    OrIsSum(a, b, 8);
    TwoBytes(m.input, offset, a, b);
  }

  /** x | y where their bits do not overlap. */
  lemma {:induction false} OrDisjoint(g: Target, m: Machine, x: Expr, y: Expr, hi: nat, lo: nat)
    requires Evaluates(g, m, x, U32, hi) && Evaluates(g, m, y, U32, lo) && OrNats(hi, lo) == hi + lo
    ensures Evaluates(g, m, BitOr(x, y), U32, hi + lo)
  {}

  lemma {:induction false} OrIsSumAt(hi: nat, lo: nat, k: nat, power: nat)
    requires power == Pow2(k) && lo < power
    ensures OrNats(hi * power, lo) == hi * power + lo
  {
    OrIsSum(hi, lo, k);
  }

  lemma {:induction false} OrAt24(hi: nat, lo: nat)
    requires lo < 0x100_0000
    ensures OrNats(hi * 0x100_0000, lo) == hi * 0x100_0000 + lo
  {
    Shifts();
    OrIsSumAt(hi, lo, 24, 0x100_0000);
  }

  lemma {:induction false} OrAt16(hi: nat, lo: nat)
    requires lo < 0x1_0000
    ensures OrNats(hi * 0x1_0000, lo) == hi * 0x1_0000 + lo
  {
    Shifts();
    OrIsSumAt(hi, lo, 16, 0x1_0000);
  }

  lemma {:induction false} OrAt8(hi: nat, lo: nat)
    requires lo < 0x100
    ensures OrNats(hi * 0x100, lo) == hi * 0x100 + lo
  {
    Shifts();
    OrIsSumAt(hi, lo, 8, 0x100);
  }

  lemma {:induction false} OrBytes(a: nat, b: nat, c: nat, d: nat)
    requires b < 0x100 && c < 0x100 && d < 0x100
    ensures OrNats(a * 0x100_0000, b * 0x1_0000) == a * 0x100_0000 + b * 0x1_0000
    ensures OrNats(a * 0x100_0000 + b * 0x1_0000, c * 0x100) == a * 0x100_0000 + b * 0x1_0000 + c * 0x100
    ensures OrNats(a * 0x100_0000 + b * 0x1_0000 + c * 0x100, d) == a * 0x100_0000 + b * 0x1_0000 + c * 0x100 + d
  {
    OrAt24(a, b * 0x1_0000);
    OrAt16(a * 0x100 + b, c * 0x100);
    OrAt8(a * 0x1_0000 + b * 0x100 + c, d);
  }

  lemma {:induction false} JoinedBytes(g: Target, m: Machine, x0: Expr, x1: Expr, x2: Expr, x3: Expr, a: nat, b: nat,
          c: nat, d: nat)
    requires Evaluates(g, m, x0, U32, a * 0x100_0000) && Evaluates(g, m, x1, U32, b * 0x1_0000)
    requires Evaluates(g, m, x2, U32, c * 0x100) && Evaluates(g, m, x3, U32, d)
    requires b < 0x100 && c < 0x100 && d < 0x100
    ensures Evaluates(g, m, BitOr(BitOr(BitOr(x0, x1), x2), x3), U32, ((a * 0x100 + b) * 0x100 + c) * 0x100 + d)
  {
    OrBytes(a, b, c, d);
    OrDisjoint(g, m, x0, x1, a * 0x100_0000, b * 0x1_0000);
    OrDisjoint(g, m, BitOr(x0, x1), x2, a * 0x100_0000 + b * 0x1_0000, c * 0x100);
    OrDisjoint(g, m, BitOr(BitOr(x0, x1), x2), x3, a * 0x100_0000 + b * 0x1_0000 + c * 0x100, d);
  }

  lemma {:induction false} Loads32Is(g: Target, m: Machine, offset: nat)
    requires m.Machine? && offset + 4 <= |m.input|
    ensures Evaluates(g, m, Loads32(offset), U32, FromBigEndian(m.input[offset..offset + 4]))
  {
    var a, b, c, d := m.input[offset], m.input[offset + 1], m.input[offset + 2], m.input[offset + 3];
    Shifts();
    var x0, x1 := Shl(Cast(U32, InByte(offset)), 24), Shl(Cast(U32, InByte(offset + 1)), 16);
    var x2, x3 := Shl(Cast(U32, InByte(offset + 2)), 8), Cast(U32, InByte(offset + 3));
    ShiftedByte(g, m, U32, offset, 24, 0x100_0000);
    ShiftedByte(g, m, U32, offset + 1, 16, 0x1_0000);
    ShiftedByte(g, m, U32, offset + 2, 8, 0x100);
    PlainByte(g, m, U32, offset + 3);
    JoinedBytes(g, m, x0, x1, x2, x3, a, b, c, d);
    FourBytes(m.input, offset, a, b, c, d);
    assert Loads32(offset) == BitOr(BitOr(BitOr(x0, x1), x2), x3);
  }

  lemma {:induction false} FourBytes(s: seq<byte>, i: nat, a: byte, b: byte, c: byte, d: byte)
    requires i + 4 <= |s| && s[i] == a && s[i + 1] == b && s[i + 2] == c && s[i + 3] == d
    ensures FromBigEndian(s[i..i + 4]) == ((a * 0x100 + b) * 0x100 + c) * 0x100 + d
  {
    FromBigEndian4(a, b, c, d);
    assert s[i..i + 4] == [a, b, c, d];
  }

  lemma {:induction false} TwoBytes(s: seq<byte>, i: nat, a: byte, b: byte)
    requires i + 2 <= |s| && s[i] == a && s[i + 1] == b
    ensures FromBigEndian(s[i..i + 2]) == a * 0x100 + b
  {
    FromBigEndian2(a, b);
    assert s[i..i + 2] == [a, b];
  }

  lemma {:induction false} WrapSigned(t: FieldType, n: nat)
    requires n < Values(t)
    ensures Wrap(t, n) == TwosComplement(t, n)
  {}

  lemma {:induction false} FieldValueIs(t: FieldType, s: seq<byte>)
    requires |s| == Size(t)
    ensures FromBigEndian(s) < Values(t) && FieldValue(t, s) == Wrap(t, FromBigEndian(s))
  {
    FromBigEndianRoundTrip(s);
    SizeAndValues(t);
    WrapSigned(t, FromBigEndian(s));
  }

  /** The expression c_decode_field assigns: it holds the unsigned number or, after a cast, the value. */
  lemma {:induction false} DecodeExprIs(g: Target, m: Machine, f: Field, offset: nat)
    requires m.Machine? && offset + Size(f.ftype) <= |m.input|
    ensures var x := Eval(g, m, CDecodeField(f, offset).e);
            x.CValue? && Wrap(f.ftype, x.v) == FieldValue(f.ftype, m.input[offset..offset + Size(f.ftype)])
  {
    var s := m.input[offset..offset + Size(f.ftype)];
    FieldValueIs(f.ftype, s);
    match f.ftype
    case U8 =>
      FromBigEndian1(m.input[offset]);
      assert s == [m.input[offset]];
    case I8 =>
      FromBigEndian1(m.input[offset]);
      assert s == [m.input[offset]];
      assert Eval(g, m, InByte(offset)) == CValue(U8, m.input[offset]);
    case U16 => Loads16Is(g, m, offset);
    case I16 => Loads16Is(g, m, offset);
    case U32 => Loads32Is(g, m, offset);
    case I32 => Loads32Is(g, m, offset);
  }

  /** The statement for one field sets it to the value of its bytes. */
  lemma {:induction false} DecodeFieldRuns(g: Target, m: Machine, f: Field, offset: nat)
    requires m.Machine? && offset + Size(f.ftype) <= |m.input|
    ensures Exec(g, m, CDecodeField(f, offset)) ==
            m.(fields := m.fields[f.name := FieldValue(f.ftype, m.input[offset..offset + Size(f.ftype)])])
  {
    DecodeExprIs(g, m, f, offset);
  }

  /** A struct, or a dataclass, has each member once. */
  ghost predicate DistinctNames(fields: seq<Field>) {
    forall i, j :: 0 <= i < j < |fields| ==> fields[i].name != fields[j].name
  }

  /** The values the bytes from an offset on stand for. */
  function ValuesFrom(fields: seq<Field>, s: seq<byte>, offset: nat): map<string, int>
    requires offset + PayloadSize(fields) <= |s|
    decreases |fields|
  {
    if fields == [] then map[]
    else
      var n := Size(fields[0].ftype);
      ValuesFrom(fields[1..], s, offset + n)[fields[0].name := FieldValue(fields[0].ftype, s[offset..offset + n])]
  }

  /** The values a payload stands for. */
  function WireValues(fields: seq<Field>, s: seq<byte>): map<string, int>
    requires |s| == PayloadSize(fields)
  {
    ValuesFrom(fields, s, 0)
  }

  lemma {:induction false} ValueNames(fields: seq<Field>, s: seq<byte>, offset: nat, name: string)
    requires offset + PayloadSize(fields) <= |s|
    ensures name in ValuesFrom(fields, s, offset) <==> exists f :: f in fields && f.name == name
    decreases |fields|
  {
    if fields != [] {
      ValueNames(fields[1..], s, offset + Size(fields[0].ftype), name);
      assert fields == [fields[0]] + fields[1..];
    }
  }

  lemma {:induction false} DistinctTail(fields: seq<Field>)
    requires fields != [] && DistinctNames(fields)
    ensures DistinctNames(fields[1..])
  {}

  lemma {:induction false} NewNameFirst(fields: seq<Field>, s: seq<byte>, offset: nat)
    requires fields != [] && offset + PayloadSize(fields[1..]) <= |s| && DistinctNames(fields)
    ensures fields[0].name !in ValuesFrom(fields[1..], s, offset)
  {
    ValueNames(fields[1..], s, offset, fields[0].name);
  }

  lemma {:induction false} MergeUpdate(before: map<string, int>, name: string, v: int, rest: map<string, int>)
    requires name !in rest
    ensures before[name := v] + rest == before + rest[name := v]
  {}

  lemma {:induction false} DecoderStep(g: Target, m: Machine, s: Stmt, ss: seq<Stmt>, name: string, v: int,
          rest: map<string, int>)
    requires m.Machine? && Exec(g, m, s) == m.(fields := m.fields[name := v]) && name !in rest
    requires Run(g, m.(fields := m.fields[name := v]), ss) == m.(fields := m.fields[name := v] + rest)
    ensures Run(g, m, [s] + ss) == m.(fields := m.fields + rest[name := v])
  {
    assert ([s] + ss)[1..] == ss;
    MergeUpdate(m.fields, name, v, rest);
  }

  lemma {:induction false} DecodeFirst(g: Target, m: Machine, f: Field, offset: nat, m1: Machine, ss: seq<Stmt>,
          tail: map<string, int>)
    requires m.Machine? && offset + Size(f.ftype) <= |m.input| && f.name !in tail
    requires m1 == m.(fields := m.fields[f.name := FieldValue(f.ftype, m.input[offset..offset + Size(f.ftype)])])
    requires Run(g, m1, ss) == m1.(fields := m1.fields + tail)
    ensures Run(g, m, [CDecodeField(f, offset)] + ss) ==
            m.(fields := m.fields + tail[f.name := FieldValue(f.ftype, m.input[offset..offset + Size(f.ftype)])])
  {
    DecodeFieldRuns(g, m, f, offset);
    DecoderStep(g, m, CDecodeField(f, offset), ss, f.name,
                FieldValue(f.ftype, m.input[offset..offset + Size(f.ftype)]), tail);
  }

  lemma {:induction false} DecoderRuns(g: Target, m: Machine, fields: seq<Field>, offset: nat)
    requires m.Machine? && DistinctNames(fields) && offset + PayloadSize(fields) <= |m.input|
    ensures Run(g, m, CDecoder(fields, offset)) == m.(fields := m.fields + ValuesFrom(fields, m.input, offset))
    decreases |fields|
  {
    if fields == [] {
      assert m.fields + map[] == m.fields;
    } else {
      var f, rest, n := fields[0], fields[1..], Size(fields[0].ftype);
      var m1 := m.(fields := m.fields[f.name := FieldValue(f.ftype, m.input[offset..offset + n])]);
      DistinctTail(fields);
      DecoderRuns(g, m1, rest, offset + n);
      NewNameFirst(fields, m.input, offset + n);
      DecodeFirst(g, m, f, offset, m1, CDecoder(rest, offset + n), ValuesFrom(rest, m.input, offset + n));
    }
  }

  /** The emitted C decoder accepts exactly the payloads of the right length and sets every field from its bytes. */
  lemma {:induction false} CDecodeReads(g: Target, fields: seq<Field>, input: seq<byte>, before: map<string, int>)
    requires DistinctNames(fields)
    ensures |input| != PayloadSize(fields) ==> CDecode(g, fields, input, before) == Err(BadLength)
    ensures |input| == PayloadSize(fields) ==>
              var r := CDecode(g, fields, input, before);
              r.Ok? && r.value.Machine? && r.value.fields == before + WireValues(fields, input)
  {
    if |input| == PayloadSize(fields) {
      DecoderRuns(g, Machine(before, map[], input, []), fields, 0);
    }
  }

  // ---------------------------------------------------------------------
  // The wire format is a bijection.
  // ---------------------------------------------------------------------

  lemma {:induction false} SplitSlice<T>(s: seq<T>, offset: nat, a: seq<T>, b: seq<T>)
    requires offset + |a| + |b| <= |s| && s[offset..offset + |a| + |b|] == a + b
    ensures s[offset..offset + |a|] == a && s[offset + |a|..offset + |a| + |b|] == b
  {
    var part := s[offset..offset + |a| + |b|];
    assert s[offset..offset + |a|] == part[..|a|] && s[offset + |a|..offset + |a| + |b|] == part[|a|..];
  }

  lemma {:induction false} ValuesOfBytes(fields: seq<Field>, values: map<string, int>, s: seq<byte>, offset: nat)
    requires Fits(fields, values) && offset + PayloadSize(fields) <= |s|
    requires s[offset..offset + PayloadSize(fields)] == WireBytes(fields, values)
    ensures forall f :: f in fields ==> f.name in ValuesFrom(fields, s, offset)
    ensures forall f :: f in fields ==> ValuesFrom(fields, s, offset)[f.name] == values[f.name]
    decreases |fields|
  {
    if fields != [] {
      var f0, rest := fields[0], fields[1..];
      SplitSlice(s, offset, FieldBytes(f0.ftype, values[f0.name]), WireBytes(rest, values));
      FieldRoundTrip(f0.ftype, values[f0.name]);
      ValuesOfBytes(rest, values, s, offset + Size(f0.ftype));
      assert forall f :: f in fields ==> f == f0 || f in rest;
    }
  }

  lemma {:induction false} SameValuesSameBytes(fields: seq<Field>, a: map<string, int>, b: map<string, int>)
    requires Fits(fields, a) && Fits(fields, b) && forall f :: f in fields ==> a[f.name] == b[f.name]
    ensures WireBytes(fields, a) == WireBytes(fields, b)
    decreases |fields|
  {
    if fields != [] { SameValuesSameBytes(fields[1..], a, b); }
  }

  lemma {:induction false} JoinSlice<T>(s: seq<T>, offset: nat, m: nat, n: nat, all: nat)
    requires offset + all <= |s| && all == m + n
    ensures s[offset..offset + m] + s[offset + m..offset + m + n] == s[offset..offset + all]
  {}

  lemma {:induction false} BytesOfFirst(fields: seq<Field>, s: seq<byte>, offset: nat, tail: map<string, int>)
    requires fields != [] && offset + PayloadSize(fields) <= |s| && Fits(fields[1..], tail) && fields[0].name !in tail
    requires tail == ValuesFrom(fields[1..], s, offset + Size(fields[0].ftype))
    ensures Fits(fields, ValuesFrom(fields, s, offset))
    ensures WireBytes(fields, ValuesFrom(fields, s, offset)) ==
            s[offset..offset + Size(fields[0].ftype)] + WireBytes(fields[1..], tail)
  {
    var f0, rest, values := fields[0], fields[1..], ValuesFrom(fields, s, offset);
    BytesRoundTrip(f0.ftype, s[offset..offset + Size(f0.ftype)]);
    forall f | f in fields
      ensures f.name in values && InRange(f.ftype, values[f.name])
      ensures f in rest ==> values[f.name] == tail[f.name]
    {
      if f in rest { assert f.name in tail; } else { assert f == f0; }
    }
    SameValuesSameBytes(rest, values, tail);
  }

  lemma {:induction false} BytesOfAll(fields: seq<Field>, s: seq<byte>, offset: nat, m: nat, n: nat,
          tail: map<string, int>)
    requires fields != [] && offset + PayloadSize(fields) <= |s| && Fits(fields[1..], tail) && fields[0].name !in tail
    requires m == Size(fields[0].ftype) && n == PayloadSize(fields[1..]) && tail == ValuesFrom(fields[1..], s, offset + m)
    requires WireBytes(fields[1..], tail) == s[offset + m..offset + m + n]
    ensures Fits(fields, ValuesFrom(fields, s, offset))
    ensures WireBytes(fields, ValuesFrom(fields, s, offset)) == s[offset..offset + PayloadSize(fields)]
  {
    BytesOfFirst(fields, s, offset, tail);
    JoinSlice(s, offset, m, n, PayloadSize(fields));
  }

  lemma {:induction false} BytesOfValues(fields: seq<Field>, s: seq<byte>, offset: nat)
    requires DistinctNames(fields) && offset + PayloadSize(fields) <= |s|
    ensures Fits(fields, ValuesFrom(fields, s, offset))
    ensures WireBytes(fields, ValuesFrom(fields, s, offset)) == s[offset..offset + PayloadSize(fields)]
    decreases |fields|
  {
    if fields != [] {
      var rest, n := fields[1..], Size(fields[0].ftype);
      DistinctTail(fields);
      BytesOfValues(rest, s, offset + n);
      NewNameFirst(fields, s, offset + n);
      BytesOfAll(fields, s, offset, n, PayloadSize(rest), ValuesFrom(rest, s, offset + n));
    } else {
      assert s[offset..offset] == [];
    }
  }

  // ---------------------------------------------------------------------
  // Python.
  // ---------------------------------------------------------------------

  lemma {:induction false} PyToBytesIs(t: FieldType, v: int)
    requires InRange(t, v)
    ensures PyToBytes(v, Size(t), IsSigned(t)) == Ok(FieldBytes(t, v))
  {
    SizeAndValues(t);
  }

  lemma {:induction false} PyFromBytesIs(t: FieldType, s: seq<byte>)
    requires |s| == Size(t)
    ensures PyFromBytes(s, IsSigned(t)) == FieldValue(t, s)
  {
    SizeAndValues(t);
    FromBigEndianRoundTrip(s);
  }

  /** The emitted Python encoder writes the same payload, and refuses exactly the values out of range. */
  lemma {:induction false} PyEncodeWrites(fields: seq<Field>, values: map<string, int>)
    ensures Fits(fields, values) ==> PyEncode(fields, values) == Ok(WireBytes(fields, values))
    ensures !Fits(fields, values) ==> PyEncode(fields, values) == Err(BadArg)
    decreases |fields|
  {
    if fields != [] {
      var f, rest := fields[0], fields[1..];
      PyEncodeWrites(rest, values);
      assert PyEncoder(fields)[1..] == PyEncoder(rest);
      if f.name in values && InRange(f.ftype, values[f.name]) {
        PyToBytesIs(f.ftype, values[f.name]);
        assert Fits(fields, values) <==> Fits(rest, values) by {
          assert forall g :: g in fields ==> g == f || g in rest;
        }
      } else {
        assert f in fields;
      }
    }
  }

  lemma {:induction false} PyDecodeField(payload: seq<byte>, f: Field, offset: nat)
    requires offset + Size(f.ftype) <= |payload|
    ensures PyEvalDecode(payload, PyDecodeExpr(f, offset)) ==
            FieldValue(f.ftype, payload[offset..offset + Size(f.ftype)])
    ensures PyDecodeExpr(f, offset).name == f.name
  {
    var s := payload[offset..offset + Size(f.ftype)];
    PyFromBytesIs(f.ftype, s);
    if f.ftype == U8 {
      FromBigEndian1(payload[offset]);
      assert s == [payload[offset]];
    }
  }

  lemma {:induction false} PyDecoderReads(fields: seq<Field>, payload: seq<byte>, offset: nat)
    requires offset + PayloadSize(fields) <= |payload|
    ensures PyDecodeFields(payload, PyDecoder(fields, offset)) == ValuesFrom(fields, payload, offset)
    decreases |fields|
  {
    if fields != [] {
      PyDecodeField(payload, fields[0], offset);
      PyDecoderReads(fields[1..], payload, offset + Size(fields[0].ftype));
      assert PyDecoder(fields, offset)[1..] == PyDecoder(fields[1..], offset + Size(fields[0].ftype));
    }
  }

  /** The emitted Python decoder accepts the same payloads as C and reads the same values. */
  lemma {:induction false} PyDecodeReads(fields: seq<Field>, payload: seq<byte>)
    ensures PyDecode(fields, payload) ==
            if |payload| == PayloadSize(fields) then Ok(WireValues(fields, payload)) else Err(BadLength)
  {
    if |payload| == PayloadSize(fields) { PyDecoderReads(fields, payload, 0); }
  }

  // ---------------------------------------------------------------------
  // The generator is correct.
  // ---------------------------------------------------------------------

  /** For every field list and all values in range: C and Python write the same bytes, on either C target, and each
      language's decoder reads them back. */
  lemma {:induction false} BackEndsAgree(g: Target, fields: seq<Field>, values: map<string, int>, out: seq<byte>,
          before: map<string, int>)
    requires DistinctNames(fields) && Fits(fields, values) && |out| >= PayloadSize(fields)
    ensures var c, py := CEncode(g, fields, values, out), PyEncode(fields, values);
            && c.Ok? && c.value.Machine? && py.Ok?
            && c.value.out == py.value + out[PayloadSize(fields)..]
            && var d, q := CDecode(g, fields, py.value, before), PyDecode(fields, py.value);
               && d.Ok? && d.value.Machine? && q.Ok?
               && forall f :: f in fields ==>
                    && f.name in d.value.fields && d.value.fields[f.name] == values[f.name]
                    && f.name in q.value && q.value[f.name] == values[f.name]
  {
    var s := WireBytes(fields, values);
    CEncodeWrites(g, fields, values, out);
    PyEncodeWrites(fields, values);
    CDecodeReads(g, fields, s, before);
    PyDecodeReads(fields, s);
    assert s[0..0 + PayloadSize(fields)] == s;
    ValuesOfBytes(fields, values, s, 0);
  }

  /** And every byte string of the right length is what the decoded values encode to, in both languages. */
  lemma {:induction false} EveryPayloadComesBack(g: Target, fields: seq<Field>, payload: seq<byte>)
    requires DistinctNames(fields) && |payload| == PayloadSize(fields)
    ensures var q := PyDecode(fields, payload);
            && q.Ok? && PyEncode(fields, q.value) == Ok(payload)
            && var c := CEncode(g, fields, q.value, payload);
               c.Ok? && c.value.Machine? && c.value.out == payload
  {
    var values := WireValues(fields, payload);
    PyDecodeReads(fields, payload);
    BytesOfValues(fields, payload, 0);
    assert payload[0..0 + PayloadSize(fields)] == payload;
    PyEncodeWrites(fields, values);
    CEncodeWrites(g, fields, values, payload);
  }
}
