/** tools/generate_messages.py as a compiler: field lists are translated to C statements and to Python expressions,
    both given as syntax trees with a meaning. */
module Codegen {
  import opened Bytes

  datatype FieldType = U8 | I8 | U16 | I16 | U32 | I32

  /** One entry of a message's payload list. */
  datatype Field = Field(name: string, ftype: FieldType)

  /** The size and signed columns of TYPE_INFO. */
  function Size(t: FieldType): nat {
    match t
    case U8 => 1
    case I8 => 1
    case U16 => 2
    case I16 => 2
    case U32 => 4
    case I32 => 4
  }

  predicate IsSigned(t: FieldType) { t == I8 || t == I16 || t == I32 }

  /** Number of values of a type. */
  function Values(t: FieldType): nat {
    match t
    case U8 => 0x100
    case I8 => 0x100
    case U16 => 0x1_0000
    case I16 => 0x1_0000
    case U32 => 0x1_0000_0000
    case I32 => 0x1_0000_0000
  }

  predicate InRange(t: FieldType, v: int) {
    match t
    case U8 => 0 <= v < 0x100
    case I8 => -0x80 <= v < 0x80
    case U16 => 0 <= v < 0x1_0000
    case I16 => -0x8000 <= v < 0x8000
    case U32 => 0 <= v < 0x1_0000_0000
    case I32 => -0x8000_0000 <= v < 0x8000_0000
  }

  /** Conversion to a type, two's complement. */
  function Wrap(t: FieldType, v: int): (w: int)
    ensures InRange(t, w) && (InRange(t, v) ==> w == v)
  {
    match t
    case U8 => v % 0x100
    case I8 => (v + 0x80) % 0x100 - 0x80
    case U16 => v % 0x1_0000
    case I16 => (v + 0x8000) % 0x1_0000 - 0x8000
    case U32 => v % 0x1_0000_0000
    case I32 => (v + 0x8000_0000) % 0x1_0000_0000 - 0x8000_0000
  }

  function PayloadSize(fields: seq<Field>): nat {
    if fields == [] then 0 else Size(fields[0].ftype) + PayloadSize(fields[1..])
  }

  // ---------------------------------------------------------------------
  // C: expressions, statements, and what they do.
  // ---------------------------------------------------------------------

  datatype Expr =
    | Member(name: string, ctype: FieldType)     // msg->name
    | Local(name: string, ctype: FieldType)
    | InByte(index: nat)                         // in[index]
    | Cast(ctype: FieldType, e: Expr)
    | Shr(e: Expr, bits: nat)
    | Shl(e: Expr, bits: nat)
    | MaskByte(e: Expr)                          // e & 0xFF
    | BitOr(l: Expr, r: Expr)

  datatype Stmt =
    | Declare(ctype: FieldType, name: string, e: Expr)
    | Store(index: nat, e: Expr)                 // out[index] = e
    | Assign(ctype: FieldType, name: string, e: Expr)   // msg->name = e

  /** A value and its type; Undefined is undefined or unspecified behaviour, or an access outside a buffer. */
  datatype CValue = Undefined | CValue(ctype: FieldType, v: int)

  /** int has 32 bits, or 16 on AVR. */
  datatype Target = Target(wideInt: bool)

  datatype Machine = Stuck | Machine(fields: map<string, int>, locals: map<string, int>, input: seq<byte>, out: seq<byte>)

  /** Integer promotion. */
  function Promoted(g: Target, t: FieldType): FieldType {
    if g.wideInt then (if Size(t) < 4 then I32 else t) else if Size(t) < 2 then I16 else t
  }

  /** The common type of two promoted operands. */
  function Common(a: FieldType, b: FieldType): FieldType {
    if a == U32 || b == U32 then U32
    else if a == I32 || b == I32 then I32
    else if a == U16 || b == U16 then U16
    else I16
  }

  function Shifted(t: FieldType, v: int): CValue {
    if !IsSigned(t) then CValue(t, Wrap(t, v)) else if InRange(t, v) then CValue(t, v) else Undefined
  }

  function Eval(g: Target, m: Machine, e: Expr): CValue
    requires m.Machine?
  {
    match e
    case Member(name, t) => if name in m.fields then CValue(t, m.fields[name]) else Undefined
    case Local(name, t) => if name in m.locals then CValue(t, m.locals[name]) else Undefined
    case InByte(k) => if k < |m.input| then CValue(U8, m.input[k]) else Undefined
    case Cast(t, e0) =>
      var x := Eval(g, m, e0);
      if x.Undefined? then Undefined else CValue(t, Wrap(t, x.v))
    case Shr(e0, k) =>
      var x := Eval(g, m, e0);
      if x.Undefined? || x.v < 0 || k >= 8 * Size(Promoted(g, x.ctype)) then Undefined
      else CValue(Promoted(g, x.ctype), x.v / Pow2(k))
    case Shl(e0, k) =>
      var x := Eval(g, m, e0);
      if x.Undefined? || x.v < 0 || k >= 8 * Size(Promoted(g, x.ctype)) then Undefined
      else Shifted(Promoted(g, x.ctype), x.v * Pow2(k))
    case MaskByte(e0) =>
      var x := Eval(g, m, e0);
      if x.Undefined? then Undefined else CValue(Promoted(g, x.ctype), x.v % 0x100)
    case BitOr(l, r) =>
      var x, y := Eval(g, m, l), Eval(g, m, r);
      if x.Undefined? || y.Undefined? || x.v < 0 || y.v < 0 then Undefined
      else CValue(Common(Promoted(g, x.ctype), Promoted(g, y.ctype)), OrNats(x.v, y.v))
  }

  function Exec(g: Target, m: Machine, s: Stmt): Machine {
    if m.Stuck? then Stuck
    else
      var x := Eval(g, m, s.e);
      if x.Undefined? then Stuck
      else
        match s
        case Declare(t, name, _) => m.(locals := m.locals[name := Wrap(t, x.v)])
        case Store(k, _) => if k < |m.out| then m.(out := m.out[k := x.v % 0x100]) else Stuck
        case Assign(t, name, _) => m.(fields := m.fields[name := Wrap(t, x.v)])
  }

  function Run(g: Target, m: Machine, ss: seq<Stmt>): Machine
    decreases |ss|
  {
    if ss == [] then m else Run(g, Exec(g, m, ss[0]), ss[1..])
  }

  // ---------------------------------------------------------------------
  // The C back end.
  // ---------------------------------------------------------------------

  function WireName(name: string): string { name + "_wire" }

  /** `(uint8_t)((x >> bits) & 0xFF)` and `(uint8_t)(x & 0xFF)`. */
  function ByteAt(x: Expr, bits: nat): Expr { Cast(U8, MaskByte(if bits == 0 then x else Shr(x, bits))) }

  function Stores16(x: Expr, offset: nat): seq<Stmt> { [Store(offset, ByteAt(x, 8)), Store(offset + 1, ByteAt(x, 0))] }

  function Stores32(x: Expr, offset: nat): seq<Stmt> {
    [Store(offset, ByteAt(x, 24)), Store(offset + 1, ByteAt(x, 16)), Store(offset + 2, ByteAt(x, 8)),
     Store(offset + 3, ByteAt(x, 0))]
  }

  /** c_encode_field. */
  function CEncodeField(f: Field, offset: nat): seq<Stmt> {
    var x, w := Member(f.name, f.ftype), WireName(f.name);
    match f.ftype
    case U8 => [Store(offset, x)]
    case I8 => [Store(offset, Cast(U8, x))]
    case U16 => Stores16(x, offset)
    case I16 => [Declare(U16, w, Cast(U16, x))] + Stores16(Local(w, U16), offset)
    case U32 => Stores32(x, offset)
    case I32 => [Declare(U32, w, Cast(U32, x))] + Stores32(Local(w, U32), offset)
  }

  function Loads16(offset: nat): Expr { BitOr(Shl(Cast(U16, InByte(offset)), 8), Cast(U16, InByte(offset + 1))) }

  function Loads32(offset: nat): Expr {
    BitOr(BitOr(BitOr(Shl(Cast(U32, InByte(offset)), 24), Shl(Cast(U32, InByte(offset + 1)), 16)),
                Shl(Cast(U32, InByte(offset + 2)), 8)),
          Cast(U32, InByte(offset + 3)))
  }

  /** c_decode_field. */
  function CDecodeField(f: Field, offset: nat): Stmt {
    match f.ftype
    case U8 => Assign(U8, f.name, InByte(offset))
    case I8 => Assign(I8, f.name, Cast(I8, InByte(offset)))
    case U16 => Assign(U16, f.name, Loads16(offset))
    case I16 => Assign(I16, f.name, Cast(I16, Loads16(offset)))
    case U32 => Assign(U32, f.name, Loads32(offset))
    case I32 => Assign(I32, f.name, Cast(I32, Loads32(offset)))
  }

  function CEncoder(fields: seq<Field>, offset: nat := 0): seq<Stmt>
    decreases |fields|
  {
    if fields == [] then []
    else CEncodeField(fields[0], offset) + CEncoder(fields[1..], offset + Size(fields[0].ftype))
  }

  function CDecoder(fields: seq<Field>, offset: nat := 0): seq<Stmt>
    decreases |fields|
  {
    if fields == [] then []
    else [CDecodeField(fields[0], offset)] + CDecoder(fields[1..], offset + Size(fields[0].ftype))
  }

  lemma {:induction false} PayloadSizePush(fields: seq<Field>, f: Field)
    ensures PayloadSize(fields + [f]) == PayloadSize(fields) + Size(f.ftype)
    decreases |fields|
  {
    if fields == [] {
      assert [] + [f] == [f];
    } else {
      assert (fields + [f])[1..] == fields[1..] + [f];
      PayloadSizePush(fields[1..], f);
    }
  }

  lemma {:induction false} NextField(fields: seq<Field>, i: nat, offset: nat)
    requires i < |fields| && offset == PayloadSize(fields[..i])
    ensures PayloadSize(fields[..i + 1]) == offset + Size(fields[i].ftype)
    ensures CEncoder(fields[i..], offset) ==
            CEncodeField(fields[i], offset) + CEncoder(fields[i + 1..], offset + Size(fields[i].ftype))
    ensures CDecoder(fields[i..], offset) ==
            [CDecodeField(fields[i], offset)] + CDecoder(fields[i + 1..], offset + Size(fields[i].ftype))
    ensures PyEncoder(fields[i..]) == [PyEncodeExpr(fields[i])] + PyEncoder(fields[i + 1..])
    ensures PyDecoder(fields[i..], offset) ==
            [PyDecodeExpr(fields[i], offset)] + PyDecoder(fields[i + 1..], offset + Size(fields[i].ftype))
  {
    assert fields[i..][0] == fields[i] && fields[i..][1..] == fields[i + 1..];
    assert fields[..i + 1] == fields[..i] + [fields[i]];
    PayloadSizePush(fields[..i], fields[i]);
  }

  lemma {:induction false} Emit<T>(done: seq<T>, next: seq<T>, rest: seq<T>, all: seq<T>)
    requires done + (next + rest) == all
    ensures (done + next) + rest == all
  {}

  lemma {:induction false} EmitCEncode(fields: seq<Field>, i: nat, offset: nat, encoder: seq<Stmt>)
    requires i < |fields| && offset == PayloadSize(fields[..i])
    requires encoder + CEncoder(fields[i..], offset) == CEncoder(fields)
    ensures offset + Size(fields[i].ftype) == PayloadSize(fields[..i + 1])
    ensures (encoder + CEncodeField(fields[i], offset)) + CEncoder(fields[i + 1..], offset + Size(fields[i].ftype)) ==
            CEncoder(fields)
  {
    NextField(fields, i, offset);
    Emit(encoder, CEncodeField(fields[i], offset), CEncoder(fields[i + 1..], offset + Size(fields[i].ftype)),
         CEncoder(fields));
  }

  /** The running offset after i fields, and the statements emitted for them. */
  function OffsetOf(fields: seq<Field>, i: nat): nat
    requires i <= |fields|
  {
    if i == 0 then 0 else OffsetOf(fields, i - 1) + Size(fields[i - 1].ftype)
  }

  function Emitted(fields: seq<Field>, i: nat): seq<Stmt>
    requires i <= |fields|
  {
    if i == 0 then [] else Emitted(fields, i - 1) + CEncodeField(fields[i - 1], OffsetOf(fields, i - 1))
  }

  lemma {:induction false} EmittedTo(fields: seq<Field>, i: nat)
    requires i <= |fields|
    ensures OffsetOf(fields, i) == PayloadSize(fields[..i])
    ensures Emitted(fields, i) + CEncoder(fields[i..], OffsetOf(fields, i)) == CEncoder(fields)
  {
    if i == 0 {
      assert fields[0..] == fields && [] + CEncoder(fields) == CEncoder(fields);
    } else {
      EmittedTo(fields, i - 1);
      EmitCEncode(fields, i - 1, OffsetOf(fields, i - 1), Emitted(fields, i - 1));
    }
  }

  lemma {:induction false} EmittedAll(fields: seq<Field>)
    ensures Emitted(fields, |fields|) == CEncoder(fields)
  {
    EmittedTo(fields, |fields|);
    assert fields[|fields|..] == [];
    assert Emitted(fields, |fields|) + [] == Emitted(fields, |fields|);
  }

  /** The first loop of generate_c_source, with its running offset. */
  method GenerateCEncoder(fields: seq<Field>) returns (encoder: seq<Stmt>)
    ensures encoder == CEncoder(fields)
  {
    encoder := [];
    var offset: nat := 0;
    for i := 0 to |fields|
      invariant offset == OffsetOf(fields, i) && encoder == Emitted(fields, i)
    {
      encoder := encoder + CEncodeField(fields[i], offset);
      offset := offset + Size(fields[i].ftype);
    }
    EmittedAll(fields);
  }

  lemma {:induction false} EmitCDecode(fields: seq<Field>, i: nat, offset: nat, decoder: seq<Stmt>)
    requires i < |fields| && offset == PayloadSize(fields[..i])
    requires decoder + CDecoder(fields[i..], offset) == CDecoder(fields)
    ensures offset + Size(fields[i].ftype) == PayloadSize(fields[..i + 1])
    ensures (decoder + [CDecodeField(fields[i], offset)]) + CDecoder(fields[i + 1..], offset + Size(fields[i].ftype)) ==
            CDecoder(fields)
  {
    NextField(fields, i, offset);
    Emit(decoder, [CDecodeField(fields[i], offset)], CDecoder(fields[i + 1..], offset + Size(fields[i].ftype)),
         CDecoder(fields));
  }

  /** The second loop of generate_c_source. */
  method GenerateCDecoder(fields: seq<Field>) returns (decoder: seq<Stmt>)
    ensures decoder == CDecoder(fields)
  {
    decoder := [];
    var offset: nat := 0;
    for i := 0 to |fields|
      invariant offset == PayloadSize(fields[..i])
      invariant decoder + CDecoder(fields[i..], offset) == CDecoder(fields)
    {
      EmitCDecode(fields, i, offset, decoder);
      decoder := decoder + [CDecodeField(fields[i], offset)];
      offset := offset + Size(fields[i].ftype);
    }
  }

  /** The emitted C encode function, called with these fields on this buffer. */
  function CEncode(g: Target, fields: seq<Field>, values: map<string, int>, out: seq<byte>): Result<Machine> {
    if |out| < PayloadSize(fields) then Err(Buffer) else Ok(Run(g, Machine(values, map[], [], out), CEncoder(fields)))
  }

  /** The emitted C decode function; before is the struct as the caller had it. */
  function CDecode(g: Target, fields: seq<Field>, input: seq<byte>, before: map<string, int>): Result<Machine> {
    if |input| != PayloadSize(fields) then Err(BadLength)
    else Ok(Run(g, Machine(before, map[], input, []), CDecoder(fields)))
  }

  // ---------------------------------------------------------------------
  // The Python back end.
  // ---------------------------------------------------------------------

  datatype PyExpr =
    | ToBytes(helper: FieldType, name: string, size: nat, signed: bool)
    | Item(name: string, start: nat)
    | FromBytes(name: string, start: nat, end: nat, signed: bool)

  /** py_encode_expr. */
  function PyEncodeExpr(f: Field): PyExpr { ToBytes(f.ftype, f.name, Size(f.ftype), IsSigned(f.ftype)) }

  /** py_decode_expr. */
  function PyDecodeExpr(f: Field, start: nat): PyExpr {
    if Size(f.ftype) == 1 && f.ftype == U8 then Item(f.name, start)
    else FromBytes(f.name, start, start + Size(f.ftype), IsSigned(f.ftype))
  }

  function PyEncoder(fields: seq<Field>): seq<PyExpr> {
    if fields == [] then [] else [PyEncodeExpr(fields[0])] + PyEncoder(fields[1..])
  }

  function PyDecoder(fields: seq<Field>, offset: nat := 0): seq<PyExpr>
    decreases |fields|
  {
    if fields == [] then []
    else [PyDecodeExpr(fields[0], offset)] + PyDecoder(fields[1..], offset + Size(fields[0].ftype))
  }

  /** The loop of generate_python that writes the encode method; a single field is returned without a join. */
  method GeneratePyEncoder(fields: seq<Field>) returns (encoder: seq<PyExpr>)
    ensures encoder == PyEncoder(fields)
  {
    if |fields| == 1 {
      assert fields[1..] == [];
      return [PyEncodeExpr(fields[0])];
    }
    encoder := [];
    for i := 0 to |fields|
      invariant encoder + PyEncoder(fields[i..]) == PyEncoder(fields)
    {
      NextField(fields, i, PayloadSize(fields[..i]));
      Emit(encoder, [PyEncodeExpr(fields[i])], PyEncoder(fields[i + 1..]), PyEncoder(fields));
      encoder := encoder + [PyEncodeExpr(fields[i])];
    }
  }

  /** The loop that writes the decode method; a single field is at offset 0. */
  method GeneratePyDecoder(fields: seq<Field>) returns (decoder: seq<PyExpr>)
    ensures decoder == PyDecoder(fields)
  {
    if |fields| == 1 {
      assert fields[1..] == [];
      return [PyDecodeExpr(fields[0], 0)];
    }
    decoder := [];
    var offset: nat := 0;
    for i := 0 to |fields|
      invariant offset == PayloadSize(fields[..i])
      invariant decoder + PyDecoder(fields[i..], offset) == PyDecoder(fields)
    {
      NextField(fields, i, offset);
      var next := [PyDecodeExpr(fields[i], offset)];
      Emit(decoder, next, PyDecoder(fields[i + 1..], offset + Size(fields[i].ftype)), PyDecoder(fields));
      decoder := decoder + next;
      offset := offset + Size(fields[i].ftype);
    }
  }

  /** The low `size` bytes of n, most significant first. */
  function BigEndian(n: nat, size: nat): (s: seq<byte>)
    ensures |s| == size
  {
    if size == 0 then [] else BigEndian(n / 0x100, size - 1) + [n % 0x100]
  }

  /** Byte by byte, the highest first. */
  lemma {:induction false} BigEndianAt(n: nat, size: nat, i: nat)
    requires i < size
    ensures BigEndian(n, size)[i] == (n / Pow256(size - 1 - i)) % 0x100
  {
    if i < size - 1 {
      BigEndianAt(n / 0x100, size - 1, i);
      DivideTwice(n, 0x100, Pow256(size - 2 - i));
    }
  }

  function FromBigEndian(s: seq<byte>): nat {
    if s == [] then 0 else FromBigEndian(s[..|s| - 1]) * 0x100 + s[|s| - 1]
  }

  function Pow256(size: nat): (p: nat)
    ensures p > 0
  {
    if size == 0 then 1 else 0x100 * Pow256(size - 1)
  }

  /** int.to_bytes(size, "big", signed=...): an OverflowError when the value does not fit. */
  function PyToBytes(v: int, size: nat, signed: bool): Result<seq<byte>> {
    var n: int := Pow256(size);
    if signed then
      if 2 * v < -n || 2 * v >= n then Err(BadArg) else Ok(BigEndian(if v < 0 then v + n else v, size))
    else if v < 0 || v >= n then Err(BadArg)
    else Ok(BigEndian(v, size))
  }

  /** int.from_bytes(s, "big", signed=...). */
  function PyFromBytes(s: seq<byte>, signed: bool): int {
    var n := FromBigEndian(s);
    if signed && 2 * n >= Pow256(|s|) then n - Pow256(|s|) else n
  }

  /** A helper _u8 ... _u32 raises MessageError outside its range. */
  function PyEncodeBytes(values: map<string, int>, es: seq<PyExpr>): Result<seq<byte>> {
    if es == [] then Ok([])
    else
      match es[0]
      case ToBytes(helper, name, size, signed) =>
        if name !in values || !InRange(helper, values[name]) then Err(BadArg)
        else
          var head, tail := PyToBytes(values[name], size, signed), PyEncodeBytes(values, es[1..]);
          if head.Err? then head else if tail.Err? then tail else Ok(head.value + tail.value)
      case _ => Err(BadArg)
  }

  function PyEvalDecode(payload: seq<byte>, e: PyExpr): int {
    match e
    case Item(_, start) => if start < |payload| then payload[start] else 0
    case FromBytes(_, start, end, signed) =>
      if start <= end <= |payload| then PyFromBytes(payload[start..end], signed) else 0
    case ToBytes(_, _, _, _) => 0
  }

  function PyDecodeFields(payload: seq<byte>, es: seq<PyExpr>): map<string, int> {
    if es == [] then map[] else PyDecodeFields(payload, es[1..])[es[0].name := PyEvalDecode(payload, es[0])]
  }

  /** The emitted encode method. */
  function PyEncode(fields: seq<Field>, values: map<string, int>): Result<seq<byte>> {
    PyEncodeBytes(values, PyEncoder(fields))
  }

  /** The emitted decode classmethod. */
  function PyDecode(fields: seq<Field>, payload: seq<byte>): Result<map<string, int>> {
    if |payload| != PayloadSize(fields) then Err(BadLength) else Ok(PyDecodeFields(payload, PyDecoder(fields)))
  }
}
