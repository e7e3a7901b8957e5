/** Frames of src/arc_protocol.c: layout, checksum, parsing, re-flagging. */
module Framing {
  import opened Bytes
  import opened Gf2
  import opened Checksum

  const HEADER_SIZE := 9
  const OVERHEAD := 11
  const MAX_FRAME_SIZE := 252
  const MAX_PAYLOAD_SIZE := 241

  /** Single-bit flags, by bit number: 0x01, 0x04. */
  const RELIABLE_BIT := 0
  const ACK_BIT := 2
  const FLAG_RELIABLE: byte := 0x01
  const FLAG_ACK: byte := 0x04
  const FAMILY_NETMGMT: byte := 0x00
  const NETMGMT_ACK: byte := 0x02

  datatype Frame = Frame(src: byte, dst: byte, flags: byte, session: byte, seqno: u16,
                         family: byte, kind: byte, payload: seq<byte>)

  /** Payloads that fit one frame. */
  predicate Sendable(f: Frame) { |f.payload| <= MAX_PAYLOAD_SIZE }

  function Header(f: Frame): (h: seq<byte>)
    requires Sendable(f)
    ensures |h| == HEADER_SIZE
  {
    [OVERHEAD + |f.payload| - 1, f.src, f.dst, f.flags, f.session, High(f.seqno), Low(f.seqno), f.family, f.kind]
  }

  function Trailer(body: seq<byte>): seq<byte> { [HighByte(Crc(body)), LowByte(Crc(body))] }

  /** The bytes of a frame, LEN through CRC. */
  function Build(f: Frame): (s: seq<byte>)
    requires Sendable(f)
    ensures |s| == OVERHEAD + |f.payload|
  {
    var body := Header(f) + f.payload;
    body + Trailer(body)
  }

  function Fields(s: seq<byte>): Frame
    requires |s| >= OVERHEAD
  {
    Frame(s[1], s[2], s[3], s[4], Join(s[5], s[6]), s[7], s[8], s[HEADER_SIZE..|s| - 2])
  }

  function Parse(s: seq<byte>): Result<Frame> {
    if |s| < OVERHEAD then Err(TooShort)
    else if |s| > MAX_FRAME_SIZE then Err(TooLong)
    else if s[0] as int + 1 != |s| then Err(BadLength)
    else if !Passes(s) then Err(BadCrc)
    else Ok(Fields(s))
  }

  /** The layout, byte by byte: LEN counts the bytes after it, SEQ and the checksum have their high byte first. */
  lemma {:induction false} WireLayout(f: Frame)
    requires Sendable(f)
    ensures var s, n := Build(f), 9 + |f.payload|;
            && |s| == n + 2 && s[0] as int == n + 1 && s[1] == f.src && s[2] == f.dst && s[3] == f.flags
            && s[4] == f.session && s[5] as int * 0x100 + s[6] as int == f.seqno as int
            && s[7] == f.family && s[8] == f.kind && s[9..n] == f.payload
            && ByteBits(s[n]) + ByteBits(s[n + 1]) == Crc(s[..n])
  {
    var body := Header(f) + f.payload;
    assert Build(f)[..|body|] == body;
    BytesOfCrc(Crc(body));
  }

  /** The nine header stores of arc_frame_build. */
  method WriteHeader(out: array<byte>, f: Frame)
    requires Sendable(f) && out.Length >= OVERHEAD + |f.payload|
    modifies out
    ensures out[..] == Header(f) + old(out[HEADER_SIZE..])
  {
    ghost var before := out[..];
    out[0] := OVERHEAD + |f.payload| - 1;
    out[1] := f.src;
    out[2] := f.dst;
    out[3] := f.flags;
    out[4] := f.session;
    out[5] := High(f.seqno);
    out[6] := Low(f.seqno);
    out[7] := f.family;
    out[8] := f.kind;
    assert out[HEADER_SIZE..] == before[HEADER_SIZE..];
    assert out[..HEADER_SIZE] == Header(f);
  }

  /** The checksum of the first n bytes, written behind them. */
  method WriteTrailer(out: array<byte>, n: nat)
    requires n + 2 <= out.Length
    modifies out
    ensures out[..] == old(out[..n]) + Trailer(old(out[..n])) + old(out[n + 2..])
  {
    var crc := Crc16(out, n);
    Push(out, n, HighByte(crc));
    Push(out, n + 1, LowByte(crc));
  }

  /** arc_frame_build. */
  method FrameBuild(out: array<byte>, src: byte, dst: byte, flags: byte, session: byte, seqno: u16,
                    family: byte, kind: byte, payload: array<byte>, payloadLen: nat) returns (r: Result<nat>)
    requires payloadLen <= payload.Length && out != payload
    modifies out
    ensures payloadLen > MAX_PAYLOAD_SIZE ==> r == Err(TooLong) && out[..] == old(out[..])
    ensures payloadLen <= MAX_PAYLOAD_SIZE && out.Length < OVERHEAD + payloadLen ==>
              r == Err(Buffer) && out[..] == old(out[..])
    ensures payloadLen <= MAX_PAYLOAD_SIZE && out.Length >= OVERHEAD + payloadLen ==>
              var s := Build(Frame(src, dst, flags, session, seqno, family, kind, payload[..payloadLen]));
              r == Ok(|s|) && out[..] == s + old(out[|s|..])
  {
    if payloadLen > MAX_PAYLOAD_SIZE {
      return Err(TooLong);
    }
    var total := OVERHEAD + payloadLen;
    if out.Length < total {
      return Err(Buffer);
    }
    var f := Frame(src, dst, flags, session, seqno, family, kind, payload[..payloadLen]);
    ghost var before := out[..];
    WriteHeader(out, f);
    Memcpy(out, HEADER_SIZE, payload, 0, payloadLen);
    BodyWritten(f, before, out[..]);
    WriteTrailer(out, HEADER_SIZE + payloadLen);
    return Ok(total);
  }

  lemma {:induction false} BodyWritten(f: Frame, before: seq<byte>, out: seq<byte>)
    requires Sendable(f) && OVERHEAD + |f.payload| <= |before|
    requires var head := Header(f) + before[HEADER_SIZE..];
             out == head[..HEADER_SIZE] + f.payload + head[HEADER_SIZE + |f.payload|..]
    ensures var n := HEADER_SIZE + |f.payload|;
            out[..n] == Header(f) + f.payload && out[n + 2..] == before[n + 2..]
  {
    var head := Header(f) + before[HEADER_SIZE..];
    assert head[..HEADER_SIZE] == Header(f);
    assert head[HEADER_SIZE + |f.payload|..] == before[HEADER_SIZE + |f.payload|..];
  }

  /** The acknowledgement of a received frame: addresses swapped, the payload is the SEQ being acknowledged. */
  function AckOf(f: Frame, session: byte, seqno: u16): Frame {
    Frame(f.dst, f.src, FLAG_ACK, session, seqno, FAMILY_NETMGMT, NETMGMT_ACK, [High(f.seqno), Low(f.seqno)])
  }

  /** The bytes of an ACK, one by one: FLAGS is 0x04 whatever the original's flags, family 0, type 2, and the payload is
      the acknowledged number, high byte first. */
  predicate IsAckBytes(s: seq<byte>, original: Frame, mySession: byte, mySeq: u16) {
    && |s| == 13 && s[0] == 12 && s[1] == original.dst && s[2] == original.src && s[3] == 4 && s[4] == mySession
    && s[5] as int * 0x100 + s[6] as int == mySeq as int && s[7] == 0 && s[8] == 2
    && s[9] as int * 0x100 + s[10] as int == original.seqno as int
    && Crc(s[..11]) == FromBytes(s[11], s[12])
  }

  lemma {:induction false} AckBytes(f: Frame, session: byte, seqno: u16)
    ensures IsAckBytes(Build(AckOf(f, session, seqno)), f, session, seqno)
  {
    var a := AckOf(f, session, seqno);
    WireLayout(a);
    assert Build(a)[HEADER_SIZE..11] == a.payload;
    assert Build(a)[9] == a.payload[0] && Build(a)[10] == a.payload[1];
  }

  /** arc_frame_build_ack. */
  method FrameBuildAck(out: array<byte>, original: Frame, mySession: byte, mySeq: u16) returns (r: Result<nat>)
    modifies out
    ensures out.Length < OVERHEAD + 2 ==> r == Err(Buffer) && out[..] == old(out[..])
    ensures out.Length >= OVERHEAD + 2 ==>
              var s := Build(AckOf(original, mySession, mySeq));
              r == Ok(|s|) && out[..] == s + old(out[|s|..])
    ensures out.Length >= OVERHEAD + 2 ==> IsAckBytes(out[..OVERHEAD + 2], original, mySession, mySeq)
  {
    var ackPayload := new byte[2];
    ackPayload[0] := High(original.seqno);
    ackPayload[1] := Low(original.seqno);
    assert ackPayload[..2] == [High(original.seqno), Low(original.seqno)];
    r := FrameBuild(out, original.dst, original.src, FLAG_ACK, mySession, mySeq, FAMILY_NETMGMT, NETMGMT_ACK,
                    ackPayload, 2);
    if out.Length >= OVERHEAD + 2 {
      AckBytes(original, mySession, mySeq);
      assert out[..OVERHEAD + 2] == Build(AckOf(original, mySession, mySeq));
    }
  }

  /** arc_frame_parse over the first len bytes; the payload pointer is modelled by the bytes it points at. */
  method FrameParse(input: array<byte>, len: nat) returns (r: Result<Frame>)
    requires len <= input.Length
    ensures r == Parse(input[..len])
  {
    if len < OVERHEAD { return Err(TooShort); }
    if len > MAX_FRAME_SIZE { return Err(TooLong); }
    if input[0] as int + 1 != len { return Err(BadLength); }
    var payloadLen := len - OVERHEAD;
    if payloadLen > MAX_PAYLOAD_SIZE { return Err(TooLong); }
    var n := HEADER_SIZE + payloadLen;
    var expected := Crc16(input, n);
    var actual := FromBytes(input[n], input[n + 1]);
    assert input[..len][..n] == input[..n];
    if expected != actual { return Err(BadCrc); }
    assert input[HEADER_SIZE..n] == input[..len][HEADER_SIZE..n];
    return Ok(Frame(input[1], input[2], input[3], input[4], Join(input[5], input[6]), input[7], input[8],
                    input[HEADER_SIZE..n]));
  }

  /** arc_frame_set_flag: OR a flag into FLAGS and write a fresh checksum, without looking at the old one. */
  function SetFlag(s: seq<byte>, flag: byte): (t: seq<byte>)
    requires |s| >= OVERHEAD
    ensures |t| == |s|
  {
    var body := s[..3] + [Or(s[3], flag)] + s[4..|s| - 2];
    body + Trailer(body)
  }

  lemma {:induction false} Reflagged(before: seq<byte>, len: nat, flags: byte, after: seq<byte>)
    requires OVERHEAD <= len <= |before|
    requires var mid := before[..3] + [flags] + before[4..];
             after == mid[..len - 2] + Trailer(mid[..len - 2]) + mid[len..]
    ensures var body := before[..len][..3] + [flags] + before[..len][4..len - 2];
            after == body + Trailer(body) + before[len..]
  {
    var mid := before[..3] + [flags] + before[4..];
    assert mid[..len - 2] == before[..len][..3] + [flags] + before[..len][4..len - 2];
    assert mid[len..] == before[len..];
  }

  method FrameSetFlag(frame: array<byte>, len: nat, flag: byte) returns (r: Result<()>)
    requires len <= frame.Length
    modifies frame
    ensures r == if len < OVERHEAD then Err(TooShort) else if len > MAX_FRAME_SIZE then Err(TooLong)
                 else if old(frame[0]) as int + 1 != len then Err(BadLength) else Ok(())
    ensures frame[..] == if r.Ok? then SetFlag(old(frame[..len]), flag) + old(frame[len..]) else old(frame[..])
  {
    if len < OVERHEAD { return Err(TooShort); }
    if len > MAX_FRAME_SIZE { return Err(TooLong); }
    if frame[0] as int + 1 != len { return Err(BadLength); }
    ghost var before := frame[..];
    Push(frame, 3, Or(frame[3], flag));
    WriteTrailer(frame, len - 2);
    Reflagged(before, len, Or(before[3], flag), frame[..]);
    return Ok(());
  }

  // ---------------------------------------------------------------------
  // Building and parsing are inverse.
  // ---------------------------------------------------------------------

  lemma {:induction false} BuiltPasses(f: Frame)
    requires Sendable(f)
    ensures Passes(Build(f))
  {
    var body := Header(f) + f.payload;
    assert Build(f)[..|body|] == body;
    BytesOfCrc(Crc(body));
  }

  lemma {:induction false} ParseBuild(f: Frame)
    requires Sendable(f)
    ensures Parse(Build(f)) == Ok(f)
  {
    BuiltPasses(f);
    assert Build(f)[HEADER_SIZE..|Build(f)| - 2] == f.payload;
  }

  lemma {:induction false} HeaderOfFields(s: seq<byte>)
    requires OVERHEAD <= |s| <= MAX_FRAME_SIZE && s[0] as int + 1 == |s|
    ensures Header(Fields(s)) == s[..HEADER_SIZE]
  {
    var h := Header(Fields(s));
    forall i | 0 <= i < HEADER_SIZE ensures h[i] == s[i] {}
  }

  lemma {:induction false} FrameParts(s: seq<byte>)
    requires |s| >= OVERHEAD
    ensures var n := |s| - 2; s == s[..HEADER_SIZE] + s[HEADER_SIZE..n] + [s[n], s[n + 1]]
    ensures var n := |s| - 2; s[..n] == s[..HEADER_SIZE] + s[HEADER_SIZE..n]
  {}

  /** A string is accepted exactly when it is a built frame, and then the one its fields describe. */
  lemma {:induction false} BuildParse(s: seq<byte>)
    requires Parse(s).Ok?
    ensures Sendable(Parse(s).value) && Build(Parse(s).value) == s
  {
    var n := |s| - 2;
    HeaderOfFields(s);
    FrameParts(s);
    CrcOfBytes(s[n], s[n + 1]);
  }

  // ---------------------------------------------------------------------
  // Damaged frames. Accepted strings are the built frames, by the two lemmas above.
  // ---------------------------------------------------------------------

  /** Flipping one, two or three bits anywhere in a frame makes the parser reject it. */
  lemma {:induction false} FlippedBitsRejected(s: seq<byte>, t: seq<byte>)
    requires Parse(s).Ok? && |s| == |t|
    requires 1 <= Distance(Bits(s), Bits(t)) <= 3
    ensures t[0] == s[0] ==> Parse(t) == Err(BadCrc)
    ensures t[0] != s[0] ==> Parse(t) == Err(BadLength)
  {
    MinimumDistance(s, t);
  }

  /** So does any change within sixteen consecutive bits. */
  lemma {:induction false} BurstRejected(s: seq<byte>, t: seq<byte>, o: nat)
    requires Parse(s).Ok? && |s| == |t| && s != t
    requires o + 16 <= 8 * |s|
    requires forall k :: 0 <= k < 8 * |s| && !(o <= k < o + 16) ==> Bits(s)[k] == Bits(t)[k]
    ensures t[0] == s[0] ==> Parse(t) == Err(BadCrc)
    ensures t[0] != s[0] ==> Parse(t) == Err(BadLength)
  {
    BurstsDetected(s, t, o);
  }

  /** So does changing any odd number of bits. */
  lemma {:induction false} OddChangesRejected(s: seq<byte>, t: seq<byte>)
    requires Parse(s).Ok? && |s| == |t|
    requires Distance(Bits(s), Bits(t)) % 2 == 1
    ensures t[0] == s[0] ==> Parse(t) == Err(BadCrc)
    ensures t[0] != s[0] ==> Parse(t) == Err(BadLength)
  {
    OddErrorsDetected(s, t);
  }

  /** A frame that lost its end: too short below eleven bytes, otherwise of the wrong length. */
  lemma {:induction false} TruncatedRejected(s: seq<byte>, n: nat)
    requires Parse(s).Ok? && n < |s|
    ensures Parse(s[..n]) == Err(if n < 11 then TooShort else BadLength)
  {}

  /** A frame with more behind it: of the wrong length up to 252 bytes, too long above. */
  lemma {:induction false} ExtendedRejected(s: seq<byte>, rest: seq<byte>)
    requires Parse(s).Ok? && rest != []
    ensures Parse(s + rest) == Err(if |s + rest| > 252 then TooLong else BadLength)
  {}

  /** Which error any string gets. */
  lemma {:induction false} ErrorsAre(s: seq<byte>)
    ensures Parse(s) == Err(TooShort) <==> |s| < 11
    ensures Parse(s) == Err(TooLong) <==> |s| > 252
    ensures Parse(s) == Err(BadLength) <==> 11 <= |s| <= 252 && s[0] as int + 1 != |s|
    ensures Parse(s) == Err(BadCrc) <==> 11 <= |s| <= 252 && s[0] as int + 1 == |s| && Crc(s) != ZERO
  {
    if |s| >= 2 { PassesIffZeroResidue(s); }
  }

  // ---------------------------------------------------------------------
  // Re-flagging in place.
  // ---------------------------------------------------------------------

  /** On a valid frame, setting a flag in place gives the bytes of rebuilding with the flag set. */
  lemma {:induction false} SetFlagRebuilds(f: Frame, flag: byte)
    requires Sendable(f)
    ensures SetFlag(Build(f), flag) == Build(f.(flags := Or(f.flags, flag)))
  {
    var s := Build(f);
    var body := s[..3] + [Or(s[3], flag)] + s[4..|s| - 2];
    var g := f.(flags := Or(f.flags, flag));
    assert body == Header(g) + g.payload;
  }

  /** Setting flags is order-independent and idempotent on valid frames. */
  lemma {:induction false} SetFlagsCommute(f: Frame, a: byte, b: byte)
    requires Sendable(f)
    ensures SetFlag(SetFlag(Build(f), a), b) == SetFlag(SetFlag(Build(f), b), a) == SetFlag(Build(f), Or(a, b))
    ensures SetFlag(SetFlag(Build(f), a), a) == SetFlag(Build(f), a)
  {
    SetFlagRebuilds(f, a);
    SetFlagRebuilds(f, b);
    SetFlagRebuilds(f, Or(a, b));
    SetFlagRebuilds(f.(flags := Or(f.flags, a)), b);
    SetFlagRebuilds(f.(flags := Or(f.flags, b)), a);
    SetFlagRebuilds(f.(flags := Or(f.flags, a)), a);
    OrNatsAssociate(f.flags, a, b);
    OrNatsAssociate(f.flags, b, a);
    OrNatsCommute(a, b);
    OrNatsAssociate(f.flags, a, a);
    OrNatsIdempotent(a);
  }

  /** The old checksum is never looked at: a damaged frame whose LEN still fits comes out valid. */
  lemma {:induction false} SetFlagHidesDamage(s: seq<byte>, flag: byte)
    requires OVERHEAD <= |s| <= MAX_FRAME_SIZE && s[0] as int + 1 == |s|
    ensures Parse(SetFlag(s, flag)) == Ok(Fields(s).(flags := Or(s[3], flag)))
  {
    var t := SetFlag(s, flag);
    var body := s[..3] + [Or(s[3], flag)] + s[4..|s| - 2];
    assert t[..|t| - 2] == body;
    BytesOfCrc(Crc(body));
    assert t[HEADER_SIZE..|t| - 2] == s[HEADER_SIZE..|s| - 2];
  }
}
