/** The framing half of python/arc_protocol/protocol.py. Its fields are Python integers of any size. */
module PyFraming {
  import opened Bytes
  import opened Gf2
  import opened Checksum
  import opened Cobs
  import opened Framing
  import opened Stream
  import PyProtocol

  /** The arguments of build_frame. */
  datatype Draft = Draft(src: int, dst: int, flags: int, session: int, seqno: int, family: int, kind: int,
                         payload: seq<byte>)

  predicate IsByte(v: int) { 0 <= v < 0x100 }

  /** _u8 and _u16 let every field pass. */
  predicate InRange(d: Draft) {
    && IsByte(d.src) && IsByte(d.dst) && IsByte(d.flags) && IsByte(d.session) && 0 <= d.seqno < 0x1_0000
    && IsByte(d.family) && IsByte(d.kind)
  }

  function FrameOf(d: Draft): Frame
    requires InRange(d)
  {
    Frame(d.src, d.dst, d.flags, d.session, d.seqno, d.family, d.kind, d.payload)
  }

  function DraftOf(f: Frame): Draft { Draft(f.src, f.dst, f.flags, f.session, f.seqno, f.family, f.kind, f.payload) }

  /** crc16, on any slice of bytes. */
  method Crc16(data: seq<byte>) returns (crc: Residue)
    ensures crc == Crc(data)
  {
    crc := ONES;
    for i := 0 to |data|
      invariant CrcFrom(crc, data[i..]) == Crc(data)
    {
      assert data[i..][0] == data[i] && data[i..][1..] == data[i + 1..];
      crc := ShiftEight(Xor(crc, AtTop(data[i])));
    }
  }

  /** The item assignments that write the header of a frame. */
  method PutHeader(frame: seq<byte>, d: Draft) returns (r: seq<byte>)
    requires InRange(d) && Sendable(FrameOf(d)) && |frame| == OVERHEAD + |d.payload|
    ensures |r| == |frame| && r == Header(FrameOf(d)) + r[HEADER_SIZE..]
  {
    r := frame[0 := |frame| - 1];
    r := r[1 := d.src];
    r := r[2 := d.dst];
    r := r[3 := d.flags];
    r := r[4 := d.session];
    r := r[5 := d.seqno / 0x100];
    r := r[6 := d.seqno % 0x100];
    r := r[7 := d.family];
    r := r[8 := d.kind];
    assert r[..HEADER_SIZE] == Header(FrameOf(d)) && r[HEADER_SIZE..] == frame[HEADER_SIZE..];
  }

  /** build_frame: ArcBufferError for the payload first, then ValueError for a field out of range. */
  function Built(d: Draft): Result<seq<byte>> {
    if |d.payload| > MAX_PAYLOAD_SIZE then Err(Buffer)
    else if !InRange(d) then Err(BadArg)
    else Ok(Build(FrameOf(d)))
  }

  method BuildFrame(d: Draft) returns (r: Result<seq<byte>>)
    ensures r == Built(d)
  {
    if |d.payload| > MAX_PAYLOAD_SIZE { return Err(Buffer); }
    if !InRange(d) { return Err(BadArg); }
    var n := HEADER_SIZE + |d.payload|;
    var frame := PutHeader(seq(n + 2, _ => 0), d);
    frame := PutPayload(frame, FrameOf(d));
    var crc := Crc16(frame[..n]);
    PutTwo(frame, n, HighByte(crc), LowByte(crc));
    frame := frame[n := HighByte(crc)];
    frame := frame[n + 1 := LowByte(crc)];
    return Ok(frame);
  }

  /** `frame[HEADER_SIZE : HEADER_SIZE + len(payload)] = payload`. */
  method PutPayload(frame: seq<byte>, f: Frame) returns (r: seq<byte>)
    requires Sendable(f) && |frame| == OVERHEAD + |f.payload| && frame == Header(f) + frame[HEADER_SIZE..]
    ensures |r| == |frame| && r[..HEADER_SIZE + |f.payload|] == Header(f) + f.payload
  {
    r := frame[..HEADER_SIZE] + f.payload + frame[HEADER_SIZE + |f.payload|..];
  }

  lemma {:induction false} PutTwo(s: seq<byte>, n: nat, hi: byte, lo: byte)
    requires |s| == n + 2
    ensures s[n := hi][n + 1 := lo] == s[..n] + [hi, lo]
  {}

  /** parse_frame: the C parser's tests in the same order, with one exception for oversized input. */
  function Parsed(data: seq<byte>): Result<Frame> {
    if Parse(data) == Err(TooLong) then Err(Buffer) else Parse(data)
  }

  method ParseFrame(data: seq<byte>) returns (r: Result<Frame>)
    ensures r == Parsed(data)
  {
    if |data| < OVERHEAD { return Err(TooShort); }
    if |data| > MAX_FRAME_SIZE { return Err(Buffer); }
    if data[0] as int + 1 != |data| { return Err(BadLength); }
    var n := HEADER_SIZE + (|data| - OVERHEAD);
    var expected := Crc16(data[..n]);
    var actual := FromBytes(data[n], data[n + 1]);
    if expected != actual { return Err(BadCrc); }
    return Ok(Frame(data[1], data[2], data[3], data[4], Join(data[5], data[6]), data[7], data[8], data[HEADER_SIZE..n]));
  }

  /** encode_frame. */
  method EncodeFrame(d: Draft) returns (r: Result<seq<byte>>)
    ensures r == if Built(d).Err? then Built(d) else Ok(Wire(FrameOf(d)))
  {
    var built := BuildFrame(d);
    if built.Err? { return built; }
    r := PyProtocol.CobsEncode(built.value);
  }

  function ReadFrame(w: seq<byte>): Result<Frame> {
    match PyProtocol.Decoded(w)
    case Err(e) => Err(e)
    case Ok(s) => Parsed(s)
  }

  /** decode_frame. */
  method DecodeFrame(w: seq<byte>) returns (r: Result<Frame>)
    ensures r == ReadFrame(w)
  {
    var s := PyProtocol.CobsDecode(w);
    if s.Err? { return Err(s.error); }
    r := ParseFrame(s.value);
  }

  /** The two languages understand each other: C and Python accept the same bytes from the link and read the same
      frame from them; and what Python sends for a draft is what C sends for the frame, which both read back. */
  lemma {:induction false} SameLanguage(w: seq<byte>, f: Frame)
    ensures ReadPiece(w) == Ok(f) <==> ReadFrame(w) == Ok(f)
  {
    PyProtocol.DecodersAgree(w);
  }

  /** Python refuses to send exactly the drafts with an oversized payload or a field out of range; every other draft
      arrives as itself, at either kind of receiver. */
  lemma {:induction false} DraftArrives(d: Draft)
    ensures Built(d).Ok? <==> |d.payload| <= MAX_PAYLOAD_SIZE && InRange(d)
    ensures Built(d) == Err(Buffer) <==> |d.payload| > 241
    ensures Built(d) == Err(BadArg) <==> |d.payload| <= 241 && !InRange(d)
    ensures Built(d).Ok? ==>
              var w := Wire(FrameOf(d));
              && ReadFrame(w).Ok? && DraftOf(ReadFrame(w).value) == d
              && ReadPiece(w).Ok? && DraftOf(ReadPiece(w).value) == d
  {
    if Built(d).Ok? {
      WireOf(FrameOf(d));
      SameLanguage(Wire(FrameOf(d)), FrameOf(d));
    }
  }

  /** Damaged frames get the errors C gives them: flipped bits, bursts, and odd numbers of changed bits. */
  lemma {:induction false} DamageRejected(s: seq<byte>, t: seq<byte>, o: nat)
    requires Parsed(s).Ok? && |s| == |t| && s != t
    requires || 1 <= Distance(Bits(s), Bits(t)) <= 3
             || Distance(Bits(s), Bits(t)) % 2 == 1
             || (o + 16 <= 8 * |s| &&
                 forall k :: 0 <= k < 8 * |s| && !(o <= k < o + 16) ==> Bits(s)[k] == Bits(t)[k])
    ensures t[0] == s[0] ==> Parsed(t) == Err(BadCrc)
    ensures t[0] != s[0] ==> Parsed(t) == Err(BadLength)
  {
    if 1 <= Distance(Bits(s), Bits(t)) <= 3 {
      FlippedBitsRejected(s, t);
    } else if Distance(Bits(s), Bits(t)) % 2 == 1 {
      OddChangesRejected(s, t);
    } else {
      BurstRejected(s, t, o);
    }
  }

  /** Which error any string gets: an oversized one ArcBufferError, here Buffer. */
  lemma {:induction false} PyErrorsAre(s: seq<byte>, n: nat)
    ensures Parsed(s) == Err(TooShort) <==> |s| < 11
    ensures Parsed(s) == Err(Buffer) <==> |s| > 252
    ensures Parsed(s) == Err(BadLength) <==> 11 <= |s| <= 252 && s[0] as int + 1 != |s|
    ensures Parsed(s) == Err(BadCrc) <==> 11 <= |s| <= 252 && s[0] as int + 1 == |s| && Crc(s) != ZERO
    ensures Parsed(s).Ok? && n < |s| ==> Parsed(s[..n]) == Err(if n < 11 then TooShort else BadLength)
  {
    ErrorsAre(s);
    if Parsed(s).Ok? && n < |s| { TruncatedRejected(s, n); }
  }
}
