/** The byte-stuffing half of python/arc_protocol/protocol.py, held to the same functions as the C code. */
module PyProtocol {
  import opened Bytes
  import opened Cobs
  import Framing

  const MAX_FRAME_SIZE := Framing.MAX_FRAME_SIZE
  const MAX_ENCODED_SIZE := 254

  /** The output so far: finished blocks, a zero where the next code byte goes, the open block. */
  ghost predicate Open(data: seq<byte>, i: nat, out: seq<byte>, codeIdx: nat, code: nat) {
    && codeIdx < |out| && code == |out| - codeIdx
    && Encoding(data, i, out[..codeIdx], out[codeIdx + 1..])
  }

  lemma {:induction false} Opened(data: seq<byte>, i: nat, done: seq<byte>)
    requires Encoding(data, i, done, [])
    ensures Open(data, i, done + [0], |done|, 1)
  {
    assert (done + [0])[..|done|] == done && (done + [0])[|done| + 1..] == [];
  }

  lemma {:induction false} FillHole(out: seq<byte>, codeIdx: nat, code: byte)
    requires codeIdx < |out|
    ensures out[codeIdx := code] == out[..codeIdx] + ([code] + out[codeIdx + 1..])
  {}

  lemma {:induction false} OpenZero(data: seq<byte>, i: nat, out: seq<byte>, codeIdx: nat, code: nat)
    requires Open(data, i, out, codeIdx, code) && i < |data| && data[i] == 0
    ensures code < 255 && Open(data, i + 1, out[codeIdx := code] + [0], |out|, 1)
  {
    EncodingZero(data, i, out[..codeIdx], out[codeIdx + 1..]);
    FillHole(out, codeIdx, code);
    Opened(data, i + 1, out[codeIdx := code]);
  }

  lemma {:induction false} OpenLiteral(data: seq<byte>, i: nat, out: seq<byte>, codeIdx: nat, code: nat)
    requires Open(data, i, out, codeIdx, code) && i < |data| && data[i] != 0
    ensures code + 1 < 255 ==> Open(data, i + 1, out + [data[i]], codeIdx, code + 1)
    ensures code + 1 == 255 ==> Open(data, i + 1, (out + [data[i]])[codeIdx := 255] + [0], |out| + 1, 1)
    ensures code < 255
  {
    var more := out + [data[i]];
    EncodingLiteral(data, i, out[..codeIdx], out[codeIdx + 1..]);
    assert more[..codeIdx] == out[..codeIdx] && more[codeIdx + 1..] == out[codeIdx + 1..] + [data[i]];
    if code + 1 == 255 {
      FillHole(more, codeIdx, 255);
      Opened(data, i + 1, more[codeIdx := 255]);
    }
  }

  lemma {:induction false} OpenEnds(data: seq<byte>, out: seq<byte>, codeIdx: nat, code: nat)
    requires Open(data, |data|, out, codeIdx, code)
    ensures code < 255 && out[codeIdx := code] == Encode(data)
  {
    EncodingEnds(data, out[..codeIdx], out[codeIdx + 1..]);
    FillHole(out, codeIdx, code);
  }

  /** cobs_encode; the bytearray is a sequence that is updated and appended to. */
  method CobsEncode(data: seq<byte>) returns (r: Result<seq<byte>>)
    ensures r == if |data| > MAX_FRAME_SIZE then Err(Buffer) else Ok(Encode(data) + [0])
  {
    if |data| > MAX_FRAME_SIZE {
      return Err(Buffer);
    }
    var out: seq<byte> := [0];
    var codeIdx: nat, code: nat := 0, 1;
    EncodingStarts(data);
    for i := 0 to |data|
      invariant Open(data, i, out, codeIdx, code)
    {
      if data[i] == 0 {
        OpenZero(data, i, out, codeIdx, code);
        out := out[codeIdx := code];
        codeIdx := |out|;
        out := out + [0];
        code := 1;
      } else {
        OpenLiteral(data, i, out, codeIdx, code);
        out := out + [data[i]];
        code := code + 1;
        if code == 0xFF {
          out := out[codeIdx := code];
          codeIdx := |out|;
          out := out + [0];
          code := 1;
        }
      }
    }
    OpenEnds(data, out, codeIdx, code);
    out := out[codeIdx := code];
    out := out + [0];
    ShortInputsHaveNoMaxRun(data);
    if |out| > MAX_ENCODED_SIZE {
      return Err(Buffer);
    }
    return Ok(out);
  }

  /** cobs_decode: the output grows freely and its size is looked at last. */
  function Decoded(w: seq<byte>): Result<seq<byte>> {
    match Decode(w, |w|)
    case Err(_) => Err(BadCobs)
    case Ok(d) => if |d| > MAX_FRAME_SIZE then Err(Buffer) else Ok(d)
  }

  /** One iteration of the loop of cobs_decode. */
  method AppendBlock(data: seq<byte>, end: nat, inIdx: nat, out: seq<byte>) returns (next: seq<byte>)
    requires inIdx < end <= |data| && data[inIdx] != 0 && inIdx + data[inIdx] <= end
    ensures next == out + Block(data[..end], inIdx)
  {
    var code := data[inIdx];
    BlockAppended(data[..end], inIdx, out);
    PrefixSlice(data, end, inIdx + 1, inIdx + code);
    next := out + data[inIdx + 1..inIdx + code];
    if code != 0xFF && inIdx + code < end {
      next := next + [0];
    }
  }

  method CobsDecode(data: seq<byte>) returns (r: Result<seq<byte>>)
    ensures r == Decoded(data)
  {
    if |data| < 2 || data[|data| - 1] != 0 {
      return Err(BadCobs);
    }
    var out: seq<byte> := [];
    var inIdx, end := 0, |data| - 1;
    ghost var b, cap := data[..end], |data|;
    DecodeFromStart(b, cap);
    while inIdx < end
      invariant 0 <= inIdx <= end && |out| <= inIdx
      invariant DecodeFrom(b, cap, inIdx, out) == DecodeBlocks(b, cap)
    {
      if data[inIdx] == 0 || inIdx + data[inIdx] > end {
        return Err(BadCobs);
      }
      out := AppendBlock(data, end, inIdx, out);
      inIdx := inIdx + data[inIdx];
    }
    if |out| > MAX_FRAME_SIZE {
      return Err(Buffer);
    }
    return Ok(out);
  }

  /** Both languages accept the same wire bytes and read the same frame bytes from them; where Python reports a
      frame that is too large, so does C, which may also report that for bytes Python calls malformed. */
  lemma {:induction false} DecodersAgree(w: seq<byte>)
    ensures Decode(w, MAX_FRAME_SIZE).Ok? <==> Decoded(w).Ok?
    ensures Decoded(w).Ok? ==> Decoded(w) == Decode(w, MAX_FRAME_SIZE)
    ensures Decoded(w) == Err(Buffer) ==> Decode(w, MAX_FRAME_SIZE) == Err(Buffer)
  {
    if |w| >= 2 && w[|w| - 1] == 0 {
      var b := w[..|w| - 1];
      CapacityOnlyLimits(b, MAX_FRAME_SIZE);
      if DecodeBlocks(b, |w|).Ok? {
        DecodedSize(b, |w|);
        LargerCapacity(b, |w|, |w| - 1);
        if |DecodeBlocks(b, |w|).value| > MAX_FRAME_SIZE { SmallerCapacity(b, |w|, MAX_FRAME_SIZE); }
      }
      if DecodeBlocks(b, |b|).Ok? { LargerCapacity(b, |b|, |w|); }
    }
  }

  /** Python calls input malformed exactly when it is shorter than two bytes, does not end in a zero, or its blocks do
      not chain; the only other refusal is of a frame that is too large. */
  lemma {:induction false} PyMalformedIff(w: seq<byte>)
    ensures Decoded(w) == Err(BadCobs) <==> |w| < 2 || w[|w| - 1] != 0 || !Chained(w[..|w| - 1])
    ensures Decoded(w).Ok? || Decoded(w) == Err(BadCobs) || Decoded(w) == Err(Buffer)
  {
    MalformedIff(w, |w|);
  }
}
