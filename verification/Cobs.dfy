/** Consistent Overhead Byte Stuffing as src/arc_protocol.c and python/arc_protocol/protocol.py implement it. */
module Cobs {
  import opened Bytes

  predicate ZeroFree(s: seq<byte>) { forall i :: 0 <= i < |s| ==> s[i] != 0 }

  /** Length of the zero-free prefix of d, at most cap. */
  function Run(d: seq<byte>, cap: nat): (n: nat)
    ensures n <= |d| && n <= cap && ZeroFree(d[..n])
    ensures n == cap || n == |d| || d[n] == 0
    decreases |d|
  {
    if cap == 0 || d == [] || d[0] == 0 then 0
    else
      var m := Run(d[1..], cap - 1);
      assert d[..m + 1] == [d[0]] + d[1..][..m];
      m + 1
  }

  /** The encoding of d without its delimiter: blocks of a code byte and code - 1 literals. */
  function Encode(d: seq<byte>): (w: seq<byte>)
    ensures |w| > |d|
    decreases |d|
  {
    var n := Run(d, 254);
    if n == 254 then [255] + d[..254] + Encode(d[254..])
    else if n == |d| then [n + 1] + d
    else [n + 1] + d[..n] + Encode(d[n + 1..])
  }

  lemma {:induction false} RunIs(run: seq<byte>, rest: seq<byte>)
    requires ZeroFree(run) && |run| <= 254
    requires |run| == 254 || rest == [] || rest[0] == 0
    ensures Run(run + rest, 254) == |run|
  {
    var d := run + rest;
    var n := Run(d, 254);
    assert d[..|run|] == run;
  }

  lemma {:induction false} EncodeZero(run: seq<byte>, rest: seq<byte>)
    requires ZeroFree(run) && |run| < 254
    ensures Encode(run + [0] + rest) == [|run| + 1] + run + Encode(rest)
  {
    var d := run + [0] + rest;
    assert d == run + ([0] + rest);
    RunIs(run, [0] + rest);
    assert d[..|run|] == run && d[|run| + 1..] == rest;
  }

  lemma {:induction false} EncodeMax(run: seq<byte>, rest: seq<byte>)
    requires ZeroFree(run) && |run| == 254
    ensures Encode(run + rest) == [255] + run + Encode(rest)
  {
    var d := run + rest;
    RunIs(run, rest);
    assert d[..254] == run && d[254..] == rest;
  }

  lemma {:induction false} EncodeLast(run: seq<byte>)
    requires ZeroFree(run) && |run| < 254
    ensures Encode(run) == [|run| + 1] + run
  {
    RunIs(run, []);
    assert run + [] == run;
  }

  /** Half-way through s: done is final output, run is the open block, whose code byte is still a hole. */
  ghost predicate Encoding(s: seq<byte>, i: nat, done: seq<byte>, run: seq<byte>) {
    i <= |s| && ZeroFree(run) && |run| < 254 && Encode(s) == done + Encode(run + s[i..])
  }

  lemma {:induction false} EncodingStarts(s: seq<byte>)
    ensures Encoding(s, 0, [], [])
  {
    assert [] + s[0..] == s && [] + Encode(s) == Encode(s);
  }

  lemma {:induction false} EncodingZero(s: seq<byte>, i: nat, done: seq<byte>, run: seq<byte>)
    requires Encoding(s, i, done, run) && i < |s| && s[i] == 0
    ensures Encoding(s, i + 1, done + ([|run| + 1] + run), [])
  {
    var rest := s[i + 1..];
    assert run + s[i..] == run + [0] + rest;
    EncodeZero(run, rest);
    assert [] + rest == rest;
    assert done + (([|run| + 1] + run) + Encode(rest)) == (done + ([|run| + 1] + run)) + Encode(rest);
  }

  lemma {:induction false} EncodingLiteral(s: seq<byte>, i: nat, done: seq<byte>, run: seq<byte>)
    requires Encoding(s, i, done, run) && i < |s| && s[i] != 0
    ensures |run| < 253 ==> Encoding(s, i + 1, done, run + [s[i]])
    ensures |run| == 253 ==> Encoding(s, i + 1, done + ([255] + (run + [s[i]])), [])
  {
    var run', rest := run + [s[i]], s[i + 1..];
    assert run + s[i..] == run' + rest;
    if |run| == 253 {
      EncodeMax(run', rest);
      assert [] + rest == rest;
      assert done + (([255] + run') + Encode(rest)) == (done + ([255] + run')) + Encode(rest);
    }
  }

  lemma {:induction false} EncodingEnds(s: seq<byte>, done: seq<byte>, run: seq<byte>)
    requires Encoding(s, |s|, done, run)
    ensures Encode(s) == done + ([|run| + 1] + run)
  {
    assert run + s[|s|..] == run;
    EncodeLast(run);
  }

  lemma {:induction false} EncodingRoom(s: seq<byte>, i: nat, done: seq<byte>, run: seq<byte>)
    requires Encoding(s, i, done, run)
    ensures |done| + 1 + |run| + (|s| - i) <= |Encode(s)|
  {}

  /** The buffer after i bytes of s: finished blocks up to codeIdx, a hole for the next code byte there,
      the open block up to outIdx, and nothing else touched. */
  ghost predicate Partial(s: seq<byte>, i: nat, before: seq<byte>, buf: seq<byte>, codeIdx: nat, outIdx: nat) {
    && codeIdx < outIdx <= |buf| == |before|
    && Encoding(s, i, buf[..codeIdx], buf[codeIdx + 1..outIdx])
    && buf[outIdx..] == before[outIdx..]
  }

  lemma {:induction false} PartialRoom(s: seq<byte>, i: nat, before: seq<byte>, buf: seq<byte>, codeIdx: nat,
          outIdx: nat)
    requires Partial(s, i, before, buf, codeIdx, outIdx)
    ensures outIdx - codeIdx <= 254 && outIdx + (|s| - i) <= |Encode(s)|
  {
    EncodingRoom(s, i, buf[..codeIdx], buf[codeIdx + 1..outIdx]);
  }

  lemma {:induction false} PartialEnds(s: seq<byte>, before: seq<byte>, buf: seq<byte>, codeIdx: nat, outIdx: nat,
          code: byte)
    requires Partial(s, |s|, before, buf, codeIdx, outIdx) && code == outIdx - codeIdx && outIdx < |buf|
    ensures outIdx == |Encode(s)|
    ensures buf[codeIdx := code][outIdx := 0] == Encode(s) + [0] + before[outIdx + 1..]
  {
    var done, run, buf' := buf[..codeIdx], buf[codeIdx + 1..outIdx], buf[codeIdx := code][outIdx := 0];
    EncodingEnds(s, done, run);
    assert buf'[..outIdx] == done + ([code] + run);
    assert buf'[outIdx + 1..] == buf[outIdx..][1..] == before[outIdx + 1..];
    assert buf' == buf'[..outIdx] + [0] + buf'[outIdx + 1..];
  }

  /** The loop variables of arc_cobs_encode. */
  datatype Cursor = Cursor(codeIdx: nat, outIdx: nat, code: byte)

  /** One iteration of the loop of arc_cobs_encode, for the byte b. */
  method PutByte(b: byte, out: array<byte>, at: Cursor) returns (next: Cursor)
    requires at.codeIdx < at.outIdx < out.Length && at.code < 0xFF
    requires b != 0 && at.code == 254 ==> at.outIdx + 1 < out.Length
    modifies out
    ensures out[..] == PutBuffer(old(out[..]), b, at) && next == PutCursor(b, at)
  {
    ghost var buf := out[..];
    var codeIdx, outIdx, code := at.codeIdx, at.outIdx, at.code;
    if b == 0 {
      out[codeIdx] := code;
      assert out[..] == buf[codeIdx := code];
      codeIdx := outIdx;
      outIdx := outIdx + 1;
      code := 1;
    } else {
      out[outIdx] := b;
      assert out[..] == buf[outIdx := b];
      outIdx := outIdx + 1;
      code := code + 1;
      if code == 0xFF {
        out[codeIdx] := code;
        assert out[..] == buf[outIdx - 1 := b][codeIdx := 255];
        codeIdx := outIdx;
        outIdx := outIdx + 1;
        code := 1;
      }
    }
    return Cursor(codeIdx, outIdx, code);
  }

  function PutBuffer(buf: seq<byte>, b: byte, at: Cursor): (r: seq<byte>)
    ensures |r| == |buf|
  {
    if at.codeIdx >= at.outIdx || at.outIdx >= |buf| then buf
    else if b == 0 then buf[at.codeIdx := at.code]
    else if at.code == 254 then buf[at.outIdx := b][at.codeIdx := 255]
    else buf[at.outIdx := b]
  }

  function PutCursor(b: byte, at: Cursor): Cursor {
    if b == 0 then Cursor(at.outIdx, at.outIdx + 1, 1)
    else if at.code >= 254 then Cursor(at.outIdx + 1, at.outIdx + 2, 1)
    else Cursor(at.codeIdx, at.outIdx + 1, at.code + 1)
  }

  ghost predicate PartialAt(s: seq<byte>, i: nat, before: seq<byte>, buf: seq<byte>, at: Cursor) {
    Partial(s, i, before, buf, at.codeIdx, at.outIdx) && at.code == at.outIdx - at.codeIdx
  }

  lemma {:induction false} PartialZero(s: seq<byte>, i: nat, before: seq<byte>, buf: seq<byte>, at: Cursor)
    requires PartialAt(s, i, before, buf, at) && i < |s| && s[i] == 0 && at.outIdx < |buf|
    ensures PartialAt(s, i + 1, before, PutBuffer(buf, s[i], at), PutCursor(s[i], at))
  {
    var done, run, buf' := buf[..at.codeIdx], buf[at.codeIdx + 1..at.outIdx], PutBuffer(buf, s[i], at);
    EncodingZero(s, i, done, run);
    assert buf'[..at.outIdx] == done + ([at.code] + run);
    assert buf'[at.outIdx + 1..at.outIdx + 1] == [];
    assert buf'[at.outIdx + 1..] == buf[at.outIdx..][1..] == before[at.outIdx + 1..];
  }

  lemma {:induction false} PartialLiteral(s: seq<byte>, i: nat, before: seq<byte>, buf: seq<byte>, at: Cursor)
    requires PartialAt(s, i, before, buf, at) && i < |s| && s[i] != 0 && at.code < 254 && at.outIdx < |buf|
    ensures PartialAt(s, i + 1, before, PutBuffer(buf, s[i], at), PutCursor(s[i], at))
  {
    var done, run, buf' := buf[..at.codeIdx], buf[at.codeIdx + 1..at.outIdx], PutBuffer(buf, s[i], at);
    EncodingLiteral(s, i, done, run);
    assert buf'[..at.codeIdx] == done;
    assert buf'[at.codeIdx + 1..at.outIdx + 1] == run + [s[i]];
    assert buf'[at.outIdx + 1..] == buf[at.outIdx..][1..] == before[at.outIdx + 1..];
  }

  lemma {:induction false} PartialMax(s: seq<byte>, i: nat, before: seq<byte>, buf: seq<byte>, at: Cursor)
    requires PartialAt(s, i, before, buf, at) && i < |s| && s[i] != 0 && at.code == 254 && at.outIdx + 1 < |buf|
    ensures PartialAt(s, i + 1, before, PutBuffer(buf, s[i], at), PutCursor(s[i], at))
  {
    var done, run, buf' := buf[..at.codeIdx], buf[at.codeIdx + 1..at.outIdx], PutBuffer(buf, s[i], at);
    EncodingLiteral(s, i, done, run);
    assert buf'[..at.outIdx + 1] == done + ([255] + (run + [s[i]]));
    assert buf'[at.outIdx + 2..at.outIdx + 2] == [];
    assert buf'[at.outIdx + 2..] == buf[at.outIdx..][2..] == before[at.outIdx + 2..];
  }

  lemma {:induction false} PartialStarts(s: seq<byte>, before: seq<byte>)
    requires |before| >= 1
    ensures PartialAt(s, 0, before, before, Cursor(0, 1, 1))
  {
    EncodingStarts(s);
    assert before[..0] == [] && before[1..1] == [];
  }

  lemma {:induction false} PartialStep(s: seq<byte>, i: nat, before: seq<byte>, buf: seq<byte>, at: Cursor)
    requires PartialAt(s, i, before, buf, at) && i < |s| && |Encode(s)| < |buf|
    ensures at.codeIdx < at.outIdx < |buf| && at.code < 0xFF
    ensures s[i] != 0 && at.code == 254 ==> at.outIdx + 1 < |buf|
    ensures PartialAt(s, i + 1, before, PutBuffer(buf, s[i], at), PutCursor(s[i], at))
  {
    PartialRoom(s, i, before, buf, at.codeIdx, at.outIdx);
    if s[i] == 0 {
      PartialZero(s, i, before, buf, at);
    } else if at.code == 254 {
      PartialMax(s, i, before, buf, at);
    } else {
      PartialLiteral(s, i, before, buf, at);
    }
  }

  /** The buffer and the cursor after i bytes of s. */
  function Stuffed(s: seq<byte>, i: nat, before: seq<byte>): (r: (seq<byte>, Cursor))
    requires i <= |s|
    ensures |r.0| == |before|
  {
    if i == 0 then (before, Cursor(0, 1, 1))
    else
      var (buf, at) := Stuffed(s, i - 1, before);
      (PutBuffer(buf, s[i - 1], at), PutCursor(s[i - 1], at))
  }

  lemma {:induction false} StuffedIsPartial(s: seq<byte>, i: nat, before: seq<byte>)
    requires i <= |s| && |Encode(s)| < |before|
    ensures PartialAt(s, i, before, Stuffed(s, i, before).0, Stuffed(s, i, before).1)
  {
    if i == 0 {
      PartialStarts(s, before);
    } else {
      StuffedIsPartial(s, i - 1, before);
      PartialStep(s, i - 1, before, Stuffed(s, i - 1, before).0, Stuffed(s, i - 1, before).1);
    }
  }

  /** The stores of one more iteration are inside the buffer. */
  lemma {:induction false} StuffedRoom(s: seq<byte>, i: nat, before: seq<byte>)
    requires i < |s| && |Encode(s)| < |before|
    ensures var (buf, at) := Stuffed(s, i, before);
            && at.codeIdx < at.outIdx < |buf| && at.code < 0xFF
            && (s[i] != 0 && at.code == 254 ==> at.outIdx + 1 < |buf|)
  {
    StuffedIsPartial(s, i, before);
    PartialStep(s, i, before, Stuffed(s, i, before).0, Stuffed(s, i, before).1);
  }

  /** Closing the last block finishes the encoding. */
  lemma {:induction false} StuffedFinish(s: seq<byte>, before: seq<byte>, buf: seq<byte>, at: Cursor)
    requires (buf, at) == Stuffed(s, |s|, before) && |Encode(s)| < |before|
    ensures at.codeIdx < at.outIdx < |buf| && at.outIdx == |Encode(s)|
    ensures buf[at.codeIdx := at.code][at.outIdx := 0] == Encode(s) + [0] + before[at.outIdx + 1..]
  {
    StuffedIsPartial(s, |s|, before);
    PartialRoom(s, |s|, before, buf, at.codeIdx, at.outIdx);
    PartialEnds(s, before, buf, at.codeIdx, at.outIdx, at.code);
  }

  /** The two last stores of arc_cobs_encode. */
  method CloseBlock(out: array<byte>, at: Cursor)
    requires at.codeIdx < at.outIdx < out.Length
    modifies out
    ensures out[..] == old(out[..])[at.codeIdx := at.code][at.outIdx := 0]
  {
    out[at.codeIdx] := at.code;
    out[at.outIdx] := 0;
  }

  /** arc_cobs_encode into a buffer of out.Length bytes. The capacity test at the top is the source's;
      the second precondition is that a buffer which passes it is not overrun. */
  method CobsEncode(input: array<byte>, len: nat, out: array<byte>) returns (r: Result<nat>)
    requires len <= input.Length && input != out
    requires out.Length < len + 2 || |Encode(input[..len])| + 1 <= out.Length
    modifies out
    ensures out.Length < len + 2 ==> r == Err(Buffer) && out[..] == old(out[..])
    ensures out.Length >= len + 2 ==>
              var wire := Encode(input[..len]) + [0];
              r == Ok(|wire|) && out[..] == wire + old(out[|wire|..])
  {
    if out.Length < len + 2 {
      return Err(Buffer);
    }
    ghost var s, before := input[..len], out[..];
    var at := Cursor(0, 1, 1);
    for i := 0 to len
      invariant (out[..], at) == Stuffed(s, i, before)
    {
      StuffedRoom(s, i, before);
      at := PutByte(input[i], out, at);
    }
    StuffedFinish(s, before, out[..], at);
    CloseBlock(out, at);
    return Ok(at.outIdx + 1);
  }

  // ---------------------------------------------------------------------
  // Decoding.
  // ---------------------------------------------------------------------

  /** Blocks b decoded with room for cap more bytes. */
  function DecodeBlocks(b: seq<byte>, cap: nat): (r: Result<seq<byte>>)
    ensures r.Ok? ==> |r.value| <= cap
    decreases |b|
  {
    if b == [] then Ok([])
    else
      var code := b[0];
      if code == 0 || code > |b| then Err(BadCobs)
      else if code - 1 > cap then Err(Buffer)
      else
        var gap := Gap(code, code == |b|);
        if code - 1 + |gap| > cap then Err(Buffer)
        else
          match DecodeBlocks(b[code..], cap - (code - 1) - |gap|)
          case Err(e) => Err(e)
          case Ok(d) => Ok(b[1..code] + gap + d)
  }

  /** arc_cobs_decode: w is the whole input, delimiter included. */
  function Decode(w: seq<byte>, cap: nat): (r: Result<seq<byte>>)
    ensures r.Ok? ==> |r.value| <= cap
  {
    if |w| < 2 || w[|w| - 1] != 0 then Err(BadCobs) else DecodeBlocks(w[..|w| - 1], cap)
  }

  function Prefixed(written: seq<byte>, r: Result<seq<byte>>): Result<seq<byte>> {
    match r
    case Err(e) => Err(e)
    case Ok(d) => Ok(written + d)
  }

  /** Half-way through b: what has been written, then the decoding of what is left. */
  ghost predicate Decoding(b: seq<byte>, cap: nat, i: nat, written: seq<byte>) {
    && i <= |b| && |written| <= cap
    && DecodeBlocks(b, cap) == Prefixed(written, DecodeBlocks(b[i..], cap - |written|))
  }

  /** The zero a block stands for, if it stands for one. */
  function Gap(code: nat, last: bool): (g: seq<byte>) { if code != 255 && !last then [0] else [] }

  /** The first block of w taken off. */
  lemma {:induction false} DecodeBlock(lit: seq<byte>, rest: seq<byte>, cap: nat)
    requires |lit| <= 254
    ensures var gap := Gap(|lit| + 1, rest == []);
            DecodeBlocks([|lit| + 1] + lit + rest, cap)
            == if |lit| > cap || |lit| + |gap| > cap then Err(Buffer)
               else match DecodeBlocks(rest, cap - |lit| - |gap|)
                    case Err(e) => Err(e)
                    case Ok(d) => Ok(lit + gap + d)
  {
    var w := [|lit| + 1] + lit + rest;
    assert w[0] == |lit| + 1;
    assert w[1..|lit| + 1] == lit && w[|lit| + 1..] == rest;
  }

  lemma {:induction false} DecodingStarts(b: seq<byte>, cap: nat)
    ensures Decoding(b, cap, 0, [])
  {
    assert b[0..] == b;
    match DecodeBlocks(b, cap)
    case Err(_) =>
    case Ok(d) => assert [] + d == d;
  }

  lemma {:induction false} DecodingEnds(b: seq<byte>, cap: nat, written: seq<byte>)
    requires Decoding(b, cap, |b|, written)
    ensures DecodeBlocks(b, cap) == Ok(written)
  {
    assert b[|b|..] == [] && written + [] == written;
  }

  lemma {:induction false} DecodingFull(b: seq<byte>, cap: nat, i: nat, written: seq<byte>)
    requires Decoding(b, cap, i, written) && i < |b|
    requires b[i] != 0 && i + b[i] <= |b|
    requires |written| + b[i] - 1 + |Gap(b[i], i + b[i] == |b|)| > cap
    ensures DecodeBlocks(b, cap) == Err(Buffer)
  {
    assert b[i..][0] == b[i];
  }

  lemma {:induction false} DecodingBad(b: seq<byte>, cap: nat, i: nat, written: seq<byte>)
    requires Decoding(b, cap, i, written) && i < |b|
    requires b[i] == 0 || i + b[i] > |b|
    ensures DecodeBlocks(b, cap) == Err(BadCobs)
  {
    assert b[i..][0] == b[i];
  }

  lemma {:induction false} BlockParts(b: seq<byte>, i: nat)
    requires i < |b| && b[i] != 0 && i + b[i] <= |b|
    ensures b[i..] == [|b[i + 1..i + b[i]]| + 1] + b[i + 1..i + b[i]] + b[i + b[i]..]
  {}

  /** Decoding goes on behind a block that fits. */
  lemma {:induction false} DecodingOn(rest: seq<byte>, lit: seq<byte>, tail: seq<byte>, gap: seq<byte>, room: nat,
          written: seq<byte>)
    requires |lit| <= 254 && rest == [|lit| + 1] + lit + tail && gap == Gap(|lit| + 1, tail == [])
    requires |lit| + |gap| <= room
    ensures Prefixed(written, DecodeBlocks(rest, room)) ==
            Prefixed(written + (lit + gap), DecodeBlocks(tail, room - |lit| - |gap|))
  {
    DecodeBlock(lit, tail, room);
    match DecodeBlocks(tail, room - |lit| - |gap|)
    case Err(_) =>
    case Ok(d) => Associate(written, lit + gap, d);
  }

  lemma {:induction false} DecodingBlock(b: seq<byte>, cap: nat, i: nat, written: seq<byte>)
    requires Decoding(b, cap, i, written) && i < |b|
    requires b[i] != 0 && i + b[i] <= |b|
    requires |written| + b[i] - 1 + |Gap(b[i], i + b[i] == |b|)| <= cap
    ensures Decoding(b, cap, i + b[i], written + (b[i + 1..i + b[i]] + Gap(b[i], i + b[i] == |b|)))
  {
    var lit, tail, gap := b[i + 1..i + b[i]], b[i + b[i]..], Gap(b[i], i + b[i] == |b|);
    BlockParts(b, i);
    DecodingOn(b[i..], lit, tail, gap, cap - |written|, written);
    assert cap - |written + (lit + gap)| == cap - |written| - |lit| - |gap|;
  }

  /** What the block at position i of b stands for. */
  function Block(b: seq<byte>, i: nat): (r: seq<byte>)
    requires i < |b| && b[i] != 0 && i + b[i] <= |b|
    ensures |r| == b[i] - 1 + |Gap(b[i], i + b[i] == |b|)|
  {
    b[i + 1..i + b[i]] + Gap(b[i], i + b[i] == |b|)
  }

  /** Appending the literals of a block, and then its zero if it stands for one, is appending the block. */
  lemma {:induction false} BlockAppended(b: seq<byte>, i: nat, written: seq<byte>)
    requires i < |b| && b[i] != 0 && i + b[i] <= |b|
    ensures var lit := b[i + 1..i + b[i]];
            if b[i] != 0xFF && i + b[i] < |b| then (written + lit) + [0] == written + Block(b, i)
            else written + lit == written + Block(b, i)
  {}

  /** One iteration of the loop of arc_cobs_decode; the new out_idx. */
  method TakeBlock(input: array<byte>, end: nat, inIdx: nat, out: array<byte>, outIdx: nat) returns (r: Result<nat>)
    requires inIdx < end <= input.Length && outIdx <= out.Length && input != out
    modifies out
    ensures var b := input[..end];
            if b[inIdx] == 0 || inIdx + b[inIdx] > end then r == Err(BadCobs)
            else if outIdx + |Block(b, inIdx)| > out.Length then r == Err(Buffer)
            else r == Ok(outIdx + |Block(b, inIdx)|) && out[..r.value] == old(out[..outIdx]) + Block(b, inIdx)
  {
    var code := input[inIdx];
    if code == 0 { return Err(BadCobs); }
    var literalCount := code - 1;
    if inIdx + 1 + literalCount > end { return Err(BadCobs); }
    if outIdx + literalCount > out.Length { return Err(Buffer); }
    ghost var b, written, lit := input[..end], out[..outIdx], input[inIdx + 1..inIdx + code];
    PrefixSlice(input[..], end, inIdx + 1, inIdx + code);
    assert lit == b[inIdx + 1..inIdx + code];
    BlockAppended(b, inIdx, written);
    Memcpy(out, outIdx, input, inIdx + 1, literalCount);
    var at := outIdx + literalCount;
    assert out[..at] == written + lit;
    if code != 0xFF && inIdx + 1 + literalCount < end {
      if at >= out.Length { return Err(Buffer); }
      Push(out, at, 0);
      at := at + 1;
    }
    return Ok(at);
  }

  /** What the source's tests on a block mean for the whole input. */
  lemma {:induction false} DecodingStep(b: seq<byte>, cap: nat, i: nat, written: seq<byte>)
    requires Decoding(b, cap, i, written) && i < |b|
    ensures if b[i] == 0 || i + b[i] > |b| then DecodeBlocks(b, cap) == Err(BadCobs)
            else if |written| + |Block(b, i)| > cap then DecodeBlocks(b, cap) == Err(Buffer)
            else Decoding(b, cap, i + b[i], written + Block(b, i))
  {
    if b[i] == 0 || i + b[i] > |b| {
      DecodingBad(b, cap, i, written);
    } else if |written| + |Block(b, i)| > cap {
      DecodingFull(b, cap, i, written);
    } else {
      DecodingBlock(b, cap, i, written);
    }
  }

  /** The blocks from position i on, with these bytes written before them. */
  function DecodeFrom(b: seq<byte>, cap: nat, i: nat, written: seq<byte>): Result<seq<byte>>
    requires i <= |b|
    decreases |b| - i
  {
    if i == |b| then Ok(written)
    else if b[i] == 0 || i + b[i] > |b| then Err(BadCobs)
    else if |written| + |Block(b, i)| > cap then Err(Buffer)
    else DecodeFrom(b, cap, i + b[i], written + Block(b, i))
  }

  lemma {:induction false} DecodeFromIs(b: seq<byte>, cap: nat, i: nat, written: seq<byte>)
    requires Decoding(b, cap, i, written)
    ensures DecodeFrom(b, cap, i, written) == DecodeBlocks(b, cap)
    decreases |b| - i
  {
    if i == |b| {
      DecodingEnds(b, cap, written);
    } else {
      DecodingStep(b, cap, i, written);
      if b[i] != 0 && i + b[i] <= |b| && |written| + |Block(b, i)| <= cap {
        DecodeFromIs(b, cap, i + b[i], written + Block(b, i));
      }
    }
  }

  lemma {:induction false} DecodeFromStart(b: seq<byte>, cap: nat)
    ensures DecodeFrom(b, cap, 0, []) == DecodeBlocks(b, cap)
  {
    DecodingStarts(b, cap);
    DecodeFromIs(b, cap, 0, []);
  }

  /** arc_cobs_decode into a buffer of out.Length bytes. */
  method CobsDecode(input: array<byte>, len: nat, out: array<byte>) returns (r: Result<nat>)
    requires len <= input.Length && input != out
    modifies out
    ensures var d := Decode(input[..len], out.Length);
            match d
            case Err(e) => r == Err(e)
            case Ok(v) => r == Ok(|v|) && out[..|v|] == v
  {
    if len < 2 || input[len - 1] != 0 {
      return Err(BadCobs);
    }
    var end := len - 1;
    ghost var b := input[..end];
    assert input[..len][..end] == b;
    var inIdx: nat, outIdx: nat := 0, 0;
    DecodeFromStart(b, out.Length);
    assert out[..0] == [];
    while inIdx < end
      invariant inIdx <= end && outIdx <= out.Length && input[..end] == b
      invariant DecodeFrom(b, out.Length, inIdx, out[..outIdx]) == DecodeBlocks(b, out.Length)
    {
      var next := TakeBlock(input, end, inIdx, out, outIdx);
      if next.Err? { return Err(next.error); }
      outIdx := next.value;
      inIdx := inIdx + input[inIdx];
    }
    return Ok(outIdx);
  }

  // ---------------------------------------------------------------------
  // Properties of the code.
  // ---------------------------------------------------------------------

  lemma {:induction false} EncodeIsZeroFree(d: seq<byte>)
    ensures ZeroFree(Encode(d))
    decreases |d|
  {
    var n := Run(d, 254);
    if n == 254 {
      EncodeIsZeroFree(d[254..]);
      ZeroFreeAppend([255] + d[..254], Encode(d[254..]));
    } else if n < |d| {
      EncodeIsZeroFree(d[n + 1..]);
      ZeroFreeAppend([n + 1] + d[..n], Encode(d[n + 1..]));
    }
  }

  lemma {:induction false} ZeroFreeAppend(s: seq<byte>, t: seq<byte>)
    ensures ZeroFree(s + t) <==> ZeroFree(s) && ZeroFree(t)
  {
    if ZeroFree(s + t) {
      forall i | 0 <= i < |s| ensures s[i] != 0 { assert (s + t)[i] != 0; }
      forall i | 0 <= i < |t| ensures t[i] != 0 { assert (s + t)[|s| + i] != 0; }
    }
  }

  lemma {:induction false} DecodeBlockOk(lit: seq<byte>, rest: seq<byte>, d: seq<byte>, cap: nat)
    requires |lit| + |Gap(|lit| + 1, rest == [])| <= cap && |lit| <= 254
    requires DecodeBlocks(rest, cap - |lit| - |Gap(|lit| + 1, rest == [])|) == Ok(d)
    ensures DecodeBlocks([|lit| + 1] + lit + rest, cap) == Ok(lit + Gap(|lit| + 1, rest == []) + d)
  {
    DecodeBlock(lit, rest, cap);
  }

  /** A block that is not the last: its literals, the zero it stands for, and what follows. */
  lemma {:induction false} EncodeInner(lit: seq<byte>, d: seq<byte>)
    requires ZeroFree(lit) && |lit| <= 254
    ensures Encode(lit + Gap(|lit| + 1, false) + d) == [|lit| + 1] + lit + Encode(d)
  {
    if |lit| == 254 {
      EncodeMax(lit, d);
      assert lit + [] == lit;
    } else {
      EncodeZero(lit, d);
    }
  }

  lemma {:induction false} RoundTripInner(lit: seq<byte>, rest: seq<byte>, cap: nat)
    requires ZeroFree(lit) && |lit| <= 254 && |lit| + |Gap(|lit| + 1, false)| <= cap
    requires DecodeBlocks(Encode(rest), cap - |lit| - |Gap(|lit| + 1, false)|) == Ok(rest)
    ensures var d := lit + Gap(|lit| + 1, false) + rest; DecodeBlocks(Encode(d), cap) == Ok(d)
  {
    EncodeInner(lit, rest);
    DecodeBlockOk(lit, Encode(rest), rest, cap);
  }

  lemma {:induction false} RoundTripLast(lit: seq<byte>, cap: nat)
    requires ZeroFree(lit) && |lit| < 254 && |lit| <= cap
    ensures DecodeBlocks(Encode(lit), cap) == Ok(lit)
  {
    EncodeLast(lit);
    assert [|lit| + 1] + lit + [] == [|lit| + 1] + lit;
    DecodeBlockOk(lit, [], [], cap);
    assert lit + [] + [] == lit;
  }

  /** The encoder makes one block of d. */
  predicate OneBlock(d: seq<byte>) { Run(d, 254) < 254 && Run(d, 254) == |d| }

  /** How much of d goes into the first of several blocks: a run, and the zero after it if the block stands for one. */
  function Taken(d: seq<byte>): (k: nat)
    requires !OneBlock(d)
    ensures 0 < k <= |d| && ZeroFree(d[..Run(d, 254)])
    ensures d == d[..Run(d, 254)] + Gap(Run(d, 254) + 1, false) + d[k..]
  {
    Run(d, 254) + |Gap(Run(d, 254) + 1, false)|
  }

  lemma {:induction false} RoundTripStep(d: seq<byte>, cap: nat)
    requires !OneBlock(d) && |d| <= cap
    requires DecodeBlocks(Encode(d[Taken(d)..]), cap - Taken(d)) == Ok(d[Taken(d)..])
    ensures DecodeBlocks(Encode(d), cap) == Ok(d)
  {
    RoundTripInner(d[..Run(d, 254)], d[Taken(d)..], cap);
  }

  /** Decoding the encoding of any bytes gives them back, in any buffer they fit. */
  lemma {:induction false} RoundTrip(d: seq<byte>, cap: nat)
    requires |d| <= cap
    ensures DecodeBlocks(Encode(d), cap) == Ok(d)
    decreases |d|
  {
    if OneBlock(d) {
      assert d[..|d|] == d;
      RoundTripLast(d, cap);
    } else {
      RoundTrip(d[Taken(d)..], cap - Taken(d));
      RoundTripStep(d, cap);
    }
  }

  /** The whole wire form: decodes to what was encoded, and its last byte is its only zero. */
  lemma {:induction false} WireRoundTrip(d: seq<byte>, cap: nat)
    requires |d| <= cap
    ensures Decode(Encode(d) + [0], cap) == Ok(d)
    ensures forall i :: 0 <= i < |Encode(d) + [0]| ==> ((Encode(d) + [0])[i] == 0 <==> i == |Encode(d)|)
  {
    RoundTrip(d, cap);
    EncodeIsZeroFree(d);
    assert (Encode(d) + [0])[..|Encode(d)|] == Encode(d);
  }

  /** Whether the last block of w is one of 254 literals, code 0xFF. */
  predicate EndsInMaxBlock(w: seq<byte>)
    decreases |w|
  {
    w != [] && w[0] != 0 && w[0] <= |w| &&
    if w[0] == |w| then w[0] == 255 else EndsInMaxBlock(w[w[0]..])
  }

  /** The first block of an accepted body. */
  lemma {:induction false} FirstBlock(w: seq<byte>, cap: nat) returns (lit: seq<byte>, rest: seq<byte>, cap': nat)
    requires w != [] && DecodeBlocks(w, cap).Ok?
    ensures |lit| <= 254 && w == [|lit| + 1] + lit + rest && rest == w[w[0]..]
    ensures DecodeBlocks(rest, cap').Ok?
    ensures DecodeBlocks(w, cap).value == lit + Gap(|lit| + 1, rest == []) + DecodeBlocks(rest, cap').value
    ensures ZeroFree(w) ==> ZeroFree(lit) && ZeroFree(rest)
  {
    var code := w[0];
    lit, rest := w[1..code], w[code..];
    cap' := cap - |lit| - |Gap(code, rest == [])|;
    assert [code] + lit + rest == w;
  }

  lemma {:induction false} CanonicalInner(lit: seq<byte>, rest: seq<byte>, d: seq<byte>, tail: seq<byte>)
    requires ZeroFree(lit) && |lit| <= 254 && Encode(d) == rest + tail
    ensures Encode(lit + Gap(|lit| + 1, false) + d) == ([|lit| + 1] + lit + rest) + tail
  {
    EncodeInner(lit, d);
    assert ([|lit| + 1] + lit) + (rest + tail) == ([|lit| + 1] + lit + rest) + tail;
  }

  /** Every zero-free body the decoder accepts is what the encoder makes of the result, but for
      the 0x01 the encoder puts after a final 0xFF block. */
  lemma {:induction false} Canonical(w: seq<byte>, cap: nat)
    requires w != [] && ZeroFree(w) && DecodeBlocks(w, cap).Ok?
    ensures Encode(DecodeBlocks(w, cap).value) == w + if EndsInMaxBlock(w) then [1] else []
    decreases |w|
  {
    var lit, rest, cap' := FirstBlock(w, cap);
    if rest == [] {
      CanonicalLast(lit, w);
      assert lit + [] + [] == lit && w == [|lit| + 1] + lit;
    } else {
      Canonical(rest, cap');
      CanonicalInner(lit, rest, DecodeBlocks(rest, cap').value, if EndsInMaxBlock(rest) then [1] else []);
    }
  }

  lemma {:induction false} CanonicalLast(lit: seq<byte>, w: seq<byte>)
    requires ZeroFree(lit) && |lit| <= 254 && w == [|lit| + 1] + lit
    ensures Encode(lit) == w + if |lit| == 254 then [1] else []
  {
    if |lit| == 254 {
      EncodeMax(lit, []);
      EncodeLast([]);
      assert lit + [] == lit;
    } else {
      EncodeLast(lit);
    }
  }

  /** The exact condition for decode-then-encode to return the same bytes. */
  lemma {:induction false} ReencodesIff(w: seq<byte>, cap: nat)
    requires w != [] && DecodeBlocks(w, cap).Ok?
    ensures Encode(DecodeBlocks(w, cap).value) == w <==> ZeroFree(w) && !EndsInMaxBlock(w)
  {
    if ZeroFree(w) { Canonical(w, cap); }
    EncodeIsZeroFree(DecodeBlocks(w, cap).value);
  }

  lemma {:induction false} EndsInMaxBlockIsLong(w: seq<byte>)
    requires EndsInMaxBlock(w)
    ensures |w| >= 255
    decreases |w|
  {
    if w[0] != |w| { EndsInMaxBlockIsLong(w[w[0]..]); }
  }

  lemma {:induction false} WiresAreDecoded(d: seq<byte>, w: seq<byte>, cap: nat)
    requires w == Encode(d) + [0] && |w| - 2 <= cap
    ensures ZeroFree(w[..|w| - 1]) && Decode(w, cap) == Ok(d)
  {
    EncodedSize(d);
    WireRoundTrip(d, cap);
    EncodeIsZeroFree(d);
    assert w[..|w| - 1] == Encode(d);
  }

  lemma {:induction false} DecodedAreWires(d: seq<byte>, w: seq<byte>, cap: nat)
    requires 2 <= |w| <= 254 && ZeroFree(w[..|w| - 1]) && Decode(w, cap) == Ok(d)
    ensures w == Encode(d) + [0]
  {
    var b := w[..|w| - 1];
    Canonical(b, cap);
    if EndsInMaxBlock(b) { EndsInMaxBlockIsLong(b); }
    assert w == b + [0];
  }

  /** Up to ARC_MAX_ENCODED_SIZE = 254 bytes on the wire, encoding and decoding undo each other: an accepted wire whose
      only zero is its last byte is the wire form of exactly what it decodes to. */
  lemma {:induction false} BijectionUpTo254(d: seq<byte>, w: seq<byte>, cap: nat)
    requires 2 <= |w| <= 254 && |w| - 2 <= cap
    ensures w == Encode(d) + [0] <==> ZeroFree(w[..|w| - 1]) && Decode(w, cap) == Ok(d)
  {
    if w == Encode(d) + [0] {
      WiresAreDecoded(d, w, cap);
    } else if ZeroFree(w[..|w| - 1]) && Decode(w, cap) == Ok(d) {
      DecodedAreWires(d, w, cap);
    }
  }

  /** Both exceptions of ReencodesIff occur: a literal zero is accepted, and comes back as two blocks. */
  lemma {:induction false} ZeroLiteralAccepted(cap: nat)
    requires cap >= 1
    ensures DecodeBlocks([2, 0], cap) == Ok([0]) && Encode([0]) == [1, 1]
  {
    var zero: seq<byte> := [0];
    DecodeBlockOk(zero, [], [], cap);
    assert [2, 0] == [|zero| + 1] + zero + [] && zero + [] + [] == zero;
    assert zero[1..] == [] && Run(zero, 254) == 0;
    EncodeLast([]);
  }

  /** And a final 0xFF block is accepted, and comes back with 0x01 behind it. */
  lemma {:induction false} MaxBlockAccepted(cap: nat)
    requires cap >= 254
    ensures var w := [255] + OneBytes(254);
            DecodeBlocks(w, cap) == Ok(OneBytes(254)) && Encode(OneBytes(254)) == w + [1]
  {
    var lit := OneBytes(254);
    var w := [|lit| + 1] + lit;
    DecodeBlockOk(lit, [], [], cap);
    assert w + [] == w && lit + [] + [] == lit;
    CanonicalLast(lit, w);
  }

  // ---------------------------------------------------------------------
  // Sizes and capacities.
  // ---------------------------------------------------------------------

  function FirstZero(d: seq<byte>): (n: nat)
    ensures n <= |d| && ZeroFree(d[..n]) && (n == |d| || d[n] == 0)
  {
    if d == [] || d[0] == 0 then 0
    else
      var m := FirstZero(d[1..]);
      assert d[..m + 1] == [d[0]] + d[1..][..m];
      m + 1
  }

  /** Over the maximal zero-free runs of d, how many times 254 fits into each. */
  function MaxRuns(d: seq<byte>): nat
    decreases |d|
  {
    var n := FirstZero(d);
    n / 254 + if n == |d| then 0 else MaxRuns(d[n + 1..])
  }

  lemma {:induction false} FirstZeroIs(d: seq<byte>, n: nat)
    requires n <= |d| && ZeroFree(d[..n]) && (n == |d| || d[n] == 0)
    ensures FirstZero(d) == n
  {
    var f := FirstZero(d);
    assert forall i :: 0 <= i < n ==> d[..n][i] == d[i];
    assert forall i :: 0 <= i < f ==> d[..f][i] == d[i];
  }

  lemma {:induction false} FirstZeroAfter(d: seq<byte>, n: nat)
    requires n <= |d| && forall i :: 0 <= i < n ==> d[i] != 0
    ensures FirstZero(d) == n + FirstZero(d[n..])
  {
    if n == 0 {
      assert d[0..] == d;
    } else {
      FirstZeroAfter(d[1..], n - 1);
      assert d[1..][n - 1..] == d[n..];
    }
  }

  /** Taking 254 bytes off a long run. */
  lemma {:induction false} LongRun(d: seq<byte>)
    requires Run(d, 254) == 254
    ensures MaxRuns(d) == 1 + MaxRuns(d[254..])
  {
    var f, t := FirstZero(d), d[254..];
    FirstZeroAfter(d, 254);
    assert FirstZero(t) == f - 254 && (f - 254) / 254 == f / 254 - 1;
    if f < |d| { assert t[f - 254 + 1..] == d[f + 1..]; }
  }

  lemma {:induction false} ShortRun(d: seq<byte>)
    requires Run(d, 254) < 254
    ensures var n := Run(d, 254); MaxRuns(d) == if n == |d| then 0 else MaxRuns(d[n + 1..])
  {
    FirstZeroIs(d, Run(d, 254));
  }

  /** Output size of the encoder: one code byte, and one more for every full 254 of a zero-free run. */
  lemma {:induction false} EncodedSize(d: seq<byte>)
    ensures |Encode(d)| == |d| + 1 + MaxRuns(d)
    decreases |d|
  {
    var n := Run(d, 254);
    if n == 254 {
      EncodedSize(d[254..]);
      LongRun(d);
    } else {
      ShortRun(d);
      if n < |d| { EncodedSize(d[n + 1..]); }
    }
  }

  predicate TestProtects(d: seq<byte>, cap: nat) { cap >= |d| + 2 ==> |Encode(d) + [0]| <= cap }

  /** The source's test `out_capacity < len + 2` protects every buffer exactly when no zero-free run reaches 254. */
  lemma {:induction false} CapacityTestSufficesIff(d: seq<byte>)
    ensures (forall cap: nat :: TestProtects(d, cap)) <==> MaxRuns(d) == 0
  {
    EncodedSize(d);
    assert TestProtects(d, |d| + 2) ==> MaxRuns(d) == 0;
  }

  /** Every unencoded frame is far below the first input the test would let through wrongly. */
  lemma {:induction false} ShortInputsHaveNoMaxRun(d: seq<byte>)
    requires |d| <= 253
    ensures MaxRuns(d) == 0 && |Encode(d) + [0]| == |d| + 2
    decreases |d|
  {
    var n := FirstZero(d);
    if n < |d| { ShortInputsHaveNoMaxRun(d[n + 1..]); }
    EncodedSize(d);
  }

  function OneBytes(n: nat): (s: seq<byte>)
    ensures |s| == n && ZeroFree(s)
  {
    seq(n, i => 1)
  }

  /** 254 nonzero bytes need 257 bytes of buffer, but 256 pass the test. */
  lemma {:induction false} CapacityTestTooWeak()
    ensures var d := OneBytes(254); |Encode(d) + [0]| == |d| + 3
  {
    var d := OneBytes(254);
    EncodedSize(d);
    FirstZeroAfter(d, 254);
    assert d[..254] == d && d[254..] == [];
  }

  /** Blocks with code 0xFF that are followed by another block. */
  function InnerMaxBlocks(w: seq<byte>): nat
    decreases |w|
  {
    if w == [] || w[0] == 0 || w[0] >= |w| then 0
    else (if w[0] == 255 then 1 else 0) + InnerMaxBlocks(w[w[0]..])
  }

  /** Output size of the decoder on a body w, the delimiter already taken off. */
  lemma {:induction false} DecodedSize(w: seq<byte>, cap: nat)
    requires w != [] && DecodeBlocks(w, cap).Ok?
    ensures |DecodeBlocks(w, cap).value| == |w| - 1 - InnerMaxBlocks(w)
    decreases |w|
  {
    var code := w[0];
    if code < |w| {
      DecodedSize(w[code..], cap - (code - 1) - |Gap(code, false)|);
    }
  }

  /** With the capacity its header asks for, len - 2, the decoder never reports a full buffer. */
  lemma {:induction false} AdvertisedCapacitySuffices(w: seq<byte>, cap: nat)
    requires w == [] || cap >= |w| - 1
    ensures DecodeBlocks(w, cap) != Err(Buffer)
    decreases |w|
  {
    if w != [] && w[0] != 0 && w[0] <= |w| {
      var code := w[0];
      AdvertisedCapacitySuffices(w[code..], cap - (code - 1) - |Gap(code, code == |w|)|);
    }
  }

  /** Capacity only decides between success and a full buffer. */
  lemma {:induction false} CapacityOnlyLimits(w: seq<byte>, cap: nat)
    ensures DecodeBlocks(w, |w|).Ok? && |DecodeBlocks(w, |w|).value| <= cap ==> DecodeBlocks(w, cap) == DecodeBlocks(w, |w|)
    ensures DecodeBlocks(w, cap).Ok? ==> DecodeBlocks(w, |w|) == DecodeBlocks(w, cap)
  {
    if DecodeBlocks(w, cap).Ok? && w != [] {
      DecodedSize(w, cap);
      LargerCapacity(w, cap, |w|);
    }
    if DecodeBlocks(w, |w|).Ok? && |DecodeBlocks(w, |w|).value| <= cap {
      LargerCapacity(w, |w|, cap);
    }
  }

  lemma {:induction false} LargerCapacity(w: seq<byte>, small: nat, large: nat)
    requires DecodeBlocks(w, small).Ok? && |DecodeBlocks(w, small).value| <= large
    ensures DecodeBlocks(w, large) == DecodeBlocks(w, small)
    decreases |w|
  {
    if w != [] {
      var code := w[0];
      var used := code - 1 + |Gap(code, code == |w|)|;
      LargerCapacity(w[code..], small - used, large - used);
    }
  }

  lemma {:induction false} SmallerCapacity(w: seq<byte>, large: nat, small: nat)
    requires DecodeBlocks(w, large).Ok? && |DecodeBlocks(w, large).value| > small
    ensures DecodeBlocks(w, small) == Err(Buffer)
    decreases |w|
  {
    if w != [] {
      var code := w[0];
      var used := code - 1 + |Gap(code, code == |w|)|;
      if used <= small { SmallerCapacity(w[code..], large - used, small - used); }
    }
  }

  // ---------------------------------------------------------------------
  // What is refused.
  // ---------------------------------------------------------------------

  /** Blocks end to end: no code byte is zero, and none points past the end. */
  predicate Chained(b: seq<byte>)
    decreases |b|
  {
    b == [] || (b[0] != 0 && b[0] <= |b| && Chained(b[b[0]..]))
  }

  lemma {:induction false} ChainedIff(b: seq<byte>, cap: nat)
    requires cap >= |b|
    ensures if Chained(b) then DecodeBlocks(b, cap).Ok? else DecodeBlocks(b, cap) == Err(BadCobs)
    decreases |b|
  {
    if b != [] && b[0] != 0 && b[0] <= |b| {
      var code := b[0];
      ChainedIff(b[code..], cap - (code - 1) - |Gap(code, code == |b|)|);
    }
  }

  /** The decoder calls input malformed whenever it is shorter than two bytes or does not end in a zero; with room for
      the output, exactly then and when its blocks do not chain. */
  lemma {:induction false} MalformedIff(w: seq<byte>, cap: nat)
    ensures |w| < 2 || w[|w| - 1] != 0 ==> Decode(w, cap) == Err(BadCobs)
    ensures cap >= |w| ==>
              (Decode(w, cap) == Err(BadCobs) <==> |w| < 2 || w[|w| - 1] != 0 || !Chained(w[..|w| - 1]))
    ensures cap >= |w| ==> Decode(w, cap).Ok? || Decode(w, cap) == Err(BadCobs)
  {
    if |w| >= 2 && cap >= |w| { ChainedIff(w[..|w| - 1], cap); }
  }
}
