/** Frames on a serial link: each one stuffed and ended by a zero byte. */
module Stream {
  import opened Bytes
  import opened Cobs
  import opened Framing

  /** What goes on the link for one frame. */
  function Wire(f: Frame): seq<byte>
    requires Sendable(f)
  {
    Encode(Build(f)) + [0]
  }

  function StreamOf(fs: seq<Frame>): seq<byte>
    requires forall f :: f in fs ==> Sendable(f)
  {
    if fs == [] then [] else Wire(fs[0]) + StreamOf(fs[1..])
  }

  /** Cut a stream after each zero byte; an unfinished piece at the end is not returned. */
  function Pieces(s: seq<byte>): seq<seq<byte>>
    decreases |s|
  {
    var n := FirstZero(s);
    if n == |s| then [] else [s[..n + 1]] + Pieces(s[n + 1..])
  }

  function ReadPiece(w: seq<byte>): Result<Frame> {
    match Decode(w, MAX_FRAME_SIZE)
    case Err(e) => Err(e)
    case Ok(s) => Parse(s)
  }

  function ReadPieces(ps: seq<seq<byte>>): seq<Result<Frame>> {
    if ps == [] then [] else [ReadPiece(ps[0])] + ReadPieces(ps[1..])
  }

  function ReadStream(s: seq<byte>): seq<Result<Frame>> { ReadPieces(Pieces(s)) }

  lemma {:induction false} PiecesStep(s: seq<byte>, n: nat, piece: seq<byte>, rest: seq<byte>)
    requires n < |s| && ZeroFree(s[..n]) && s[n] == 0
    requires piece == s[..n + 1] && rest == s[n + 1..]
    ensures Pieces(s) == [piece] + Pieces(rest)
  {
    FirstZeroIs(s, n);
  }

  lemma {:induction false} PiecesOf(w: seq<byte>, rest: seq<byte>)
    requires ZeroFree(w)
    ensures Pieces(w + [0] + rest) == [w + [0]] + Pieces(rest)
  {
    var s := w + [0] + rest;
    assert s[..|w|] == w && s[..|w| + 1] == w + [0] && s[|w| + 1..] == rest;
    PiecesStep(s, |w|, w + [0], rest);
  }

  /** Every frame takes exactly 13 bytes more than its payload, at most 254, and is read back. */
  lemma {:induction false} WireOf(f: Frame)
    requires Sendable(f)
    ensures |Wire(f)| == |f.payload| + 13 <= 254
    ensures ReadPiece(Wire(f)) == Ok(f)
  {
    ShortInputsHaveNoMaxRun(Build(f));
    WireRoundTrip(Build(f), MAX_FRAME_SIZE);
    ParseBuild(f);
  }

  function Oks(fs: seq<Frame>): (r: seq<Result<Frame>>)
    ensures |r| == |fs| && forall i :: 0 <= i < |fs| ==> r[i] == Ok(fs[i])
  {
    seq(|fs|, i requires 0 <= i < |fs| => Ok(fs[i]))
  }

  lemma {:induction false} ReadFirst(f: Frame, rest: seq<byte>)
    requires Sendable(f)
    ensures ReadStream(Wire(f) + rest) == [Ok(f)] + ReadStream(rest)
  {
    EncodeIsZeroFree(Build(f));
    PiecesOf(Encode(Build(f)), rest);
    WireOf(f);
  }

  lemma {:induction false} OksStep(fs: seq<Frame>)
    requires fs != []
    ensures Oks(fs) == [Ok(fs[0])] + Oks(fs[1..])
  {}

  lemma {:induction false} StreamStep(fs: seq<Frame>)
    requires fs != [] && forall f :: f in fs ==> Sendable(f)
    ensures ReadStream(StreamOf(fs)) == [Ok(fs[0])] + ReadStream(StreamOf(fs[1..]))
  {
    ReadFirst(fs[0], StreamOf(fs[1..]));
  }

  /** The stream is self-delimiting: each frame sent comes out once, unchanged, in order. */
  lemma {:induction false} StreamRoundTrip(fs: seq<Frame>)
    requires forall f :: f in fs ==> Sendable(f)
    ensures ReadStream(StreamOf(fs)) == Oks(fs)
    decreases |fs|
  {
    if fs != [] {
      StreamStep(fs);
      OksStep(fs);
      StreamRoundTrip(fs[1..]);
    }
  }

  /** Whatever came before a zero byte, the pieces after it are cut as if it had not been there. */
  lemma {:induction false} Resynchronises(junk: seq<byte>, rest: seq<byte>)
    requires junk == [] || junk[|junk| - 1] == 0
    ensures Pieces(junk + rest) == Pieces(junk) + Pieces(rest)
    decreases |junk|
  {
    if junk == [] {
      assert junk + rest == rest;
    } else {
      var n := FirstZero(junk);
      ZeroFreeEnd(junk, n);
      var piece, tail := junk[..n + 1], junk[n + 1..];
      PiecesStep(junk, n, piece, tail);
      JunkSlices(junk, rest, n);
      PiecesStep(junk + rest, n, piece, tail + rest);
      Resynchronises(tail, rest);
      Associate([piece], Pieces(tail), Pieces(rest));
    }
  }

  lemma {:induction false} ZeroFreeEnd(s: seq<byte>, n: nat)
    requires s != [] && s[|s| - 1] == 0 && n <= |s| && ZeroFree(s[..n])
    ensures n < |s|
  {}

  lemma {:induction false} JunkSlices<T>(junk: seq<T>, rest: seq<T>, n: nat)
    requires n < |junk|
    ensures (junk + rest)[..n] == junk[..n] && (junk + rest)[n] == junk[n]
    ensures (junk + rest)[..n + 1] == junk[..n + 1] && (junk + rest)[n + 1..] == junk[n + 1..] + rest
  {}
}
