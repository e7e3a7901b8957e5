/** What a send puts on the network and into the pending table, field by field. */
module SendLaws {
  import opened Bytes
  import opened Framing
  import opened Endpoint
  import opened PyEndpoint

  /** The arguments of a send: FLAGS as the caller gives them. */
  datatype Wish = Wish(dst: byte, family: byte, kind: byte, flags: byte, reliable: bool, payload: seq<byte>)

  function SendOf(c: Config, s: State, w: Wish, now: u32): Sending {
    Send(c, s, w.dst, w.family, w.kind, w.flags, w.reliable, w.payload, now)
  }

  function PySendOf(c: PyConfig, s: PyState, w: Wish, now: real): PySending {
    PySend(c, s, w.dst, w.family, w.kind, w.payload, w.reliable, w.flags, now)
  }

  /** The frame has the caller's fields, the node's address and session and this number, and of the flags the caller's
      and, if the send is reliable, the lowest one. */
  ghost predicate Carries(f: Frame, w: Wish, addr: byte, session: byte, seqno: u16) {
    && f.src == addr && f.session == session && f.seqno == seqno
    && f.dst == w.dst && f.family == w.family && f.kind == w.kind && f.payload == w.payload
    && (forall k: nat :: HasBit(f.flags, k) <==> HasBit(w.flags, k) || (w.reliable && k == 0))
    && f.flags == if w.reliable && w.flags % 2 == 0 then w.flags + 1 else w.flags
  }

  lemma {:induction false} MarkedBits(flags: byte, reliable: bool)
    ensures forall k: nat :: HasBit(Marked(flags, reliable), k) <==> HasBit(flags, k) || (reliable && k == 0)
    ensures Marked(flags, reliable) == if reliable && flags % 2 == 0 then flags + 1 else flags
  {
    OrOne(flags);
    forall k: nat
      ensures HasBit(Marked(flags, reliable), k) <==> HasBit(flags, k) || (reliable && k == 0)
    {
      OrHasBit(flags, 1, k);
      OneHasBit(k);
    }
  }

  lemma {:induction false} OneHasBit(k: nat)
    ensures HasBit(1, k) <==> k == 0
  {
    if k > 0 { ZeroHasNoBit(k - 1); }
  }

  /** No slot is free. */
  ghost predicate Full(ps: seq<Pending>) { forall i :: 0 <= i < |ps| ==> ps[i].inUse }

  /** The first free slot. */
  ghost predicate FirstFree(ps: seq<Pending>, i: nat) {
    i < |ps| && !ps[i].inUse && forall j :: 0 <= j < i ==> ps[j].inUse
  }

  /** A payload of more than 64 bytes is refused before anything happens. */
  lemma {:induction false} LongPayloadRefused(c: Config, s: State, w: Wish, now: u32)
    requires |w.payload| > 64
    ensures SendOf(c, s, w, now) == Sending(s, [], Err(TooLong))
  {}

  /** A reliable send with all slots used takes a number, calls nothing and is refused. */
  lemma {:induction false} FullTableRefused(c: Config, s: State, w: Wish, now: u32)
    requires |w.payload| <= 64 && w.reliable && Full(s.pending)
    ensures var r := SendOf(c, s, w, now);
            && r.events == [] && r.result == Err(Buffer)
            && r.state.pending == s.pending && r.state.table == s.table
            && r.state.nextSeq == (s.nextSeq + 1) % 0x1_0000
  {
    assert FreePending(s.pending) == |s.pending|;
  }

  /** Every other send returns the next number and calls send_fn once, with a frame that carries what was asked for. If
      it is reliable the same frame is in the first free slot, due timeout_ms from now. */
  lemma {:induction false} SendCarries(c: Config, s: State, w: Wish, now: u32)
    requires |w.payload| <= 64 && (w.reliable ==> !Full(s.pending))
    ensures var r := SendOf(c, s, w, now);
            && r.result == Ok(s.nextSeq) && |r.events| == 1 && r.events[0].Sent?
            && Carries(r.events[0].frame, w, c.addr, c.session, s.nextSeq)
            && r.state.table == s.table && r.state.nextSeq == (s.nextSeq + 1) % 0x1_0000
            && (!w.reliable ==> r.state.pending == s.pending)
    ensures var r := SendOf(c, s, w, now);
            w.reliable ==>
              exists i: nat ::
                && FirstFree(s.pending, i)
                && r.state.pending ==
                   s.pending[i := Pending(true, (now + c.timeout) % 0x1_0000_0000, 0, r.events[0].frame)]
  {
    MarkedBits(w.flags, w.reliable);
    var i := FreePending(s.pending);
    if w.reliable {
      var j :| 0 <= j < |s.pending| && !s.pending[j].inUse;
      assert FirstFree(s.pending, i);
    }
  }

  /** Python: the same frame; a reliable one is in the dict under its destination, session and number, behind all others
      if the key is new. */
  lemma {:induction false} PySendCarries(c: PyConfig, s: PyState, w: Wish, now: real)
    ensures var r := PySendOf(c, s, w, now);
            && r.events == [Sent(r.frame)] && Carries(r.frame, w, c.addr, c.session, s.nextSeq)
            && r.state.seen == s.seen && r.state.sessions == s.sessions && r.state.nextSeq == (s.nextSeq + 1) % 0x1_0000
            && r.state.pending ==
               if !w.reliable then s.pending
               else s.pending[Key(w.dst, c.session, s.nextSeq) := Waiting(r.frame, now + c.timeout, 0)]
    ensures var key, order := Key(w.dst, c.session, s.nextSeq), PySendOf(c, s, w, now).state.order;
            order == s.order + if w.reliable && key !in s.pending then [key] else []
  {
    MarkedBits(w.flags, w.reliable);
  }
}
