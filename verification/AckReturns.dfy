/** There and back: a reliable frame and its ACK, re-flagged in place any number of times on their way. */
module AckReturns {
  import opened Bytes
  import opened Framing
  import opened Endpoint
  import opened PyEndpoint
  import opened Runs
  import opened ReceiveLaws

  // ---------------------------------------------------------------------
  // Forwarders stamp flags.
  // ---------------------------------------------------------------------

  function Restamped(s: seq<byte>, stamps: seq<byte>): (t: seq<byte>)
    requires |s| >= OVERHEAD
    ensures |t| == |s|
  {
    if stamps == [] then s else SetFlag(Restamped(s, stamps[..|stamps| - 1]), stamps[|stamps| - 1])
  }

  function AllFlags(flags: byte, stamps: seq<byte>): byte {
    if stamps == [] then flags else Or(AllFlags(flags, stamps[..|stamps| - 1]), stamps[|stamps| - 1])
  }

  /** The frame as it arrives. */
  function Stamped(f: Frame, stamps: seq<byte>): Frame { f.(flags := AllFlags(f.flags, stamps)) }

  lemma {:induction false} RestampedIs(f: Frame, stamps: seq<byte>)
    requires Sendable(f)
    ensures Restamped(Build(f), stamps) == Build(Stamped(f, stamps))
  {
    if stamps != [] {
      var before := stamps[..|stamps| - 1];
      RestampedIs(f, before);
      SetFlagRebuilds(Stamped(f, before), stamps[|stamps| - 1]);
    }
  }

  lemma {:induction false} FlagsStay(flags: byte, stamps: seq<byte>, k: nat)
    requires HasBit(flags, k)
    ensures HasBit(AllFlags(flags, stamps), k)
  {
    if stamps != [] {
      FlagsStay(flags, stamps[..|stamps| - 1], k);
      OrHasBit(AllFlags(flags, stamps[..|stamps| - 1]), stamps[|stamps| - 1], k);
    }
  }

  /** Whatever is stamped on it, a built frame is parsed, with all its other fields as they were. */
  lemma {:induction false} StampedArrives(f: Frame, stamps: seq<byte>)
    requires Sendable(f)
    ensures Parse(Restamped(Build(f), stamps)) == Ok(Stamped(f, stamps))
    ensures forall k: nat :: HasBit(f.flags, k) ==> HasBit(Stamped(f, stamps).flags, k)
    ensures f.flags % 2 == 1 ==> Stamped(f, stamps).flags % 2 == 1
    ensures (f.flags / 4) % 2 == 1 ==> (Stamped(f, stamps).flags / 4) % 2 == 1
  {
    RestampedIs(f, stamps);
    ParseBuild(Stamped(f, stamps));
    forall k: nat | HasBit(f.flags, k) ensures HasBit(Stamped(f, stamps).flags, k) { FlagsStay(f.flags, stamps, k); }
    HasBitIs(f.flags, 2);
    HasBitIs(Stamped(f, stamps).flags, 2);
    assert Pow2(2) == 4;
    assert HasBit(f.flags, 0) <==> f.flags % 2 == 1;
  }

  // ---------------------------------------------------------------------
  // What the pending slots of a run hold.
  // ---------------------------------------------------------------------

  const SEQS := 0x1_0000

  /** After so many numbers, the pending frames are ours, marked reliable, and numbered differently. */
  ghost predicate OwnNumbers(c: Config, s: State, first: u16, taken: nat) {
    && |s.pending| == PENDING_MAX && s.nextSeq == (first + taken) % SEQS
    && (forall i :: 0 <= i < |s.pending| && s.pending[i].inUse ==> Ours(c, s.pending[i].frame, first, taken))
    && (forall i, j :: 0 <= i < j < |s.pending| && s.pending[i].inUse && s.pending[j].inUse ==>
          s.pending[i].frame.seqno != s.pending[j].frame.seqno)
  }

  ghost predicate Ours(c: Config, f: Frame, first: u16, taken: nat) {
    && f.src == c.addr && f.session == c.session && f.flags % 2 == 1 && |f.payload| <= PAYLOAD_MAX
    && (f.seqno - first) % SEQS < taken
  }

  lemma {:induction false} NextIsNew(first: u16, taken: nat)
    requires taken < SEQS
    ensures ((first + taken) % SEQS - first) % SEQS == taken
    ensures (((first + taken) % SEQS) + 1) % SEQS == (first + (taken + 1)) % SEQS
  {}

  lemma {:induction false} MarkedOdd(flags: byte)
    ensures Marked(flags, true) % 2 == 1
  {
    OrOne(flags);
  }

  /** Slots that were used before and hold the same frames, and at most one new number. */
  lemma {:induction false} FewerSlots(c: Config, s: State, t: State, first: u16, taken: nat)
    requires OwnNumbers(c, s, first, taken) && taken < SEQS && |t.pending| == |s.pending|
    requires forall i :: 0 <= i < |s.pending| && t.pending[i].inUse ==>
                           s.pending[i].inUse && t.pending[i].frame == s.pending[i].frame
    ensures t.nextSeq == s.nextSeq ==> OwnNumbers(c, t, first, taken)
    ensures t.nextSeq == NextSeq(s.nextSeq) ==> OwnNumbers(c, t, first, taken + 1)
  {
    NextIsNew(first, taken);
    forall i | 0 <= i < |t.pending| && t.pending[i].inUse
      ensures Ours(c, t.pending[i].frame, first, taken) && Ours(c, t.pending[i].frame, first, taken + 1)
    {
      assert Ours(c, s.pending[i].frame, first, taken);
    }
  }

  lemma {:induction false} OneMoreSlot(c: Config, s: State, t: State, first: u16, taken: nat, n: nat, p: Pending)
    requires OwnNumbers(c, s, first, taken) && taken < SEQS && n < |s.pending|
    requires t.pending == s.pending[n := p] && t.nextSeq == NextSeq(s.nextSeq)
    requires p.frame.src == c.addr && p.frame.session == c.session && p.frame.flags % 2 == 1
    requires |p.frame.payload| <= PAYLOAD_MAX && p.frame.seqno == s.nextSeq
    ensures OwnNumbers(c, t, first, taken + 1)
  {
    NextIsNew(first, taken);
    forall i | 0 <= i < |t.pending| && t.pending[i].inUse
      ensures Ours(c, t.pending[i].frame, first, taken + 1)
      ensures i != n ==> t.pending[i].frame.seqno != p.frame.seqno
    {
      if i != n { assert Ours(c, s.pending[i].frame, first, taken); }
    }
  }

  lemma {:induction false} StepNumbers(c: Config, s: State, first: u16, taken: nat, x: Input) returns (taken': nat)
    requires Valid(s) && OwnNumbers(c, s, first, taken) && taken < SEQS
    ensures taken' <= taken + 1 && OwnNumbers(c, Step(c, s, x).state, first, taken')
  {
    var t := Step(c, s, x).state;
    taken' := if t.nextSeq == s.nextSeq then taken else taken + 1;
    match x.action
    case DoSend(dst, family, kind, flags, reliable, payload) =>
      MarkedOdd(flags);
      var n := FreePending(s.pending);
      if t.pending != s.pending {
        OneMoreSlot(c, s, t, first, taken, n, t.pending[n]);
      } else {
        FewerSlots(c, s, t, first, taken);
      }
    case DoReceive(_) => FewerSlots(c, s, t, first, taken);
    case DoTick => FewerSlots(c, s, t, first, taken);
  }

  lemma {:induction false} RunOwnNumbers(c: Config, firstSeq: u16, xs: seq<Input>) returns (taken: nat)
    requires |xs| <= SEQS
    ensures taken <= |xs| && OwnNumbers(c, After(c, Initial(firstSeq), xs), firstSeq, taken)
  {
    taken := 0;
    if xs != [] {
      var ys, x := xs[..|xs| - 1], xs[|xs| - 1];
      var before := RunOwnNumbers(c, firstSeq, ys);
      taken := StepNumbers(c, After(c, Initial(firstSeq), ys), firstSeq, before, x);
    }
  }

  // ---------------------------------------------------------------------
  // There and back.
  // ---------------------------------------------------------------------

  /** An ACK for f by all its fields but the flags, of which it has the ACK flag. */
  ghost predicate Acks(a: Frame, f: Frame, addr: byte) {
    && a.dst == addr && a.src == f.dst && AckShaped(a)
    && |a.payload| == 2 && a.payload[0] as int * 0x100 + a.payload[1] as int == f.seqno as int
  }

  lemma {:induction false} AcknowledgesAcks(ack: Frame, f: Frame, session: byte, seqno: u16)
    requires Acknowledges(ack, f, f.dst, session, seqno)
    ensures Acks(ack, f, f.src) && Sendable(ack)
  {}

  lemma {:induction false} StampKeepsAck(ack: Frame, a: Frame, f: Frame)
    requires Acks(ack, f, f.src) && a == ack.(flags := a.flags) && (a.flags / 4) % 2 == 1
    ensures Acks(a, f, f.src)
  {}

  lemma {:induction false} StampedAcks(ack: Frame, stamps: seq<byte>, f: Frame, session: byte, seqno: u16)
    requires Acknowledges(ack, f, f.dst, session, seqno)
    ensures Sendable(ack) && Parse(Restamped(Build(ack), stamps)) == Ok(Stamped(ack, stamps))
    ensures Acks(Stamped(ack, stamps), f, f.src)
  {
    AcknowledgesAcks(ack, f, session, seqno);
    StampedArrives(ack, stamps);
    StampKeepsAck(ack, Stamped(ack, stamps), f);
  }

  /** Such an ACK of the frame in slot i frees this slot and changes nothing else. */
  lemma {:induction false} AckFreesSlot(c: Config, s: State, first: u16, taken: nat, i: nat, a: Frame)
    requires Valid(s) && OwnNumbers(c, s, first, taken) && i < |s.pending| && s.pending[i].inUse
    requires Acks(a, s.pending[i].frame, c.addr)
    ensures Receive(c, s, a) == Receiving(s.(pending := s.pending[i := s.pending[i].(inUse := false)]), [], RxAck)
  {
    var ps := s.pending;
    assert Ours(c, ps[i].frame, first, taken);
    AckFrees(c, s, a);
    assert WaitsFor(ps[i], a, c.session);
    forall j | 0 <= j < |ps| && j != i ensures !WaitsFor(ps[j], a, c.session) {
      assert ps[j].inUse ==> ps[j].frame.seqno != ps[i].frame.seqno;
    }
    assert Receive(c, s, a).state.pending == ps[i := ps[i].(inUse := false)];
  }

  /** The first event is a call of send_fn, and its frame, re-flagged, frees slot i. */
  ghost predicate AnswerFrees(c: Config, s: State, i: nat, es: seq<Event>, stamps: seq<byte>)
    requires Valid(s) && i < |s.pending|
  {
    && es != [] && es[0].Sent? && Sendable(es[0].frame)
    && Parse(Restamped(Build(es[0].frame), stamps)).Ok?
    && Receive(c, s, Parse(Restamped(Build(es[0].frame), stamps)).value) ==
       Receiving(s.(pending := s.pending[i := s.pending[i].(inUse := false)]), [], RxAck)
  }

  /** The law acknowledgements are for. Take any frame that waits for its ACK in any run that has taken no number twice,
      put it on the network, let forwarders stamp any flags on it, let it arrive at its destination in any state, C or
      Python, and let forwarders stamp any flags on the ACK that the destination sends: when the ACK arrives, exactly
      this frame's slot is freed, and nothing is called. The frame as it arrives must not look like an ACK itself. */
  lemma {:induction false} AcknowledgedThereAndBack(c: Config, firstSeq: u16, xs: seq<Input>, i: nat, peer: Config,
          there: State, pyPeer: PyConfig, pyThere: PyState, out: seq<byte>, back: seq<byte>)
    requires |xs| <= SEQS && Valid(there) && i < |After(c, Initial(firstSeq), xs).pending|
    requires After(c, Initial(firstSeq), xs).pending[i].inUse
    requires After(c, Initial(firstSeq), xs).pending[i].frame.dst == peer.addr == pyPeer.addr
    requires !AckShaped(Stamped(After(c, Initial(firstSeq), xs).pending[i].frame, out))
    ensures var s := After(c, Initial(firstSeq), xs);
            var f := s.pending[i].frame;
            && Sendable(f) && Parse(Restamped(Build(f), out)) == Ok(Stamped(f, out))
            && AnswerFrees(c, s, i, Receive(peer, there, Stamped(f, out)).events, back)
            && AnswerFrees(c, s, i, PyReceive(pyPeer, pyThere, Stamped(f, out)).events, back)
  {
    var s := After(c, Initial(firstSeq), xs);
    var f := s.pending[i].frame;
    var taken := RunOwnNumbers(c, firstSeq, xs);
    assert Ours(c, f, firstSeq, taken);
    StampedArrives(f, out);
    ReliableAnswered(peer, there, Stamped(f, out));
    PyReliableAnswered(pyPeer, pyThere, Stamped(f, out));
    var ack, pyAck := Receive(peer, there, Stamped(f, out)).events[0].frame,
                      PyReceive(pyPeer, pyThere, Stamped(f, out)).events[0].frame;
    StampedAcks(ack, back, f, peer.session, there.nextSeq);
    StampedAcks(pyAck, back, f, pyPeer.session, pyThere.nextSeq);
    AckFreesSlot(c, s, firstSeq, taken, i, Stamped(ack, back));
    AckFreesSlot(c, s, firstSeq, taken, i, Stamped(pyAck, back));
  }

  // ---------------------------------------------------------------------
  // The Python sender.
  // ---------------------------------------------------------------------

  /** Every entry of the dict is ours, marked reliable, under its destination, session and number. */
  ghost predicate OwnEntries(c: PyConfig, s: PyState) {
    forall k :: k in s.pending ==>
      var f := s.pending[k].frame;
      f.src == c.addr && f.session == c.session && f.flags % 2 == 1 && k == Key(f.dst, f.session, f.seqno)
  }

  lemma {:induction false} PyRunOwnEntries(c: PyConfig, firstSeq: u16, xs: seq<Input>)
    ensures OwnEntries(c, PyAfter(c, PyInitial(firstSeq), xs))
  {
    if xs != [] {
      var ys, x := xs[..|xs| - 1], xs[|xs| - 1];
      PyRunOwnEntries(c, firstSeq, ys);
      if x.action.DoSend? { MarkedOdd(x.action.flags); }
    }
  }

  ghost predicate PyAnswerFrees(c: PyConfig, s: PyState, k: Key, es: seq<Event>, stamps: seq<byte>) {
    && es != [] && es[0].Sent? && Sendable(es[0].frame)
    && Parse(Restamped(Build(es[0].frame), stamps)).Ok?
    && var q := PyReceive(c, s, Parse(Restamped(Build(es[0].frame), stamps)).value);
       q.rx == RxAck && q.events == [] && q.state.pending == s.pending - {k}
  }

  lemma {:induction false} PyAckFreesEntry(c: PyConfig, s: PyState, k: Key, a: Frame)
    requires OwnEntries(c, s) && k in s.pending && Acks(a, s.pending[k].frame, c.addr)
    ensures var q := PyReceive(c, s, a); q.rx == RxAck && q.events == [] && q.state.pending == s.pending - {k}
  {
    PyAckFrees(c, s, a);
  }

  /** The same for a frame that waits in the dict of a Python sender, in any run, if it fits a frame at all. */
  lemma {:induction false} PyAcknowledgedThereAndBack(c: PyConfig, firstSeq: u16, xs: seq<Input>, k: Key,
          peer: Config, there: State, pyPeer: PyConfig, pyThere: PyState, out: seq<byte>, back: seq<byte>)
    requires Valid(there) && k in PyAfter(c, PyInitial(firstSeq), xs).pending
    requires var f := PyAfter(c, PyInitial(firstSeq), xs).pending[k].frame;
             f.dst == peer.addr == pyPeer.addr && Sendable(f) && !AckShaped(Stamped(f, out))
    ensures var s := PyAfter(c, PyInitial(firstSeq), xs);
            var f := s.pending[k].frame;
            && Parse(Restamped(Build(f), out)) == Ok(Stamped(f, out))
            && PyAnswerFrees(c, s, k, Receive(peer, there, Stamped(f, out)).events, back)
            && PyAnswerFrees(c, s, k, PyReceive(pyPeer, pyThere, Stamped(f, out)).events, back)
  {
    var s := PyAfter(c, PyInitial(firstSeq), xs);
    var f := s.pending[k].frame;
    PyRunOwnEntries(c, firstSeq, xs);
    StampedArrives(f, out);
    ReliableAnswered(peer, there, Stamped(f, out));
    PyReliableAnswered(pyPeer, pyThere, Stamped(f, out));
    var ack, pyAck := Receive(peer, there, Stamped(f, out)).events[0].frame,
                      PyReceive(pyPeer, pyThere, Stamped(f, out)).events[0].frame;
    StampedAcks(ack, back, f, peer.session, there.nextSeq);
    StampedAcks(pyAck, back, f, pyPeer.session, pyThere.nextSeq);
    PyAckFreesEntry(c, s, k, Stamped(ack, back));
    PyAckFreesEntry(c, s, k, Stamped(pyAck, back));
  }
}
