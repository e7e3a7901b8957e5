/** What an arriving frame does, read off its fields: which frames are ACKs, which are acknowledged, and by what. */
module ReceiveLaws {
  import opened Bytes
  import opened Framing
  import opened Endpoint
  import opened PyEndpoint
  import opened Tables
  import opened TickLaws

  /** ACK flag set, whatever the other flags; family 0, type 2. */
  predicate AckShaped(f: Frame) { (f.flags / 4) % 2 == 1 && f.family == 0 && f.kind == 2 }

  /** Reliable flag set, whatever the other flags, and no ACK. */
  predicate WantsAck(f: Frame) { f.flags % 2 == 1 && !AckShaped(f) }

  lemma {:induction false} FlagsRead(f: Frame)
    ensures IsAck(f) <==> AckShaped(f)
    ensures !AckShaped(f) ==> (IsReliable(f) <==> WantsAck(f))
  {
    HasBitIs(f.flags, 2);
    assert Pow2(2) == 4;
  }

  /** The ACK of f: of all flags only the ACK flag, addresses swapped, the payload is f's number, high byte first. */
  ghost predicate Acknowledges(a: Frame, f: Frame, addr: byte, session: byte, seqno: u16) {
    && a.src == addr && a.dst == f.src && a.session == session && a.seqno == seqno
    && a.flags == 4 && (forall k: nat :: HasBit(a.flags, k) <==> k == 2) && a.family == 0 && a.kind == 2
    && |a.payload| == 2 && a.payload[0] as int * 0x100 + a.payload[1] as int == f.seqno as int
  }

  lemma {:induction false} FourHasBit(k: nat)
    ensures HasBit(4, k) <==> k == 2
  {
    if k > 2 {
      assert HasBit(4, k) == HasBit(2, k - 1) == HasBit(1, k - 2) == HasBit(0, k - 3);
      ZeroHasNoBit(k - 3);
    }
  }

  lemma {:induction false} AckOfAcknowledges(f: Frame, addr: byte, session: byte, seqno: u16)
    requires f.dst == addr
    ensures Acknowledges(AckOf(f, session, seqno), f, addr, session, seqno)
  {
    forall k: nat ensures HasBit(4, k) <==> k == 2 { FourHasBit(k); }
  }

  /** One ACK goes out with this number; f is delivered once, after it, or taken for a duplicate. */
  ghost predicate Answered(es: seq<Event>, rx: Rx, f: Frame, addr: byte, session: byte, seqno: u16) {
    && (rx == RxDelivered || rx == RxDuplicate)
    && |es| == (if rx == RxDelivered then 2 else 1)
    && es[0].Sent? && Acknowledges(es[0].frame, f, addr, session, seqno)
    && (rx == RxDelivered ==> es[1] == Delivered(f))
  }

  /** Same source, session and number. */
  predicate SameOrigin(f: Frame, g: Frame) { f.src == g.src && f.session == g.session && f.seqno == g.seqno }

  // ---------------------------------------------------------------------
  // The C endpoint.
  // ---------------------------------------------------------------------

  lemma {:induction false} OthersIgnored(c: Config, s: State, f: Frame)
    requires Valid(s) && f.dst != c.addr
    ensures Receive(c, s, f) == Receiving(s, [], RxIgnored)
  {}

  /** A frame for us without the reliable flag, and no ACK, is delivered; nothing is sent and nothing remembered. */
  lemma {:induction false} PlainDelivered(c: Config, s: State, f: Frame)
    requires Valid(s) && f.dst == c.addr && f.flags % 2 == 0 && !AckShaped(f)
    ensures Receive(c, s, f) == Receiving(s, [Delivered(f)], RxDelivered)
  {
    FlagsRead(f);
  }

  /** A frame for us with the reliable flag, and no ACK, is acknowledged once, and delivered or a duplicate. */
  lemma {:induction false} ReliableAnswered(c: Config, s: State, f: Frame)
    requires Valid(s) && f.dst == c.addr && WantsAck(f)
    ensures var r := Receive(c, s, f);
            && Answered(r.events, r.rx, f, c.addr, c.session, s.nextSeq)
            && r.state.pending == s.pending && r.state.nextSeq == (s.nextSeq + 1) % 0x1_0000
  {
    FlagsRead(f);
    AckOfAcknowledges(f, c.addr, c.session, s.nextSeq);
  }

  /** After a reliable frame its keys are known. */
  lemma {:induction false} ThenKnown(c: Config, s: State, f: Frame)
    requires Valid(s) && f.dst == c.addr && WantsAck(f)
    ensures var t := Receive(c, s, f).state.table;
            Contains(t.seen, SourceKey(f)) && !SessionChanged(t.sources, f.src, f.session)
  {
    FlagsRead(f);
    var t := Heard(s.table, f.src, f.session);
    SessionNoted(s.table.sources, f.src, f.session);
    if !Contains(t.seen, SourceKey(f)) {
      LiveRemember(t, SourceKey(f));
      ContainsIffLive(Remember(t, SourceKey(f)).seen, SourceKey(f));
    }
  }

  /** A second reliable frame of the same source, session and number, at once, is acknowledged and a duplicate. */
  lemma {:induction false} SecondIsDuplicate(c: Config, s: State, f: Frame, g: Frame)
    requires Valid(s) && f.dst == c.addr && g.dst == c.addr && WantsAck(f) && WantsAck(g) && SameOrigin(f, g)
    ensures var s1 := Receive(c, s, f).state;
            && Receive(c, s1, g).rx == RxDuplicate
            && Answered(Receive(c, s1, g).events, RxDuplicate, g, c.addr, c.session, (s.nextSeq + 1) % 0x1_0000)
  {
    var s1 := Receive(c, s, f).state;
    FlagsRead(g);
    ThenKnown(c, s, f);
    ReliableAnswered(c, s, f);
    ReliableAnswered(c, s1, g);
    assert Heard(s1.table, g.src, g.session).seen == s1.table.seen;
  }

  lemma {:induction false} OnlyFirstKnown(c: Config, firstSeq: u16, f: Frame)
    requires f.dst == c.addr && WantsAck(f)
    ensures Receive(c, Initial(firstSeq), f).rx == RxDelivered
    ensures Live(Receive(c, Initial(firstSeq), f).state.table.seen) <= {SourceKey(f)}
  {
    var s := Initial(firstSeq);
    var t := Heard(s.table, f.src, f.session);
    FlagsRead(f);
    assert Live(t.seen) == {};
    ContainsIffLive(t.seen, SourceKey(f));
    LiveRemember(t, SourceKey(f));
  }

  /** The first two reliable frames: the first is delivered, the second is a duplicate exactly if it has the first one's
      source, session and number; nothing else of the two frames matters. */
  lemma {:induction false} FirstTwo(c: Config, firstSeq: u16, f: Frame, g: Frame)
    requires f.dst == c.addr && g.dst == c.addr && WantsAck(f) && WantsAck(g)
    ensures var r := Receive(c, Initial(firstSeq), f);
            && r.rx == RxDelivered
            && Receive(c, r.state, g).rx == if SameOrigin(f, g) then RxDuplicate else RxDelivered
  {
    var s1 := Receive(c, Initial(firstSeq), f).state;
    OnlyFirstKnown(c, firstSeq, f);
    if SameOrigin(f, g) {
      SecondIsDuplicate(c, Initial(firstSeq), f, g);
    } else {
      FlagsRead(g);
      LiveDropSource(s1.table.seen, g.src);
      ContainsIffLive(Heard(s1.table, g.src, g.session).seen, SourceKey(g));
    }
  }

  /** The slot waits for this ACK: its frame went to the ACK's sender in our session, with the number in the payload. */
  ghost predicate WaitsFor(p: Pending, a: Frame, session: byte)
    requires |a.payload| == 2
  {
    && p.inUse && p.frame.dst == a.src && p.frame.session == session
    && p.frame.seqno as int == a.payload[0] as int * 0x100 + a.payload[1] as int
  }

  ghost predicate FirstWaiting(ps: seq<Pending>, i: nat, a: Frame, session: byte)
    requires |a.payload| == 2 && i < |ps|
  {
    WaitsFor(ps[i], a, session) && forall j :: 0 <= j < i ==> !WaitsFor(ps[j], a, session)
  }

  /** An ACK for us, whatever other flags it carries, calls nothing and frees the first slot that waits for it, and no
      other; with a payload that is not two bytes long it frees none. */
  lemma {:induction false} AckFrees(c: Config, s: State, a: Frame)
    requires Valid(s) && a.dst == c.addr && AckShaped(a)
    ensures var r := Receive(c, s, a);
            && r.rx == RxAck && r.events == [] && r.state.table == s.table && r.state.nextSeq == s.nextSeq
            && (|a.payload| != 2 ==> r.state == s)
    ensures |a.payload| == 2 ==>
              var ps, ps' := s.pending, Receive(c, s, a).state.pending;
              && |ps'| == |ps|
              && forall i :: 0 <= i < |ps| ==>
                   ps'[i] == if FirstWaiting(ps, i, a, c.session) then ps[i].(inUse := false) else ps[i]
  {
    FlagsRead(a);
    if |a.payload| == 2 {
      var key := Key(a.src, c.session, Join(a.payload[0], a.payload[1]));
      assert forall p :: Waits(p, key) <==> WaitsFor(p, a, c.session);
    }
  }

  // ---------------------------------------------------------------------
  // The Python endpoint.
  // ---------------------------------------------------------------------

  lemma {:induction false} PyOthersIgnored(c: PyConfig, s: PyState, f: Frame)
    requires f.dst != c.addr
    ensures PyReceive(c, s, f) == PyReceiving(s, [], RxIgnored)
  {}

  lemma {:induction false} PyPlainDelivered(c: PyConfig, s: PyState, f: Frame)
    requires f.dst == c.addr && f.flags % 2 == 0 && !AckShaped(f)
    ensures PyReceive(c, s, f) == PyReceiving(s, [Delivered(f)], RxDelivered)
  {
    FlagsRead(f);
  }

  lemma {:induction false} PyReliableAnswered(c: PyConfig, s: PyState, f: Frame)
    requires f.dst == c.addr && WantsAck(f)
    ensures var r := PyReceive(c, s, f);
            && Answered(r.events, r.rx, f, c.addr, c.session, s.nextSeq)
            && r.state.pending == s.pending && r.state.order == s.order
            && r.state.nextSeq == (s.nextSeq + 1) % 0x1_0000
  {
    FlagsRead(f);
    AckOfAcknowledges(f, c.addr, c.session, s.nextSeq);
  }

  lemma {:induction false} PySecondIsDuplicate(c: PyConfig, s: PyState, f: Frame, g: Frame)
    requires f.dst == c.addr && g.dst == c.addr && WantsAck(f) && WantsAck(g) && SameOrigin(f, g)
    ensures var s1 := PyReceive(c, s, f).state;
            && PyReceive(c, s1, g).rx == RxDuplicate
            && Answered(PyReceive(c, s1, g).events, RxDuplicate, g, c.addr, c.session, (s.nextSeq + 1) % 0x1_0000)
  {
    FlagsRead(f);
    FlagsRead(g);
    PyReliableAnswered(c, s, f);
    PyReliableAnswered(c, PyReceive(c, s, f).state, g);
  }

  lemma {:induction false} PyFirstTwo(c: PyConfig, firstSeq: u16, f: Frame, g: Frame)
    requires f.dst == c.addr && g.dst == c.addr && WantsAck(f) && WantsAck(g)
    ensures var r := PyReceive(c, PyInitial(firstSeq), f);
            && r.rx == RxDelivered
            && PyReceive(c, r.state, g).rx == if SameOrigin(f, g) then RxDuplicate else RxDelivered
  {
    FlagsRead(f);
    FlagsRead(g);
  }

  /** The key an ACK names. */
  function AckedKey(a: Frame, session: byte): Key
    requires |a.payload| == 2
  {
    Key(a.src, session, a.payload[0] as int * 0x100 + a.payload[1] as int)
  }

  lemma {:induction false} PyAckFrees(c: PyConfig, s: PyState, a: Frame)
    requires a.dst == c.addr && AckShaped(a)
    ensures var r := PyReceive(c, s, a);
            && r.rx == RxAck && r.events == [] && r.state.seen == s.seen && r.state.sessions == s.sessions
            && r.state.nextSeq == s.nextSeq
            && r.state.pending == (if |a.payload| == 2 then s.pending - {AckedKey(a, c.session)} else s.pending)
            && (|a.payload| != 2 ==> r.state == s)
    ensures forall x, y :: Precedes(s.order, x, y) && !(|a.payload| == 2 && AckedKey(a, c.session) in {x, y}) ==>
                             Precedes(PyReceive(c, s, a).state.order, x, y)
  {
    FlagsRead(a);
    if |a.payload| == 2 {
      var key := AckedKey(a, c.session);
      forall x, y | Precedes(s.order, x, y) && x != key && y != key
        ensures Precedes(PyReceive(c, s, a).state.order, x, y)
      {
        OrderIsKept(s.order, {key}, x, y);
      }
    }
  }
}
