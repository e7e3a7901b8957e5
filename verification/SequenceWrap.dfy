/** Why the ACKs of src/arc_reliable.c need a bound on the sequence numbers their addressee takes. */
module SequenceWrap {
  import opened Bytes
  import opened Framing
  import opened Endpoint
  import opened Runs
  import opened Lifecycle
  import opened Network

  function Reliably(dst: byte, payload: seq<byte>): Input { Input(0, DoSend(dst, 1, 1, 0, true, payload)) }

  function Plainly(dst: byte): Input { Input(0, DoSend(dst, 1, 1, 0, false, [])) }

  /** The frame Reliably makes with this sequence number. */
  function Numbered(c: Config, dst: byte, seqno: u16, payload: seq<byte>): Frame {
    Outgoing(c, seqno, dst, 1, 1, 0, true, payload)
  }

  // ---------------------------------------------------------------------
  // Runs of the network, piece by piece.
  // ---------------------------------------------------------------------

  lemma {:induction false} LeadsFirst(net: Net, h: Happening, next: Net, hs: seq<Happening>, net': Net)
    requires MayHappen(net, h) && next == Next(net, h) && Leads(next, hs, net')
    ensures Leads(net, [h] + hs, net')
  {
    assert ([h] + hs)[1..] == hs && ([h] + hs)[0] == h;
  }

  lemma {:induction false} LeadsRest(net: Net, hs: seq<Happening>, net': Net) returns (next: Net)
    requires hs != [] && Leads(net, hs, net')
    ensures MayHappen(net, hs[0]) && next == Next(net, hs[0]) && Leads(next, hs[1..], net')
  {
    next := Next(net, hs[0]);
  }

  lemma {:induction false} AppendOnce(hs: seq<Happening>, h: Happening)
    ensures hs == [] ==> hs + [h] == [h] + []
    ensures hs != [] ==> hs + [h] == [hs[0]] + (hs[1..] + [h])
  {}

  lemma {:induction false} LeadsOn(net: Net, hs: seq<Happening>, net': Net, h: Happening, net'': Net)
    requires Leads(net, hs, net') && MayHappen(net', h) && net'' == Next(net', h)
    ensures Leads(net, hs + [h], net'')
    decreases |hs|
  {
    AppendOnce(hs, h);
    if hs == [] {
      LeadsFirst(net, h, net'', [], net'');
    } else {
      var next := LeadsRest(net, hs, net');
      LeadsOn(next, hs[1..], net', h, net'');
      LeadsFirst(net, hs[0], next, hs[1..] + [h], net'');
    }
  }

  ghost predicate Reaches(start: Net, net: Net) { exists hs :: Leads(start, hs, net) }

  lemma {:induction false} ReachesNext(start: Net, net: Net, h: Happening, net': Net)
    requires Reaches(start, net) && MayHappen(net, h) && net' == Next(net, h)
    ensures Reaches(start, net')
  {
    var hs :| Leads(start, hs, net);
    LeadsOn(start, hs, net, h, net');
  }

  /** Only this node has changed; it has made only calls of send_fn, and its frames are on the network. */
  ghost predicate Moved(net: Net, net': Net, n: byte, s: State, taken: nat, accepted: set<Frame>) {
    && n in net.nodes && n in net'.nodes && net'.nodes == net.nodes[n := net'.nodes[n]] && net.sent <= net'.sent
    && net'.nodes[n].config == net.nodes[n].config && net'.nodes[n].state == s
    && net'.nodes[n].taken == taken && net'.nodes[n].accepted == accepted
    && (forall e :: e in net'.nodes[n].log ==> e in net.nodes[n].log || e.Sent?)
  }

  lemma {:induction false} PlainSend(net: Net, n: byte, dst: byte)
    requires n in net.nodes && Valid(net.nodes[n].state)
    ensures var h, s := At(n, Plainly(dst)), net.nodes[n].state;
            && MayHappen(net, h)
            && Moved(net, Next(net, h), n, s.(nextSeq := NextSeq(s.nextSeq)), net.nodes[n].taken + 1,
                     net.nodes[n].accepted)
  {}

  lemma {:induction false} MovedOn(net: Net, net': Net, net'': Net, n: byte, s: State, taken: nat, s': State,
          taken': nat, accepted: set<Frame>)
    requires Moved(net, net', n, s, taken, accepted) && Moved(net', net'', n, s', taken', accepted)
    ensures Moved(net, net'', n, s', taken', accepted)
  {}

  lemma {:induction false} PlainSendNext(start: Net, net: Net, n: byte, dst: byte, s: State, taken: nat,
          accepted: set<Frame>)
    returns (net': Net)
    requires Reaches(start, net) && n in net.nodes && Valid(s)
    requires s == net.nodes[n].state && taken == net.nodes[n].taken && accepted == net.nodes[n].accepted
    ensures Reaches(start, net') && Moved(net, net', n, s.(nextSeq := NextSeq(s.nextSeq)), taken + 1, accepted)
  {
    var h := At(n, Plainly(dst));
    PlainSend(net, n, dst);
    net' := Next(net, h);
    ReachesNext(start, net, h, net');
  }

  /** The state after some more numbers have been taken. */
  function Later(s: State, count: nat): State { s.(nextSeq := (s.nextSeq + count) % SEQS) }

  lemma {:induction false} LaterAgain(s: State, count: nat)
    ensures Later(s, 0) == s
    ensures count > 0 ==> Later(s, count) == Later(s, count - 1).(nextSeq := NextSeq(Later(s, count - 1).nextSeq))
  {}

  lemma {:induction false} MovedNowhere(net: Net, n: byte)
    requires n in net.nodes
    ensures Moved(net, net, n, net.nodes[n].state, net.nodes[n].taken, net.nodes[n].accepted)
  {}

  /** Plain sends only take numbers. */
  lemma {:induction false} PlainSends(start: Net, net: Net, n: byte, dst: byte, s: State, taken: nat,
          accepted: set<Frame>, count: nat)
    returns (net': Net)
    requires Reaches(start, net) && n in net.nodes && Valid(s)
    requires s == net.nodes[n].state && taken == net.nodes[n].taken && accepted == net.nodes[n].accepted
    ensures Reaches(start, net') && Moved(net, net', n, Later(s, count), taken + count, accepted)
    decreases count
  {
    LaterAgain(s, count);
    if count == 0 {
      net' := net;
      MovedNowhere(net, n);
    } else {
      var net1 := PlainSends(start, net, n, dst, s, taken, accepted, count - 1);
      net' := PlainSendNext(start, net1, n, dst, Later(s, count - 1), taken + count - 1, accepted);
      MovedOn(net, net1, net', n, Later(s, count - 1), taken + count - 1, Later(s, count), taken + count, accepted);
    }
  }

  lemma {:induction false} ReliableSend(net: Net, n: byte, dst: byte, payload: seq<byte>)
    requires n in net.nodes && Valid(net.nodes[n].state) && |payload| <= PAYLOAD_MAX
    requires net.nodes[n].state.pending != [] && !net.nodes[n].state.pending[0].inUse
    ensures var h, s, c := At(n, Reliably(dst, payload)), net.nodes[n].state, net.nodes[n].config;
            var f := Numbered(c, dst, s.nextSeq, payload);
            && MayHappen(net, h) && f in Next(net, h).sent
            && Moved(net, Next(net, h), n,
                     s.(nextSeq := NextSeq(s.nextSeq), pending := s.pending[0 := Pending(true, Deadline(c, 0), 0, f)]),
                     net.nodes[n].taken + 1, net.nodes[n].accepted + {f})
  {
    assert FreePending(net.nodes[n].state.pending) == 0;
    var h := At(n, Reliably(dst, payload));
    var m := MoveOf(net.nodes[n], h.input);
    assert m.events[0] in m.events;
  }

  /** The ACK for the frame in slot 0. */
  ghost predicate AckFor(c: Config, f: Frame, ack: Frame) {
    && ack.dst == c.addr && f.session == c.session && ack.src == f.dst && IsAck(ack)
    && ack.payload == [High(f.seqno), Low(f.seqno)]
  }

  lemma {:induction false} AckArrives(net: Net, n: byte, ack: Frame)
    requires n in net.nodes && Valid(net.nodes[n].state) && ack in net.sent
    requires net.nodes[n].state.pending != [] && net.nodes[n].state.pending[0].inUse
    requires AckFor(net.nodes[n].config, net.nodes[n].state.pending[0].frame, ack)
    ensures var h, s := At(n, Input(0, DoReceive(ack))), net.nodes[n].state;
            && MayHappen(net, h) && AckClears(net.nodes[n].config, s, h.input) == 0
            && Moved(net, Next(net, h), n, s.(pending := s.pending[0 := s.pending[0].(inUse := false)]),
                     net.nodes[n].taken, net.nodes[n].accepted)
  {
    var f := net.nodes[n].state.pending[0].frame;
    assert Join(High(f.seqno), Low(f.seqno)) == f.seqno;
    assert Waits(net.nodes[n].state.pending[0], Key(f.dst, f.session, f.seqno));
  }

  /** A fresh peer delivers the frame and acknowledges it, and that is all it has done. */
  lemma {:induction false} PeerDelivers(net: Net, dst: byte, f: Frame) returns (ack: Frame)
    requires dst in net.nodes && net.nodes[dst].config.addr == dst == f.dst && f in net.sent
    requires net.nodes[dst].state == Initial(net.nodes[dst].first) && net.nodes[dst].log == []
    requires IsReliable(f) && !IsAck(f)
    ensures ack.dst == f.src && ack.src == dst && IsAck(ack) && ack.payload == [High(f.seqno), Low(f.seqno)]
    ensures var h := At(dst, Input(0, DoReceive(f)));
            && MayHappen(net, h) && ack in Next(net, h).sent && net.sent <= Next(net, h).sent
            && Next(net, h).nodes == net.nodes[dst := Next(net, h).nodes[dst]]
            && Next(net, h).nodes[dst].log == [Sent(ack), Delivered(f)]
  {
    var node, h := net.nodes[dst], At(dst, Input(0, DoReceive(f)));
    ack := AckOf(f, node.config.session, node.state.nextSeq);
    assert !Contains(Heard(node.state.table, f.src, f.session).seen, SourceKey(f));
    var m := MoveOf(node, h.input);
    assert m.events == [Sent(ack), Delivered(f)];
    assert m.events[0] in m.events;
  }

  // ---------------------------------------------------------------------
  // One number too many.
  // ---------------------------------------------------------------------

  /** A node that waits for nothing and has given nothing up. */
  ghost predicate Idle(node: Node, c: Config, seqno: u16, taken: nat) {
    && node.config == c && Valid(node.state) && node.state.nextSeq == seqno && node.taken == taken
    && node.state.pending != [] && (forall i :: 0 <= i < |node.state.pending| ==> !node.state.pending[i].inUse)
    && (forall e :: e in node.log ==> e.Sent?)
  }

  /** Idle but for the frame in slot 0. */
  ghost predicate Expecting(node: Node, c: Config, seqno: u16, taken: nat, f: Frame) {
    && node.state.pending != [] && node.state.pending[0].inUse && node.state.pending[0].frame == f
    && Idle(node.(state := node.state.(pending := node.state.pending[0 := node.state.pending[0].(inUse := false)])),
            c, seqno, taken)
  }

  /** src has sent a, and dst has delivered it and acknowledged it. */
  ghost predicate AckedOnce(net: Net, src: byte, dst: byte, c: Config, seqno: u16, a: seq<byte>, ack: Frame) {
    && src in net.nodes && dst in net.nodes && src != dst && ack in net.sent
    && AckFor(c, Numbered(c, dst, seqno, a), ack)
    && net.nodes[dst].log == [Sent(ack), Delivered(Numbered(c, dst, seqno, a))]
  }

  lemma {:induction false} NumberedParts(c: Config, dst: byte, seqno: u16, payload: seq<byte>)
    ensures var f := Numbered(c, dst, seqno, payload);
            && f.src == c.addr && f.dst == dst && f.session == c.session && f.seqno == seqno && f.payload == payload
            && IsReliable(f) && !IsAck(f)
  {}

  lemma {:induction false} FirstFrame(start: Net, src: byte, dst: byte, c: Config, first: u16, a: seq<byte>)
    returns (net: Net, ack: Frame)
    requires src in start.nodes && dst in start.nodes && src != dst && |a| <= PAYLOAD_MAX && c.addr == src
    requires start.nodes[src] == Node(c, Initial(first), first, 0, [], {})
    requires start.nodes[dst].state == Initial(start.nodes[dst].first) && start.nodes[dst].log == []
    requires start.nodes[dst].config.addr == dst
    ensures Reaches(start, net) && AckedOnce(net, src, dst, c, first, a, ack)
    ensures Expecting(net.nodes[src], c, NextSeq(first), 1, Numbered(c, dst, first, a))
  {
    assert Leads(start, [], start);
    var f, h1 := Numbered(c, dst, first, a), At(src, Reliably(dst, a));
    NumberedParts(c, dst, first, a);
    ReliableSend(start, src, dst, a);
    var net1 := Next(start, h1);
    ReachesNext(start, start, h1, net1);
    ack := PeerDelivers(net1, dst, f);
    var h2 := At(dst, Input(0, DoReceive(f)));
    net := Next(net1, h2);
    ReachesNext(start, net1, h2, net);
  }

  lemma {:induction false} AckComesBack(start: Net, net: Net, src: byte, dst: byte, c: Config, first: u16,
          a: seq<byte>, ack: Frame)
    returns (net': Net)
    requires Reaches(start, net) && AckedOnce(net, src, dst, c, first, a, ack)
    requires Expecting(net.nodes[src], c, NextSeq(first), 1, Numbered(c, dst, first, a))
    ensures Reaches(start, net') && AckedOnce(net', src, dst, c, first, a, ack)
    ensures Idle(net'.nodes[src], c, NextSeq(first), 1)
  {
    var h := At(src, Input(0, DoReceive(ack)));
    AckArrives(net, src, ack);
    net' := Next(net, h);
    ReachesNext(start, net, h, net');
  }

  lemma {:induction false} ComesRound(s: State, first: u16, count: nat)
    requires s.nextSeq == NextSeq(first) && count + 1 == SEQS
    ensures Later(s, count).nextSeq == first
  {}

  lemma {:induction false} RoundAgain(start: Net, net: Net, src: byte, dst: byte, c: Config, first: u16, a: seq<byte>,
          ack: Frame, count: nat)
    returns (net': Net)
    requires Reaches(start, net) && AckedOnce(net, src, dst, c, first, a, ack) && count + 1 == SEQS
    requires Idle(net.nodes[src], c, NextSeq(first), 1)
    ensures Reaches(start, net') && AckedOnce(net', src, dst, c, first, a, ack)
    ensures Idle(net'.nodes[src], c, first, count + 1)
  {
    var node := net.nodes[src];
    ComesRound(node.state, first, count);
    net' := PlainSends(start, net, src, dst, node.state, 1, node.accepted, count);
  }

  lemma {:induction false} SecondFrame(start: Net, net: Net, src: byte, dst: byte, c: Config, first: u16,
          a: seq<byte>, b: seq<byte>, ack: Frame, count: nat)
    returns (net': Net)
    requires Reaches(start, net) && AckedOnce(net, src, dst, c, first, a, ack) && |b| <= PAYLOAD_MAX && a != b
    requires Idle(net.nodes[src], c, first, count + 1)
    ensures Reaches(start, net') && src in net'.nodes && net'.nodes[src].taken == count + 2
    ensures var f, h, s := Numbered(c, dst, first, b), At(src, Input(0, DoReceive(ack))), net'.nodes[src].state;
            && MayHappen(net', h) && f in net'.nodes[src].accepted && s.pending != [] && s.pending[0].frame == f
            && net'.nodes[src].config == c && AckClears(c, s, h.input) == 0
            && !HasDelivered(net', dst, f) && !Accounted(Next(net', h), src, f)
  {
    var f, h := Numbered(c, dst, first, b), At(src, Reliably(dst, b));
    NumberedParts(c, dst, first, b);
    NumberedParts(c, dst, first, a);
    ReliableSend(net, src, dst, b);
    net' := Next(net, h);
    ReachesNext(start, net, h, net');
    AckArrives(net', src, ack);
  }

  /** The bound on sequence numbers is needed: from every pair of nodes a run leads to a state in which one node has
      taken 65537 numbers and a late copy of an old ACK, once justified, clears a frame that its destination has not
      delivered; after that the frame is neither pending, nor reported as failed, nor delivered. */
  lemma {:induction false} OldAckClearsNewFrame(configs: map<byte, Config>, firsts: map<byte, u16>, src: byte,
          dst: byte, a: seq<byte>, b: seq<byte>)
    returns (hs: seq<Happening>, net: Net, h: Happening)
    requires configs.Keys == firsts.Keys && forall n :: n in configs ==> configs[n].addr == n
    requires src in configs && dst in configs && src != dst
    requires |a| <= PAYLOAD_MAX && |b| <= PAYLOAD_MAX && a != b
    ensures Leads(Start(configs, firsts), hs, net) && MayHappen(net, h)
    ensures h.node == src && net.nodes[src].taken == SEQS + 1
    ensures AckClears(net.nodes[src].config, net.nodes[src].state, h.input) < |net.nodes[src].state.pending|
    ensures var i := AckClears(net.nodes[src].config, net.nodes[src].state, h.input);
            var f := net.nodes[src].state.pending[i].frame;
            && f.payload == b && f in net.nodes[src].accepted
            && !HasDelivered(net, f.dst, f) && !Accounted(Next(net, h), src, f)
  {
    var start, c, first := Start(configs, firsts), configs[src], firsts[src];
    var count: nat :| count + 1 == SEQS;
    var net2, ack := FirstFrame(start, src, dst, c, first, a);
    var net3 := AckComesBack(start, net2, src, dst, c, first, a, ack);
    var net4 := RoundAgain(start, net3, src, dst, c, first, a, ack, count);
    net := SecondFrame(start, net4, src, dst, c, first, a, b, ack, count);
    h := At(src, Input(0, DoReceive(ack)));
    NumberedParts(c, dst, first, b);
    hs :| Leads(start, hs, net);
  }
}
