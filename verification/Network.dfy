/** Endpoints of src/arc_reliable.c joined by a network that may lose, duplicate, delay and reorder frames. */
module Network {
  import opened Bytes
  import opened Framing
  import opened Endpoint
  import opened Runs
  import opened Tables
  import opened Lifecycle

  const SEQS := 0x1_0000

  /** An endpoint, the number of sequence numbers it has taken since its first, its callbacks so far, and the frames
      of its accepted reliable sends. */
  datatype Node = Node(config: Config, state: State, first: u16, taken: nat, log: seq<Event>, accepted: set<Frame>)

  /** The nodes by address, and every frame ever handed to the network. Any of them may arrive anywhere, any number of
      times, or never. */
  datatype Net = Net(nodes: map<byte, Node>, sent: set<Frame>)

  datatype Happening = At(node: byte, input: Input)

  /** The frame a send makes. */
  function Requested(node: Node, x: Input): Frame
    requires x.action.DoSend?
  {
    var a := x.action;
    Outgoing(node.config, node.state.nextSeq, a.dst, a.family, a.kind, a.flags, a.reliable, a.payload)
  }

  function MoveOf(node: Node, x: Input): Move
    requires Valid(node.state)
  {
    Step(node.config, node.state, x)
  }

  function SentIn(es: seq<Event>): set<Frame> { set e | e in es && e.Sent? :: e.frame }

  function NodeAfter(node: Node, x: Input, m: Move): Node {
    Node(node.config, m.state, node.first, node.taken + if m.state.nextSeq == node.state.nextSeq then 0 else 1,
         node.log + m.events, if Accepts(m, x) then node.accepted + {Requested(node, x)} else node.accepted)
  }

  function NetAfter(net: Net, h: Happening, m: Move): Net
    requires h.node in net.nodes
  {
    Net(net.nodes[h.node := NodeAfter(net.nodes[h.node], h.input, m)], net.sent + SentIn(m.events))
  }

  function Next(net: Net, h: Happening): Net
    requires h.node in net.nodes && Valid(net.nodes[h.node].state)
  {
    NetAfter(net, h, MoveOf(net.nodes[h.node], h.input))
  }

  /** The caller asks for a frame that looks like an acknowledgement. */
  predicate LooksLikeAck(x: Input) {
    && x.action.DoSend? && HasBit(x.action.flags, ACK_BIT)
    && x.action.family == FAMILY_NETMGMT && x.action.kind == NETMGMT_ACK
  }

  /** What may happen: a frame arrives that was sent, and callers do not forge ACKs. */
  ghost predicate MayHappen(net: Net, h: Happening) {
    && h.node in net.nodes && Valid(net.nodes[h.node].state)
    && (h.input.action.DoReceive? ==> h.input.action.frame in net.sent)
    && !LooksLikeAck(h.input)
  }

  // ---------------------------------------------------------------------
  // Invariants.
  // ---------------------------------------------------------------------

  /** The sequence number is among those the node has taken. */
  predicate Used(node: Node, seqno: u16) { (seqno - node.first) % SEQS < node.taken }

  ghost predicate NodeOk(addr: byte, node: Node) {
    && node.config.addr == addr && Valid(node.state)
    && node.state.nextSeq == (node.first + node.taken) % SEQS
  }

  ghost predicate NodesOk(net: Net) { forall n :: n in net.nodes ==> NodeOk(n, net.nodes[n]) }

  /** Frames on the network name their sender, its session and a number it has taken. */
  ghost predicate FromNode(net: Net, f: Frame) {
    f.src in net.nodes && f.session == net.nodes[f.src].config.session && Used(net.nodes[f.src], f.seqno)
  }

  ghost predicate SentOk(net: Net) { forall f :: f in net.sent ==> FromNode(net, f) }

  /** The node has not taken any sequence number twice. */
  ghost predicate BeforeWrap(net: Net, n: byte) { n in net.nodes && net.nodes[n].taken <= SEQS }

  /** One sender, one sequence number: one frame, until the sender's numbers come round. */
  ghost predicate OneFrame(net: Net) {
    forall f, g :: f in net.sent && g in net.sent && f.src == g.src && f.seqno == g.seqno && BeforeWrap(net, f.src) ==>
      f == g
  }

  ghost predicate SlotOk(net: Net, n: byte, p: Pending) { p.inUse ==> p.frame in net.sent && p.frame.src == n }

  /** Whatever waits for an ACK has been sent. */
  ghost predicate PendingOk(net: Net) {
    forall n, i ::
      n in net.nodes && 0 <= i < |net.nodes[n].state.pending| ==> SlotOk(net, n, net.nodes[n].state.pending[i])
  }

  ghost predicate HasDelivered(net: Net, n: byte, f: Frame) { n in net.nodes && Delivered(f) in net.nodes[n].log }

  /** Whatever is delivered was sent, to this node. */
  ghost predicate DeliveredOk(net: Net) { forall n, f :: HasDelivered(net, n, f) ==> f in net.sent && f.dst == n }

  ghost predicate KnownFrame(net: Net, n: byte, key: Key) { exists f :: HasDelivered(net, n, f) && SourceKey(f) == key }

  /** Keys in a table of seen keys are those of delivered frames. */
  ghost predicate SeenOk(net: Net) {
    forall n, key :: n in net.nodes && key in Live(net.nodes[n].state.table.seen) ==> KnownFrame(net, n, key)
  }

  /** The frame an ACK acknowledges was delivered by the node that sent the ACK. */
  ghost predicate Justified(net: Net, a: Frame) {
    && |a.payload| == 2
    && exists f :: HasDelivered(net, a.src, f) && f.src == a.dst && f.seqno == Join(a.payload[0], a.payload[1])
  }

  ghost predicate AcksOk(net: Net) { forall a :: a in net.sent && IsAck(a) ==> Justified(net, a) }

  /** The frame waits for its ACK. */
  ghost predicate IsPending(node: Node, f: Frame) {
    exists i :: 0 <= i < |node.state.pending| && node.state.pending[i].inUse && node.state.pending[i].frame == f
  }

  /** An accepted frame is waiting, has been reported as failed, or has been delivered by its destination. */
  ghost predicate Accounted(net: Net, n: byte, f: Frame) {
    n in net.nodes && (IsPending(net.nodes[n], f) || Failed(f) in net.nodes[n].log || HasDelivered(net, f.dst, f))
  }

  ghost predicate NothingLost(net: Net) {
    forall n, f :: BeforeWrap(net, n) && f in net.nodes[n].accepted ==> Accounted(net, n, f)
  }

  ghost predicate Inv(net: Net) {
    && NodesOk(net) && SentOk(net) && OneFrame(net) && PendingOk(net)
    && DeliveredOk(net) && SeenOk(net) && AcksOk(net) && NothingLost(net)
  }

  // ---------------------------------------------------------------------
  // What one call of an endpoint means for the network.
  // ---------------------------------------------------------------------

  /** The frame a call may make with a new sequence number. */
  function Fresh(node: Node, x: Input): Frame {
    match x.action
    case DoSend(_, _, _, _, _, _) => Requested(node, x)
    case DoReceive(f) => AckOf(f, node.config.session, node.state.nextSeq).(src := node.config.addr)
    case DoTick => Frame(node.config.addr, 0, 0, node.config.session, node.state.nextSeq, 0, 0, [])
  }

  ghost predicate SendsOwn(node: Node, x: Input, m: Move) {
    && (m.state.nextSeq == node.state.nextSeq || m.state.nextSeq == NextSeq(node.state.nextSeq))
    && (forall f :: Sent(f) in m.events ==>
          IsPending(node, f) || (f == Fresh(node, x) && m.state.nextSeq != node.state.nextSeq))
  }

  ghost predicate KeepsPending(node: Node, x: Input, m: Move) {
    && |m.state.pending| == |node.state.pending|
    && (forall i :: 0 <= i < |m.state.pending| && m.state.pending[i].inUse ==>
          (node.state.pending[i].inUse && m.state.pending[i].frame == node.state.pending[i].frame) ||
          Sent(m.state.pending[i].frame) in m.events)
    && (Accepts(m, x) ==>
          exists i ::
            0 <= i < |m.state.pending| && m.state.pending[i].inUse && m.state.pending[i].frame == Requested(node, x))
  }

  /** A slot that is given up has failed or has been acknowledged. */
  ghost predicate GivesUpOnly(node: Node, x: Input, m: Move) {
    forall i :: 0 <= i < |node.state.pending| && node.state.pending[i].inUse && i < |m.state.pending| ==>
      || (m.state.pending[i].inUse && m.state.pending[i].frame == node.state.pending[i].frame)
      || Failed(node.state.pending[i].frame) in m.events
      || AckClears(node.config, node.state, x) == i
  }

  ghost predicate DeliversArrivals(node: Node, x: Input, m: Move) {
    forall f :: Delivered(f) in m.events ==> x.action == DoReceive(f) && f.dst == node.config.addr
  }

  ghost predicate RemembersDelivered(node: Node, x: Input, m: Move) {
    forall key :: key in Live(m.state.table.seen) ==>
      key in Live(node.state.table.seen) ||
      (x.action.DoReceive? && SourceKey(x.action.frame) == key && Delivered(x.action.frame) in m.events)
  }

  /** An ACK goes out for an arrival that is delivered or whose key is known. */
  ghost predicate AcksArrivals(node: Node, x: Input, m: Move) {
    Sent(Fresh(node, x)) in m.events && IsAck(Fresh(node, x)) && m.state.nextSeq != node.state.nextSeq ==>
      && x.action.DoReceive? && x.action.frame.dst == node.config.addr
      && (Delivered(x.action.frame) in m.events || SourceKey(x.action.frame) in Live(node.state.table.seen))
  }

  ghost predicate Explains(node: Node, x: Input, m: Move) {
    && Valid(m.state) && SendsOwn(node, x, m) && KeepsPending(node, x, m) && GivesUpOnly(node, x, m)
    && DeliversArrivals(node, x, m) && RemembersDelivered(node, x, m) && AcksArrivals(node, x, m)
  }

  lemma {:induction false} MarkedIsAck(flags: byte, reliable: bool)
    ensures HasBit(Marked(flags, reliable), ACK_BIT) == HasBit(flags, ACK_BIT)
  {
    OrHasBit(flags, FLAG_RELIABLE, ACK_BIT);
    assert !HasBit(FLAG_RELIABLE, ACK_BIT);
  }

  lemma {:induction false} SendExplained(node: Node, x: Input)
    requires Valid(node.state) && x.action.DoSend? && !LooksLikeAck(x)
    ensures Explains(node, x, MoveOf(node, x))
  {
    MarkedIsAck(x.action.flags, x.action.reliable);
    var m, i := MoveOf(node, x), FreePending(node.state.pending);
    if Accepts(m, x) { assert m.state.pending[i].inUse && m.state.pending[i].frame == Requested(node, x); }
  }

  lemma {:induction false} TickCallsPending(c: Config, ps: seq<Pending>, now: u32, e: Event)
    requires e in TickEvents(c, ps, now)
    ensures !e.Delivered? && exists i :: 0 <= i < |ps| && ps[i].inUse && ps[i].frame == e.frame
  {
    TickEventsMembers(c, ps, now, e);
  }

  lemma {:induction false} TickReportsFailure(c: Config, ps: seq<Pending>, now: u32, i: nat)
    requires i < |ps| && ps[i].inUse && !TickSlot(c, ps[i], now).inUse
    ensures Failed(ps[i].frame) in TickEvents(c, ps, now)
  {
    var e := Failed(ps[i].frame);
    TickEventsMembers(c, ps, now, e);
    assert e in SlotEvents(c, ps[i], now);
  }

  lemma {:induction false} TickExplains(node: Node, x: Input, now: u32, m: Move)
    requires Valid(node.state) && x.action.DoTick?
    requires m == Move(Tick(node.config, node.state, now), TickEvents(node.config, node.state.pending, now), Ticks)
    ensures Explains(node, x, m)
  {
    var ps := node.state.pending;
    forall e | e in m.events ensures !e.Delivered? && (e.Sent? ==> IsPending(node, e.frame)) {
      TickCallsPending(node.config, ps, now, e);
    }
    forall i | 0 <= i < |ps| && ps[i].inUse ensures m.state.pending[i].inUse || Failed(ps[i].frame) in m.events {
      if !m.state.pending[i].inUse { TickReportsFailure(node.config, ps, now, i); }
    }
  }

  lemma {:induction false} TickExplained(node: Node, x: Input)
    requires Valid(node.state) && x.action.DoTick?
    ensures Explains(node, x, MoveOf(node, x))
  {
    TickExplains(node, x, Clock(x.at), MoveOf(node, x));
  }

  lemma {:induction false} ReceiveExplained(node: Node, x: Input)
    requires Valid(node.state) && x.action.DoReceive?
    ensures Explains(node, x, MoveOf(node, x))
  {
    var f := x.action.frame;
    var t := Heard(node.state.table, f.src, f.session);
    LiveDropSource(node.state.table.seen, f.src);
    LiveRemember(t, SourceKey(f));
    ContainsIffLive(t.seen, SourceKey(f));
  }

  /** The call at one node, as far as the network can tell. */
  ghost predicate Call(net: Net, h: Happening, m: Move) {
    && h.node in net.nodes && Valid(net.nodes[h.node].state)
    && (h.input.action.DoReceive? ==> h.input.action.frame in net.sent)
    && Explains(net.nodes[h.node], h.input, m)
  }

  // ---------------------------------------------------------------------
  // The invariants are kept.
  // ---------------------------------------------------------------------

  lemma {:induction false} NodesStep(net: Net, h: Happening, m: Move)
    requires NodesOk(net) && Call(net, h, m)
    ensures NodesOk(NetAfter(net, h, m))
  {
    var net' := NetAfter(net, h, m);
    forall n | n in net'.nodes ensures NodeOk(n, net'.nodes[n]) { assert NodeOk(n, net.nodes[n]); }
  }

  /** The next number has not been taken. */
  lemma {:induction false} NextIsFree(node: Node)
    requires NodeOk(node.config.addr, node) && node.taken < SEQS
    ensures !Used(node, node.state.nextSeq)
  {}

  lemma {:induction false} UsedStep(net: Net, h: Happening, m: Move, f: Frame)
    requires NodesOk(net) && Call(net, h, m) && FromNode(net, f)
    ensures FromNode(NetAfter(net, h, m), f)
  {}

  lemma {:induction false} FreshStep(net: Net, h: Happening, m: Move)
    requires NodesOk(net) && Call(net, h, m) && m.state.nextSeq != net.nodes[h.node].state.nextSeq
    ensures var f := Fresh(net.nodes[h.node], h.input);
            && f.src == h.node && FromNode(NetAfter(net, h, m), f)
            && (net.nodes[h.node].taken < SEQS ==> !Used(net.nodes[h.node], f.seqno))
  {
    assert NodeOk(h.node, net.nodes[h.node]);
    if net.nodes[h.node].taken < SEQS { NextIsFree(net.nodes[h.node]); }
  }

  lemma {:induction false} PendingIsSent(net: Net, n: byte, f: Frame)
    requires PendingOk(net) && n in net.nodes && IsPending(net.nodes[n], f)
    ensures f in net.sent && f.src == n
  {
    var ps := net.nodes[n].state.pending;
    var i :| 0 <= i < |ps| && ps[i].inUse && ps[i].frame == f;
    assert SlotOk(net, n, ps[i]);
  }

  /** A call puts at most one new frame on the network. */
  lemma {:induction false} NewOnNetwork(net: Net, h: Happening, m: Move, f: Frame)
    requires NodesOk(net) && PendingOk(net) && Call(net, h, m) && f in NetAfter(net, h, m).sent
    ensures f in net.sent || (f == Fresh(net.nodes[h.node], h.input) && Sent(f) in m.events &&
                              m.state.nextSeq != net.nodes[h.node].state.nextSeq)
  {
    if IsPending(net.nodes[h.node], f) { PendingIsSent(net, h.node, f); }
  }

  lemma {:induction false} SentStep(net: Net, h: Happening, m: Move)
    requires NodesOk(net) && SentOk(net) && OneFrame(net) && PendingOk(net) && Call(net, h, m)
    ensures SentOk(NetAfter(net, h, m)) && OneFrame(NetAfter(net, h, m))
  {
    var net' := NetAfter(net, h, m);
    forall f | f in net'.sent
      ensures FromNode(net', f)
      ensures f in net.sent ==> FromNode(net, f)
      ensures f !in net.sent ==>
                f == Fresh(net.nodes[h.node], h.input) && f.src == h.node &&
                (BeforeWrap(net', f.src) ==> !Used(net.nodes[h.node], f.seqno))
    {
      NewOnNetwork(net, h, m, f);
      if f in net.sent { UsedStep(net, h, m, f); } else { FreshStep(net, h, m); }
    }
  }

  lemma {:induction false} PendingStep(net: Net, h: Happening, m: Move)
    requires NodesOk(net) && PendingOk(net) && Call(net, h, m)
    ensures PendingOk(NetAfter(net, h, m))
  {
    var net', node := NetAfter(net, h, m), net.nodes[h.node];
    assert NodeOk(h.node, node);
    forall n, i | n in net'.nodes && 0 <= i < |net'.nodes[n].state.pending|
      ensures SlotOk(net', n, net'.nodes[n].state.pending[i])
    {
      var p := net'.nodes[n].state.pending[i];
      if n != h.node || (p.inUse && node.state.pending[i].inUse && p.frame == node.state.pending[i].frame) {
        assert SlotOk(net, n, net.nodes[n].state.pending[i]);
      } else if p.inUse {
        OwnFrames(net, h, m, p.frame);
      }
    }
  }

  lemma {:induction false} OwnFrames(net: Net, h: Happening, m: Move, f: Frame)
    requires NodesOk(net) && PendingOk(net) && Call(net, h, m) && Sent(f) in m.events
    ensures f.src == h.node && f in NetAfter(net, h, m).sent
  {
    assert NodeOk(h.node, net.nodes[h.node]);
    if IsPending(net.nodes[h.node], f) { PendingIsSent(net, h.node, f); }
  }

  lemma {:induction false} LogsGrow(net: Net, h: Happening, m: Move, n: byte, f: Frame)
    requires h.node in net.nodes
    ensures HasDelivered(NetAfter(net, h, m), n, f) <==>
              HasDelivered(net, n, f) || (n == h.node && Delivered(f) in m.events)
  {}

  lemma {:induction false} DeliveredStep(net: Net, h: Happening, m: Move)
    requires NodesOk(net) && DeliveredOk(net) && Call(net, h, m)
    ensures DeliveredOk(NetAfter(net, h, m))
  {
    var net' := NetAfter(net, h, m);
    assert NodeOk(h.node, net.nodes[h.node]);
    forall n, f | HasDelivered(net', n, f) ensures f in net'.sent && f.dst == n {
      LogsGrow(net, h, m, n, f);
    }
  }

  lemma {:induction false} SeenStep(net: Net, h: Happening, m: Move)
    requires SeenOk(net) && Call(net, h, m)
    ensures SeenOk(NetAfter(net, h, m))
  {
    var net' := NetAfter(net, h, m);
    forall n, key | n in net'.nodes && key in Live(net'.nodes[n].state.table.seen) ensures KnownFrame(net', n, key) {
      if n in net.nodes && key in Live(net.nodes[n].state.table.seen) {
        var f :| HasDelivered(net, n, f) && SourceKey(f) == key;
        LogsGrow(net, h, m, n, f);
      } else {
        LogsGrow(net, h, m, n, h.input.action.frame);
      }
    }
  }

  lemma {:induction false} JustifiedStep(net: Net, h: Happening, m: Move, a: Frame)
    requires h.node in net.nodes && Justified(net, a)
    ensures Justified(NetAfter(net, h, m), a)
  {
    var f :| HasDelivered(net, a.src, f) && f.src == a.dst && f.seqno == Join(a.payload[0], a.payload[1]);
    LogsGrow(net, h, m, a.src, f);
  }

  lemma {:induction false} FreshAckJustified(net: Net, h: Happening, m: Move)
    requires NodesOk(net) && SeenOk(net) && Call(net, h, m)
    requires var a := Fresh(net.nodes[h.node], h.input);
             Sent(a) in m.events && IsAck(a) && m.state.nextSeq != net.nodes[h.node].state.nextSeq
    ensures Justified(NetAfter(net, h, m), Fresh(net.nodes[h.node], h.input))
  {
    var f, a := h.input.action.frame, Fresh(net.nodes[h.node], h.input);
    assert NodeOk(h.node, net.nodes[h.node]);
    assert a.payload == [High(f.seqno), Low(f.seqno)] && Join(High(f.seqno), Low(f.seqno)) == f.seqno;
    if Delivered(f) in m.events {
      LogsGrow(net, h, m, h.node, f);
    } else {
      var g :| HasDelivered(net, h.node, g) && SourceKey(g) == SourceKey(f);
      LogsGrow(net, h, m, h.node, g);
    }
  }

  lemma {:induction false} AcksStep(net: Net, h: Happening, m: Move)
    requires NodesOk(net) && PendingOk(net) && SeenOk(net) && AcksOk(net) && Call(net, h, m)
    ensures AcksOk(NetAfter(net, h, m))
  {
    var net' := NetAfter(net, h, m);
    forall a | a in net'.sent && IsAck(a) ensures Justified(net', a) {
      NewOnNetwork(net, h, m, a);
      if a in net.sent { JustifiedStep(net, h, m, a); } else { FreshAckJustified(net, h, m); }
    }
  }

  /** Soundness of acknowledgements: a pending entry that an arriving ACK clears is one whose exact frame its
      destination has already delivered. */
  lemma {:induction false} AckSound(net: Net, h: Happening)
    requires Inv(net) && BeforeWrap(net, h.node)
    requires h.input.action.DoReceive? && h.input.action.frame in net.sent
    requires AckClears(net.nodes[h.node].config, net.nodes[h.node].state, h.input) < |net.nodes[h.node].state.pending|
    ensures var i := AckClears(net.nodes[h.node].config, net.nodes[h.node].state, h.input);
            var f := net.nodes[h.node].state.pending[i].frame;
            HasDelivered(net, f.dst, f)
  {
    var node, a := net.nodes[h.node], h.input.action.frame;
    assert NodeOk(h.node, node);
    var p := node.state.pending[AckClears(node.config, node.state, h.input)];
    assert SlotOk(net, h.node, p);
    assert Justified(net, a);
    var f :| HasDelivered(net, a.src, f) && f.src == a.dst && f.seqno == Join(a.payload[0], a.payload[1]);
    assert f in net.sent && f == p.frame;
  }

  lemma {:induction false} AccountedStep(net: Net, h: Happening, m: Move, n: byte, f: Frame)
    requires Inv(net) && Call(net, h, m) && Accounted(net, n, f) && BeforeWrap(net, n)
    ensures Accounted(NetAfter(net, h, m), n, f)
  {
    var net' := NetAfter(net, h, m);
    LogsGrow(net, h, m, f.dst, f);
    if n == h.node && IsPending(net.nodes[n], f) {
      var ps := net.nodes[n].state.pending;
      var i :| 0 <= i < |ps| && ps[i].inUse && ps[i].frame == f;
      if AckClears(net.nodes[n].config, net.nodes[n].state, h.input) == i {
        AckSound(net, h);
      } else if Failed(f) !in m.events {
        assert m.state.pending[i].inUse && m.state.pending[i].frame == f;
      }
    }
  }

  lemma {:induction false} LostStep(net: Net, h: Happening, m: Move)
    requires Inv(net) && Call(net, h, m)
    ensures NothingLost(NetAfter(net, h, m))
  {
    var net' := NetAfter(net, h, m);
    forall n, f | BeforeWrap(net', n) && f in net'.nodes[n].accepted ensures Accounted(net', n, f) {
      if f in net.nodes[n].accepted {
        AccountedStep(net, h, m, n, f);
      } else {
        assert IsPending(net'.nodes[n], f);
      }
    }
  }

  lemma {:induction false} InvStep(net: Net, h: Happening, m: Move)
    requires Inv(net) && Call(net, h, m)
    ensures Inv(NetAfter(net, h, m))
  {
    NodesStep(net, h, m);
    SentStep(net, h, m);
    PendingStep(net, h, m);
    DeliveredStep(net, h, m);
    SeenStep(net, h, m);
    AcksStep(net, h, m);
    LostStep(net, h, m);
  }

  lemma {:induction false} CallIsExplained(net: Net, h: Happening)
    requires MayHappen(net, h)
    ensures Call(net, h, MoveOf(net.nodes[h.node], h.input))
  {
    var node, x := net.nodes[h.node], h.input;
    match x.action
    case DoSend(_, _, _, _, _, _) => SendExplained(node, x);
    case DoReceive(_) => ReceiveExplained(node, x);
    case DoTick => TickExplained(node, x);
  }

  // ---------------------------------------------------------------------
  // Whole runs.
  // ---------------------------------------------------------------------

  /** Fresh nodes with these settings and first sequence numbers, and an empty network. */
  function Start(configs: map<byte, Config>, firsts: map<byte, u16>): Net
    requires configs.Keys == firsts.Keys
  {
    Net(map n | n in configs :: Node(configs[n], Initial(firsts[n]), firsts[n], 0, [], {}), {})
  }

  /** hs may happen, one after the other, and leads from net to net'. */
  ghost predicate Leads(net: Net, hs: seq<Happening>, net': Net)
    decreases |hs|
  {
    if hs == [] then net' == net else MayHappen(net, hs[0]) && Leads(Next(net, hs[0]), hs[1..], net')
  }

  lemma {:induction false} StartInv(configs: map<byte, Config>, firsts: map<byte, u16>)
    requires configs.Keys == firsts.Keys && forall n :: n in configs ==> configs[n].addr == n
    ensures Inv(Start(configs, firsts))
  {}

  lemma {:induction false} RunInv(net: Net, hs: seq<Happening>, net': Net)
    requires Inv(net) && Leads(net, hs, net')
    ensures Inv(net')
    decreases |hs|
  {
    if hs != [] {
      var h := hs[0];
      CallIsExplained(net, h);
      InvStep(net, h, MoveOf(net.nodes[h.node], h.input));
      RunInv(Next(net, h), hs[1..], net');
    }
  }

  /** In every reachable state, an ACK that arrives can only clear a pending frame that its destination has delivered,
      however the network lost, duplicated, delayed or reordered frames, and however many numbers other nodes took. */
  lemma {:induction false} AcksAreSound(configs: map<byte, Config>, firsts: map<byte, u16>, hs: seq<Happening>,
          net: Net, h: Happening)
    requires configs.Keys == firsts.Keys && forall n :: n in configs ==> configs[n].addr == n
    requires Leads(Start(configs, firsts), hs, net) && MayHappen(net, h) && BeforeWrap(net, h.node)
    requires AckClears(net.nodes[h.node].config, net.nodes[h.node].state, h.input) < |net.nodes[h.node].state.pending|
    ensures var i := AckClears(net.nodes[h.node].config, net.nodes[h.node].state, h.input);
            var f := net.nodes[h.node].state.pending[i].frame;
            HasDelivered(net, f.dst, f)
  {
    StartInv(configs, firsts);
    RunInv(Start(configs, firsts), hs, net);
    AckSound(net, h);
  }

  /** No silent loss: in every reachable state, every frame a reliable send accepted is still waiting for its ACK, has
      been reported to the caller as failed, or has been delivered by its destination. */
  lemma {:induction false} NoSilentLoss(configs: map<byte, Config>, firsts: map<byte, u16>, hs: seq<Happening>,
          net: Net, n: byte, f: Frame)
    requires configs.Keys == firsts.Keys && forall n :: n in configs ==> configs[n].addr == n
    requires Leads(Start(configs, firsts), hs, net)
    requires BeforeWrap(net, n) && f in net.nodes[n].accepted
    ensures IsPending(net.nodes[n], f) || Failed(f) in net.nodes[n].log || HasDelivered(net, f.dst, f)
  {
    StartInv(configs, firsts);
    RunInv(Start(configs, firsts), hs, net);
    assert Accounted(net, n, f);
  }
}
