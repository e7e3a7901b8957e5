/** The receive side of the C endpoint against the unbounded Python endpoint. */
module ReceiveSimulation {
  import opened Bytes
  import opened Framing
  import opened Endpoint
  import opened PyEndpoint
  import opened Runs
  import opened Tables
  import opened AtMostOnce

  ghost predicate SameNode(c: Config, p: PyConfig) { c.addr == p.addr && c.session == p.session }

  /** The C tables know no more keys than Python's set, and exactly Python's sessions. */
  ghost predicate Covers(t: Table, p: PyState, peers: set<byte>) {
    && ValidTable(t) && SessionsAgree(p) && Records(t.sources, p.sessions)
    && p.sessions.Keys <= peers && |peers| <= |t.sources| && Live(t.seen) <= p.seen
  }

  /** The C tables know exactly Python's keys. */
  ghost predicate Equals(t: Table, p: PyState, peers: set<byte>) {
    Covers(t, p, peers) && DistinctSeen(t.seen) && Live(t.seen) == p.seen
  }

  /** The source table and Python's map of sessions, after a frame. */
  lemma {:induction false} HeardSessions(t: Table, p: PyState, peers: set<byte>, f: Frame)
    requires Records(t.sources, p.sessions) && p.sessions.Keys <= peers && |peers| <= |t.sources| && f.src in peers
    ensures SessionChanged(t.sources, f.src, f.session) <==> f.src in p.sessions && p.sessions[f.src] != f.session
    ensures Records(NoteSession(t.sources, f.src, f.session), p.sessions[f.src := f.session])
  {
    if f.src in p.sessions {
      NoteKnownSource(t.sources, p.sessions, f.src, f.session);
    } else {
      RoomForSource(t.sources, p.sessions, peers, f.src);
      NoteNewSource(t.sources, p.sessions, f.src, f.session);
    }
  }

  lemma {:induction false} ResetParts(p: PyState, f: Frame)
    requires SessionsAgree(p)
    ensures SessionsAgree(Reset(p, f)) && Reset(p, f).sessions == p.sessions[f.src := f.session]
    ensures Reset(p, f).seen == if f.src in p.sessions && p.sessions[f.src] != f.session
                                then set k | k in p.seen && k.peer != f.src else p.seen
  {
    if f.src in p.sessions && p.sessions[f.src] == f.session {
      assert p.sessions[f.src := f.session] == p.sessions;
    }
  }

  lemma {:induction false} HeardCovers(t: Table, p: PyState, peers: set<byte>, f: Frame)
    requires Covers(t, p, peers) && f.src in peers
    ensures Covers(Heard(t, f.src, f.session), Reset(p, f), peers)
    ensures Equals(t, p, peers) ==> Equals(Heard(t, f.src, f.session), Reset(p, f), peers)
  {
    HeardSessions(t, p, peers, f);
    ResetParts(p, f);
    LiveDropSource(t.seen, f.src);
  }

  lemma {:induction false} RememberCovers(t: Table, p: PyState, peers: set<byte>, key: Key)
    requires Covers(t, p, peers) && key.peer in p.sessions && p.sessions[key.peer] == key.session && key !in p.seen
    ensures Covers(Remember(t, key), p.(seen := p.seen + {key}), peers)
    ensures Equals(t, p, peers) && |p.seen| < |t.seen| ==> Equals(Remember(t, key), p.(seen := p.seen + {key}), peers)
  {
    LiveRemember(t, key);
    if Equals(t, p, peers) && FreeSeen(t.seen) == |t.seen| { FullSeen(t.seen); }
  }

  /** C does what Python does, or delivers a frame that Python takes for a duplicate. */
  ghost predicate Same(r: Receiving, q: PyReceiving) { r.rx == q.rx && r.events == q.events }

  ghost predicate ForgotKey(r: Receiving, q: PyReceiving, f: Frame) {
    r.rx == RxDelivered && q.rx == RxDuplicate && r.events == q.events + [Delivered(f)]
  }

  /** A key that Python knows and C has forgotten. */
  lemma {:induction false} RelearnCovers(t: Table, p: PyState, peers: set<byte>, key: Key)
    requires Covers(t, p, peers) && key in p.seen
    ensures Covers(Remember(t, key), p, peers)
  {
    LiveRemember(t, key);
  }

  /** The tables after an arrival. */
  lemma {:induction false} ArrivalTables(c: Config, s: State, pc: PyConfig, p: PyState, peers: set<byte>, f: Frame)
    requires Covers(s.table, p, peers) && f.src in peers
    ensures Covers(ReceiveReliable(c, s, f).state.table, PyReceiveReliable(pc, p, f).state, peers)
    ensures Equals(s.table, p, peers) && |PyReceiveReliable(pc, p, f).state.seen| <= |s.table.seen| ==>
              Equals(ReceiveReliable(c, s, f).state.table, PyReceiveReliable(pc, p, f).state, peers)
  {
    var t, p1, key := Heard(s.table, f.src, f.session), Reset(p, f), SourceKey(f);
    HeardCovers(s.table, p, peers, f);
    ContainsIffLive(t.seen, key);
    if key !in p1.seen {
      RememberCovers(t, p1, peers, key);
      CoversIgnores(Remember(t, key), p1.(seen := p1.seen + {key}), PyReceiveReliable(pc, p, f).state, peers);
    } else {
      RelearnCovers(t, p1, peers, key);
      CoversIgnores(t, p1, PyReceiveReliable(pc, p, f).state, peers);
      CoversIgnores(Remember(t, key), p1, PyReceiveReliable(pc, p, f).state, peers);
    }
  }

  /** Only the seen keys and the sessions matter. */
  lemma {:induction false} CoversIgnores(t: Table, p: PyState, q: PyState, peers: set<byte>)
    requires p.seen == q.seen && p.sessions == q.sessions
    ensures Covers(t, p, peers) <==> Covers(t, q, peers)
    ensures Equals(t, p, peers) <==> Equals(t, q, peers)
  {}

  /** What an arrival calls: the same ACK with the same sequence number, and every delivery Python makes. */
  lemma {:induction false} ArrivalEvents(c: Config, s: State, pc: PyConfig, p: PyState, peers: set<byte>, f: Frame)
    requires SameNode(c, pc) && Covers(s.table, p, peers) && s.nextSeq == p.nextSeq && f.src in peers
    ensures var r, q := ReceiveReliable(c, s, f), PyReceiveReliable(pc, p, f);
            && r.state.nextSeq == q.state.nextSeq
            && (Same(r, q) || ForgotKey(r, q, f))
            && (Equals(s.table, p, peers) ==> Same(r, q))
  {
    HeardCovers(s.table, p, peers, f);
    ContainsIffLive(Heard(s.table, f.src, f.session).seen, SourceKey(f));
  }

  // ---------------------------------------------------------------------
  // Whole runs.
  // ---------------------------------------------------------------------

  /** Reliable frames for us come from these peers only, and no send is refused for its length. */
  ghost predicate Within(addr: byte, peers: set<byte>, x: Input) {
    && (Arrives(addr, x) ==> ArrivalKey(x).peer in peers)
    && (x.action.DoSend? ==> |x.action.payload| <= PAYLOAD_MAX)
  }

  /** Sends and ticks leave the receive side alone; both endpoints draw sequence numbers alike. */
  lemma {:induction false} OtherSteps(c: Config, s: State, pc: PyConfig, p: PyState, x: Input)
    requires Valid(s) && SameNode(c, pc) && !Arrives(c.addr, x)
    requires x.action.DoSend? ==> |x.action.payload| <= PAYLOAD_MAX
    ensures Step(c, s, x).state.table == s.table
    ensures var p' := PyStep(pc, p, x).state; p'.seen == p.seen && p'.sessions == p.sessions
    ensures s.nextSeq == p.nextSeq ==> Step(c, s, x).state.nextSeq == PyStep(pc, p, x).state.nextSeq
  {}

  lemma {:induction false} StepCovers(c: Config, s: State, pc: PyConfig, p: PyState, peers: set<byte>, x: Input)
    requires SameNode(c, pc) && Covers(s.table, p, peers) && s.nextSeq == p.nextSeq && Within(c.addr, peers, x)
    ensures Covers(Step(c, s, x).state.table, PyStep(pc, p, x).state, peers)
    ensures Step(c, s, x).state.nextSeq == PyStep(pc, p, x).state.nextSeq
    ensures Equals(s.table, p, peers) && |PyStep(pc, p, x).state.seen| <= |s.table.seen| ==>
              Equals(Step(c, s, x).state.table, PyStep(pc, p, x).state, peers)
  {
    if Arrives(c.addr, x) {
      ArrivalTables(c, s, pc, p, peers, x.action.frame);
      ArrivalEvents(c, s, pc, p, peers, x.action.frame);
    } else {
      OtherSteps(c, s, pc, p, x);
    }
  }

  lemma {:induction false} InitialCovers(firstSeq: u16, peers: set<byte>)
    requires |peers| <= SOURCES_MAX
    ensures Equals(Initial(firstSeq).table, PyInitial(firstSeq), peers)
  {
    assert Live(Initial(firstSeq).table.seen) == {};
  }

  lemma {:induction false} RunCovers(c: Config, pc: PyConfig, firstSeq: u16, peers: set<byte>, xs: seq<Input>)
    requires SameNode(c, pc) && |peers| <= SOURCES_MAX && forall x :: x in xs ==> Within(c.addr, peers, x)
    ensures var s, p := After(c, Initial(firstSeq), xs), PyAfter(pc, PyInitial(firstSeq), xs);
            Covers(s.table, p, peers) && s.nextSeq == p.nextSeq
  {
    if xs == [] {
      InitialCovers(firstSeq, peers);
    } else {
      var ys, x := xs[..|xs| - 1], xs[|xs| - 1];
      RunCovers(c, pc, firstSeq, peers, ys);
      StepCovers(c, After(c, Initial(firstSeq), ys), pc, PyAfter(pc, PyInitial(firstSeq), ys), peers, x);
    }
  }

  /** With at most as many reliable sources as the source table has slots, in every run and at every arrival: C sends
      the same ACK with the same sequence number as Python, and delivers whenever Python does. */
  lemma {:induction false} CDeliversWheneverPythonDoes(c: Config, pc: PyConfig, firstSeq: u16, peers: set<byte>,
          xs: seq<Input>)
    requires SameNode(c, pc) && |peers| <= SOURCES_MAX && forall x :: x in xs ==> Within(c.addr, peers, x)
    requires xs != [] && Arrives(c.addr, xs[|xs| - 1])
    ensures var m, q, f := Last(c, Initial(firstSeq), xs), PyLast(pc, PyInitial(firstSeq), xs), xs[|xs| - 1].action.frame;
            || (m.outcome == q.outcome && m.events == q.events)
            || (m.outcome == Receives(RxDelivered) && q.outcome == Receives(RxDuplicate) &&
                m.events == q.events + [Delivered(f)])
  {
    var ys, x := xs[..|xs| - 1], xs[|xs| - 1];
    RunCovers(c, pc, firstSeq, peers, ys);
    assert Within(c.addr, peers, x);
    ArrivalEvents(c, After(c, Initial(firstSeq), ys), pc, PyAfter(pc, PyInitial(firstSeq), ys), peers, x.action.frame);
  }

  /** Python never has more keys than fit the C table. */
  ghost predicate NoEviction(pc: PyConfig, firstSeq: u16, xs: seq<Input>) {
    forall n :: 0 <= n <= |xs| ==> |PyAfter(pc, PyInitial(firstSeq), xs[..n]).seen| <= SEEN_MAX
  }

  lemma {:induction false} RunEquals(c: Config, pc: PyConfig, firstSeq: u16, peers: set<byte>, xs: seq<Input>)
    requires SameNode(c, pc) && |peers| <= SOURCES_MAX && forall x :: x in xs ==> Within(c.addr, peers, x)
    requires NoEviction(pc, firstSeq, xs)
    ensures var s, p := After(c, Initial(firstSeq), xs), PyAfter(pc, PyInitial(firstSeq), xs);
            Equals(s.table, p, peers) && s.nextSeq == p.nextSeq && |s.table.seen| == SEEN_MAX
  {
    if xs == [] {
      InitialCovers(firstSeq, peers);
    } else {
      var ys, x := xs[..|xs| - 1], xs[|xs| - 1];
      NoEvictionBefore(pc, firstSeq, xs);
      RunEquals(c, pc, firstSeq, peers, ys);
      StepCovers(c, After(c, Initial(firstSeq), ys), pc, PyAfter(pc, PyInitial(firstSeq), ys), peers, x);
    }
  }

  lemma {:induction false} NoEvictionBefore(pc: PyConfig, firstSeq: u16, xs: seq<Input>)
    requires xs != [] && NoEviction(pc, firstSeq, xs)
    ensures NoEviction(pc, firstSeq, xs[..|xs| - 1]) && |PyAfter(pc, PyInitial(firstSeq), xs).seen| <= SEEN_MAX
  {
    assert xs[..|xs|] == xs;
    var ys := xs[..|xs| - 1];
    forall n | 0 <= n <= |ys| ensures |PyAfter(pc, PyInitial(firstSeq), ys[..n]).seen| <= SEEN_MAX {
      assert ys[..n] == xs[..n];
    }
  }

  // ---------------------------------------------------------------------
  // One source too many.
  // ---------------------------------------------------------------------

  function FirstFrames(srcs: seq<byte>, dst: byte): (xs: seq<Input>)
    ensures |xs| == |srcs|
    ensures forall i :: 0 <= i < |srcs| ==> xs[i] == Input(0, DoReceive(ReliableFrame(srcs[i], dst, 1)))
  {
    seq(|srcs|, i requires 0 <= i < |srcs| => Input(0, DoReceive(ReliableFrame(srcs[i], dst, 1))))
  }

  /** The table tracks these sources, in order, and the seen keys are theirs. */
  ghost predicate TracksOnly(t: Table, srcs: seq<byte>) {
    && |t.sources| == SOURCES_MAX && |t.seen| == SEEN_MAX && |srcs| <= SOURCES_MAX
    && (forall i :: 0 <= i < SOURCES_MAX ==> (t.sources[i].inUse <==> i < |srcs|))
    && (forall i :: 0 <= i < |srcs| ==> t.sources[i] == Source(true, srcs[i], 1))
    && (forall i :: 0 <= i < SEEN_MAX ==> (t.seen[i].inUse <==> i < |srcs|))
    && (forall i :: 0 <= i < |srcs| ==> t.seen[i].key.peer == srcs[i])
  }

  lemma {:induction false} TrackNext(t: Table, srcs: seq<byte>, src: byte, key: Key)
    requires ValidTable(t) && TracksOnly(t, srcs) && src !in srcs && |srcs| < SOURCES_MAX && key.peer == src
    ensures TracksOnly(Remember(Heard(t, src, 1), key), srcs + [src])
    ensures !Contains(Heard(t, src, 1).seen, key)
  {
    assert !t.sources[|srcs|].inUse && !t.seen[|srcs|].inUse;
    assert FindSource(t.sources, src) == SOURCES_MAX && FreeSource(t.sources) == |srcs|;
    assert FreeSeen(t.seen) == |srcs|;
  }

  lemma {:induction false} FirstFramesTracked(c: Config, firstSeq: u16, srcs: seq<byte>)
    requires |srcs| <= SOURCES_MAX && NoRepeats(srcs)
    ensures TracksOnly(After(c, Initial(firstSeq), FirstFrames(srcs, c.addr)).table, srcs)
  {
    var s0, xs := Initial(firstSeq), FirstFrames(srcs, c.addr);
    if srcs != [] {
      var n := |srcs| - 1;
      FirstFramesTracked(c, firstSeq, srcs[..n]);
      assert xs[..n] == FirstFrames(srcs[..n], c.addr);
      ReliableFrameIsReliable(srcs[n], c.addr, 1);
      TrackNext(After(c, s0, xs[..n]).table, srcs[..n], srcs[n], Key(srcs[n], 1, 0));
      assert srcs[..n] + [srcs[n]] == srcs;
    }
  }

  /** A source the full source table does not track. */
  ghost predicate Untracked(t: Table, src: byte) {
    forall i :: 0 <= i < |t.sources| ==> t.sources[i].inUse && t.sources[i].src != src
  }

  lemma {:induction false} UntrackedHeard(t: Table, src: byte, session: byte)
    requires Untracked(t, src)
    ensures Heard(t, src, session) == t
  {
    assert FindSource(t.sources, src) == FreeSource(t.sources) == |t.sources|;
  }

  /** The first i entries are used, none of them for this key. */
  ghost predicate RoomAt(seen: seq<Seen>, i: nat, key: Key) {
    i < |seen| && forall j :: 0 <= j < |seen| ==> (seen[j].inUse <==> j < i) && (j < i ==> seen[j].key != key)
  }

  lemma {:induction false} UntrackedArrives(c: Config, s: State, f: Frame, i: nat)
    requires Valid(s) && Untracked(s.table, f.src) && f.dst == c.addr && !IsAck(f) && IsReliable(f)
    requires RoomAt(s.table.seen, i, SourceKey(f))
    ensures Receive(c, s, f).state.table == s.table.(seen := s.table.seen[i := Seen(true, SourceKey(f))])
  {
    UntrackedHeard(s.table, f.src, f.session);
    assert !s.table.seen[i].inUse;
    assert FreeSeen(s.table.seen) == i;
  }

  /** An untracked source in sessions 1, 2 and 1: its keys outlive its sessions. */
  lemma {:induction false} UntrackedReturns(c: Config, s: State, s1: State, s2: State, src: byte, i: nat)
    requires Valid(s) && Untracked(s.table, src) && i + 1 < |s.table.seen|
    requires forall session :: RoomAt(s.table.seen, i, Key(src, session, 0))
    requires s1 == Receive(c, s, ReliableFrame(src, c.addr, 1)).state
    requires s2 == Receive(c, s1, ReliableFrame(src, c.addr, 2)).state
    ensures Receive(c, s2, ReliableFrame(src, c.addr, 1)).rx == RxDuplicate
  {
    var key1, key2 := Key(src, 1, 0), Key(src, 2, 0);
    ReliableFrameIsReliable(src, c.addr, 1);
    ReliableFrameIsReliable(src, c.addr, 2);
    UntrackedArrives(c, s, ReliableFrame(src, c.addr, 1), i);
    assert RoomAt(s.table.seen, i, key2);
    assert RoomAt(s1.table.seen, i + 1, key2);
    UntrackedArrives(c, s1, ReliableFrame(src, c.addr, 2), i + 1);
    UntrackedHeard(s2.table, src, 1);
    assert s2.table.seen[i] == Seen(true, key1);
  }

  lemma {:induction false} NotYetSeen(t: Table, srcs: seq<byte>, src: byte)
    requires TracksOnly(t, srcs) && |srcs| == SOURCES_MAX && src !in srcs
    ensures Untracked(t, src) && forall session :: RoomAt(t.seen, |srcs|, Key(src, session, 0))
  {
    forall session ensures RoomAt(t.seen, |srcs|, Key(src, session, 0)) {
      assert forall j :: 0 <= j < |srcs| ==> t.seen[j].key.peer == srcs[j];
    }
  }

  /** Seven sources are too many, whichever they are: after one frame from each of six, a seventh finds the source
      table full and is never tracked. When it comes back to a session after another one, C takes for a duplicate what
      Python delivers. */
  lemma {:induction false} UntrackedSourceDiverges(c: Config, pc: PyConfig, firstSeq: u16, srcs: seq<byte>, src: byte)
    requires SameNode(c, pc) && |srcs| == SOURCES_MAX && NoRepeats(srcs) && src !in srcs
    ensures var xs := FirstFrames(srcs, c.addr) + ThereAndBack(src, c.addr);
            && Last(c, Initial(firstSeq), xs).outcome == Receives(RxDuplicate)
            && PyLast(pc, PyInitial(firstSeq), xs).outcome == Receives(RxDelivered)
  {
    var s0, fs := Initial(firstSeq), FirstFrames(srcs, c.addr);
    var xs := fs + ThereAndBack(src, c.addr);
    var n := |srcs|;
    FirstFramesTracked(c, firstSeq, srcs);
    NotYetSeen(After(c, s0, fs).table, srcs, src);
    assert xs[..n] == fs && xs[..n + 1][..n] == xs[..n] && xs[..n + 2][..n + 1] == xs[..n + 1];
    assert xs[..|xs| - 1] == xs[..n + 2];
    var s1, s2 := After(c, s0, xs[..n + 1]), After(c, s0, xs[..n + 2]);
    UntrackedReturns(c, After(c, s0, fs), s1, s2, src, n);
    ReliableFrameIsReliable(src, c.addr, 1);
    ReliableFrameIsReliable(src, c.addr, 2);
    ReturnDelivers(pc, firstSeq, xs, n + 1, n + 2, Key(src, 1, 0));
    assert xs[..n + 3] == xs;
  }
}
