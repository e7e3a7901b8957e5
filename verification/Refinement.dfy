/** The whole C endpoint against the whole Python endpoint: within stated limits the fixed tables, the wrapping
    clock and the unbounded dict and set make the same calls. */
module Refinement {
  import opened Bytes
  import opened Framing
  import opened Endpoint
  import opened PyEndpoint
  import opened Runs
  import opened Tables
  import opened AtMostOnce
  import opened ReceiveSimulation

  // ---------------------------------------------------------------------
  // The pending table and the pending dict.
  // ---------------------------------------------------------------------

  ghost predicate SameTimers(c: Config, pc: PyConfig) {
    SameNode(c, pc) && pc.timeout == Seconds(c.timeout) && pc.maxRetries == c.maxRetries
  }

  ghost predicate DistinctPending(ps: seq<Pending>) {
    forall i, j :: 0 <= i < j < |ps| && ps[i].inUse && ps[j].inUse ==> PendingKey(ps[i].frame) != PendingKey(ps[j].frame)
  }

  /** Slot and dict entry hold the same frame and count; both are due at the same true time. */
  ghost predicate Tracks(p: Pending, w: Waiting, due: nat) {
    p.inUse && p.frame == w.frame && p.retries == w.retries && p.deadline == Clock(due) && w.deadline == Seconds(due)
  }

  /** The slot is in the dict and due between two true times. */
  ghost predicate Tracked(p: Pending, d: map<Key, Waiting>, lo: nat, hi: nat) {
    PendingKey(p.frame) in d && exists due: nat :: lo <= due <= hi && Tracks(p, d[PendingKey(p.frame)], due)
  }

  ghost predicate SamePending(ps: seq<Pending>, d: map<Key, Waiting>, lo: nat, hi: nat) {
    && DistinctPending(ps)
    && (forall i :: 0 <= i < |ps| && ps[i].inUse ==> Tracked(ps[i], d, lo, hi))
    && (forall k :: k in d ==> FindPending(ps, k) < |ps|)
  }

  lemma {:induction false} FindPendingIs(ps: seq<Pending>, i: nat)
    requires DistinctPending(ps) && i < |ps| && ps[i].inUse
    ensures FindPending(ps, PendingKey(ps[i].frame)) == i
  {}

  ghost function PendingKeys(ps: seq<Pending>): set<Key> { set i | 0 <= i < |ps| && ps[i].inUse :: PendingKey(ps[i].frame) }

  lemma {:induction false} KeysPush(ps: seq<Pending>)
    requires ps != [] && DistinctPending(ps)
    ensures var n := |ps| - 1;
            if ps[n].inUse then PendingKey(ps[n].frame) !in PendingKeys(ps[..n]) &&
                                PendingKeys(ps) == PendingKeys(ps[..n]) + {PendingKey(ps[n].frame)}
            else PendingKeys(ps) == PendingKeys(ps[..n])
  {}

  lemma {:induction false} CountKeys(ps: seq<Pending>)
    requires DistinctPending(ps)
    ensures PendingCount(ps) == |PendingKeys(ps)|
  {
    if ps != [] {
      CountKeys(ps[..|ps| - 1]);
      KeysPush(ps);
    }
  }

  lemma {:induction false} CountFull(ps: seq<Pending>)
    requires forall i :: 0 <= i < |ps| ==> ps[i].inUse
    ensures PendingCount(ps) == |ps|
  {
    if ps != [] { CountFull(ps[..|ps| - 1]); }
  }

  /** pending_count agrees. */
  lemma {:induction false} SameCount(ps: seq<Pending>, d: map<Key, Waiting>, lo: nat, hi: nat)
    requires SamePending(ps, d, lo, hi)
    ensures PendingCount(ps) == |d|
  {
    CountKeys(ps);
    forall k | k in d ensures k in PendingKeys(ps) {
      var i := FindPending(ps, k);
      assert ps[i].inUse && PendingKey(ps[i].frame) == k;
    }
    forall i | 0 <= i < |ps| && ps[i].inUse ensures PendingKey(ps[i].frame) in d { assert Tracked(ps[i], d, lo, hi); }
    assert PendingKeys(ps) == d.Keys;
  }

  lemma {:induction false} SamePendingSend(ps: seq<Pending>, d: map<Key, Waiting>, lo: nat, hi: nat, p: Pending,
          w: Waiting, at: nat, due: nat)
    requires SamePending(ps, d, lo, hi) && Tracks(p, w, due) && lo <= due && hi <= due
    requires PendingKey(p.frame) !in d && FreePending(ps) < |ps|
    ensures SamePending(ps[FreePending(ps) := p], d[PendingKey(p.frame) := w], lo, due)
  {
    var j, key := FreePending(ps), PendingKey(p.frame);
    var ps', d' := ps[j := p], d[key := w];
    forall i | 0 <= i < |ps'| && ps'[i].inUse ensures Tracked(ps'[i], d', lo, due) {
      if i != j { assert Tracked(ps[i], d, lo, hi); }
    }
    forall i | 0 <= i < |ps| && ps[i].inUse ensures PendingKey(ps[i].frame) != key { assert Tracked(ps[i], d, lo, hi); }
    forall k | k in d' ensures FindPending(ps', k) < |ps'| {
      var i := if k == key then j else FindPending(ps, k);
      assert Waits(ps'[i], k);
    }
  }

  lemma {:induction false} TrackedWithout(p: Pending, d: map<Key, Waiting>, lo: nat, hi: nat, key: Key)
    requires Tracked(p, d, lo, hi) && PendingKey(p.frame) != key
    ensures Tracked(p, d - {key}, lo, hi)
  {
    var due: nat :| lo <= due <= hi && Tracks(p, d[PendingKey(p.frame)], due);
    assert Tracks(p, (d - {key})[PendingKey(p.frame)], due);
  }

  lemma {:induction false} SamePendingAck(ps: seq<Pending>, d: map<Key, Waiting>, lo: nat, hi: nat, key: Key)
    requires SamePending(ps, d, lo, hi)
    ensures SamePending(Release(ps, key), d - {key}, lo, hi)
  {
    var ps', d' := Release(ps, key), d - {key};
    forall i | 0 <= i < |ps'| && ps'[i].inUse ensures Tracked(ps'[i], d', lo, hi) {
      assert ps[i].inUse && Tracked(ps[i], d, lo, hi);
      FindPendingIs(ps, i);
      TrackedWithout(ps[i], d, lo, hi, key);
    }
    forall k | k in d' ensures FindPending(ps', k) < |ps'| {
      assert Waits(ps'[FindPending(ps, k)], k);
    }
  }

  /** One slot and its entry, in one tick. */
  lemma {:induction false} TickTracks(c: Config, pc: PyConfig, p: Pending, w: Waiting, due: nat, at: nat)
    requires SameTimers(c, pc) && Tracks(p, w, due) && -HALF_CLOCK <= at - due < HALF_CLOCK
    ensures SlotEvents(c, p, Clock(at)) == PyEntryEvents(pc, w, Seconds(at))
    ensures TickSlot(c, p, Clock(at)).inUse <==> !GivesUp(pc, w, Seconds(at))
    ensures !GivesUp(pc, w, Seconds(at)) ==>
              Tracks(TickSlot(c, p, Clock(at)), PyTickEntry(pc, w, Seconds(at)), if at >= due then at + c.timeout else due)
  {
    TimerAgreesIff(due, at);
    WrappedSum(at, c.timeout);
    assert Expired(w, Seconds(at)) <==> at >= due;
    assert Seconds(at) + Seconds(c.timeout) == Seconds(at + c.timeout);
  }

  lemma {:induction false} TickTracked(c: Config, pc: PyConfig, p: Pending, d: map<Key, Waiting>, lo: nat, hi: nat,
          at: nat)
    requires SameTimers(c, pc) && p.inUse && Tracked(p, d, lo, hi) && at - lo < HALF_CLOCK && hi - at <= HALF_CLOCK
    ensures SlotEvents(c, p, Clock(at)) == PyEntryEvents(pc, d[PendingKey(p.frame)], Seconds(at))
    ensures TickSlot(c, p, Clock(at)).inUse <==> !GivesUp(pc, d[PendingKey(p.frame)], Seconds(at))
    ensures TickSlot(c, p, Clock(at)).inUse && hi <= at + c.timeout ==>
              Tracked(TickSlot(c, p, Clock(at)), PyTickPending(pc, d, Seconds(at)), at, at + c.timeout)
  {
    var due: nat :| lo <= due <= hi && Tracks(p, d[PendingKey(p.frame)], due);
    TickTracks(c, pc, p, d[PendingKey(p.frame)], due, at);
  }

  lemma {:induction false} TickDistinct(c: Config, ps: seq<Pending>, now: u32)
    requires DistinctPending(ps)
    ensures DistinctPending(TickSlots(c, ps, now))
  {
    var ps' := TickSlots(c, ps, now);
    assert forall i :: 0 <= i < |ps| ==> ps'[i].frame == ps[i].frame && (ps'[i].inUse ==> ps[i].inUse);
  }

  lemma {:induction false} TickFinds(c: Config, pc: PyConfig, ps: seq<Pending>, d: map<Key, Waiting>, lo: nat,
          hi: nat, at: nat, k: Key)
    requires SameTimers(c, pc) && SamePending(ps, d, lo, hi) && k in d && !GivesUp(pc, d[k], Seconds(at))
    requires at - lo < HALF_CLOCK && hi - at <= HALF_CLOCK
    ensures FindPending(TickSlots(c, ps, Clock(at)), k) < |ps|
  {
    var i := FindPending(ps, k);
    TickTracked(c, pc, ps[i], d, lo, hi, at);
    assert Waits(TickSlots(c, ps, Clock(at))[i], k);
  }

  lemma {:induction false} SamePendingTick(c: Config, pc: PyConfig, ps: seq<Pending>, d: map<Key, Waiting>, lo: nat,
          hi: nat, at: nat)
    requires SameTimers(c, pc) && SamePending(ps, d, lo, hi)
    requires at - lo < HALF_CLOCK && c.timeout <= HALF_CLOCK && hi <= at + c.timeout
    ensures SamePending(TickSlots(c, ps, Clock(at)), PyTickPending(pc, d, Seconds(at)), at, at + c.timeout)
  {
    var ps', d' := TickSlots(c, ps, Clock(at)), PyTickPending(pc, d, Seconds(at));
    TickDistinct(c, ps, Clock(at));
    forall i | 0 <= i < |ps'| && ps'[i].inUse ensures Tracked(ps'[i], d', at, at + c.timeout) {
      assert ps'[i] == TickSlot(c, ps[i], Clock(at));
      assert Tracked(ps[i], d, lo, hi);
      TickTracked(c, pc, ps[i], d, lo, hi, at);
    }
    forall k | k in d' ensures FindPending(ps', k) < |ps'| {
      TickFinds(c, pc, ps, d, lo, hi, at, k);
    }
  }

  // ---------------------------------------------------------------------
  // The calls made by one tick: the same ones, C in slot order, Python in the order of the dict.
  // ---------------------------------------------------------------------

  /** The same calls, each made once, in some order. */
  ghost predicate SameCalls(a: seq<Event>, b: seq<Event>) {
    NoRepeats(a) && NoRepeats(b) && forall e :: e in a <==> e in b
  }

  lemma {:induction false} PyTickEventsMembers(c: PyConfig, d: map<Key, Waiting>, order: seq<Key>, now: real, e: Event)
    ensures e in PyTickEvents(c, d, order, now) <==> exists k :: k in order && k in d && e in PyEntryEvents(c, d[k], now)
  {
    if order != [] {
      var n := |order| - 1;
      PyTickEventsMembers(c, d, order[..n], now, e);
      assert order == order[..n] + [order[n]];
    }
  }

  lemma {:induction false} NoRepeatsAppend(a: seq<Event>, b: seq<Event>)
    requires NoRepeats(a) && |b| <= 1 && (b != [] ==> b[0] !in a)
    ensures NoRepeats(a + b)
  {}

  lemma {:induction false} TickEventsOnce(c: Config, ps: seq<Pending>, now: u32)
    requires DistinctPending(ps)
    ensures NoRepeats(TickEvents(c, ps, now))
  {
    if ps != [] {
      var n := |ps| - 1;
      var a, b := TickEvents(c, ps[..n], now), SlotEvents(c, ps[n], now);
      TickEventsOnce(c, ps[..n], now);
      if b != [] {
        TickEventsMembers(c, ps[..n], now, b[0]);
      }
      NoRepeatsAppend(a, b);
    }
  }

  lemma {:induction false} PyTickEventsOnce(c: PyConfig, d: map<Key, Waiting>, order: seq<Key>, now: real)
    requires NoRepeats(order) && forall k :: k in d ==> PendingKey(d[k].frame) == k
    ensures NoRepeats(PyTickEvents(c, d, order, now))
  {
    if order != [] {
      var n := |order| - 1;
      var a, b := PyTickEvents(c, d, order[..n], now), if order[n] in d then PyEntryEvents(c, d[order[n]], now) else [];
      PyTickEventsOnce(c, d, order[..n], now);
      if b != [] {
        PyTickEventsMembers(c, d, order[..n], now, b[0]);
      }
      NoRepeatsAppend(a, b);
    }
  }

  lemma {:induction false} TickSameCalls(c: Config, pc: PyConfig, s: State, p: PyState, lo: nat, hi: nat, at: nat)
    requires SameTimers(c, pc) && SamePending(s.pending, p.pending, lo, hi) && PyValid(p)
    requires at - lo < HALF_CLOCK && c.timeout <= HALF_CLOCK && hi <= at + c.timeout
    ensures SameCalls(TickEvents(c, s.pending, Clock(at)), PyTickEvents(pc, p.pending, p.order, Seconds(at)))
  {
    TickEventsOnce(c, s.pending, Clock(at));
    PyTickEventsOnce(pc, p.pending, p.order, Seconds(at));
    forall e ensures e in TickEvents(c, s.pending, Clock(at)) <==> e in PyTickEvents(pc, p.pending, p.order, Seconds(at)) {
      TickEventsMembers(c, s.pending, Clock(at), e);
      PyTickEventsMembers(pc, p.pending, p.order, Seconds(at), e);
      if i :| 0 <= i < |s.pending| && e in SlotEvents(c, s.pending[i], Clock(at)) {
        TickTracked(c, pc, s.pending[i], p.pending, lo, hi, at);
        assert PendingKey(s.pending[i].frame) in p.order;
      }
      if k :| k in p.order && k in p.pending && e in PyEntryEvents(pc, p.pending[k], Seconds(at)) {
        var i := FindPending(s.pending, k);
        TickTracked(c, pc, s.pending[i], p.pending, lo, hi, at);
      }
    }
  }

  // ---------------------------------------------------------------------
  // Whole runs.
  // ---------------------------------------------------------------------

  /** A reliable send finds a free slot, and its sequence number is not still in use towards its destination. */
  ghost predicate RoomToSend(pc: PyConfig, p: PyState, x: Input) {
    x.action.DoSend? && x.action.reliable ==>
      |p.pending| < PENDING_MAX && Key(x.action.dst, pc.session, p.nextSeq) !in p.pending
  }

  ghost predicate AlwaysRoom(pc: PyConfig, firstSeq: u16, xs: seq<Input>) {
    xs != [] ==>
      AlwaysRoom(pc, firstSeq, xs[..|xs| - 1]) &&
      RoomToSend(pc, PyAfter(pc, PyInitial(firstSeq), xs[..|xs| - 1]), xs[|xs| - 1])
  }

  /** No send is refused for its length. */
  ghost predicate Short(x: Input) { x.action.DoSend? ==> |x.action.payload| <= PAYLOAD_MAX }

  /** The limits of the C endpoint's sends and timers, all of them visible to its callers or in the Python endpoint.
      The tables of sources and of seen keys are not among them. */
  ghost predicate WithinLimits(c: Config, pc: PyConfig, firstSeq: u16, start: nat, xs: seq<Input>) {
    && (forall x :: x in xs ==> Short(x)) && AlwaysRoom(pc, firstSeq, xs)
    && c.timeout <= HALF_CLOCK && InTime(start, xs)
  }

  ghost predicate SameSends(s: State, p: PyState, lo: nat, hi: nat) {
    |s.pending| == PENDING_MAX && SamePending(s.pending, p.pending, lo, hi)
  }

  lemma {:induction false} PyAfterValid(pc: PyConfig, firstSeq: u16, xs: seq<Input>)
    ensures PyValid(PyAfter(pc, PyInitial(firstSeq), xs))
  {
    if xs != [] {
      var ys, x := xs[..|xs| - 1], xs[|xs| - 1];
      PyAfterValid(pc, firstSeq, ys);
      var p := PyAfter(pc, PyInitial(firstSeq), ys);
      match x.action
      case DoSend(dst, family, kind, flags, reliable, payload) =>
        PySendValid(pc, p, dst, family, kind, payload, reliable, flags, Seconds(x.at));
      case DoReceive(f) => PyReceiveValid(pc, p, f);
      case DoTick => PyTickValid(pc, p, Seconds(x.at));
    }
  }

  lemma {:induction false} SamePendingLater(ps: seq<Pending>, d: map<Key, Waiting>, lo: nat, hi: nat, hi': nat)
    requires SamePending(ps, d, lo, hi) && hi <= hi'
    ensures SamePending(ps, d, lo, hi')
  {
    forall i | 0 <= i < |ps| && ps[i].inUse ensures Tracked(ps[i], d, lo, hi') { assert Tracked(ps[i], d, lo, hi); }
  }

  lemma {:induction false} RoomInTable(ps: seq<Pending>, d: map<Key, Waiting>, lo: nat, hi: nat)
    requires SamePending(ps, d, lo, hi) && |d| < |ps|
    ensures FreePending(ps) < |ps|
  {
    SameCount(ps, d, lo, hi);
    if FreePending(ps) == |ps| { CountFull(ps); }
  }

  lemma {:induction false} NewPending(c: Config, pc: PyConfig, ps: seq<Pending>, d: map<Key, Waiting>, lo: nat,
          hi: nat, f: Frame, at: nat)
    requires SameTimers(c, pc) && SamePending(ps, d, lo, hi) && lo <= at && hi <= at + c.timeout
    requires |d| < |ps| && PendingKey(f) !in d
    ensures FreePending(ps) < |ps|
    ensures SamePending(ps[FreePending(ps) := Pending(true, Deadline(c, Clock(at)), 0, f)],
                        d[PendingKey(f) := Waiting(f, Seconds(at) + pc.timeout, 0)], lo, at + c.timeout)
  {
    RoomInTable(ps, d, lo, hi);
    WrappedSum(at, c.timeout);
    assert Seconds(at) + Seconds(c.timeout) == Seconds(at + c.timeout);
    SamePendingSend(ps, d, lo, hi, Pending(true, Deadline(c, Clock(at)), 0, f), Waiting(f, Seconds(at + c.timeout), 0),
                    at, at + c.timeout);
  }

  /** A send that finds room, on either side. */
  lemma {:induction false} SendParts(c: Config, s: State, x: Input, f: Frame)
    requires Valid(s) && x.action.DoSend? && |x.action.payload| <= PAYLOAD_MAX
    requires var a := x.action; f == Outgoing(c, s.nextSeq, a.dst, a.family, a.kind, a.flags, a.reliable, a.payload)
    requires x.action.reliable ==> FreePending(s.pending) < |s.pending|
    ensures var m := Step(c, s, x);
            && m.outcome == Sends(Ok(s.nextSeq)) && m.events == [Sent(f)]
            && m.state.pending == if !x.action.reliable then s.pending
                                  else NewSlot(s.pending, Pending(true, Deadline(c, Clock(x.at)), 0, f))
  {}

  lemma {:induction false} PySendParts(c: Config, pc: PyConfig, p: PyState, x: Input, f: Frame)
    requires SameNode(c, pc) && x.action.DoSend?
    requires var a := x.action; f == Outgoing(c, p.nextSeq, a.dst, a.family, a.kind, a.flags, a.reliable, a.payload)
    ensures var q := PyStep(pc, p, x);
            && q.outcome == Sends(Ok(p.nextSeq)) && q.events == [Sent(f)]
            && q.state.pending == if !x.action.reliable then p.pending
                                  else p.pending[PendingKey(f) := Waiting(f, Seconds(x.at) + pc.timeout, 0)]
  {}

  lemma {:induction false} SendSameMoves(c: Config, pc: PyConfig, s: State, p: PyState, lo: nat, hi: nat, f: Frame,
          reliable: bool, at: nat, m: Move, q: PyMove)
    requires SameTimers(c, pc) && SameSends(s, p, lo, hi) && lo <= at && hi <= at + c.timeout
    requires reliable ==> |p.pending| < PENDING_MAX && PendingKey(f) !in p.pending
    requires m.state.pending == if !reliable then s.pending
                                else NewSlot(s.pending, Pending(true, Deadline(c, Clock(at)), 0, f))
    requires q.state.pending == if !reliable then p.pending
                                else p.pending[PendingKey(f) := Waiting(f, Seconds(at) + pc.timeout, 0)]
    ensures SameSends(m.state, q.state, lo, at + c.timeout)
  {
    if reliable {
      NewPending(c, pc, s.pending, p.pending, lo, hi, f, at);
    } else {
      SamePendingLater(s.pending, p.pending, lo, hi, at + c.timeout);
    }
  }

  function NewSlot(ps: seq<Pending>, p: Pending): seq<Pending> {
    if FreePending(ps) < |ps| then ps[FreePending(ps) := p] else ps
  }

  lemma {:induction false} SendSame(c: Config, pc: PyConfig, s: State, p: PyState, lo: nat, hi: nat, x: Input)
    requires SameTimers(c, pc) && SameSends(s, p, lo, hi) && s.nextSeq == p.nextSeq && Valid(s) && x.action.DoSend?
    requires |x.action.payload| <= PAYLOAD_MAX && RoomToSend(pc, p, x)
    requires lo <= x.at && hi <= x.at + c.timeout
    ensures var m, q := Step(c, s, x), PyStep(pc, p, x);
            SameSends(m.state, q.state, lo, x.at + c.timeout) && m.outcome == q.outcome && m.events == q.events
  {
    var a := x.action;
    var f := Outgoing(c, s.nextSeq, a.dst, a.family, a.kind, a.flags, a.reliable, a.payload);
    if a.reliable { RoomInTable(s.pending, p.pending, lo, hi); }
    SendParts(c, s, x, f);
    PySendParts(c, pc, p, x, f);
    SendSameMoves(c, pc, s, p, lo, hi, f, a.reliable, x.at, Step(c, s, x), PyStep(pc, p, x));
  }

  lemma {:induction false} ReceiveSame(c: Config, pc: PyConfig, s: State, p: PyState, lo: nat, hi: nat, x: Input)
    requires SameTimers(c, pc) && SameSends(s, p, lo, hi) && Valid(s) && x.action.DoReceive?
    requires hi <= x.at + c.timeout
    ensures var m, q := Step(c, s, x), PyStep(pc, p, x);
            && SameSends(m.state, q.state, lo, x.at + c.timeout)
            && (!Arrives(c.addr, x) ==> m.outcome == q.outcome && m.events == q.events)
  {
    var f := x.action.frame;
    if f.dst == c.addr && IsAck(f) && |f.payload| == 2 {
      SamePendingAck(s.pending, p.pending, lo, hi, Key(f.src, c.session, Join(f.payload[0], f.payload[1])));
    }
    SamePendingLater(Step(c, s, x).state.pending, PyStep(pc, p, x).state.pending, lo, hi, x.at + c.timeout);
  }

  lemma {:induction false} TickSame(c: Config, pc: PyConfig, s: State, p: PyState, lo: nat, hi: nat, x: Input)
    requires SameTimers(c, pc) && SameSends(s, p, lo, hi) && Valid(s) && PyValid(p) && x.action.DoTick?
    requires x.at - lo < HALF_CLOCK && c.timeout <= HALF_CLOCK && hi <= x.at + c.timeout
    ensures var m, q := Step(c, s, x), PyStep(pc, p, x);
            && SameSends(m.state, q.state, x.at, x.at + c.timeout)
            && m.outcome == q.outcome && SameCalls(m.events, q.events)
  {
    SamePendingTick(c, pc, s.pending, p.pending, lo, hi, x.at);
    TickSameCalls(c, pc, s, p, lo, hi, x.at);
  }

  /** Any call: the tables stay alike, and except for arrivals, compared elsewhere, so do the callbacks. */
  lemma {:induction false} StepSame(c: Config, pc: PyConfig, s: State, p: PyState, lo: nat, hi: nat, x: Input)
    requires SameTimers(c, pc) && SameSends(s, p, lo, hi) && s.nextSeq == p.nextSeq && Valid(s) && PyValid(p)
    requires x.action.DoSend? ==> |x.action.payload| <= PAYLOAD_MAX
    requires RoomToSend(pc, p, x) && lo <= x.at && hi <= x.at + c.timeout && c.timeout <= HALF_CLOCK
    requires x.action.DoTick? ==> x.at - lo < HALF_CLOCK
    ensures var m, q := Step(c, s, x), PyStep(pc, p, x);
            && SameSends(m.state, q.state, if x.action.DoTick? then x.at else lo, x.at + c.timeout)
            && (!Arrives(c.addr, x) ==>
                  m.outcome == q.outcome &&
                  if x.action.DoTick? then SameCalls(m.events, q.events) else m.events == q.events)
  {
    match x.action
    case DoSend(_, _, _, _, _, _) => SendSame(c, pc, s, p, lo, hi, x);
    case DoReceive(_) => ReceiveSame(c, pc, s, p, lo, hi, x);
    case DoTick => TickSame(c, pc, s, p, lo, hi, x);
  }

  /** An arrival is acknowledged with this number, and delivered unless it is taken for a duplicate. */
  ghost predicate Answers(es: seq<Event>, outcome: Outcome, f: Frame, session: byte, seqno: u16) {
    var ack := Sent(AckOf(f, session, seqno));
    || (outcome == Receives(RxDuplicate) && es == [ack])
    || (outcome == Receives(RxDelivered) && es == [ack, Delivered(f)])
  }

  /** Both endpoints draw sequence numbers alike, and answer a reliable frame with the same ACK. */
  lemma {:induction false} StepNumbers(c: Config, pc: PyConfig, s: State, p: PyState, x: Input)
    requires SameNode(c, pc) && s.nextSeq == p.nextSeq && Valid(s) && Short(x)
    ensures Step(c, s, x).state.nextSeq == PyStep(pc, p, x).state.nextSeq
    ensures Arrives(c.addr, x) ==>
              && Answers(Step(c, s, x).events, Step(c, s, x).outcome, x.action.frame, c.session, s.nextSeq)
              && Answers(PyStep(pc, p, x).events, PyStep(pc, p, x).outcome, x.action.frame, c.session, s.nextSeq)
  {}

  lemma {:induction false} RunNumbers(c: Config, pc: PyConfig, firstSeq: u16, xs: seq<Input>)
    requires SameNode(c, pc) && forall x :: x in xs ==> Short(x)
    ensures After(c, Initial(firstSeq), xs).nextSeq == PyAfter(pc, PyInitial(firstSeq), xs).nextSeq
  {
    if xs != [] {
      var ys, x := xs[..|xs| - 1], xs[|xs| - 1];
      RunNumbers(c, pc, firstSeq, ys);
      StepNumbers(c, pc, After(c, Initial(firstSeq), ys), PyAfter(pc, PyInitial(firstSeq), ys), x);
    }
  }

  /** What the limits of a run say of its last call, and of the run before it. */
  lemma {:induction false} WithinLimitsLast(c: Config, pc: PyConfig, firstSeq: u16, start: nat, xs: seq<Input>)
    requires xs != [] && WithinLimits(c, pc, firstSeq, start, xs)
    ensures var ys, x := xs[..|xs| - 1], xs[|xs| - 1];
            && WithinLimits(c, pc, firstSeq, start, ys)
            && Short(x) && RoomToSend(pc, PyAfter(pc, PyInitial(firstSeq), ys), x)
            && LastAt(start, ys) <= x.at && (x.action.DoTick? ==> x.at - LastTick(start, ys) < HALF_CLOCK)
  {
    assert xs[|xs| - 1] in xs;
  }

  lemma {:induction false} RunSends(c: Config, pc: PyConfig, firstSeq: u16, start: nat, xs: seq<Input>)
    requires SameTimers(c, pc) && WithinLimits(c, pc, firstSeq, start, xs)
    ensures SameSends(After(c, Initial(firstSeq), xs), PyAfter(pc, PyInitial(firstSeq), xs), LastTick(start, xs),
                      LastAt(start, xs) + c.timeout)
    ensures LastTick(start, xs) <= LastAt(start, xs)
  {
    if xs != [] {
      var ys, x := xs[..|xs| - 1], xs[|xs| - 1];
      WithinLimitsLast(c, pc, firstSeq, start, xs);
      RunSends(c, pc, firstSeq, start, ys);
      RunNumbers(c, pc, firstSeq, ys);
      PyAfterValid(pc, firstSeq, ys);
      StepSame(c, pc, After(c, Initial(firstSeq), ys), PyAfter(pc, PyInitial(firstSeq), ys), LastTick(start, ys),
               LastAt(start, ys) + c.timeout, x);
    }
  }

  /** The same result and the same callbacks with the same frames, in another order only inside one tick. */
  ghost predicate SameCall(m: Move, q: PyMove, x: Input) {
    m.outcome == q.outcome && if x.action.DoTick? then SameCalls(m.events, q.events) else m.events == q.events
  }

  /** Within its limits the C endpoint sends, retransmits, gives up and acknowledges as the Python endpoint does, from
      however many sources and with however many keys frames come in: every call of every run that is not the arrival
      of a reliable frame returns the same and makes the same callbacks with the same frames; such an arrival is
      answered with the same ACK, and delivered or not; every call leaves the same number of frames pending and the
      same next sequence number. */
  lemma {:induction false} TablesSuffice(c: Config, pc: PyConfig, firstSeq: u16, start: nat, xs: seq<Input>)
    requires SameTimers(c, pc) && WithinLimits(c, pc, firstSeq, start, xs) && xs != []
    ensures var m, q, x := Last(c, Initial(firstSeq), xs), PyLast(pc, PyInitial(firstSeq), xs), xs[|xs| - 1];
            && (!Arrives(c.addr, x) ==> SameCall(m, q, x))
            && (Arrives(c.addr, x) ==>
                  exists seqno :: Answers(m.events, m.outcome, x.action.frame, c.session, seqno) &&
                                  Answers(q.events, q.outcome, x.action.frame, c.session, seqno))
            && PendingCount(m.state.pending) == |q.state.pending| && m.state.nextSeq == q.state.nextSeq
  {
    var ys, x := xs[..|xs| - 1], xs[|xs| - 1];
    var s, p := After(c, Initial(firstSeq), ys), PyAfter(pc, PyInitial(firstSeq), ys);
    WithinLimitsLast(c, pc, firstSeq, start, xs);
    RunSends(c, pc, firstSeq, start, ys);
    RunSends(c, pc, firstSeq, start, xs);
    RunNumbers(c, pc, firstSeq, ys);
    StepNumbers(c, pc, s, p, x);
    PyAfterValid(pc, firstSeq, ys);
    SameCount(Last(c, Initial(firstSeq), xs).state.pending, PyLast(pc, PyInitial(firstSeq), xs).state.pending,
              LastTick(start, xs), LastAt(start, xs) + c.timeout);
    StepSame(c, pc, s, p, LastTick(start, ys), LastAt(start, ys) + c.timeout, x);
  }

  /** With at most six reliable sources, and as long as Python has no more keys than the table has entries, every
      call is the same, arrivals included, and both know the same keys. */
  lemma {:induction false} TablesSufficeExactly(c: Config, pc: PyConfig, firstSeq: u16, peers: set<byte>, start: nat,
          xs: seq<Input>)
    requires SameTimers(c, pc) && WithinLimits(c, pc, firstSeq, start, xs) && xs != []
    requires |peers| <= SOURCES_MAX && (forall x :: x in xs ==> Within(c.addr, peers, x))
    requires NoEviction(pc, firstSeq, xs)
    ensures var m, q := Last(c, Initial(firstSeq), xs), PyLast(pc, PyInitial(firstSeq), xs);
            SameCall(m, q, xs[|xs| - 1]) && Live(m.state.table.seen) == q.state.seen
  {
    var ys, x := xs[..|xs| - 1], xs[|xs| - 1];
    NoEvictionBefore(pc, firstSeq, xs);
    RunEquals(c, pc, firstSeq, peers, ys);
    RunEquals(c, pc, firstSeq, peers, xs);
    if Arrives(c.addr, x) {
      assert Within(c.addr, peers, x);
      ArrivalEvents(c, After(c, Initial(firstSeq), ys), pc, PyAfter(pc, PyInitial(firstSeq), ys), peers,
                    x.action.frame);
    } else {
      TablesSuffice(c, pc, firstSeq, start, xs);
    }
  }

  /** A tick half a wrap late is taken for an early one: Python retransmits or gives up, C does nothing. */
  lemma {:induction false} LateTickMissed(c: Config, pc: PyConfig, p: Pending, w: Waiting, due: nat)
    requires SameTimers(c, pc) && Tracks(p, w, due)
    ensures SlotEvents(c, p, Clock(due + HALF_CLOCK)) == [] && PyEntryEvents(pc, w, Seconds(due + HALF_CLOCK)) != []
  {
    TimerAgreesIff(due, due + HALF_CLOCK);
  }
}
