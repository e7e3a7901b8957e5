/** What becomes of every reliable frame the C endpoint accepts, over whole runs. */
module Lifecycle {
  import opened Bytes
  import opened Framing
  import opened Endpoint
  import opened Runs

  // ---------------------------------------------------------------------
  // Conservation: counting calls and slots.
  // ---------------------------------------------------------------------

  predicate Accepts(m: Move, x: Input) { x.action.DoSend? && x.action.reliable && m.outcome.Sends? && m.outcome.sent.Ok? }

  /** Reliable sends that returned ARC_OK. */
  function Accepted(c: Config, s: State, xs: seq<Input>): nat
    requires Valid(s)
  {
    if xs == [] then 0
    else Accepted(c, s, xs[..|xs| - 1]) + if Accepts(Last(c, s, xs), xs[|xs| - 1]) then 1 else 0
  }

  /** Slots cleared by an arriving ACK. */
  function Acked(c: Config, s: State, xs: seq<Input>): nat
    requires Valid(s)
  {
    if xs == [] then 0
    else
      var ys, x := xs[..|xs| - 1], xs[|xs| - 1];
      Acked(c, s, ys) + if AckClears(c, After(c, s, ys), x) < |After(c, s, ys).pending| then 1 else 0
  }

  /** The slot an input clears as an ACK, or the table size. */
  function AckClears(c: Config, s: State, x: Input): (i: nat)
    ensures i <= |s.pending|
  {
    if x.action.DoReceive? && x.action.frame.dst == c.addr && IsAck(x.action.frame) && |x.action.frame.payload| == 2 then
      var f := x.action.frame;
      FindPending(s.pending, Key(f.src, c.session, Join(f.payload[0], f.payload[1])))
    else |s.pending|
  }

  function CountFailed(es: seq<Event>): nat {
    if es == [] then 0 else CountFailed(es[..|es| - 1]) + if es[|es| - 1].Failed? then 1 else 0
  }

  /** Calls of fail_fn. */
  function FailCalls(c: Config, s: State, xs: seq<Input>): nat
    requires Valid(s)
  {
    if xs == [] then 0 else FailCalls(c, s, xs[..|xs| - 1]) + CountFailed(Last(c, s, xs).events)
  }

  lemma {:induction false} CountUpdate(ps: seq<Pending>, i: nat, p: Pending)
    requires i < |ps|
    ensures PendingCount(ps[i := p]) + (if ps[i].inUse then 1 else 0) == PendingCount(ps) + (if p.inUse then 1 else 0)
  {
    var n, qs := |ps| - 1, ps[i := p];
    if i < n {
      assert qs[..n] == ps[..n][i := p];
      CountUpdate(ps[..n], i, p);
    } else {
      assert qs[..n] == ps[..n];
    }
  }

  lemma {:induction false} CountFailedAppend(a: seq<Event>, b: seq<Event>)
    requires |b| <= 1
    ensures CountFailed(a + b) == CountFailed(a) + if b != [] && b[0].Failed? then 1 else 0
  {
    if b == [] { assert a + b == a; } else { assert (a + b)[..|a|] == a; }
  }

  /** A tick frees one slot for each call of fail_fn. */
  lemma {:induction false} TickCounts(c: Config, ps: seq<Pending>, now: u32)
    ensures PendingCount(TickSlots(c, ps, now)) + CountFailed(TickEvents(c, ps, now)) == PendingCount(ps)
  {
    if ps != [] {
      var n := |ps| - 1;
      assert TickSlots(c, ps, now)[..n] == TickSlots(c, ps[..n], now);
      TickCounts(c, ps[..n], now);
      CountFailedAppend(TickEvents(c, ps[..n], now), SlotEvents(c, ps[n], now));
    }
  }

  lemma {:induction false} SendCounts(c: Config, s: State, x: Input)
    requires Valid(s) && x.action.DoSend?
    ensures var m := Step(c, s, x);
            && PendingCount(m.state.pending) == PendingCount(s.pending) + (if Accepts(m, x) then 1 else 0)
            && CountFailed(m.events) == 0
  {
    var i := FreePending(s.pending);
    if i < |s.pending| && x.action.reliable && |x.action.payload| <= PAYLOAD_MAX {
      CountUpdate(s.pending, i, Step(c, s, x).state.pending[i]);
    }
    CountFailedAppend([], Step(c, s, x).events);
    assert [] + Step(c, s, x).events == Step(c, s, x).events;
  }

  lemma {:induction false} ReceiveCounts(c: Config, s: State, x: Input)
    requires Valid(s) && x.action.DoReceive?
    ensures var m := Step(c, s, x);
            && PendingCount(m.state.pending) + (if AckClears(c, s, x) < |s.pending| then 1 else 0) == PendingCount(s.pending)
            && CountFailed(m.events) == 0
  {
    var i := AckClears(c, s, x);
    if i < |s.pending| {
      CountUpdate(s.pending, i, s.pending[i].(inUse := false));
    }
    NoFailedIn(Step(c, s, x).events);
  }

  lemma {:induction false} NoFailedIn(es: seq<Event>)
    requires forall e :: e in es ==> !e.Failed?
    ensures CountFailed(es) == 0
  {
    if es != [] { NoFailedIn(es[..|es| - 1]); }
  }

  lemma {:induction false} InitialCount(firstSeq: u16, n: nat)
    requires n <= PENDING_MAX
    ensures PendingCount(Initial(firstSeq).pending[..n]) == 0
  {
    if n > 0 {
      assert Initial(firstSeq).pending[..n][..n - 1] == Initial(firstSeq).pending[..n - 1];
      InitialCount(firstSeq, n - 1);
    }
  }

  /** Conservation: in every run, every accepted reliable send has been acknowledged, has been reported as failed, or
      still occupies a slot. */
  lemma {:induction false} Conservation(c: Config, firstSeq: u16, xs: seq<Input>)
    ensures var s0 := Initial(firstSeq);
            Accepted(c, s0, xs) == Acked(c, s0, xs) + FailCalls(c, s0, xs) + PendingCount(After(c, s0, xs).pending)
  {
    var s0 := Initial(firstSeq);
    if xs == [] {
      InitialCount(firstSeq, PENDING_MAX);
      assert s0.pending[..PENDING_MAX] == s0.pending;
    } else {
      var ys, x := xs[..|xs| - 1], xs[|xs| - 1];
      var s := After(c, s0, ys);
      Conservation(c, firstSeq, ys);
      match x.action
      case DoSend(_, _, _, _, _, _) => SendCounts(c, s, x);
      case DoReceive(_) => ReceiveCounts(c, s, x);
      case DoTick => TickCounts(c, s.pending, Clock(x.at));
    }
  }

  // ---------------------------------------------------------------------
  // The retry budget.
  // ---------------------------------------------------------------------

  predicate RetriesBounded(c: Config, ps: seq<Pending>) {
    forall i :: 0 <= i < |ps| && ps[i].inUse ==> ps[i].retries <= c.maxRetries
  }

  /** Callbacks the timers can still make for what is pending. */
  function Budget(c: Config, ps: seq<Pending>): nat
    requires RetriesBounded(c, ps)
  {
    if ps == [] then 0
    else
      var p := ps[|ps| - 1];
      Budget(c, ps[..|ps| - 1]) + if p.inUse then c.maxRetries - p.retries + 1 else 0
  }

  /** Each callback of a tick uses up one unit of the budget. */
  lemma {:induction false} TickSpends(c: Config, ps: seq<Pending>, now: u32)
    requires RetriesBounded(c, ps)
    ensures RetriesBounded(c, TickSlots(c, ps, now))
    ensures Budget(c, TickSlots(c, ps, now)) + |TickEvents(c, ps, now)| == Budget(c, ps)
  {
    if ps != [] {
      var n := |ps| - 1;
      assert TickSlots(c, ps, now)[..n] == TickSlots(c, ps[..n], now);
      TickSpends(c, ps[..n], now);
      assert RetriesBounded(c, TickSlots(c, ps, now)) by {
        forall i | 0 <= i < |ps| && TickSlot(c, ps[i], now).inUse
          ensures TickSlot(c, ps[i], now).retries <= c.maxRetries
        {
          assert ps[i].inUse;
        }
      }
    }
  }

  lemma {:induction false} BudgetRelease(c: Config, ps: seq<Pending>, i: nat)
    requires RetriesBounded(c, ps) && i < |ps|
    ensures RetriesBounded(c, ps[i := ps[i].(inUse := false)])
    ensures Budget(c, ps[i := ps[i].(inUse := false)]) <= Budget(c, ps)
  {
    var n, qs := |ps| - 1, ps[i := ps[i].(inUse := false)];
    if i < n {
      assert qs[..n] == ps[..n][i := ps[..n][i].(inUse := false)];
      BudgetRelease(c, ps[..n], i);
    } else {
      assert qs[..n] == ps[..n];
    }
  }

  /** Callbacks made by the ticks of a run. */
  function TickCalls(c: Config, s: State, xs: seq<Input>): nat
    requires Valid(s)
  {
    if xs == [] then 0
    else TickCalls(c, s, xs[..|xs| - 1]) + if xs[|xs| - 1].action.DoTick? then |Last(c, s, xs).events| else 0
  }

  predicate SendsReliably(x: Input) { x.action.DoSend? && x.action.reliable }

  lemma {:induction false} StepBudget(c: Config, s: State, x: Input)
    requires Valid(s) && RetriesBounded(c, s.pending) && !SendsReliably(x)
    ensures RetriesBounded(c, Step(c, s, x).state.pending)
    ensures Budget(c, Step(c, s, x).state.pending) +
            (if x.action.DoTick? then |Step(c, s, x).events| else 0) <= Budget(c, s.pending)
  {
    match x.action
    case DoSend(_, _, _, _, _, _) =>
    case DoReceive(_) =>
      var i := AckClears(c, s, x);
      if i < |s.pending| { BudgetRelease(c, s.pending, i); }
    case DoTick => TickSpends(c, s.pending, Clock(x.at));
  }

  /** Retries end: once no more reliable sends come, all ticks together, however many and however late, make no more
      callbacks than the budget of that moment. */
  lemma {:induction false} RetriesEnd(c: Config, s: State, xs: seq<Input>)
    requires Valid(s) && RetriesBounded(c, s.pending) && forall x :: x in xs ==> !SendsReliably(x)
    ensures RetriesBounded(c, After(c, s, xs).pending)
    ensures TickCalls(c, s, xs) + Budget(c, After(c, s, xs).pending) <= Budget(c, s.pending)
  {
    if xs != [] {
      var ys, x := xs[..|xs| - 1], xs[|xs| - 1];
      RetriesEnd(c, s, ys);
      StepBudget(c, After(c, s, ys), x);
    }
  }
}
