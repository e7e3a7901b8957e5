/** The history of every reliable frame the C endpoint accepts: when it was emitted and what ended it. */
module Tickets {
  import opened Bytes
  import opened Framing
  import opened Endpoint
  import opened Runs
  import opened Lifecycle

  datatype Fate = Open | Acknowledged | Abandoned(at: nat)

  /** An accepted reliable send: its frame, the slot it was given, the true times of its emissions, and its fate. */
  datatype Ticket = Ticket(frame: Frame, slot: nat, emitted: seq<nat>, fate: Fate)

  /** What the callbacks of a tick mean for the ticket in a slot. */
  function TickTicket(c: Config, ps: seq<Pending>, t: Ticket, at: nat): Ticket {
    if t.fate.Open? && t.slot < |ps| then
      var es := SlotEvents(c, ps[t.slot], Clock(at));
      if es == [] then t
      else if es[0].Failed? then t.(fate := Abandoned(at))
      else t.(emitted := t.emitted + [at])
    else t
  }

  function AckTicket(i: nat, t: Ticket): Ticket { if t.fate.Open? && t.slot == i then t.(fate := Acknowledged) else t }

  /** The tickets after one call. */
  function Book(c: Config, s: State, ts: seq<Ticket>, x: Input): seq<Ticket>
    requires Valid(s)
  {
    match x.action
    case DoSend(dst, family, kind, flags, reliable, payload) =>
      if !Accepts(Step(c, s, x), x) then ts
      else
        var f := Outgoing(c, s.nextSeq, dst, family, kind, flags, true, payload);
        ts + [Ticket(f, FreePending(s.pending), [x.at], Open)]
    case DoReceive(_) => seq(|ts|, k requires 0 <= k < |ts| => AckTicket(AckClears(c, s, x), ts[k]))
    case DoTick => seq(|ts|, k requires 0 <= k < |ts| => TickTicket(c, s.pending, ts[k], x.at))
  }

  function Booked(c: Config, s: State, xs: seq<Input>): seq<Ticket>
    requires Valid(s)
  {
    if xs == [] then []
    else Book(c, After(c, s, xs[..|xs| - 1]), Booked(c, s, xs[..|xs| - 1]), xs[|xs| - 1])
  }

  // ---------------------------------------------------------------------
  // Tickets and slots.
  // ---------------------------------------------------------------------

  /** An open ticket and its slot. */
  ghost predicate Holds(c: Config, p: Pending, t: Ticket) {
    && p.inUse && p.frame == t.frame && t.emitted != [] && |t.emitted| == p.retries + 1
    && p.deadline == Clock(t.emitted[|t.emitted| - 1] + c.timeout)
  }

  /** Every ticket was emitted at most 1 + max_retries times, an abandoned one exactly so often. */
  ghost predicate Counted(c: Config, t: Ticket) {
    1 <= |t.emitted| <= c.maxRetries + 1 && (t.fate.Abandoned? ==> |t.emitted| == c.maxRetries + 1)
  }

  /** Open tickets and used slots correspond one to one. */
  ghost predicate Consistent(c: Config, ps: seq<Pending>, ts: seq<Ticket>) {
    && (forall k :: 0 <= k < |ts| ==> Counted(c, ts[k]))
    && (forall k :: 0 <= k < |ts| && ts[k].fate.Open? ==> ts[k].slot < |ps| && Holds(c, ps[ts[k].slot], ts[k]))
    && (forall j, k :: 0 <= j < k < |ts| && ts[j].fate.Open? && ts[k].fate.Open? ==> ts[j].slot != ts[k].slot)
    && (forall i :: 0 <= i < |ps| && ps[i].inUse ==> exists k: nat :: HasSlot(ts, k, i))
  }

  predicate HasSlot(ts: seq<Ticket>, k: nat, i: nat) { k < |ts| && ts[k].fate.Open? && ts[k].slot == i }

  lemma {:induction false} SendConsistent(c: Config, ps: seq<Pending>, ts: seq<Ticket>, i: nat, p: Pending, t: Ticket)
    requires Consistent(c, ps, ts) && i < |ps| && !ps[i].inUse
    requires t.fate.Open? && t.slot == i && Holds(c, p, t) && Counted(c, t)
    ensures Consistent(c, ps[i := p], ts + [t])
  {
    var ps', ts' := ps[i := p], ts + [t];
    forall j | 0 <= j < |ps'| && ps'[j].inUse ensures exists k: nat :: HasSlot(ts', k, j) {
      if j == i {
        assert HasSlot(ts', |ts|, j);
      } else {
        var k: nat :| HasSlot(ts, k, j);
        assert HasSlot(ts', k, j);
      }
    }
  }

  lemma {:induction false} AckConsistent(c: Config, ps: seq<Pending>, ts: seq<Ticket>, ts': seq<Ticket>, i: nat)
    requires Consistent(c, ps, ts) && i < |ps| && |ts'| == |ts|
    requires forall k :: 0 <= k < |ts| ==> ts'[k] == AckTicket(i, ts[k])
    ensures Consistent(c, ps[i := ps[i].(inUse := false)], ts')
  {
    var ps' := ps[i := ps[i].(inUse := false)];
    forall k | 0 <= k < |ts'| ensures Counted(c, ts'[k]) { assert Counted(c, ts[k]); }
    forall j | 0 <= j < |ps'| && ps'[j].inUse ensures exists k: nat :: HasSlot(ts', k, j) {
      var k: nat :| HasSlot(ts, k, j);
      assert HasSlot(ts', k, j);
    }
  }

  lemma {:induction false} TickTicketHolds(c: Config, ps: seq<Pending>, t: Ticket, at: nat)
    requires Counted(c, t) && t.fate.Open? && t.slot < |ps| && Holds(c, ps[t.slot], t)
    ensures var t', p' := TickTicket(c, ps, t, at), TickSlot(c, ps[t.slot], Clock(at));
            && Counted(c, t') && t'.slot == t.slot
            && (t'.fate.Open? <==> p'.inUse) && (t'.fate.Open? ==> Holds(c, p', t'))
  {
    WrappedSum(at, c.timeout);
  }

  lemma {:induction false} TickConsistent(c: Config, ps: seq<Pending>, ts: seq<Ticket>, ts': seq<Ticket>, at: nat)
    requires Consistent(c, ps, ts) && |ts'| == |ts|
    requires forall k :: 0 <= k < |ts| ==> ts'[k] == TickTicket(c, ps, ts[k], at)
    ensures Consistent(c, TickSlots(c, ps, Clock(at)), ts')
  {
    var ps' := TickSlots(c, ps, Clock(at));
    forall k | 0 <= k < |ts'|
      ensures Counted(c, ts'[k])
      ensures ts'[k].fate.Open? ==> ts[k].fate.Open? && ts'[k].slot == ts[k].slot && Holds(c, ps'[ts'[k].slot], ts'[k])
    {
      if ts[k].fate.Open? { TickTicketHolds(c, ps, ts[k], at); } else { assert Counted(c, ts[k]); }
    }
    forall j | 0 <= j < |ps'| && ps'[j].inUse ensures exists k: nat :: HasSlot(ts', k, j) {
      var k: nat :| HasSlot(ts, k, j);
      TickTicketHolds(c, ps, ts[k], at);
      assert HasSlot(ts', k, j);
    }
  }

  lemma {:induction false} BookConsistent(c: Config, s: State, ts: seq<Ticket>, x: Input)
    requires Valid(s) && Consistent(c, s.pending, ts)
    ensures Consistent(c, Step(c, s, x).state.pending, Book(c, s, ts, x))
  {
    match x.action
    case DoSend(dst, family, kind, flags, reliable, payload) =>
      if Accepts(Step(c, s, x), x) {
        var f := Outgoing(c, s.nextSeq, dst, family, kind, flags, true, payload);
        var i := FreePending(s.pending);
        WrappedSum(x.at, c.timeout);
        SendConsistent(c, s.pending, ts, i, Pending(true, Deadline(c, Clock(x.at)), 0, f), Ticket(f, i, [x.at], Open));
      }
    case DoReceive(_) =>
      var i := AckClears(c, s, x);
      if i < |s.pending| {
        AckConsistent(c, s.pending, ts, Book(c, s, ts, x), i);
      } else {
        assert Book(c, s, ts, x) == ts;
      }
    case DoTick => TickConsistent(c, s.pending, ts, Book(c, s, ts, x), x.at);
  }

  /** In every run, each accepted reliable send has exactly one fate, has been emitted at least once and at most
      1 + max_retries times, and is open exactly while one slot holds its frame. */
  lemma {:induction false} RunConsistent(c: Config, firstSeq: u16, xs: seq<Input>)
    ensures Consistent(c, After(c, Initial(firstSeq), xs).pending, Booked(c, Initial(firstSeq), xs))
    ensures |Booked(c, Initial(firstSeq), xs)| == Accepted(c, Initial(firstSeq), xs)
  {
    if xs != [] {
      var ys, x := xs[..|xs| - 1], xs[|xs| - 1];
      RunConsistent(c, firstSeq, ys);
      BookConsistent(c, After(c, Initial(firstSeq), ys), Booked(c, Initial(firstSeq), ys), x);
    }
  }

  // ---------------------------------------------------------------------
  // Timing.
  // ---------------------------------------------------------------------

  /** Emissions are at least a timeout apart. */
  predicate Spaced(es: seq<nat>, timeout: nat) { forall j :: 0 <= j < |es| - 1 ==> es[j] + timeout <= es[j + 1] }

  function Final(es: seq<nat>): nat
    requires es != []
  {
    es[|es| - 1]
  }

  ghost predicate Timely(c: Config, t: Ticket, lastAt: nat) {
    && t.emitted != [] && Spaced(t.emitted, c.timeout) && Final(t.emitted) <= lastAt
    && (t.fate.Abandoned? ==> Final(t.emitted) + c.timeout <= t.fate.at)
  }

  lemma {:induction false} SpacedPush(es: seq<nat>, timeout: nat, at: nat)
    requires es != [] && Spaced(es, timeout) && Final(es) + timeout <= at
    ensures Spaced(es + [at], timeout)
  {
    var es' := es + [at];
    forall j | 0 <= j < |es'| - 1 ensures es'[j] + timeout <= es'[j + 1] {
      if j < |es| - 1 { assert es[j] + timeout <= es[j + 1]; }
    }
  }

  /** With a timeout of at most half a wrap a slot is never due before its time, however late the tick. */
  lemma {:induction false} NeverEarly(emittedAt: nat, timeout: u32, at: nat)
    requires timeout <= HALF_CLOCK && emittedAt <= at && Due(Clock(emittedAt + timeout), Clock(at))
    ensures emittedAt + timeout <= at
  {
    if at < emittedAt + timeout { TimerAgreesIff(emittedAt + timeout, at); }
  }

  lemma {:induction false} TickTimely(c: Config, ps: seq<Pending>, t: Ticket, lastAt: nat, at: nat)
    requires Timely(c, t, lastAt) && (t.fate.Open? ==> t.slot < |ps| && Holds(c, ps[t.slot], t))
    requires lastAt <= at && c.timeout <= HALF_CLOCK
    ensures Timely(c, TickTicket(c, ps, t, at), at)
  {
    if t.fate.Open? && Due(ps[t.slot].deadline, Clock(at)) {
      NeverEarly(Final(t.emitted), c.timeout, at);
      SpacedPush(t.emitted, c.timeout, at);
    }
  }

  ghost predicate AllTimely(c: Config, ts: seq<Ticket>, lastAt: nat) {
    forall k :: 0 <= k < |ts| ==> Timely(c, ts[k], lastAt)
  }

  lemma {:induction false} BookTimely(c: Config, s: State, ts: seq<Ticket>, lastAt: nat, x: Input)
    requires Valid(s) && Consistent(c, s.pending, ts) && AllTimely(c, ts, lastAt)
    requires lastAt <= x.at && c.timeout <= HALF_CLOCK
    ensures AllTimely(c, Book(c, s, ts, x), x.at)
  {
    var ts' := Book(c, s, ts, x);
    forall k | 0 <= k < |ts'| ensures Timely(c, ts'[k], x.at) {
      if k < |ts| {
        assert Timely(c, ts[k], lastAt);
        if x.action.DoTick? { TickTimely(c, s.pending, ts[k], lastAt, x.at); }
      }
    }
  }

  lemma {:induction false} RunTimely(c: Config, firstSeq: u16, start: nat, xs: seq<Input>)
    requires c.timeout <= HALF_CLOCK && Forward(start, xs)
    ensures AllTimely(c, Booked(c, Initial(firstSeq), xs), LastAt(start, xs))
  {
    if xs != [] {
      var ys, x := xs[..|xs| - 1], xs[|xs| - 1];
      RunTimely(c, firstSeq, start, ys);
      RunConsistent(c, firstSeq, ys);
      BookTimely(c, After(c, Initial(firstSeq), ys), Booked(c, Initial(firstSeq), ys), LastAt(start, ys), x);
    }
  }

  lemma {:induction false} SpacedSpan(es: seq<nat>, timeout: nat)
    requires es != [] && Spaced(es, timeout)
    ensures es[0] + (|es| - 1) * timeout <= Final(es)
  {
    if |es| > 1 {
      var n := |es| - 1;
      assert Spaced(es[..n], timeout);
      SpacedSpan(es[..n], timeout);
      assert es[n - 1] + timeout <= es[n];
      assert (n - 1) * timeout + timeout == n * timeout;
    }
  }

  lemma {:induction false} FailureTime(c: Config, t: Ticket, lastAt: nat)
    requires Timely(c, t, lastAt) && Counted(c, t) && t.fate.Abandoned?
    ensures t.emitted[0] + (c.maxRetries + 1) * c.timeout <= t.fate.at
  {
    SpacedSpan(t.emitted, c.timeout);
    var n, d := c.maxRetries, c.timeout;
    assert (n as int + 1) * d == n * d + d;
  }

  /** However late and however rarely ticks come, emissions of one frame are at least timeout_ms apart in true time,
      and failure is reported no sooner than (max_retries + 1) * timeout_ms after the send. */
  lemma {:induction false} TimersKeepTheirDistance(c: Config, firstSeq: u16, start: nat, xs: seq<Input>, k: nat)
    requires c.timeout <= HALF_CLOCK && Forward(start, xs) && k < |Booked(c, Initial(firstSeq), xs)|
    ensures var t := Booked(c, Initial(firstSeq), xs)[k];
            && Spaced(t.emitted, c.timeout) && t.emitted != []
            && (t.fate.Abandoned? ==> t.emitted[0] + (c.maxRetries + 1) * c.timeout <= t.fate.at)
  {
    var ts := Booked(c, Initial(firstSeq), xs);
    RunTimely(c, firstSeq, start, xs);
    RunConsistent(c, firstSeq, xs);
    assert Timely(c, ts[k], LastAt(start, xs)) && Counted(c, ts[k]);
    if ts[k].fate.Abandoned? { FailureTime(c, ts[k], LastAt(start, xs)); }
  }

  lemma {:induction false} DueInTime(due: nat, at: nat)
    requires 0 <= at - due < HALF_CLOCK
    ensures Due(Clock(due), Clock(at))
  {
    TimerAgreesIff(due, at);
  }

  lemma {:induction false} DueTicketActs(c: Config, ps: seq<Pending>, t: Ticket, at: nat)
    requires t.fate.Open? && t.slot < |ps| && Holds(c, ps[t.slot], t) && Due(ps[t.slot].deadline, Clock(at))
    ensures TickTicket(c, ps, t, at) == if |t.emitted| <= c.maxRetries then t.(emitted := t.emitted + [at])
                                        else t.(fate := Abandoned(at))
  {}

  /** And timers act: in any run, a tick that comes when the latest emission of an open frame is a timeout ago or more,
      but not half a wrap longer, emits the frame again, or abandons it if it has been emitted 1 + max_retries times. */
  lemma {:induction false} DueTicksAct(c: Config, firstSeq: u16, xs: seq<Input>, k: nat, at: nat)
    requires k < |Booked(c, Initial(firstSeq), xs)| && Booked(c, Initial(firstSeq), xs)[k].fate.Open?
    requires var t := Booked(c, Initial(firstSeq), xs)[k];
             t.emitted != [] ==> 0 <= at - (Final(t.emitted) + c.timeout) < HALF_CLOCK
    ensures var t := Booked(c, Initial(firstSeq), xs)[k];
            var ts' := Book(c, After(c, Initial(firstSeq), xs), Booked(c, Initial(firstSeq), xs), Input(at, DoTick));
            && k < |ts'|
            && ts'[k] == if |t.emitted| <= c.maxRetries then t.(emitted := t.emitted + [at])
                         else t.(fate := Abandoned(at))
  {
    var ts, ps := Booked(c, Initial(firstSeq), xs), After(c, Initial(firstSeq), xs).pending;
    RunConsistent(c, firstSeq, xs);
    assert Counted(c, ts[k]) && ts[k].slot < |ps| && Holds(c, ps[ts[k].slot], ts[k]);
    DueInTime(Final(ts[k].emitted) + c.timeout, at);
    DueTicketActs(c, ps, ts[k], at);
  }

  /** A frame sent at time 0, and a tick at the same time. */
  function SentAndTicked(dst: byte): seq<Input> { [Input(0, DoSend(dst, 1, 1, 0, true, [])), Input(0, DoTick)] }

  lemma {:induction false} FirstSend(c: Config, firstSeq: u16, dst: byte, x: Input)
    requires x == SentAndTicked(dst)[0]
    ensures var s0 := Initial(firstSeq);
            && |Book(c, s0, [], x)| == 1 && |Step(c, s0, x).state.pending| == PENDING_MAX
            && var t, p := Book(c, s0, [], x)[0], Step(c, s0, x).state.pending[0];
               t.emitted == [0] && t.fate.Open? && t.slot == 0 && p.inUse && p.deadline == Clock(c.timeout)
  {
    assert FreePending(Initial(firstSeq).pending) == 0;
  }

  lemma {:induction false} TickedEarly(c: Config, ps: seq<Pending>, t: Ticket)
    requires c.timeout > HALF_CLOCK && t.fate.Open? && t.slot < |ps| && ps[t.slot].inUse
    requires t.emitted == [0] && ps[t.slot].deadline == Clock(c.timeout)
    ensures var t' := TickTicket(c, ps, t, 0);
            && t'.emitted != []
            && (t'.fate == Abandoned(0) || (t'.emitted == [0, 0] && !Spaced(t'.emitted, c.timeout)))
  {
    var es := [0, 0];
    assert Due(ps[t.slot].deadline, Clock(0));
    assert es[0] + c.timeout > es[1];
  }

  /** A longer timeout looks expired at once: the tick retransmits or gives up without any delay. */
  lemma {:induction false} LongTimeoutFiresAtOnce(c: Config, firstSeq: u16, dst: byte)
    requires c.timeout > HALF_CLOCK
    ensures Forward(0, SentAndTicked(dst))
    ensures var ts := Booked(c, Initial(firstSeq), SentAndTicked(dst));
            && |ts| == 1 && ts[0].emitted != []
            && (ts[0].fate == Abandoned(0) || (ts[0].emitted == [0, 0] && !Spaced(ts[0].emitted, c.timeout)))
  {
    var s0, xs := Initial(firstSeq), SentAndTicked(dst);
    var x, y := xs[0], xs[1];
    FirstSend(c, firstSeq, dst, x);
    assert xs[..|xs| - 1] == [x] && [x][..|[x]| - 1] == [];
    assert After(c, s0, [x]) == Step(c, s0, x).state && Booked(c, s0, [x]) == Book(c, s0, [], x);
    assert Booked(c, s0, xs) == Book(c, After(c, s0, [x]), Booked(c, s0, [x]), y);
    TickedEarly(c, Step(c, s0, x).state.pending, Book(c, s0, [], x)[0]);
  }
}
