/** The history of accepted frames against the callbacks made: what is booked is what was called. */
module TicketCalls {
  import opened Bytes
  import opened Framing
  import opened Endpoint
  import opened Runs
  import opened Lifecycle
  import opened Tickets

  // ---------------------------------------------------------------------
  // Measuring calls and tickets.
  // ---------------------------------------------------------------------

  /** A measure of a list of callbacks: the sum of the measures of its members. */
  function Measure(v: Event -> nat, es: seq<Event>): nat {
    if es == [] then 0 else Measure(v, es[..|es| - 1]) + v(es[|es| - 1])
  }

  /** The measure of the callbacks one call makes for what was accepted: those of accepted reliable sends and of
      ticks. */
  function CallMeasure(v: Event -> nat, m: Move, x: Input): nat {
    if Accepts(m, x) || x.action.DoTick? then Measure(v, m.events) else 0
  }

  function RunMeasure(c: Config, s: State, xs: seq<Input>, v: Event -> nat): nat
    requires Valid(s)
  {
    if xs == [] then 0 else RunMeasure(c, s, xs[..|xs| - 1], v) + CallMeasure(v, Last(c, s, xs), xs[|xs| - 1])
  }

  /** One call of send_fn for each emission, one call of fail_fn for an abandoned ticket. */
  function TicketMeasure(v: Event -> nat, t: Ticket): nat {
    |t.emitted| * v(Sent(t.frame)) + if t.fate.Abandoned? then v(Failed(t.frame)) else 0
  }

  function TicketsMeasure(v: Event -> nat, ts: seq<Ticket>): nat {
    if ts == [] then 0 else TicketsMeasure(v, ts[..|ts| - 1]) + TicketMeasure(v, ts[|ts| - 1])
  }

  /** The sum of the first n measures. */
  function TotalTo(w: seq<nat>, n: nat): nat
    requires n <= |w|
  {
    if n == 0 then 0 else TotalTo(w, n - 1) + w[n - 1]
  }

  function Total(w: seq<nat>): nat { TotalTo(w, |w|) }

  /** What a measure of the slots means for a ticket. */
  function AtSlot(w: seq<nat>, t: Ticket): nat { if t.fate.Open? && t.slot < |w| then w[t.slot] else 0 }

  lemma {:induction false} TotalUpdate(w: seq<nat>, i: nat, n: nat)
    requires i < |w| && n <= |w|
    ensures TotalTo(w, n) == TotalTo(w[i := 0], n) + if i < n then w[i] else 0
  {
    if n > 0 { TotalUpdate(w, i, n - 1); }
  }

  lemma {:induction false} TotalZero(w: seq<nat>, n: nat)
    requires n <= |w| && forall i :: 0 <= i < |w| ==> w[i] == 0
    ensures TotalTo(w, n) == 0
  {
    if n > 0 { TotalZero(w, n - 1); }
  }

  /** The measures of the slots of the open tickets. */
  function OpenSum(w: seq<nat>, ts: seq<Ticket>): nat {
    if ts == [] then 0 else OpenSum(w, ts[..|ts| - 1]) + AtSlot(w, ts[|ts| - 1])
  }

  lemma {:induction false} OpenSumSame(w: seq<nat>, w': seq<nat>, ts: seq<Ticket>)
    requires forall k :: 0 <= k < |ts| ==> AtSlot(w, ts[k]) == AtSlot(w', ts[k])
    ensures OpenSum(w, ts) == OpenSum(w', ts)
  {
    if ts != [] { OpenSumSame(w, w', ts[..|ts| - 1]); }
  }

  ghost predicate OwnSlots(ts: seq<Ticket>, n: nat) {
    && (forall k :: 0 <= k < |ts| && ts[k].fate.Open? ==> ts[k].slot < n)
    && (forall j, k :: 0 <= j < k < |ts| && ts[j].fate.Open? && ts[k].fate.Open? ==> ts[j].slot != ts[k].slot)
  }

  /** Only slots of open tickets measure anything. */
  ghost predicate Covered(w: seq<nat>, ts: seq<Ticket>) {
    forall i :: 0 <= i < |w| && w[i] > 0 ==> exists k: nat :: HasSlot(ts, k, i)
  }

  lemma {:induction false} CoveredByNone(w: seq<nat>)
    requires Covered(w, [])
    ensures forall i :: 0 <= i < |w| ==> w[i] == 0
  {
    forall i | 0 <= i < |w| ensures w[i] == 0 { assert forall k: nat :: !HasSlot([], k, i); }
  }

  function WithoutSlot(w: seq<nat>, t: Ticket): (r: seq<nat>)
    ensures |r| == |w|
  {
    if t.fate.Open? && t.slot < |w| then w[t.slot := 0] else w
  }

  lemma {:induction false} LastTicket(w: seq<nat>, ts: seq<Ticket>, us: seq<Ticket>, t: Ticket)
    requires OwnSlots(ts, |w|) && Covered(w, ts) && ts == us + [t]
    ensures OwnSlots(us, |w|) && Covered(WithoutSlot(w, t), us)
    ensures Total(w) == Total(WithoutSlot(w, t)) + AtSlot(w, t)
    ensures forall k :: 0 <= k < |us| ==> AtSlot(WithoutSlot(w, t), us[k]) == AtSlot(w, us[k])
  {
    var w' := WithoutSlot(w, t);
    assert t == ts[|us|] && forall k :: 0 <= k < |us| ==> ts[k] == us[k];
    if t.fate.Open? { TotalUpdate(w, t.slot, |w|); }
    forall i | 0 <= i < |w'| && w'[i] > 0 ensures exists k: nat :: HasSlot(us, k, i) {
      var k: nat :| HasSlot(ts, k, i);
      assert HasSlot(us, k, i);
    }
  }

  /** Summing over the slots is summing over the open tickets. */
  lemma {:induction false} SlotsAreTickets(w: seq<nat>, ts: seq<Ticket>)
    requires OwnSlots(ts, |w|) && Covered(w, ts)
    ensures OpenSum(w, ts) == Total(w)
    decreases |ts|
  {
    if ts == [] {
      CoveredByNone(w);
      TotalZero(w, |w|);
    } else {
      var t, us := ts[|ts| - 1], ts[..|ts| - 1];
      LastTicket(w, ts, us, t);
      SlotsAreTickets(WithoutSlot(w, t), us);
      OpenSumSame(WithoutSlot(w, t), w, us);
    }
  }

  /** Each ticket gains the measure of its slot. */
  lemma {:induction false} TicketsGain(v: Event -> nat, w: seq<nat>, ts: seq<Ticket>, ts': seq<Ticket>)
    requires |ts'| == |ts|
    requires forall k :: 0 <= k < |ts| ==> TicketMeasure(v, ts'[k]) == TicketMeasure(v, ts[k]) + AtSlot(w, ts[k])
    ensures TicketsMeasure(v, ts') == TicketsMeasure(v, ts) + OpenSum(w, ts)
  {
    if ts != [] { TicketsGain(v, w, ts[..|ts| - 1], ts'[..|ts| - 1]); }
  }

  /** What the slots call in one tick. */
  function SlotMeasures(c: Config, v: Event -> nat, ps: seq<Pending>, now: u32): (w: seq<nat>)
    ensures |w| == |ps| && forall i :: 0 <= i < |ps| ==> w[i] == Measure(v, SlotEvents(c, ps[i], now))
  {
    seq(|ps|, i requires 0 <= i < |ps| => Measure(v, SlotEvents(c, ps[i], now)))
  }

  lemma {:induction false} MeasureAppend(v: Event -> nat, a: seq<Event>, b: seq<Event>)
    requires |b| <= 1
    ensures Measure(v, a + b) == Measure(v, a) + Measure(v, b)
  {
    if b == [] {
      assert a + b == a;
    } else {
      assert (a + b)[..|a|] == a && b[..0] == [];
    }
  }

  lemma {:induction false} TickEventsPush(c: Config, ps: seq<Pending>, now: u32, n: nat)
    requires n < |ps|
    ensures TickEvents(c, ps[..n + 1], now) == TickEvents(c, ps[..n], now) + SlotEvents(c, ps[n], now)
  {
    assert ps[..n + 1][..n] == ps[..n];
  }

  lemma {:induction false} TickMeasuresTo(c: Config, v: Event -> nat, ps: seq<Pending>, now: u32, w: seq<nat>, n: nat)
    requires n <= |ps| && w == SlotMeasures(c, v, ps, now)
    ensures Measure(v, TickEvents(c, ps[..n], now)) == TotalTo(w, n)
  {
    if n > 0 {
      var a, b := TickEvents(c, ps[..n - 1], now), SlotEvents(c, ps[n - 1], now);
      TickMeasuresTo(c, v, ps, now, w, n - 1);
      TickEventsPush(c, ps, now, n - 1);
      MeasureAppend(v, a, b);
    }
  }

  lemma {:induction false} TickMeasures(c: Config, v: Event -> nat, ps: seq<Pending>, now: u32)
    ensures Measure(v, TickEvents(c, ps, now)) == Total(SlotMeasures(c, v, ps, now))
  {
    TickMeasuresTo(c, v, ps, now, SlotMeasures(c, v, ps, now), |ps|);
    assert ps[..|ps|] == ps;
  }

  lemma {:induction false} TicketGains(c: Config, v: Event -> nat, ps: seq<Pending>, t: Ticket, at: nat)
    requires t.fate.Open? ==> t.slot < |ps| && Holds(c, ps[t.slot], t)
    ensures TicketMeasure(v, TickTicket(c, ps, t, at)) ==
            TicketMeasure(v, t) + AtSlot(SlotMeasures(c, v, ps, Clock(at)), t)
  {
    if t.fate.Open? {
      var es := SlotEvents(c, ps[t.slot], Clock(at));
      if es != [] {
        assert es[..0] == [] && Measure(v, es) == v(es[0]);
        var n, x := |t.emitted|, v(Sent(t.frame));
        assert (n + 1) * x == n * x + x;
      }
    }
  }

  lemma {:induction false} TickMeasure(c: Config, v: Event -> nat, ps: seq<Pending>, ts: seq<Ticket>,
          ts': seq<Ticket>, at: nat)
    requires Consistent(c, ps, ts) && |ts'| == |ts|
    requires forall k :: 0 <= k < |ts| ==> ts'[k] == TickTicket(c, ps, ts[k], at)
    ensures TicketsMeasure(v, ts') == TicketsMeasure(v, ts) + Measure(v, TickEvents(c, ps, Clock(at)))
  {
    var w := SlotMeasures(c, v, ps, Clock(at));
    forall k | 0 <= k < |ts| ensures TicketMeasure(v, ts'[k]) == TicketMeasure(v, ts[k]) + AtSlot(w, ts[k]) {
      TicketGains(c, v, ps, ts[k], at);
    }
    TicketsGain(v, w, ts, ts');
    SlotsAreTickets(w, ts);
    TickMeasures(c, v, ps, Clock(at));
  }

  /** Every callback of a tick belongs to an open ticket, and each open ticket makes its own exactly once. */
  lemma {:induction false} TickBooked(c: Config, ps: seq<Pending>, ts: seq<Ticket>, now: u32, e: Event)
    requires Consistent(c, ps, ts)
    ensures forall v: Event -> nat :: Measure(v, TickEvents(c, ps, now)) == OpenSum(SlotMeasures(c, v, ps, now), ts)
    ensures e in TickEvents(c, ps, now) <==>
              exists k :: 0 <= k < |ts| && ts[k].fate.Open? && e in SlotEvents(c, ps[ts[k].slot], now)
  {
    forall v: Event -> nat ensures Measure(v, TickEvents(c, ps, now)) == OpenSum(SlotMeasures(c, v, ps, now), ts) {
      SlotsAreTickets(SlotMeasures(c, v, ps, now), ts);
      TickMeasures(c, v, ps, now);
    }
    TickEventsMembers(c, ps, now, e);
    if i :| 0 <= i < |ps| && e in SlotEvents(c, ps[i], now) {
      var k: nat :| HasSlot(ts, k, i);
      assert ts[k].fate.Open? && e in SlotEvents(c, ps[ts[k].slot], now);
    }
  }

  lemma {:induction false} AckMeasure(v: Event -> nat, i: nat, ts: seq<Ticket>, ts': seq<Ticket>)
    requires |ts'| == |ts| && forall k :: 0 <= k < |ts| ==> ts'[k] == AckTicket(i, ts[k])
    ensures TicketsMeasure(v, ts') == TicketsMeasure(v, ts)
  {
    if ts != [] { AckMeasure(v, i, ts[..|ts| - 1], ts'[..|ts| - 1]); }
  }

  lemma {:induction false} SendMeasure(v: Event -> nat, ts: seq<Ticket>, t: Ticket)
    requires |t.emitted| == 1 && t.fate.Open?
    ensures TicketsMeasure(v, ts + [t]) == TicketsMeasure(v, ts) + Measure(v, [Sent(t.frame)])
  {
    assert (ts + [t])[..|ts|] == ts;
    assert [Sent(t.frame)][..0] == [];
  }

  lemma {:induction false} BookMeasure(c: Config, s: State, ts: seq<Ticket>, x: Input, v: Event -> nat)
    requires Valid(s) && Consistent(c, s.pending, ts)
    ensures TicketsMeasure(v, Book(c, s, ts, x)) == TicketsMeasure(v, ts) + CallMeasure(v, Step(c, s, x), x)
  {
    match x.action
    case DoSend(dst, family, kind, flags, reliable, payload) =>
      if Accepts(Step(c, s, x), x) {
        var f := Outgoing(c, s.nextSeq, dst, family, kind, flags, true, payload);
        SendMeasure(v, ts, Ticket(f, FreePending(s.pending), [x.at], Open));
        assert Step(c, s, x).events == [Sent(f)];
      }
    case DoReceive(_) => AckMeasure(v, AckClears(c, s, x), ts, Book(c, s, ts, x));
    case DoTick => TickMeasure(c, v, s.pending, ts, Book(c, s, ts, x), x.at);
  }

  /** In every run, and whatever is counted: the accepted sends and the ticks have made exactly the calls that the
      tickets record, one call of send_fn for each emission and one call of fail_fn for each abandoned ticket. */
  lemma {:induction false} CallsAreBooked(c: Config, firstSeq: u16, xs: seq<Input>, v: Event -> nat)
    ensures RunMeasure(c, Initial(firstSeq), xs, v) == TicketsMeasure(v, Booked(c, Initial(firstSeq), xs))
  {
    if xs != [] {
      var ys, x := xs[..|xs| - 1], xs[|xs| - 1];
      CallsAreBooked(c, firstSeq, ys, v);
      RunConsistent(c, firstSeq, ys);
      BookMeasure(c, After(c, Initial(firstSeq), ys), Booked(c, Initial(firstSeq), ys), x, v);
    }
  }

  // ---------------------------------------------------------------------
  // Counting fates.
  // ---------------------------------------------------------------------

  function Abandonments(ts: seq<Ticket>): nat {
    if ts == [] then 0 else Abandonments(ts[..|ts| - 1]) + if ts[|ts| - 1].fate.Abandoned? then 1 else 0
  }

  function Acknowledgements(ts: seq<Ticket>): nat {
    if ts == [] then 0 else Acknowledgements(ts[..|ts| - 1]) + if ts[|ts| - 1].fate.Acknowledged? then 1 else 0
  }

  /** Emissions after the first ones. */
  function Retransmissions(ts: seq<Ticket>): int {
    if ts == [] then 0 else Retransmissions(ts[..|ts| - 1]) + |ts[|ts| - 1].emitted| - 1
  }

  function One(e: Event): nat { 1 }

  function Failure(e: Event): nat { if e.Failed? then 1 else 0 }

  lemma {:induction false} MeasureOne(es: seq<Event>)
    ensures Measure(One, es) == |es|
  {
    if es != [] { MeasureOne(es[..|es| - 1]); }
  }

  lemma {:induction false} MeasureFailure(es: seq<Event>)
    ensures Measure(Failure, es) == CountFailed(es)
  {
    if es != [] { MeasureFailure(es[..|es| - 1]); }
  }

  lemma {:induction false} TicketsOne(ts: seq<Ticket>)
    ensures TicketsMeasure(One, ts) == |ts| + Retransmissions(ts) + Abandonments(ts)
    ensures TicketsMeasure(Failure, ts) == Abandonments(ts)
  {
    if ts != [] { TicketsOne(ts[..|ts| - 1]); }
  }

  lemma {:induction false} StepMeasures(c: Config, s: State, x: Input)
    requires Valid(s)
    ensures var m := Step(c, s, x);
            && CallMeasure(Failure, m, x) == CountFailed(m.events)
            && CallMeasure(One, m, x) == (if Accepts(m, x) then 1 else 0) + (if x.action.DoTick? then |m.events| else 0)
  {
    var m := Step(c, s, x);
    MeasureOne(m.events);
    MeasureFailure(m.events);
    match x.action
    case DoSend(_, _, _, _, _, _) => SendCounts(c, s, x);
    case DoReceive(_) => ReceiveCounts(c, s, x);
    case DoTick =>
  }

  lemma {:induction false} RunMeasures(c: Config, s: State, xs: seq<Input>)
    requires Valid(s)
    ensures RunMeasure(c, s, xs, Failure) == FailCalls(c, s, xs)
    ensures RunMeasure(c, s, xs, One) == Accepted(c, s, xs) + TickCalls(c, s, xs)
  {
    if xs != [] {
      var ys, x := xs[..|xs| - 1], xs[|xs| - 1];
      RunMeasures(c, s, ys);
      StepMeasures(c, After(c, s, ys), x);
    }
  }

  lemma {:induction false} AcknowledgeOne(i: nat, n: nat, w: seq<nat>, ts: seq<Ticket>, ts': seq<Ticket>)
    requires |ts'| == |ts| && forall k :: 0 <= k < |ts| ==> ts'[k] == AckTicket(i, ts[k])
    requires |w| == n && forall j :: 0 <= j < n ==> w[j] == if j == i then 1 else 0
    requires OwnSlots(ts, n)
    ensures Acknowledgements(ts') == Acknowledgements(ts) + OpenSum(w, ts)
  {
    if ts != [] { AcknowledgeOne(i, n, w, ts[..|ts| - 1], ts'[..|ts| - 1]); }
  }

  lemma {:induction false} TotalUnit(w: seq<nat>, i: nat)
    requires forall j :: 0 <= j < |w| ==> w[j] == if j == i then 1 else 0
    ensures Total(w) == if i < |w| then 1 else 0
  {
    if i < |w| { TotalUpdate(w, i, |w|); TotalZero(w[i := 0], |w|); } else { TotalZero(w, |w|); }
  }

  lemma {:induction false} AckCounts(c: Config, ps: seq<Pending>, ts: seq<Ticket>, ts': seq<Ticket>, i: nat)
    requires Consistent(c, ps, ts) && (i < |ps| ==> ps[i].inUse)
    requires |ts'| == |ts| && forall k :: 0 <= k < |ts| ==> ts'[k] == AckTicket(i, ts[k])
    ensures Acknowledgements(ts') == Acknowledgements(ts) + if i < |ps| then 1 else 0
  {
    var w: seq<nat> := seq(|ps|, j => if j == i then 1 else 0);
    AcknowledgeOne(i, |ps|, w, ts, ts');
    SlotsAreTickets(w, ts);
    TotalUnit(w, i);
  }

  lemma {:induction false} TickAcknowledges(c: Config, ps: seq<Pending>, ts: seq<Ticket>, ts': seq<Ticket>, at: nat)
    requires |ts'| == |ts| && forall k :: 0 <= k < |ts| ==> ts'[k] == TickTicket(c, ps, ts[k], at)
    ensures Acknowledgements(ts') == Acknowledgements(ts)
  {
    if ts != [] { TickAcknowledges(c, ps, ts[..|ts| - 1], ts'[..|ts| - 1], at); }
  }

  lemma {:induction false} BookAcknowledges(c: Config, s: State, ts: seq<Ticket>, x: Input)
    requires Valid(s) && Consistent(c, s.pending, ts)
    ensures Acknowledgements(Book(c, s, ts, x)) ==
            Acknowledgements(ts) + if AckClears(c, s, x) < |s.pending| then 1 else 0
  {
    match x.action
    case DoSend(dst, family, kind, flags, reliable, payload) =>
      if Accepts(Step(c, s, x), x) { assert Book(c, s, ts, x)[..|ts|] == ts; }
    case DoReceive(_) => AckCounts(c, s.pending, ts, Book(c, s, ts, x), AckClears(c, s, x));
    case DoTick => TickAcknowledges(c, s.pending, ts, Book(c, s, ts, x), x.at);
  }

  lemma {:induction false} AcknowledgementsAreAcks(c: Config, firstSeq: u16, xs: seq<Input>)
    ensures Acked(c, Initial(firstSeq), xs) == Acknowledgements(Booked(c, Initial(firstSeq), xs))
  {
    if xs != [] {
      var ys, x := xs[..|xs| - 1], xs[|xs| - 1];
      AcknowledgementsAreAcks(c, firstSeq, ys);
      RunConsistent(c, firstSeq, ys);
      BookAcknowledges(c, After(c, Initial(firstSeq), ys), Booked(c, Initial(firstSeq), ys), x);
    }
  }

  /** The tickets tell the truth: in every run, fail_fn was called once for each abandoned ticket and never otherwise,
      one ACK cleared a slot for each acknowledged ticket, and the ticks called send_fn once for each emission after a
      ticket's first. */
  lemma {:induction false} FatesAreCalls(c: Config, firstSeq: u16, xs: seq<Input>)
    ensures var s0 := Initial(firstSeq);
            var ts := Booked(c, s0, xs);
            && FailCalls(c, s0, xs) == Abandonments(ts)
            && Acked(c, s0, xs) == Acknowledgements(ts)
            && TickCalls(c, s0, xs) == Retransmissions(ts) + Abandonments(ts)
  {
    var s0 := Initial(firstSeq);
    CallsAreBooked(c, firstSeq, xs, Failure);
    CallsAreBooked(c, firstSeq, xs, One);
    RunMeasures(c, s0, xs);
    TicketsOne(Booked(c, s0, xs));
    RunConsistent(c, firstSeq, xs);
    AcknowledgementsAreAcks(c, firstSeq, xs);
  }

  // ---------------------------------------------------------------------
  // One frame.
  // ---------------------------------------------------------------------

  /** Counts the calls of send_fn with this frame. */
  function SendsOf(f: Frame): Event -> nat { (e: Event) => if e == Sent(f) then 1 else 0 }

  /** Accepted reliable sends that made this frame. */
  function AcceptedOf(c: Config, s: State, xs: seq<Input>, f: Frame): nat
    requires Valid(s)
  {
    if xs == [] then 0
    else
      AcceptedOf(c, s, xs[..|xs| - 1], f) +
      if Accepts(Last(c, s, xs), xs[|xs| - 1]) && Sent(f) in Last(c, s, xs).events then 1 else 0
  }

  function TicketsOf(ts: seq<Ticket>, f: Frame): nat {
    if ts == [] then 0 else TicketsOf(ts[..|ts| - 1], f) + if ts[|ts| - 1].frame == f then 1 else 0
  }

  lemma {:induction false} SameFrames(ts: seq<Ticket>, ts': seq<Ticket>, f: Frame)
    requires |ts| == |ts'| && forall k :: 0 <= k < |ts| ==> ts[k].frame == ts'[k].frame
    ensures TicketsOf(ts, f) == TicketsOf(ts', f)
  {
    if ts != [] { SameFrames(ts[..|ts| - 1], ts'[..|ts| - 1], f); }
  }

  lemma {:induction false} BookFrames(c: Config, s: State, ts: seq<Ticket>, x: Input, f: Frame)
    requires Valid(s)
    ensures TicketsOf(Book(c, s, ts, x), f) ==
            TicketsOf(ts, f) + if Accepts(Step(c, s, x), x) && Sent(f) in Step(c, s, x).events then 1 else 0
  {
    if Accepts(Step(c, s, x), x) {
      assert Book(c, s, ts, x)[..|ts|] == ts;
    } else {
      SameFrames(ts, Book(c, s, ts, x), f);
    }
  }

  lemma {:induction false} AcceptedOfIsTickets(c: Config, s: State, xs: seq<Input>, f: Frame)
    requires Valid(s)
    ensures AcceptedOf(c, s, xs, f) == TicketsOf(Booked(c, s, xs), f)
  {
    if xs != [] {
      var ys, x := xs[..|xs| - 1], xs[|xs| - 1];
      AcceptedOfIsTickets(c, s, ys, f);
      BookFrames(c, After(c, s, ys), Booked(c, s, ys), x, f);
    }
  }

  lemma {:induction false} OneMore(m: int, k: int)
    ensures m * (k + 1) == m * k + m
  {}

  lemma {:induction false} EmissionsMeasure(f: Frame, t: Ticket)
    requires t.frame == f
    ensures TicketMeasure(SendsOf(f), t) == |t.emitted|
  {}

  lemma {:induction false} OtherMeasures(f: Frame, t: Ticket)
    requires t.frame != f
    ensures TicketMeasure(SendsOf(f), t) == 0
  {}

  lemma {:induction false} TicketsBound(c: Config, ts: seq<Ticket>, f: Frame)
    requires forall k :: 0 <= k < |ts| ==> Counted(c, ts[k])
    ensures TicketsOf(ts, f) <= TicketsMeasure(SendsOf(f), ts) <= (c.maxRetries + 1) * TicketsOf(ts, f)
  {
    if ts != [] {
      var n := |ts| - 1;
      TicketsBound(c, ts[..n], f);
      assert Counted(c, ts[n]);
      OneMore(c.maxRetries + 1, TicketsOf(ts[..n], f));
      if ts[n].frame == f { EmissionsMeasure(f, ts[n]); } else { OtherMeasures(f, ts[n]); }
    }
  }

  /** In every run, the accepted reliable sends that made a frame and the ticks after them have called send_fn with it
      at least once and at most 1 + max_retries times for each such send. */
  lemma {:induction false} EmissionsBounded(c: Config, firstSeq: u16, xs: seq<Input>, f: Frame)
    ensures var n, s0 := AcceptedOf(c, Initial(firstSeq), xs, f), Initial(firstSeq);
            n <= RunMeasure(c, s0, xs, SendsOf(f)) <= (c.maxRetries + 1) * n
  {
    var s0 := Initial(firstSeq);
    CallsAreBooked(c, firstSeq, xs, SendsOf(f));
    AcceptedOfIsTickets(c, s0, xs, f);
    RunConsistent(c, firstSeq, xs);
    TicketsBound(c, Booked(c, s0, xs), f);
  }

  // ---------------------------------------------------------------------
  // The end of retries, from the start.
  // ---------------------------------------------------------------------

  lemma {:induction false} RunRetriesBounded(c: Config, firstSeq: u16, xs: seq<Input>)
    ensures RetriesBounded(c, After(c, Initial(firstSeq), xs).pending)
  {
    var ps, ts := After(c, Initial(firstSeq), xs).pending, Booked(c, Initial(firstSeq), xs);
    RunConsistent(c, firstSeq, xs);
    forall i | 0 <= i < |ps| && ps[i].inUse ensures ps[i].retries <= c.maxRetries {
      var k: nat :| HasSlot(ts, k, i);
      assert Counted(c, ts[k]) && Holds(c, ps[i], ts[k]);
    }
  }

  lemma {:induction false} BudgetBound(c: Config, ps: seq<Pending>)
    requires RetriesBounded(c, ps)
    ensures Budget(c, ps) <= (c.maxRetries + 1) * PendingCount(ps)
  {
    if ps != [] {
      var n := |ps| - 1;
      BudgetBound(c, ps[..n]);
      OneMore(c.maxRetries + 1, PendingCount(ps[..n]));
    }
  }

  /** From the start: after any run xs, in any continuation without reliable sends, all ticks together make at most
      1 + max_retries calls for each frame that was pending. */
  lemma {:induction false} RetriesEndFromStart(c: Config, firstSeq: u16, xs: seq<Input>, ys: seq<Input>)
    requires forall y :: y in ys ==> !SendsReliably(y)
    ensures var s := After(c, Initial(firstSeq), xs);
            TickCalls(c, s, ys) <= (c.maxRetries + 1) * PendingCount(s.pending)
  {
    RunRetriesBounded(c, firstSeq, xs);
    RetriesEnd(c, After(c, Initial(firstSeq), xs), ys);
    BudgetBound(c, After(c, Initial(firstSeq), xs).pending);
  }
}
