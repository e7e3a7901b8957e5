/** Whole runs of an endpoint: any interleaving of sends, arrivals and ticks, at any times. */
module Runs {
  import opened Bytes
  import opened Framing
  import opened Endpoint
  import opened PyEndpoint

  datatype Action =
    | DoSend(dst: byte, family: byte, kind: byte, flags: byte, reliable: bool, payload: seq<byte>)
    | DoReceive(frame: Frame)
    | DoTick

  /** A call and the time, in milliseconds that never wrap, at which it is made. */
  datatype Input = Input(at: nat, action: Action)

  datatype Outcome = Sends(sent: Result<u16>) | Receives(rx: Rx) | Ticks

  datatype Move = Move(state: State, events: seq<Event>, outcome: Outcome)

  datatype PyMove = PyMove(state: PyState, events: seq<Event>, outcome: Outcome)

  /** What a uint32_t millisecond counter shows. */
  function Clock(at: nat): u32 { at % CLOCK }

  function Step(c: Config, s: State, x: Input): (m: Move)
    requires Valid(s)
    ensures Valid(m.state)
  {
    match x.action
    case DoSend(dst, family, kind, flags, reliable, payload) =>
      var r := Send(c, s, dst, family, kind, flags, reliable, payload, Clock(x.at));
      Move(r.state, r.events, Sends(r.result))
    case DoReceive(f) =>
      var r := Receive(c, s, f);
      Move(r.state, r.events, Receives(r.rx))
    case DoTick => Move(Tick(c, s, Clock(x.at)), TickEvents(c, s.pending, Clock(x.at)), Ticks)
  }

  function After(c: Config, s: State, xs: seq<Input>): (r: State)
    requires Valid(s)
    ensures Valid(r)
  {
    if xs == [] then s else Step(c, After(c, s, xs[..|xs| - 1]), xs[|xs| - 1]).state
  }

  /** What the last call of xs does, in a run from s. */
  function Last(c: Config, s: State, xs: seq<Input>): Move
    requires Valid(s) && xs != []
  {
    Step(c, After(c, s, xs[..|xs| - 1]), xs[|xs| - 1])
  }

  function PyStep(c: PyConfig, s: PyState, x: Input): PyMove {
    match x.action
    case DoSend(dst, family, kind, flags, reliable, payload) =>
      var r := PySend(c, s, dst, family, kind, payload, reliable, flags, Seconds(x.at));
      PyMove(r.state, r.events, Sends(Ok(r.frame.seqno)))
    case DoReceive(f) =>
      var r := PyReceive(c, s, f);
      PyMove(r.state, r.events, Receives(r.rx))
    case DoTick => PyMove(PyTick(c, s, Seconds(x.at)), PyTickEvents(c, s.pending, s.order, Seconds(x.at)), Ticks)
  }

  function PyAfter(c: PyConfig, s: PyState, xs: seq<Input>): PyState {
    if xs == [] then s else PyStep(c, PyAfter(c, s, xs[..|xs| - 1]), xs[|xs| - 1]).state
  }

  function PyLast(c: PyConfig, s: PyState, xs: seq<Input>): PyMove
    requires xs != []
  {
    PyStep(c, PyAfter(c, s, xs[..|xs| - 1]), xs[|xs| - 1])
  }

  /** A reliable frame comes in for the endpoint with this address: the frames duplicate suppression is about. */
  predicate Arrives(addr: byte, x: Input) {
    x.action.DoReceive? && x.action.frame.dst == addr && !IsAck(x.action.frame) && IsReliable(x.action.frame)
  }

  function ArrivalKey(x: Input): Key
    requires x.action.DoReceive?
  {
    SourceKey(x.action.frame)
  }

  /** The time of the last call, and of the last tick; start is when the endpoint was set up. */
  function LastAt(start: nat, xs: seq<Input>): nat { if xs == [] then start else xs[|xs| - 1].at }

  function LastTick(start: nat, xs: seq<Input>): nat {
    if xs == [] then start
    else if xs[|xs| - 1].action.DoTick? then xs[|xs| - 1].at
    else LastTick(start, xs[..|xs| - 1])
  }

  /** Time does not run backwards. */
  ghost predicate Forward(start: nat, xs: seq<Input>) {
    xs != [] ==> Forward(start, xs[..|xs| - 1]) && LastAt(start, xs[..|xs| - 1]) <= xs[|xs| - 1].at
  }

  /** Time does not run backwards, and ticks come less than half a wrap of the clock apart. */
  ghost predicate InTime(start: nat, xs: seq<Input>) {
    xs != [] ==>
      var ys, x := xs[..|xs| - 1], xs[|xs| - 1];
      InTime(start, ys) && LastAt(start, ys) <= x.at && (x.action.DoTick? ==> x.at - LastTick(start, ys) < HALF_CLOCK)
  }

  // ---------------------------------------------------------------------
  // The wrapping clock.
  // ---------------------------------------------------------------------

  /** Less than one wrap apart, the signed comparison of wrapped times agrees with true time exactly when the two
      are no more than half a wrap apart. */
  lemma {:induction false} TimerAgreesIff(due: nat, at: nat)
    requires -CLOCK < at - due < CLOCK
    ensures (Due(Clock(due), Clock(at)) <==> at >= due) <==> -HALF_CLOCK <= at - due < HALF_CLOCK
  {
    WrappedDifference(due, at);
  }

  lemma {:induction false} WrappedDifference(due: nat, at: nat)
    requires -CLOCK < at - due < CLOCK
    ensures (Clock(at) - Clock(due)) % CLOCK == if at >= due then at - due else at - due + CLOCK
  {
    assert (Clock(at) - Clock(due)) == (at - due) - CLOCK * (at / CLOCK - due / CLOCK);
  }

  lemma {:induction false} WrappedSum(at: nat, timeout: u32)
    ensures (Clock(at) + timeout) % CLOCK == Clock(at + timeout)
  {
    assert Clock(at) + timeout == at + timeout - CLOCK * (at / CLOCK);
  }
}
