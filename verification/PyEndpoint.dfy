/** The endpoint of python/arc_protocol/reliable.py: the same protocol over an unbounded dict and an unbounded
    set, on a clock that does not wrap. */
module PyEndpoint {
  import opened Bytes
  import opened Framing
  import opened Endpoint

  /** The dataclass _Pending. */
  datatype Waiting = Waiting(frame: Frame, deadline: real, retries: nat)

  datatype PyConfig = PyConfig(addr: byte, session: byte, timeout: real, maxRetries: int)

  /** A Python dict remembers the order in which its keys were inserted: `order` lists the keys of pending. */
  datatype PyState = PyState(nextSeq: u16, pending: map<Key, Waiting>, order: seq<Key>, seen: set<Key>,
                             sessions: map<byte, byte>)

  datatype PySending = PySending(state: PyState, events: seq<Event>, frame: Frame)

  datatype PyReceiving = PyReceiving(state: PyState, events: seq<Event>, rx: Rx)

  predicate NoRepeats<T(==)>(s: seq<T>) { forall i, j :: 0 <= i < j < |s| ==> s[i] != s[j] }

  ghost predicate PyValid(s: PyState) {
    && NoRepeats(s.order)
    && (forall k :: k in s.order <==> k in s.pending)
    && (forall k :: k in s.pending ==> PendingKey(s.pending[k].frame) == k)
  }

  function PyInitial(firstSeq: u16): PyState { PyState(firstSeq, map[], [], {}, map[]) }

  /** The order of the keys of a dict once some of them are deleted. */
  function Without(order: seq<Key>, gone: set<Key>): seq<Key> {
    if order == [] then []
    else
      var n := |order| - 1;
      if order[n] in gone then Without(order[..n], gone) else Without(order[..n], gone) + [order[n]]
  }

  lemma {:induction false} WithoutMembers(order: seq<Key>, gone: set<Key>)
    ensures forall k :: k in Without(order, gone) <==> k in order && k !in gone
  {
    if order != [] {
      var n := |order| - 1;
      WithoutMembers(order[..n], gone);
      assert order == order[..n] + [order[n]];
    }
  }

  lemma {:induction false} NoRepeatsPush<T>(s: seq<T>, x: T)
    requires NoRepeats(s) && x !in s
    ensures NoRepeats(s + [x])
  {}

  lemma {:induction false} WithoutRepeats(order: seq<Key>, gone: set<Key>)
    requires NoRepeats(order)
    ensures NoRepeats(Without(order, gone))
  {
    if order != [] {
      var n := |order| - 1;
      WithoutRepeats(order[..n], gone);
      WithoutMembers(order[..n], gone);
      if order[n] !in gone { NoRepeatsPush(Without(order[..n], gone), order[n]); }
    }
  }

  lemma {:induction false} WithoutPush(order: seq<Key>, key: Key, gone: set<Key>)
    ensures Without(order + [key], gone) ==
            if key in gone then Without(order, gone) else Without(order, gone) + [key]
  {
    assert (order + [key])[..|order|] == order;
  }

  lemma {:induction false} WithoutTwice(order: seq<Key>, a: set<Key>, b: set<Key>)
    ensures Without(Without(order, a), b) == Without(order, a + b)
  {
    if order != [] {
      var n := |order| - 1;
      WithoutTwice(order[..n], a, b);
      WithoutPush(Without(order[..n], a), order[n], b);
    }
  }

  lemma {:induction false} WithoutNothing(order: seq<Key>)
    ensures Without(order, {}) == order
  {
    if order != [] { WithoutNothing(order[..|order| - 1]); }
  }

  function PySend(c: PyConfig, s: PyState, dst: byte, family: byte, kind: byte, payload: seq<byte>, reliable: bool,
                  flags: byte, now: real): PySending
  {
    var f := Frame(c.addr, dst, Marked(flags, reliable), c.session, s.nextSeq, family, kind, payload);
    var s1 := s.(nextSeq := NextSeq(s.nextSeq));
    var key := PendingKey(f);
    PySending(if !reliable then s1
              else s1.(pending := s.pending[key := Waiting(f, now + c.timeout, 0)],
                       order := if key in s.pending then s.order else s.order + [key]),
              [Sent(f)], f)
  }

  /** _reset_seen_if_session_changed. */
  function Reset(s: PyState, f: Frame): PyState {
    if f.src in s.sessions && s.sessions[f.src] == f.session then s
    else s.(sessions := s.sessions[f.src := f.session], seen := set k | k in s.seen && k.peer != f.src)
  }

  function PyReceiveReliable(c: PyConfig, s: PyState, f: Frame): PyReceiving {
    var s1 := Reset(s, f);
    var s2 := s1.(nextSeq := NextSeq(s.nextSeq));
    var ack := Sent(AckOf(f, c.session, s.nextSeq));
    if SourceKey(f) in s1.seen then PyReceiving(s2, [ack], RxDuplicate)
    else PyReceiving(s2.(seen := s1.seen + {SourceKey(f)}), [ack, Delivered(f)], RxDelivered)
  }

  function PyReceive(c: PyConfig, s: PyState, f: Frame): PyReceiving {
    if f.dst != c.addr then PyReceiving(s, [], RxIgnored)
    else if IsAck(f) then
      if |f.payload| != 2 then PyReceiving(s, [], RxAck)
      else
        var key := Key(f.src, c.session, Join(f.payload[0], f.payload[1]));
        PyReceiving(s.(pending := s.pending - {key}, order := Without(s.order, {key})), [], RxAck)
    else if IsReliable(f) then PyReceiveReliable(c, s, f)
    else PyReceiving(s, [Delivered(f)], RxDelivered)
  }

  predicate Expired(w: Waiting, now: real) { now >= w.deadline }

  predicate GivesUp(c: PyConfig, w: Waiting, now: real) { Expired(w, now) && w.retries >= c.maxRetries }

  function PyTickEntry(c: PyConfig, w: Waiting, now: real): Waiting {
    if Expired(w, now) then Waiting(w.frame, now + c.timeout, w.retries + 1) else w
  }

  function PyEntryEvents(c: PyConfig, w: Waiting, now: real): seq<Event> {
    if !Expired(w, now) then [] else if w.retries >= c.maxRetries then [Failed(w.frame)] else [Sent(w.frame)]
  }

  function PyTickEvents(c: PyConfig, pending: map<Key, Waiting>, order: seq<Key>, now: real): seq<Event> {
    if order == [] then []
    else
      var n := |order| - 1;
      PyTickEvents(c, pending, order[..n], now) +
      if order[n] in pending then PyEntryEvents(c, pending[order[n]], now) else []
  }

  function PyTickPending(c: PyConfig, pending: map<Key, Waiting>, now: real): map<Key, Waiting> {
    map k | k in pending && !GivesUp(c, pending[k], now) :: PyTickEntry(c, pending[k], now)
  }

  function GivenUp(c: PyConfig, pending: map<Key, Waiting>, now: real): set<Key> {
    set k | k in pending && GivesUp(c, pending[k], now)
  }

  function PyTick(c: PyConfig, s: PyState, now: real): PyState {
    s.(pending := PyTickPending(c, s.pending, now), order := Without(s.order, GivenUp(c, s.pending, now)))
  }

  lemma {:induction false} PyTickValid(c: PyConfig, s: PyState, now: real)
    requires PyValid(s)
    ensures PyValid(PyTick(c, s, now))
  {
    WithoutMembers(s.order, GivenUp(c, s.pending, now));
    WithoutRepeats(s.order, GivenUp(c, s.pending, now));
  }

  lemma {:induction false} PySendValid(c: PyConfig, s: PyState, dst: byte, family: byte, kind: byte,
          payload: seq<byte>, reliable: bool, flags: byte, now: real)
    requires PyValid(s)
    ensures PyValid(PySend(c, s, dst, family, kind, payload, reliable, flags, now).state)
  {
    var key := Key(dst, c.session, s.nextSeq);
    if key !in s.order { NoRepeatsPush(s.order, key); }
  }

  lemma {:induction false} PyReceiveValid(c: PyConfig, s: PyState, f: Frame)
    requires PyValid(s)
    ensures PyValid(PyReceive(c, s, f).state)
  {
    if |f.payload| == 2 {
      var key := Key(f.src, c.session, Join(f.payload[0], f.payload[1]));
      WithoutMembers(s.order, {key});
      WithoutRepeats(s.order, {key});
    }
  }

  /** Python's seconds for a time in milliseconds. */
  function Seconds(at: nat): real { at as real / 1000.0 }
}
