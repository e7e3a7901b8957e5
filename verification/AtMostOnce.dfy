/** Duplicate suppression of the unbounded endpoint: exactly which arrivals it takes for duplicates. */
module AtMostOnce {
  import opened Bytes
  import opened Framing
  import opened Endpoint
  import opened PyEndpoint
  import opened Runs

  /** Arrival j had this key, and since then its source has not used another session. */
  ghost predicate StillKnown(addr: byte, xs: seq<Input>, key: Key, j: nat) {
    && j < |xs| && Arrives(addr, xs[j]) && ArrivalKey(xs[j]) == key
    && forall m :: j < m < |xs| && Arrives(addr, xs[m]) && ArrivalKey(xs[m]).peer == key.peer ==>
                     ArrivalKey(xs[m]).session == key.session
  }

  ghost predicate Known(addr: byte, xs: seq<Input>, key: Key) { exists j: nat :: StillKnown(addr, xs, key, j) }

  /** Seen keys carry the session their source was last heard with. */
  ghost predicate SessionsAgree(s: PyState) {
    forall k :: k in s.seen ==> k.peer in s.sessions && s.sessions[k.peer] == k.session
  }

  /** What one call does to the set of seen keys and to the recorded sessions. */
  lemma {:induction false} PyStepSeen(c: PyConfig, s: PyState, x: Input)
    ensures var r := PyStep(c, s, x).state;
            if Arrives(c.addr, x) then
              && r.sessions == s.sessions[ArrivalKey(x).peer := ArrivalKey(x).session]
              && r.seen == Reset(s, x.action.frame).seen + {ArrivalKey(x)}
            else r.seen == s.seen && r.sessions == s.sessions
  {}

  lemma {:induction false} PyStepSessions(c: PyConfig, s: PyState, x: Input)
    requires SessionsAgree(s)
    ensures SessionsAgree(PyStep(c, s, x).state)
  {
    PyStepSeen(c, s, x);
  }

  lemma {:induction false} PyAfterSessions(c: PyConfig, firstSeq: u16, xs: seq<Input>)
    ensures SessionsAgree(PyAfter(c, PyInitial(firstSeq), xs))
  {
    if xs != [] {
      var ys := xs[..|xs| - 1];
      PyAfterSessions(c, firstSeq, ys);
      PyStepSessions(c, PyAfter(c, PyInitial(firstSeq), ys), xs[|xs| - 1]);
    }
  }

  /** Known, one call later. */
  lemma {:induction false} KnownStep(addr: byte, ys: seq<Input>, x: Input, key: Key)
    ensures Known(addr, ys + [x], key) <==>
              if !Arrives(addr, x) || ArrivalKey(x).peer != key.peer then Known(addr, ys, key)
              else ArrivalKey(x) == key || (Known(addr, ys, key) && ArrivalKey(x).session == key.session)
  {
    var xs := ys + [x];
    if Known(addr, xs, key) {
      var j: nat :| StillKnown(addr, xs, key, j);
      if j < |ys| {
        assert StillKnown(addr, ys, key, j) by {
          forall m | j < m < |ys| && Arrives(addr, ys[m]) && ArrivalKey(ys[m]).peer == key.peer
            ensures ArrivalKey(ys[m]).session == key.session
          {
            assert xs[m] == ys[m];
          }
        }
        assert xs[|ys|] == x;
      }
    }
    if Known(addr, ys, key) &&
       !(Arrives(addr, x) && ArrivalKey(x).peer == key.peer && ArrivalKey(x).session != key.session) {
      var j: nat :| StillKnown(addr, ys, key, j);
      assert StillKnown(addr, xs, key, j);
    }
    if Arrives(addr, x) && ArrivalKey(x) == key {
      assert StillKnown(addr, xs, key, |ys|);
    }
  }

  /** The set of seen keys, described by what has arrived. */
  lemma {:induction false} SeenIffKnown(c: PyConfig, firstSeq: u16, xs: seq<Input>, key: Key)
    ensures key in PyAfter(c, PyInitial(firstSeq), xs).seen <==> Known(c.addr, xs, key)
    decreases |xs|
  {
    if xs == [] {
    } else {
      var ys, x := xs[..|xs| - 1], xs[|xs| - 1];
      var s := PyAfter(c, PyInitial(firstSeq), ys);
      assert xs == ys + [x];
      SeenIffKnown(c, firstSeq, ys, key);
      PyAfterSessions(c, firstSeq, ys);
      KnownStep(c.addr, ys, x, key);
      PyStepSeen(c, s, x);
    }
  }

  /** An arrival is called a duplicate exactly when its key has arrived before and its source has not used another
      session in between; every other arrival is delivered, and both are acknowledged. */
  lemma {:induction false} DuplicateIff(c: PyConfig, firstSeq: u16, xs: seq<Input>)
    requires xs != [] && Arrives(c.addr, xs[|xs| - 1])
    ensures var ys, f, m := xs[..|xs| - 1], xs[|xs| - 1].action.frame, PyLast(c, PyInitial(firstSeq), xs);
            && m.outcome == Receives(if Known(c.addr, ys, SourceKey(f)) then RxDuplicate else RxDelivered)
            && Sent(AckOf(f, c.session, PyAfter(c, PyInitial(firstSeq), ys).nextSeq)) in m.events
            && (Delivered(f) in m.events <==> !Known(c.addr, ys, SourceKey(f)))
  {
    var ys, f := xs[..|xs| - 1], xs[|xs| - 1].action.frame;
    var s := PyAfter(c, PyInitial(firstSeq), ys);
    SeenIffKnown(c, firstSeq, ys, SourceKey(f));
    PyAfterSessions(c, firstSeq, ys);
    assert SourceKey(f) in Reset(s, f).seen <==> SourceKey(f) in s.seen;
  }

  /** Call i of a run delivers a reliable frame with this key. */
  ghost predicate Delivers(c: PyConfig, firstSeq: u16, xs: seq<Input>, i: nat, key: Key) {
    && i < |xs| && Arrives(c.addr, xs[i]) && ArrivalKey(xs[i]) == key
    && PyLast(c, PyInitial(firstSeq), xs[..i + 1]).outcome == Receives(RxDelivered)
  }

  /** No frame of a source comes in again after the source has used another session. */
  ghost predicate NoReturn(addr: byte, xs: seq<Input>) {
    forall i: nat, j: nat, k: nat :: i < j < k < |xs| ==> !Returns(addr, xs, i, j, k)
  }

  /** Calls i and k are arrivals of one key, call j in between is of the same source with another session. */
  ghost predicate Returns(addr: byte, xs: seq<Input>, i: nat, j: nat, k: nat)
    requires i < j < k < |xs|
  {
    && Arrives(addr, xs[i]) && Arrives(addr, xs[j]) && Arrives(addr, xs[k])
    && ArrivalKey(xs[i]) == ArrivalKey(xs[k]) && ArrivalKey(xs[j]).peer == ArrivalKey(xs[i]).peer
    && ArrivalKey(xs[j]).session != ArrivalKey(xs[i]).session
  }

  ghost predicate DeliversTwice(c: PyConfig, firstSeq: u16, xs: seq<Input>, i: nat, k: nat, key: Key) {
    i < k && Delivers(c, firstSeq, xs, i, key) && Delivers(c, firstSeq, xs, k, key)
  }

  ghost predicate AtMostOnce(c: PyConfig, firstSeq: u16, xs: seq<Input>) {
    forall i: nat, k: nat, key :: !DeliversTwice(c, firstSeq, xs, i, k, key)
  }

  /** A key is delivered again by call k exactly when its source has used another session since every earlier
      arrival of the key. */
  lemma {:induction false} DeliversIff(c: PyConfig, firstSeq: u16, xs: seq<Input>, k: nat, key: Key)
    requires k < |xs| && Arrives(c.addr, xs[k]) && ArrivalKey(xs[k]) == key
    ensures Delivers(c, firstSeq, xs, k, key) <==> !Known(c.addr, xs[..k], key)
  {
    assert xs[..k + 1][..k] == xs[..k];
    DuplicateIff(c, firstSeq, xs[..k + 1]);
  }

  lemma {:induction false} NotKnown(addr: byte, xs: seq<Input>, key: Key, from: nat)
    requires from <= |xs|
    requires forall j :: from <= j < |xs| && Arrives(addr, xs[j]) ==> ArrivalKey(xs[j]) != key
    requires from > 0 ==> Arrives(addr, xs[from - 1]) && ArrivalKey(xs[from - 1]).peer == key.peer &&
                          ArrivalKey(xs[from - 1]).session != key.session
    ensures !Known(addr, xs, key)
  {
    forall j: nat ensures !StillKnown(addr, xs, key, j) {}
  }

  /** And each key that arrives is delivered, at its first arrival. */
  lemma {:induction false} FirstArrivalDelivered(c: PyConfig, firstSeq: u16, xs: seq<Input>, i: nat, key: Key)
    requires i < |xs| && Arrives(c.addr, xs[i]) && ArrivalKey(xs[i]) == key
    requires forall j :: 0 <= j < i && Arrives(c.addr, xs[j]) ==> ArrivalKey(xs[j]) != key
    ensures Delivers(c, firstSeq, xs, i, key)
  {
    NotKnown(c.addr, xs[..i], key, 0);
    DeliversIff(c, firstSeq, xs, i, key);
  }

  /** The first arrival of a key at or after a call. */
  lemma {:induction false} FirstArrival(addr: byte, xs: seq<Input>, key: Key, from: nat, k: nat) returns (i: nat)
    requires from <= k < |xs| && Arrives(addr, xs[k]) && ArrivalKey(xs[k]) == key
    ensures from <= i <= k && Arrives(addr, xs[i]) && ArrivalKey(xs[i]) == key
    ensures forall j :: from <= j < i && Arrives(addr, xs[j]) ==> ArrivalKey(xs[j]) != key
  {
    i := from;
    while !(Arrives(addr, xs[i]) && ArrivalKey(xs[i]) == key)
      invariant from <= i <= k
      invariant forall j :: from <= j < i && Arrives(addr, xs[j]) ==> ArrivalKey(xs[j]) != key
      decreases k - i
    {
      i := i + 1;
    }
  }

  lemma {:induction false} ReturnDelivers(c: PyConfig, firstSeq: u16, xs: seq<Input>, j: nat, k: nat, key: Key)
    requires j < k < |xs| && Arrives(c.addr, xs[k]) && ArrivalKey(xs[k]) == key
    requires Arrives(c.addr, xs[j]) && ArrivalKey(xs[j]).peer == key.peer && ArrivalKey(xs[j]).session != key.session
    requires forall m :: j < m < k && Arrives(c.addr, xs[m]) ==> ArrivalKey(xs[m]) != key
    ensures Delivers(c, firstSeq, xs, k, key)
  {
    NotKnown(c.addr, xs[..k], key, j + 1);
    DeliversIff(c, firstSeq, xs, k, key);
  }

  lemma {:induction false} StaysKnown(addr: byte, xs: seq<Input>, i: nat, k: nat, key: Key)
    requires NoReturn(addr, xs) && i < k < |xs|
    requires Arrives(addr, xs[i]) && Arrives(addr, xs[k]) && ArrivalKey(xs[i]) == ArrivalKey(xs[k]) == key
    ensures Known(addr, xs[..k], key)
  {
    var ys := xs[..k];
    forall m | i < m < |ys| && Arrives(addr, ys[m]) && ArrivalKey(ys[m]).peer == key.peer
      ensures ArrivalKey(ys[m]).session == key.session
    {
      assert !Returns(addr, xs, i, m, k);
    }
    assert StillKnown(addr, ys, key, i);
  }

  /** Each frame is delivered at most once in exactly those runs in which no frame comes in again after its source
      has used another session. */
  lemma {:induction false} AtMostOnceIff(c: PyConfig, firstSeq: u16, xs: seq<Input>)
    ensures AtMostOnce(c, firstSeq, xs) <==> NoReturn(c.addr, xs)
  {
    if NoReturn(c.addr, xs) {
      forall i: nat, k: nat, key ensures !DeliversTwice(c, firstSeq, xs, i, k, key) {
        if i < k < |xs| && Arrives(c.addr, xs[k]) && ArrivalKey(xs[k]) == key && Delivers(c, firstSeq, xs, i, key) {
          StaysKnown(c.addr, xs, i, k, key);
          DeliversIff(c, firstSeq, xs, k, key);
        }
      }
    }
    forall i: nat, j: nat, k: nat | i < j < k < |xs| && Returns(c.addr, xs, i, j, k)
      ensures !AtMostOnce(c, firstSeq, xs)
    {
      var key := ArrivalKey(xs[i]);
      var i' := FirstArrival(c.addr, xs, key, 0, i);
      FirstArrivalDelivered(c, firstSeq, xs, i', key);
      var k' := FirstArrival(c.addr, xs, key, j + 1, k);
      ReturnDelivers(c, firstSeq, xs, j, k', key);
      assert DeliversTwice(c, firstSeq, xs, i', k', key);
    }
  }

  function ReliableFrame(src: byte, dst: byte, session: byte): Frame {
    Frame(src, dst, FLAG_RELIABLE, session, 0, 1, 1, [])
  }

  /** A source in session 1, then in session 2, then in session 1 again. */
  function ThereAndBack(src: byte, dst: byte): seq<Input> {
    [Input(0, DoReceive(ReliableFrame(src, dst, 1))), Input(0, DoReceive(ReliableFrame(src, dst, 2))),
     Input(0, DoReceive(ReliableFrame(src, dst, 1)))]
  }

  /** Three arrivals are enough for delivering a frame twice. */
  lemma {:induction false} ThereAndBackDeliversTwice(c: PyConfig, firstSeq: u16, src: byte)
    ensures DeliversTwice(c, firstSeq, ThereAndBack(src, c.addr), 0, 2, Key(src, 1, 0))
  {
    var xs, key := ThereAndBack(src, c.addr), Key(src, 1, 0);
    ReliableFrameIsReliable(src, c.addr, 1);
    ReliableFrameIsReliable(src, c.addr, 2);
    FirstArrivalDelivered(c, firstSeq, xs, 0, key);
    ReturnDelivers(c, firstSeq, xs, 1, 2, key);
  }

  lemma {:induction false} ReliableFrameIsReliable(src: byte, dst: byte, session: byte)
    ensures IsReliable(ReliableFrame(src, dst, session)) && !IsAck(ReliableFrame(src, dst, session))
  {}
}
