/** The class of python/arc_protocol/reliable.py: a dict and a set changed in place, callbacks appended to a log. */
module PyReliable {
  import opened Bytes
  import opened Framing
  import opened Endpoint
  import opened PyEndpoint

  /** The list comprehension of tick. */
  function ExpiredKeys(pending: map<Key, Waiting>, order: seq<Key>, now: real): seq<Key> {
    if order == [] then []
    else
      var n := |order| - 1;
      if order[n] in pending && Expired(pending[order[n]], now) then ExpiredKeys(pending, order[..n], now) + [order[n]]
      else ExpiredKeys(pending, order[..n], now)
  }

  lemma {:induction false} ExpiredMembers(pending: map<Key, Waiting>, order: seq<Key>, now: real)
    ensures forall k :: k in ExpiredKeys(pending, order, now) <==> k in order && k in pending && Expired(pending[k], now)
  {
    if order != [] {
      var n := |order| - 1;
      ExpiredMembers(pending, order[..n], now);
      assert order == order[..n] + [order[n]];
    }
  }

  lemma {:induction false} ExpiredRepeats(pending: map<Key, Waiting>, order: seq<Key>, now: real)
    requires NoRepeats(order)
    ensures NoRepeats(ExpiredKeys(pending, order, now))
  {
    if order != [] {
      var n := |order| - 1;
      ExpiredRepeats(pending, order[..n], now);
      ExpiredMembers(pending, order[..n], now);
      if order[n] in pending && Expired(pending[order[n]], now) {
        NoRepeatsPush(ExpiredKeys(pending, order[..n], now), order[n]);
      }
    }
  }

  lemma {:induction false} OnlyExpiredAct(c: PyConfig, pending: map<Key, Waiting>, order: seq<Key>, now: real)
    ensures PyTickEvents(c, pending, ExpiredKeys(pending, order, now), now) == PyTickEvents(c, pending, order, now)
  {
    if order != [] {
      var n := |order| - 1;
      OnlyExpiredAct(c, pending, order[..n], now);
      if order[n] in pending && Expired(pending[order[n]], now) {
        EventsPush(c, pending, ExpiredKeys(pending, order[..n], now), order[n], now);
      } else {
        assert PyTickEvents(c, pending, order, now) == PyTickEvents(c, pending, order[..n], now) + [];
      }
    }
  }

  lemma {:induction false} EventsPush(c: PyConfig, pending: map<Key, Waiting>, order: seq<Key>, key: Key, now: real)
    requires key in pending
    ensures PyTickEvents(c, pending, order + [key], now) ==
            PyTickEvents(c, pending, order, now) + PyEntryEvents(c, pending[key], now)
  {
    assert (order + [key])[..|order|] == order;
  }

  /** The dict when the keys in done have been dealt with. */
  function Partly(c: PyConfig, pending: map<Key, Waiting>, done: set<Key>, now: real): map<Key, Waiting> {
    map k | k in pending && !(k in done && GivesUp(c, pending[k], now)) ::
      if k in done then PyTickEntry(c, pending[k], now) else pending[k]
  }

  /** What tick does with one expired key of the dict. */
  function KeyPending(c: PyConfig, pending: map<Key, Waiting>, key: Key, now: real): map<Key, Waiting> {
    if key !in pending then pending
    else if GivesUp(c, pending[key], now) then pending - {key}
    else pending[key := PyTickEntry(c, pending[key], now)]
  }

  function KeyOrder(c: PyConfig, pending: map<Key, Waiting>, order: seq<Key>, key: Key, now: real): seq<Key> {
    if key in pending && GivesUp(c, pending[key], now) then Without(order, {key}) else order
  }

  function KeyEvents(c: PyConfig, pending: map<Key, Waiting>, key: Key, now: real): seq<Event> {
    if key in pending then PyEntryEvents(c, pending[key], now) else []
  }

  class ReliableEndpoint {
    const config: PyConfig
    var nextSeq: u16
    var pending: map<Key, Waiting>
    var order: seq<Key>
    var seen: set<Key>
    var sourceSessions: map<byte, byte>
    ghost var log: seq<Event>

    ghost function Value(): PyState
      reads this
    {
      PyState(nextSeq, pending, order, seen, sourceSessions)
    }

    ghost predicate Valid()
      reads this
    {
      PyValid(Value())
    }

    constructor (addr: byte, session: byte, timeout: real, maxRetries: int, firstSeq: nat)
      ensures Valid() && config == PyConfig(addr, session, timeout, maxRetries)
      ensures Value() == PyInitial(firstSeq % 0x1_0000) && log == []
    {
      config := PyConfig(addr, session, timeout, maxRetries);
      nextSeq := firstSeq % 0x1_0000;
      pending, order, seen, sourceSessions, log := map[], [], {}, map[], [];
    }

    /** _take_seq. */
    method TakeSeq() returns (seqno: u16)
      modifies `nextSeq
      ensures seqno == old(nextSeq) && nextSeq == NextSeq(old(nextSeq))
    {
      seqno := nextSeq;
      nextSeq := (nextSeq + 1) % 0x1_0000;
    }

    method Send(dst: byte, family: byte, kind: byte, payload: seq<byte>, reliable: bool, flags: byte, now: real)
      returns (f: Frame)
      requires Valid()
      modifies this
      ensures Valid()
      ensures var sending := PySend(config, old(Value()), dst, family, kind, payload, reliable, flags, now);
              f == sending.frame && Value() == sending.state && log == old(log) + sending.events
    {
      PySendValid(config, Value(), dst, family, kind, payload, reliable, flags, now);
      var allFlags := Marked(flags, reliable);
      var seqno := TakeSeq();
      f := Frame(config.addr, dst, allFlags, config.session, seqno, family, kind, payload);
      if reliable {
        var key := PendingKey(f);
        if key !in pending { order := order + [key]; }
        pending := pending[key := Waiting(f, now + config.timeout, 0)];
      }
      log := log + [Sent(f)];
    }

    /** _send_ack. */
    method SendAck(f: Frame)
      requires f.dst == config.addr
      modifies `nextSeq, `log
      ensures nextSeq == NextSeq(old(nextSeq)) && log == old(log) + [Sent(AckOf(f, config.session, old(nextSeq)))]
    {
      var seqno := TakeSeq();
      var ack := Frame(config.addr, f.src, FLAG_ACK, config.session, seqno, FAMILY_NETMGMT, NETMGMT_ACK,
                       [High(f.seqno), Low(f.seqno)]);
      log := log + [Sent(ack)];
    }

    method Receive(f: Frame) returns (rx: Rx)
      requires Valid()
      modifies this
      ensures Valid()
      ensures var receiving := PyReceive(config, old(Value()), f);
              rx == receiving.rx && Value() == receiving.state && log == old(log) + receiving.events
    {
      PyReceiveValid(config, Value(), f);
      if f.dst != config.addr { return RxIgnored; }
      if IsAck(f) {
        if |f.payload| == 2 {
          var key := Key(f.src, config.session, Join(f.payload[0], f.payload[1]));
          order := Without(order, {key});
          pending := pending - {key};
        }
        return RxAck;
      }
      if IsReliable(f) {
        if !(f.src in sourceSessions && sourceSessions[f.src] == f.session) {
          sourceSessions := sourceSessions[f.src := f.session];
          seen := set k | k in seen && k.peer != f.src;
        }
        SendAck(f);
        if SourceKey(f) in seen { return RxDuplicate; }
        seen := seen + {SourceKey(f)};
      }
      log := log + [Delivered(f)];
      return RxDelivered;
    }

    /** One key of the snapshot tick takes. */
    method TickKey(key: Key, now: real)
      requires key in pending ==> Expired(pending[key], now)
      modifies `pending, `order, `log
      ensures pending == KeyPending(config, old(pending), key, now)
      ensures order == KeyOrder(config, old(pending), old(order), key, now)
      ensures log == old(log) + KeyEvents(config, old(pending), key, now)
    {
      if key in pending {
        var w := pending[key];
        if w.retries >= config.maxRetries {
          pending := pending - {key};
          order := Without(order, {key});
          log := log + [Failed(w.frame)];
        } else {
          pending := pending[key := Waiting(w.frame, now + config.timeout, w.retries + 1)];
          log := log + [Sent(w.frame)];
        }
      }
    }

    /** The list comprehension of tick. */
    method Snapshot(now: real) returns (expired: seq<Key>)
      requires Valid()
      ensures expired == ExpiredKeys(pending, order, now)
    {
      expired := [];
      for i := 0 to |order|
        invariant expired == ExpiredKeys(pending, order[..i], now)
      {
        assert order[..i + 1][..i] == order[..i];
        if Expired(pending[order[i]], now) { expired := expired + [order[i]]; }
      }
      assert order[..|order|] == order;
    }

    /** tick: a snapshot of the expired keys, then one after the other. */
    method Tick(now: real)
      requires Valid()
      modifies `pending, `order, `log
      ensures Valid() && Value() == PyTick(config, old(Value()), now)
      ensures log == old(log) + PyTickEvents(config, old(pending), old(order), now)
    {
      ghost var before := Value();
      var expired := Snapshot(now);
      for i := 0 to |expired|
        invariant pending == PendingFold(config, before.pending, expired, i, now)
        invariant order == OrderFold(config, before.pending, before.order, expired, i, now)
        invariant log == old(log) + EventsFold(config, before.pending, expired, i, now)
      {
        FoldFindsExpired(config, before, expired, i, now);
        TickKey(expired[i], now);
      }
      FoldIsTick(config, before, expired, now);
    }
  }

  /** The dict, its order and the callbacks once the first i keys have been dealt with. */
  function PendingFold(c: PyConfig, pending: map<Key, Waiting>, keys: seq<Key>, i: nat, now: real): map<Key, Waiting>
    requires i <= |keys|
  {
    if i == 0 then pending else KeyPending(c, PendingFold(c, pending, keys, i - 1, now), keys[i - 1], now)
  }

  function OrderFold(c: PyConfig, pending: map<Key, Waiting>, order: seq<Key>, keys: seq<Key>, i: nat,
          now: real): seq<Key>
    requires i <= |keys|
  {
    if i == 0 then order
    else KeyOrder(c, PendingFold(c, pending, keys, i - 1, now), OrderFold(c, pending, order, keys, i - 1, now),
                  keys[i - 1], now)
  }

  function EventsFold(c: PyConfig, pending: map<Key, Waiting>, keys: seq<Key>, i: nat, now: real): seq<Event>
    requires i <= |keys|
  {
    if i == 0 then []
    else EventsFold(c, pending, keys, i - 1, now) +
         KeyEvents(c, PendingFold(c, pending, keys, i - 1, now), keys[i - 1], now)
  }

  ghost function Gone(c: PyConfig, pending: map<Key, Waiting>, done: seq<Key>, now: real): set<Key> {
    set k | k in done && k in pending && GivesUp(c, pending[k], now)
  }

  /** The first i expired keys have been dealt with. */
  ghost predicate Midway(c: PyConfig, pending0: map<Key, Waiting>, order0: seq<Key>, expired: seq<Key>, i: nat,
                         pending: map<Key, Waiting>, order: seq<Key>, now: real)
  {
    && i <= |expired| && NoRepeats(expired)
    && (forall k :: k in expired ==> k in pending0 && Expired(pending0[k], now))
    && pending == Partly(c, pending0, (set k | k in expired[..i]), now)
    && order == Without(order0, Gone(c, pending0, expired[..i], now))
  }

  lemma {:induction false} MidwayStarts(c: PyConfig, pending: map<Key, Waiting>, order: seq<Key>, now: real)
    requires NoRepeats(order)
    ensures var expired := ExpiredKeys(pending, order, now);
            Midway(c, pending, order, expired, 0, pending, order, now) && PyTickEvents(c, pending, expired[..0], now) == []
  {
    var expired := ExpiredKeys(pending, order, now);
    ExpiredMembers(pending, order, now);
    ExpiredRepeats(pending, order, now);
    WithoutNothing(order);
    assert expired[..0] == [];
    assert Gone(c, pending, [], now) == {};
  }

  lemma {:induction false} MidwayStep(c: PyConfig, pending0: map<Key, Waiting>, order0: seq<Key>, expired: seq<Key>,
          i: nat, pending: map<Key, Waiting>, order: seq<Key>, now: real)
    requires i < |expired| && Midway(c, pending0, order0, expired, i, pending, order, now)
    ensures var key := expired[i];
            && (key in pending ==> Expired(pending[key], now))
            && Midway(c, pending0, order0, expired, i + 1, KeyPending(c, pending, key, now),
                      KeyOrder(c, pending, order, key, now), now)
            && PyTickEvents(c, pending0, expired[..i + 1], now) ==
               PyTickEvents(c, pending0, expired[..i], now) + KeyEvents(c, pending, key, now)
  {
    var key := expired[i];
    assert expired[..i + 1] == expired[..i] + [key];
    assert key !in expired[..i];
    var gone := Gone(c, pending0, expired[..i], now);
    WithoutTwice(order0, gone, {key});
    EventsPush(c, pending0, expired[..i], key, now);
    if GivesUp(c, pending0[key], now) {
      assert Gone(c, pending0, expired[..i + 1], now) == gone + {key};
    } else {
      assert Gone(c, pending0, expired[..i + 1], now) == gone;
    }
  }

  lemma {:induction false} MidwayEnds(c: PyConfig, pending0: map<Key, Waiting>, order0: seq<Key>, expired: seq<Key>,
                   pending: map<Key, Waiting>, order: seq<Key>, now: real)
    requires (forall k :: k in order0 <==> k in pending0) && expired == ExpiredKeys(pending0, order0, now)
    requires Midway(c, pending0, order0, expired, |expired|, pending, order, now)
    ensures pending == PyTickPending(c, pending0, now) && order == Without(order0, GivenUp(c, pending0, now))
    ensures PyTickEvents(c, pending0, expired[..|expired|], now) == PyTickEvents(c, pending0, order0, now)
  {
    assert expired[..|expired|] == expired;
    ExpiredMembers(pending0, order0, now);
    assert Gone(c, pending0, expired, now) == GivenUp(c, pending0, now);
    OnlyExpiredAct(c, pending0, order0, now);
  }

  ghost predicate FoldMidway(c: PyConfig, s: PyState, expired: seq<Key>, i: nat, now: real) {
    && i <= |expired|
    && Midway(c, s.pending, s.order, expired, i, PendingFold(c, s.pending, expired, i, now),
              OrderFold(c, s.pending, s.order, expired, i, now), now)
    && EventsFold(c, s.pending, expired, i, now) == PyTickEvents(c, s.pending, expired[..i], now)
  }

  lemma {:induction false} FoldNext(c: PyConfig, s: PyState, expired: seq<Key>, i: nat, now: real)
    requires FoldMidway(c, s, expired, i, now) && i < |expired|
    ensures FoldMidway(c, s, expired, i + 1, now)
  {
    MidwayStep(c, s.pending, s.order, expired, i, PendingFold(c, s.pending, expired, i, now),
               OrderFold(c, s.pending, s.order, expired, i, now), now);
  }

  lemma {:induction false} FoldIsMidway(c: PyConfig, s: PyState, expired: seq<Key>, i: nat, now: real)
    requires PyValid(s) && expired == ExpiredKeys(s.pending, s.order, now) && i <= |expired|
    ensures FoldMidway(c, s, expired, i, now)
  {
    if i == 0 {
      MidwayStarts(c, s.pending, s.order, now);
    } else {
      FoldIsMidway(c, s, expired, i - 1, now);
      FoldNext(c, s, expired, i - 1, now);
    }
  }

  lemma {:induction false} FoldFindsExpired(c: PyConfig, s: PyState, expired: seq<Key>, i: nat, now: real)
    requires PyValid(s) && expired == ExpiredKeys(s.pending, s.order, now) && i < |expired|
    ensures var d := PendingFold(c, s.pending, expired, i, now);
            expired[i] in d ==> Expired(d[expired[i]], now)
  {
    FoldIsMidway(c, s, expired, i, now);
    MidwayStep(c, s.pending, s.order, expired, i, PendingFold(c, s.pending, expired, i, now),
               OrderFold(c, s.pending, s.order, expired, i, now), now);
  }

  lemma {:induction false} FoldIsTick(c: PyConfig, s: PyState, expired: seq<Key>, now: real)
    requires PyValid(s) && expired == ExpiredKeys(s.pending, s.order, now)
    ensures s.(pending := PendingFold(c, s.pending, expired, |expired|, now),
               order := OrderFold(c, s.pending, s.order, expired, |expired|, now)) == PyTick(c, s, now)
    ensures PyValid(PyTick(c, s, now))
    ensures EventsFold(c, s.pending, expired, |expired|, now) == PyTickEvents(c, s.pending, s.order, now)
  {
    PyTickValid(c, s, now);
    FoldIsMidway(c, s, expired, |expired|, now);
    MidwayEnds(c, s.pending, s.order, expired, PendingFold(c, s.pending, expired, |expired|, now),
               OrderFold(c, s.pending, s.order, expired, |expired|, now), now);
  }
}
