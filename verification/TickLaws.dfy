/** What one tick does to each pending frame, and in which order it makes its callbacks. */
module TickLaws {
  import opened Bytes
  import opened Endpoint
  import opened PyEndpoint

  // ---------------------------------------------------------------------
  // The C endpoint: slot by slot.
  // ---------------------------------------------------------------------

  /** In use, and the clock, read as a signed difference, is at or past the deadline. */
  predicate DueSlot(p: Pending, now: u32) { p.inUse && (now - p.deadline) % 0x1_0000_0000 < 0x8000_0000 }

  function DueBefore(ps: seq<Pending>, now: u32, n: nat): nat
    requires n <= |ps|
  {
    if n == 0 then 0 else DueBefore(ps, now, n - 1) + if DueSlot(ps[n - 1], now) then 1 else 0
  }

  /** A due slot is freed once it has been retransmitted max_retries times, else counted up and due again timeout_ms
      from now; every other slot stays as it is. */
  lemma {:induction false} SlotAfterTick(c: Config, s: State, now: u32, i: nat)
    requires i < |s.pending|
    ensures var s', p := Tick(c, s, now), s.pending[i];
            && s'.table == s.table && s'.nextSeq == s.nextSeq && |s'.pending| == |s.pending|
            && s'.pending[i] ==
               if !DueSlot(p, now) then p
               else if p.retries >= c.maxRetries then p.(inUse := false)
               else p.(deadline := (now + c.timeout) % 0x1_0000_0000, retries := p.retries + 1)
  {}

  lemma {:induction false} SlotCalls(c: Config, p: Pending, now: u32)
    ensures SlotEvents(c, p, now) ==
            if !DueSlot(p, now) then []
            else if p.retries >= c.maxRetries then [Failed(p.frame)] else [Sent(p.frame)]
  {}

  lemma {:induction false} CallsTo(c: Config, ps: seq<Pending>, now: u32, n: nat)
    requires n <= |ps|
    ensures |TickEvents(c, ps[..n], now)| == DueBefore(ps, now, n)
    ensures forall i :: 0 <= i < n && DueSlot(ps[i], now) ==>
              DueBefore(ps, now, i) < DueBefore(ps, now, n) &&
              TickEvents(c, ps[..n], now)[DueBefore(ps, now, i)] ==
                if ps[i].retries >= c.maxRetries then Failed(ps[i].frame) else Sent(ps[i].frame)
  {
    if n > 0 {
      CallsTo(c, ps, now, n - 1);
      SlotCalls(c, ps[n - 1], now);
      assert ps[..n][..n - 1] == ps[..n - 1];
    }
  }

  /** One callback for each due slot, in slot order, and no other. */
  lemma {:induction false} CallsInSlotOrder(c: Config, ps: seq<Pending>, now: u32)
    ensures |TickEvents(c, ps, now)| == DueBefore(ps, now, |ps|)
    ensures forall i :: 0 <= i < |ps| && DueSlot(ps[i], now) ==>
              DueBefore(ps, now, i) < |TickEvents(c, ps, now)| &&
              TickEvents(c, ps, now)[DueBefore(ps, now, i)] ==
                if ps[i].retries >= c.maxRetries then Failed(ps[i].frame) else Sent(ps[i].frame)
  {
    CallsTo(c, ps, now, |ps|);
    assert ps[..|ps|] == ps;
  }

  // ---------------------------------------------------------------------
  // The Python endpoint: entry by entry, in the order of the dict.
  // ---------------------------------------------------------------------

  predicate DueEntry(d: map<Key, Waiting>, k: Key, now: real) { k in d && now >= d[k].deadline }

  function DueEntriesBefore(d: map<Key, Waiting>, order: seq<Key>, now: real, n: nat): nat
    requires n <= |order|
  {
    if n == 0 then 0 else DueEntriesBefore(d, order, now, n - 1) + if DueEntry(d, order[n - 1], now) then 1 else 0
  }

  lemma {:induction false} EntryAfterTick(c: PyConfig, s: PyState, now: real, k: Key)
    requires k in s.pending
    ensures var s', w := PyTick(c, s, now), s.pending[k];
            && s'.seen == s.seen && s'.sessions == s.sessions && s'.nextSeq == s.nextSeq
            && (k in s'.pending <==> !(now >= w.deadline && w.retries >= c.maxRetries))
            && (k in s'.pending ==>
                  s'.pending[k] == if now >= w.deadline then Waiting(w.frame, now + c.timeout, w.retries + 1) else w)
  {}

  lemma {:induction false} PyCallsTo(c: PyConfig, d: map<Key, Waiting>, order: seq<Key>, now: real, n: nat)
    requires n <= |order|
    ensures |PyTickEvents(c, d, order[..n], now)| == DueEntriesBefore(d, order, now, n)
    ensures forall i :: 0 <= i < n && DueEntry(d, order[i], now) ==>
              DueEntriesBefore(d, order, now, i) < DueEntriesBefore(d, order, now, n) &&
              PyTickEvents(c, d, order[..n], now)[DueEntriesBefore(d, order, now, i)] ==
                if d[order[i]].retries >= c.maxRetries then Failed(d[order[i]].frame) else Sent(d[order[i]].frame)
  {
    if n > 0 {
      PyCallsTo(c, d, order, now, n - 1);
      assert order[..n][..n - 1] == order[..n - 1];
    }
  }

  /** One callback for each expired entry, in the order in which the dict lists them, and no other. */
  lemma {:induction false} CallsInDictOrder(c: PyConfig, d: map<Key, Waiting>, order: seq<Key>, now: real)
    ensures |PyTickEvents(c, d, order, now)| == DueEntriesBefore(d, order, now, |order|)
    ensures forall i :: 0 <= i < |order| && DueEntry(d, order[i], now) ==>
              DueEntriesBefore(d, order, now, i) < |PyTickEvents(c, d, order, now)| &&
              PyTickEvents(c, d, order, now)[DueEntriesBefore(d, order, now, i)] ==
                if d[order[i]].retries >= c.maxRetries then Failed(d[order[i]].frame) else Sent(d[order[i]].frame)
  {
    PyCallsTo(c, d, order, now, |order|);
    assert order[..|order|] == order;
  }

  /** x comes before y. */
  ghost predicate Precedes(order: seq<Key>, x: Key, y: Key) {
    exists i, j :: 0 <= i < j < |order| && order[i] == x && order[j] == y
  }

  /** Deleting keys keeps the others in their order. */
  lemma {:induction false} OrderIsKept(order: seq<Key>, gone: set<Key>, x: Key, y: Key)
    requires Precedes(order, x, y) && x !in gone && y !in gone
    ensures Precedes(Without(order, gone), x, y)
  {
    var i, j :| 0 <= i < j < |order| && order[i] == x && order[j] == y;
    var n := |order| - 1;
    var t := Without(order[..n], gone);
    if j < n {
      assert order[..n][i] == x && order[..n][j] == y;
      OrderIsKept(order[..n], gone, x, y);
      var a, b :| 0 <= a < b < |t| && t[a] == x && t[b] == y;
      assert Without(order, gone)[a] == x && Without(order, gone)[b] == y;
    } else {
      WithoutMembers(order[..n], gone);
      assert x in order[..n] by { assert order[..n][i] == x; }
      var a :| 0 <= a < |t| && t[a] == x;
      assert Without(order, gone)[a] == x && Without(order, gone)[|t|] == y;
    }
  }

  /** A tick keeps the entries it does not give up in their order. */
  lemma {:induction false} TickKeepsOrder(c: PyConfig, s: PyState, now: real, x: Key, y: Key)
    requires PyValid(s) && Precedes(s.order, x, y) && x in PyTick(c, s, now).pending && y in PyTick(c, s, now).pending
    ensures Precedes(PyTick(c, s, now).order, x, y)
  {
    OrderIsKept(s.order, GivenUp(c, s.pending, now), x, y);
  }
}
