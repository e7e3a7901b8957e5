/** When the fixed table is a window of the last sixteen deliveries, when it is one again after a change of session,
    and exactly how long each entry lasts. */
module DedupHoles {
  import opened Bytes
  import opened Framing
  import opened Endpoint
  import opened Runs
  import opened Tables
  import opened DedupWindow
  import opened DedupLifetime

  ghost predicate ValidSixteen(t: Table) { t.next < |t.seen| == SEEN_MAX }

  function FreeCount(ss: seq<Seen>): (n: nat)
    ensures n <= |ss|
  {
    if ss == [] then 0 else FreeCount(ss[..|ss| - 1]) + if ss[|ss| - 1].inUse then 0 else 1
  }

  lemma {:induction false} FreeCountZero(ss: seq<Seen>)
    ensures FreeCount(ss) == 0 <==> FreeSeen(ss) == |ss|
  {
    if ss != [] {
      var n := |ss| - 1;
      FreeCountZero(ss[..n]);
      if FreeSeen(ss) == |ss| {
        assert forall j :: 0 <= j < |ss| ==> ss[j].inUse;
        AllUsed(ss[..n]);
      }
    }
  }

  lemma {:induction false} AllUsed(ss: seq<Seen>)
    requires forall j :: 0 <= j < |ss| ==> ss[j].inUse
    ensures FreeSeen(ss) == |ss|
  {}

  lemma {:induction false} FreeCountUpdate(ss: seq<Seen>, i: nat, x: Seen)
    requires i < |ss|
    ensures FreeCount(ss[i := x]) + (if ss[i].inUse then 0 else 1) == FreeCount(ss) + (if x.inUse then 0 else 1)
  {
    var n := |ss| - 1;
    if i < n {
      assert ss[i := x][..n] == ss[..n][i := x];
      FreeCountUpdate(ss[..n], i, x);
    } else {
      assert ss[i := x][..n] == ss[..n];
    }
  }

  lemma {:induction false} FreeCountDrop(ss: seq<Seen>, src: byte)
    ensures FreeCount(ss) <= FreeCount(DropSource(ss, src))
  {
    if ss != [] {
      var n := |ss| - 1;
      FreeCountDrop(ss[..n], src);
      assert DropSource(ss, src)[..n] == DropSource(ss[..n], src);
    }
  }

  // ---------------------------------------------------------------------
  // A window again.
  // ---------------------------------------------------------------------

  /** The index that comes q + 1 places before next. */
  function Before(next: nat, q: nat): (i: nat)
    requires next < SEEN_MAX && q < SEEN_MAX
    ensures i < SEEN_MAX
  {
    if q < next then next - 1 - q else next + SEEN_MAX - 1 - q
  }

  /** The table is full, and the n latest deliveries are in the n entries before the replacement index. */
  ghost predicate Latest(t: Table, ds: seq<Key>, n: nat) {
    && ValidSixteen(t) && n <= |ds| && n <= SEEN_MAX && FreeSeen(t.seen) == SEEN_MAX
    && forall q :: 0 <= q < n ==> t.seen[Before(t.next, q)] == Seen(true, ds[|ds| - 1 - q])
  }

  lemma {:induction false} LatestRemember(t: Table, ds: seq<Key>, n: nat, key: Key)
    requires Latest(t, ds, n)
    ensures Latest(Remember(t, key), ds + [key], if n < SEEN_MAX then n + 1 else n)
  {
    var t', ds' := Remember(t, key), ds + [key];
    var n' := if n < SEEN_MAX then n + 1 else n;
    assert t'.seen == t.seen[t.next := Seen(true, key)];
    assert t'.next == if t.next + 1 < SEEN_MAX then t.next + 1 else 0;
    AllUsed(t'.seen);
    forall q | 0 <= q < n' ensures t'.seen[Before(t'.next, q)] == Seen(true, ds'[|ds'| - 1 - q]) {
      if q > 0 { assert t.seen[Before(t.next, q - 1)] == Seen(true, ds[|ds| - 1 - (q - 1)]); }
    }
  }

  lemma {:induction false} ContainsIffLatest(t: Table, ds: seq<Key>, key: Key)
    requires Latest(t, ds, SEEN_MAX)
    ensures Contains(t.seen, key) <==> Recent(ds, SEEN_MAX, key)
  {
    if i :| 0 <= i < SEEN_MAX && t.seen[i] == Seen(true, key) {
      var q := Before(t.next, i);
      assert Before(t.next, q) == i;
      assert ds[|ds| - 1 - q] == key;
    }
    if m :| 0 <= m < |ds| && |ds| - SEEN_MAX <= m && ds[m] == key {
      var q := |ds| - 1 - m;
      assert t.seen[Before(t.next, q)] == Seen(true, ds[|ds| - 1 - q]);
    }
  }

  /** First the holes are filled, then the replacement index goes round. */
  ghost predicate Refilling(t: Table, ds: seq<Key>, holes: nat) {
    && ValidSixteen(t)
    && if |ds| < holes then FreeCount(t.seen) == holes - |ds|
       else Latest(t, ds, if |ds| - holes < SEEN_MAX then |ds| - holes else SEEN_MAX)
  }

  lemma {:induction false} RefillingRemember(t: Table, ds: seq<Key>, holes: nat, key: Key)
    requires Refilling(t, ds, holes)
    ensures Refilling(Remember(t, key), ds + [key], holes)
  {
    var i := FreeSeen(t.seen);
    FreeCountZero(t.seen);
    if |ds| < holes {
      FreeCountUpdate(t.seen, i, Seen(true, key));
      FreeCountZero(Remember(t, key).seen);
    } else {
      LatestRemember(t, ds, if |ds| - holes < SEEN_MAX then |ds| - holes else SEEN_MAX, key);
    }
  }

  lemma {:induction false} RefillingSources(t: Table, t': Table, ds: seq<Key>, holes: nat)
    requires Refilling(t, ds, holes) && t'.seen == t.seen && t'.next == t.next
    ensures Refilling(t', ds, holes)
  {}

  lemma {:induction false} StepRefills(c: Config, s: State, x: Input, ds: seq<Key>, holes: nat)
    requires Valid(s) && Refilling(s.table, ds, holes)
    requires Arrives(c.addr, x) ==> LookedUp(s, x).seen == s.table.seen
    ensures Refilling(Step(c, s, x).state.table, ds + (if TakesForNew(c, s, x) then [ArrivalKey(x)] else []), holes)
  {
    StepTable(c, s, x);
    if Arrives(c.addr, x) {
      RefillingSources(s.table, LookedUp(s, x), ds, holes);
      if TakesForNew(c, s, x) { RefillingRemember(LookedUp(s, x), ds, holes, ArrivalKey(x)); }
    }
    if !TakesForNew(c, s, x) { assert ds + [] == ds; }
  }

  lemma {:induction false} RunRefills(c: Config, s: State, xs: seq<Input>)
    requires Valid(s) && ValidSixteen(s.table) && NothingForgotten(c, s, xs)
    ensures Refilling(After(c, s, xs).table, Deliveries(c, s, xs), FreeCount(s.table.seen))
  {
    if xs == [] {
      FreeCountZero(s.table.seen);
    } else {
      var ys, x := xs[..|xs| - 1], xs[|xs| - 1];
      var s1, ds, holes := After(c, s, ys), Deliveries(c, s, ys), FreeCount(s.table.seen);
      RunRefills(c, s, ys);
      StepRefills(c, s1, x, ds, holes);
    }
  }

  /** From whatever state, with whatever holes: once as many keys have been delivered as there were holes and sixteen
      more, and no change of session has cleared an entry meanwhile, an arrival is a duplicate exactly when its key is
      among the last sixteen delivered. */
  lemma {:induction false} WindowAgain(c: Config, s: State, xs: seq<Input>)
    requires Valid(s) && ValidSixteen(s.table) && NothingForgotten(c, s, xs)
    requires xs != [] && Arrives(c.addr, xs[|xs| - 1])
    requires |Deliveries(c, s, xs[..|xs| - 1])| >= FreeCount(s.table.seen) + SEEN_MAX
    ensures var recent := Recent(Deliveries(c, s, xs[..|xs| - 1]), SEEN_MAX, ArrivalKey(xs[|xs| - 1]));
            Last(c, s, xs).outcome == Receives(if recent then RxDuplicate else RxDelivered)
  {
    var ys, x := xs[..|xs| - 1], xs[|xs| - 1];
    RunRefills(c, s, ys);
    StepTable(c, After(c, s, ys), x);
    ContainsIffLatest(After(c, s, ys).table, Deliveries(c, s, ys), ArrivalKey(x));
  }

  // ---------------------------------------------------------------------
  // How long one entry lasts.
  // ---------------------------------------------------------------------

  /** How many more deliveries entry i outlasts: those that fill holes, and the replacements before its own. */
  function Slack(t: Table, i: nat): nat
    requires ValidSixteen(t) && i < SEEN_MAX
  {
    FreeCount(t.seen) + Ahead(t.next, i)
  }

  /** No call of the run clears this source. */
  ghost predicate NeverCleared(c: Config, s: State, xs: seq<Input>, peer: byte)
    requires Valid(s)
  {
    xs != [] ==>
      NeverCleared(c, s, xs[..|xs| - 1], peer) && !Clears(c, After(c, s, xs[..|xs| - 1]), xs[|xs| - 1], peer)
  }

  lemma {:induction false} HeardSlack(s: State, x: Input, i: nat)
    requires ValidSixteen(s.table) && i < SEEN_MAX && x.action.DoReceive?
    ensures Slack(s.table, i) <= Slack(LookedUp(s, x), i)
    ensures LookedUp(s, x).seen == s.table.seen ==> Slack(s.table, i) == Slack(LookedUp(s, x), i)
  {
    FreeCountDrop(s.table.seen, ArrivalKey(x).peer);
  }

  lemma {:induction false} RememberSlack(t: Table, key: Key, i: nat)
    requires ValidSixteen(t) && i < SEEN_MAX && t.seen[i].inUse
    ensures Slack(t, i) > 0 ==> Remember(t, key).seen[i] == t.seen[i] && Slack(Remember(t, key), i) == Slack(t, i) - 1
    ensures Slack(t, i) == 0 ==> Remember(t, key).seen[i] == Seen(true, key)
  {
    FreeCountZero(t.seen);
    if FreeSeen(t.seen) < SEEN_MAX {
      FreeCountUpdate(t.seen, FreeSeen(t.seen), Seen(true, key));
    } else {
      FreeCountUpdate(t.seen, t.next, Seen(true, key));
      assert Remember(t, key).next == if t.next + 1 < SEEN_MAX then t.next + 1 else 0;
    }
  }

  /** An entry outlasts as many deliveries as its slack, whatever happens besides, unless its source is cleared. */
  lemma {:induction false} Lasts(c: Config, s: State, xs: seq<Input>, i: nat)
    requires Valid(s) && ValidSixteen(s.table) && i < SEEN_MAX && s.table.seen[i].inUse
    requires NeverCleared(c, s, xs, s.table.seen[i].key.peer)
    requires |Deliveries(c, s, xs)| <= Slack(s.table, i)
    ensures ValidSixteen(After(c, s, xs).table) && After(c, s, xs).table.seen[i] == s.table.seen[i]
    ensures Slack(After(c, s, xs).table, i) + |Deliveries(c, s, xs)| >= Slack(s.table, i)
  {
    if xs != [] {
      var ys, x := xs[..|xs| - 1], xs[|xs| - 1];
      Lasts(c, s, ys, i);
      StepTable(c, After(c, s, ys), x);
      if Arrives(c.addr, x) {
        var t := LookedUp(After(c, s, ys), x);
        HeardSlack(After(c, s, ys), x, i);
        assert t.seen[i] == s.table.seen[i];
        RememberSlack(t, ArrivalKey(x), i);
      }
    }
  }

  // A source that stays in its session can send that many frames, and one more.

  ghost function SeqsIn(ss: seq<Seen>): set<int> { set i | 0 <= i < |ss| :: ss[i].key.seqno as int }

  lemma {:induction false} FewSeqs(ss: seq<Seen>)
    ensures |SeqsIn(ss)| <= |ss|
  {
    if ss != [] {
      var n := |ss| - 1;
      FewSeqs(ss[..n]);
      assert SeqsIn(ss) == SeqsIn(ss[..n]) + {ss[n].key.seqno as int};
    }
  }

  ghost function UpTo(n: nat): (r: set<int>)
    ensures |r| == n && forall q :: q in r ==> 0 <= q < n
  {
    if n == 0 then {} else UpTo(n - 1) + {n - 1}
  }

  lemma {:induction false} FreshSeq(ss: seq<Seen>) returns (q: u16)
    requires |ss| == SEEN_MAX
    ensures forall i :: 0 <= i < |ss| ==> ss[i].key.seqno != q
  {
    var all := UpTo(|ss| + 1);
    FewSeqs(ss);
    if all <= SeqsIn(ss) {
      SubsetSize(all, SeqsIn(ss));
      assert false;
    }
    var r :| r in all && r !in SeqsIn(ss);
    q := r;
  }

  /** A session the source can be heard in without a change. */
  ghost predicate InSession(ss: seq<Source>, src: byte, session: byte) { !SessionChanged(ss, src, session) }

  lemma {:induction false} SomeSession(ss: seq<Source>, src: byte) returns (session: byte)
    ensures InSession(ss, src, session)
  {
    var i := FindSource(ss, src);
    session := if i < |ss| then ss[i].session else 0;
  }

  /** A new frame of the source. */
  function NewFrame(src: byte, dst: byte, session: byte, seqno: u16): Frame {
    Frame(src, dst, FLAG_RELIABLE, session, seqno, 1, 1, [])
  }

  lemma {:induction false} NewFrameDelivered(c: Config, s: State, src: byte, session: byte, seqno: u16)
    requires Valid(s) && InSession(s.table.sources, src, session)
    requires forall i :: 0 <= i < |s.table.seen| ==> s.table.seen[i].key.seqno != seqno
    ensures var x, s' := Input(0, DoReceive(NewFrame(src, c.addr, session, seqno))),
                         Receive(c, s, NewFrame(src, c.addr, session, seqno)).state;
            && TakesForNew(c, s, x) && !Clears(c, s, x, src) && LookedUp(s, x).seen == s.table.seen
            && s'.table == Remember(LookedUp(s, x), Key(src, session, seqno))
            && InSession(s'.table.sources, src, session)
  {
    SessionNoted(s.table.sources, src, session);
    var f := NewFrame(src, c.addr, session, seqno);
    assert IsReliable(f) && !IsAck(f);
  }

  /** One new frame after a run. */
  lemma {:induction false} OneMoreDelivery(c: Config, s: State, xs: seq<Input>, src: byte, session: byte)
    returns (xs': seq<Input>, seqno: u16)
    requires Valid(s) && ValidSixteen(After(c, s, xs).table) && InSession(After(c, s, xs).table.sources, src, session)
    requires NeverCleared(c, s, xs, src)
    ensures var t := After(c, s, xs).table;
            && (forall i :: 0 <= i < SEEN_MAX ==> t.seen[i].key.seqno != seqno)
            && After(c, s, xs').table.seen == Remember(t, Key(src, session, seqno)).seen
            && After(c, s, xs').table.next == Remember(t, Key(src, session, seqno)).next
    ensures InSession(After(c, s, xs').table.sources, src, session)
    ensures NeverCleared(c, s, xs', src) && |Deliveries(c, s, xs')| == |Deliveries(c, s, xs)| + 1
  {
    var s1 := After(c, s, xs);
    seqno := FreshSeq(s1.table.seen);
    var x := Input(0, DoReceive(NewFrame(src, c.addr, session, seqno)));
    NewFrameDelivered(c, s1, src, session, seqno);
    xs' := xs + [x];
    assert xs'[..|xs'| - 1] == xs;
  }

  /** The source can use up the slack of an entry, delivery by delivery. */
  lemma {:induction false} UseUp(c: Config, s: State, i: nat, src: byte, session: byte, n: nat)
    returns (xs: seq<Input>)
    requires Valid(s) && ValidSixteen(s.table) && i < SEEN_MAX && s.table.seen[i].inUse
    requires InSession(s.table.sources, src, session) && n <= Slack(s.table, i)
    ensures NeverCleared(c, s, xs, src) && |Deliveries(c, s, xs)| == n
    ensures var s' := After(c, s, xs);
            && ValidSixteen(s'.table) && s'.table.seen[i] == s.table.seen[i]
            && InSession(s'.table.sources, src, session)
            && Slack(s'.table, i) == Slack(s.table, i) - n
    decreases n
  {
    xs := [];
    if n > 0 {
      var ys := UseUp(c, s, i, src, session, n - 1);
      var t := After(c, s, ys).table;
      var seqno;
      xs, seqno := OneMoreDelivery(c, s, ys, src, session);
      RememberSlack(t, Key(src, session, seqno), i);
    }
  }

  /** One delivery more than its slack, and the entry is gone. */
  lemma {:induction false} Forgotten(c: Config, s: State, i: nat) returns (xs: seq<Input>)
    requires Valid(s) && ValidSixteen(s.table) && i < SEEN_MAX && s.table.seen[i].inUse
    ensures NeverCleared(c, s, xs, s.table.seen[i].key.peer) && |Deliveries(c, s, xs)| == Slack(s.table, i) + 1
    ensures |After(c, s, xs).table.seen| == SEEN_MAX && After(c, s, xs).table.seen[i] != s.table.seen[i]
  {
    var src := s.table.seen[i].key.peer;
    var session := SomeSession(s.table.sources, src);
    var ys := UseUp(c, s, i, src, session, Slack(s.table, i));
    var t := After(c, s, ys).table;
    var seqno;
    xs, seqno := OneMoreDelivery(c, s, ys, src, session);
    RememberSlack(t, Key(src, session, seqno), i);
    SizeKept(c, s, xs);
  }

  /** The entry keeps its key through every run that delivers at most n frames and does not clear its source. */
  ghost predicate KeptThrough(c: Config, s: State, i: nat, n: nat)
    requires Valid(s) && ValidSixteen(s.table) && i < SEEN_MAX
  {
    forall xs ::
      NeverCleared(c, s, xs, s.table.seen[i].key.peer) && |Deliveries(c, s, xs)| <= n ==> SameEntry(c, s, xs, i)
  }

  ghost predicate SameEntry(c: Config, s: State, xs: seq<Input>, i: nat)
    requires Valid(s) && ValidSixteen(s.table) && i < SEEN_MAX
  {
    SizeKept(c, s, xs);
    After(c, s, xs).table.seen[i] == s.table.seen[i]
  }

  /** Exactly how long an entry lasts, in any state: through n more deliveries, whatever they are, if and only if n is
      at most the number of free entries plus the number of replacements before the index comes to it. */
  lemma {:induction false} KeptIff(c: Config, s: State, i: nat, n: nat)
    requires Valid(s) && ValidSixteen(s.table) && i < SEEN_MAX && s.table.seen[i].inUse
    ensures KeptThrough(c, s, i, n) <==> n <= Slack(s.table, i)
  {
    if n <= Slack(s.table, i) {
      forall xs | NeverCleared(c, s, xs, s.table.seen[i].key.peer) && |Deliveries(c, s, xs)| <= n
        ensures SameEntry(c, s, xs, i)
      {
        Lasts(c, s, xs, i);
      }
    } else {
      var xs := Forgotten(c, s, i);
      assert !SameEntry(c, s, xs, i);
    }
  }
}
