/** How long the fixed table remembers a key, over all runs: what a change of session frees is filled again out of
    turn. */
module DedupLifetime {
  import opened Bytes
  import opened Framing
  import opened Endpoint
  import opened Runs
  import opened DedupWindow

  // ---------------------------------------------------------------------
  // Places and lifetimes.
  // ---------------------------------------------------------------------

  /** The table in which an arrival looks up its key, after the session bookkeeping. */
  function LookedUp(s: State, x: Input): Table
    requires x.action.DoReceive?
  {
    Heard(s.table, ArrivalKey(x).peer, ArrivalKey(x).session)
  }

  /** The entry a new key goes to. */
  function Place(t: Table): nat { if FreeSeen(t.seen) < |t.seen| then FreeSeen(t.seen) else t.next }

  /** How many replacements come before the replacement index points at entry i. */
  function Ahead(next: nat, i: nat): (d: nat)
    requires next < SEEN_MAX && i < SEEN_MAX
    ensures d < SEEN_MAX && (next + d) % SEEN_MAX == i
  {
    if next <= i then i - next else i + SEEN_MAX - next
  }

  /** How many replacements a new key outlives, its own included. */
  function Life(t: Table): nat
    requires t.next < |t.seen| == SEEN_MAX
  {
    if FreeSeen(t.seen) < SEEN_MAX then Ahead(t.next, FreeSeen(t.seen)) else SEEN_MAX
  }

  /** A reliable frame is taken for a new one and delivered. */
  predicate TakesForNew(c: Config, s: State, x: Input)
    requires Valid(s)
  {
    Arrives(c.addr, x) && Step(c, s, x).outcome == Receives(RxDelivered)
  }

  /** It replaces another key. */
  predicate Replaces(c: Config, s: State, x: Input)
    requires Valid(s)
  {
    TakesForNew(c, s, x) && FreeSeen(LookedUp(s, x).seen) == |s.table.seen|
  }

  /** A change of session makes the table forget this source. */
  predicate Clears(c: Config, s: State, x: Input, peer: byte) {
    Arrives(c.addr, x) && ArrivalKey(x).peer == peer && SessionChanged(s.table.sources, peer, ArrivalKey(x).session)
  }

  function Replacements(c: Config, s: State, xs: seq<Input>): nat
    requires Valid(s)
  {
    if xs == [] then 0
    else Replacements(c, s, xs[..|xs| - 1]) + if Replaces(c, After(c, s, xs[..|xs| - 1]), xs[|xs| - 1]) then 1 else 0
  }

  // ---------------------------------------------------------------------
  // One table and what it remembers.
  // ---------------------------------------------------------------------

  /** A remembered delivery: its key, its entry, and the number of replacements after which the next one takes it. */
  datatype Memory = Memory(key: Key, place: nat, until: nat)

  /** After e replacements the used entries are exactly those of the memories. */
  ghost predicate Keeps(t: Table, e: nat, ms: set<Memory>) {
    && |t.seen| == SEEN_MAX && t.next == e % SEEN_MAX
    && (forall m :: m in ms ==> InPlace(t, e, m))
    && (forall i :: 0 <= i < SEEN_MAX && t.seen[i].inUse ==> exists m :: m in ms && m.place == i)
  }

  ghost predicate InPlace(t: Table, e: nat, m: Memory)
    requires |t.seen| == SEEN_MAX
  {
    && m.place < SEEN_MAX && t.seen[m.place] == Seen(true, m.key)
    && m.until % SEEN_MAX == m.place && e <= m.until < e + SEEN_MAX
  }

  lemma {:induction false} ContainsIffKept(t: Table, e: nat, ms: set<Memory>, key: Key)
    requires Keeps(t, e, ms)
    ensures Contains(t.seen, key) <==> exists m :: m in ms && m.key == key
  {
    if i :| 0 <= i < SEEN_MAX && t.seen[i] == Seen(true, key) {
      var m :| m in ms && m.place == i;
      assert InPlace(t, e, m);
    }
    if m :| m in ms && m.key == key { assert InPlace(t, e, m); }
  }

  lemma {:induction false} KeepsDrop(t: Table, e: nat, ms: set<Memory>, src: byte)
    requires Keeps(t, e, ms)
    ensures Keeps(t.(seen := DropSource(t.seen, src)), e, set m | m in ms && m.key.peer != src)
  {
    var t', ms' := t.(seen := DropSource(t.seen, src)), set m | m in ms && m.key.peer != src;
    forall m | m in ms' ensures InPlace(t', e, m) { assert InPlace(t, e, m); }
    forall i | 0 <= i < SEEN_MAX && t'.seen[i].inUse ensures exists m :: m in ms' && m.place == i {
      var m :| m in ms && m.place == i;
      assert InPlace(t, e, m);
      assert m in ms';
    }
  }

  lemma {:induction false} AheadPlace(e: nat, i: nat)
    requires i < SEEN_MAX
    ensures (e + Ahead(e % SEEN_MAX, i)) % SEEN_MAX == i
  {}

  /** A hole is filled. */
  lemma {:induction false} KeepsFill(t: Table, e: nat, ms: set<Memory>, key: Key)
    requires Keeps(t, e, ms) && ValidTable(t) && FreeSeen(t.seen) < SEEN_MAX
    ensures Keeps(Remember(t, key), e, ms + {Memory(key, Place(t), e + Life(t))})
  {
    var t', i, own := Remember(t, key), FreeSeen(t.seen), Memory(key, Place(t), e + Life(t));
    var ms' := ms + {own};
    AheadPlace(e, i);
    forall m | m in ms' ensures InPlace(t', e, m) { if m != own { assert InPlace(t, e, m); } }
    forall j | 0 <= j < SEEN_MAX && t'.seen[j].inUse ensures exists m :: m in ms' && m.place == j {
      if j == i {
        assert own in ms' && own.place == j;
      } else {
        var m :| m in ms && m.place == j;
        assert m in ms';
      }
    }
  }

  lemma {:induction false} DueNow(e: nat, until: nat)
    requires e <= until < e + SEEN_MAX && until % SEEN_MAX == e % SEEN_MAX
    ensures until == e
  {}

  lemma {:induction false} NextIndex(e: nat)
    ensures (e % SEEN_MAX + 1) % SEEN_MAX == (e + 1) % SEEN_MAX
    ensures (e + SEEN_MAX) % SEEN_MAX == e % SEEN_MAX
  {
    var r := e % SEEN_MAX;
    if r == SEEN_MAX - 1 { assert (e + 1) % SEEN_MAX == 0; } else { assert (e + 1) % SEEN_MAX == r + 1; }
  }

  lemma {:induction false} StaysInPlace(t: Table, e: nat, m: Memory, key: Key)
    requires |t.seen| == SEEN_MAX && t.next == e % SEEN_MAX && InPlace(t, e, m) && m.until > e
    ensures InPlace(t.(seen := t.seen[t.next := Seen(true, key)]), e + 1, m)
  {
    if m.place == t.next { DueNow(e, m.until); }
  }

  /** A key is replaced: the one that is due, and no other. */
  lemma {:induction false} KeepsReplace(t: Table, e: nat, ms: set<Memory>, key: Key)
    requires Keeps(t, e, ms) && ValidTable(t) && FreeSeen(t.seen) == SEEN_MAX
    ensures Keeps(Remember(t, key), e + 1,
                  (set m | m in ms && m.until > e) + {Memory(key, Place(t), e + Life(t))})
  {
    var t', own := Remember(t, key), Memory(key, Place(t), e + Life(t));
    var ms' := (set m | m in ms && m.until > e) + {own};
    NextIndex(e);
    assert t'.seen == t.seen[t.next := Seen(true, key)];
    forall m | m in ms' ensures InPlace(t', e + 1, m) {
      if m != own {
        assert InPlace(t, e, m);
        StaysInPlace(t, e, m, key);
      }
    }
    forall j | 0 <= j < SEEN_MAX && t'.seen[j].inUse ensures exists m :: m in ms' && m.place == j {
      if j == t.next {
        assert own in ms' && own.place == j;
      } else {
        var m :| m in ms && m.place == j;
        assert InPlace(t, e, m);
        NotDue(t, e, m);
        assert m in ms';
      }
    }
  }

  lemma {:induction false} NotDue(t: Table, e: nat, m: Memory)
    requires |t.seen| == SEEN_MAX && t.next == e % SEEN_MAX && InPlace(t, e, m) && m.place != t.next
    ensures m.until > e
  {}

  // ---------------------------------------------------------------------
  // Whole runs.
  // ---------------------------------------------------------------------

  /** Call j of a run delivers a reliable frame with this key. */
  predicate DeliveredBy(c: Config, s: State, xs: seq<Input>, j: nat, key: Key)
    requires Valid(s)
  {
    j < |xs| && TakesForNew(c, After(c, s, xs[..j]), xs[j]) && ArrivalKey(xs[j]) == key
  }

  /** Since call j, a change of session has cleared this source. */
  ghost predicate ClearedSince(c: Config, s: State, xs: seq<Input>, j: nat, peer: byte)
    requires Valid(s)
  {
    exists m :: j < m < |xs| && ClearedBy(c, s, xs, m, peer)
  }

  predicate ClearedBy(c: Config, s: State, xs: seq<Input>, m: nat, peer: byte)
    requires Valid(s) && m < |xs|
  {
    Clears(c, After(c, s, xs[..m]), xs[m], peer)
  }

  /** What the table remembers of the delivery of call j. */
  function MemoryOf(c: Config, s: State, xs: seq<Input>, j: nat): Memory
    requires Valid(s) && |s.table.seen| == SEEN_MAX && j < |xs| && xs[j].action.DoReceive?
  {
    var t := LookedUp(After(c, s, xs[..j]), xs[j]);
    SizeKept(c, s, xs[..j]);
    Memory(ArrivalKey(xs[j]), Place(t), Replacements(c, s, xs[..j]) + Life(t))
  }

  lemma {:induction false} SizeKept(c: Config, s: State, xs: seq<Input>)
    requires Valid(s)
    ensures |After(c, s, xs).table.seen| == |s.table.seen|
  {
    if xs != [] {
      SizeKept(c, s, xs[..|xs| - 1]);
      StepTable(c, After(c, s, xs[..|xs| - 1]), xs[|xs| - 1]);
    }
  }

  /** Call j delivered the key; its source has not been cleared since; and there have been no more replacements than
      the key outlives. */
  ghost predicate Held(c: Config, s: State, xs: seq<Input>, j: nat, key: Key)
    requires Valid(s) && |s.table.seen| == SEEN_MAX
  {
    && DeliveredBy(c, s, xs, j, key) && !ClearedSince(c, s, xs, j, key.peer)
    && Replacements(c, s, xs) <= MemoryOf(c, s, xs, j).until
  }

  ghost function Memories(c: Config, s: State, xs: seq<Input>): set<Memory>
    requires Valid(s) && |s.table.seen| == SEEN_MAX
  {
    set j: nat | j < |xs| && xs[j].action.DoReceive? && Held(c, s, xs, j, ArrivalKey(xs[j])) :: MemoryOf(c, s, xs, j)
  }

  /** A call later: a delivery is still held unless its source is cleared or it was due for replacement. */
  lemma {:induction false} HeldStep(c: Config, s: State, ys: seq<Input>, x: Input, j: nat, key: Key)
    requires Valid(s) && |s.table.seen| == SEEN_MAX && j < |ys| && DeliveredBy(c, s, ys, j, key)
    ensures DeliveredBy(c, s, ys + [x], j, key) && MemoryOf(c, s, ys + [x], j) == MemoryOf(c, s, ys, j)
    ensures Held(c, s, ys + [x], j, key) <==>
              Held(c, s, ys, j, key) && !Clears(c, After(c, s, ys), x, key.peer) &&
              Replacements(c, s, ys + [x]) <= MemoryOf(c, s, ys, j).until
  {
    var xs := ys + [x];
    assert xs[..j] == ys[..j] && xs[..|ys|] == ys;
    forall m | j < m < |ys| ensures ClearedBy(c, s, xs, m, key.peer) == ClearedBy(c, s, ys, m, key.peer) {
      assert xs[..m] == ys[..m];
    }
    if Clears(c, After(c, s, ys), x, key.peer) { assert ClearedBy(c, s, xs, |ys|, key.peer); }
    if m :| j < m < |ys| && ClearedBy(c, s, ys, m, key.peer) { assert ClearedBy(c, s, xs, m, key.peer); }
    assert Replacements(c, s, ys) <= Replacements(c, s, xs);
  }

  /** The memories that one call leaves: those of sources it does not clear, not due by then, and its own. */
  ghost function MemoriesAfter(c: Config, s: State, x: Input, ms: set<Memory>, e: nat, own: Memory): set<Memory>
    requires Valid(s)
  {
    (set m | m in ms && !Clears(c, s, x, m.key.peer) && e <= m.until) + if TakesForNew(c, s, x) then {own} else {}
  }

  lemma {:induction false} HeldNow(c: Config, s: State, ys: seq<Input>, x: Input)
    requires Valid(s) && |s.table.seen| == SEEN_MAX && TakesForNew(c, After(c, s, ys), x)
    ensures Held(c, s, ys + [x], |ys|, ArrivalKey(x))
    ensures MemoryOf(c, s, ys + [x], |ys|) == OwnMemory(c, s, ys, x)
  {
    var xs := ys + [x];
    assert xs[..|ys|] == ys && xs[..|xs| - 1] == ys;
  }

  /** What the table remembers of a delivery made by x after the run ys. */
  function OwnMemory(c: Config, s: State, ys: seq<Input>, x: Input): Memory
    requires Valid(s) && |s.table.seen| == SEEN_MAX && x.action.DoReceive?
  {
    SizeKept(c, s, ys);
    var t := LookedUp(After(c, s, ys), x);
    Memory(ArrivalKey(x), Place(t), Replacements(c, s, ys) + Life(t))
  }

  lemma {:induction false} MemoriesStep(c: Config, s: State, ys: seq<Input>, x: Input, own: Memory)
    requires Valid(s) && |s.table.seen| == SEEN_MAX
    requires x.action.DoReceive? ==> own == OwnMemory(c, s, ys, x)
    ensures Memories(c, s, ys + [x]) ==
            MemoriesAfter(c, After(c, s, ys), x, Memories(c, s, ys), Replacements(c, s, ys + [x]), own)
  {
    var xs, ms := ys + [x], Memories(c, s, ys);
    var ms' := MemoriesAfter(c, After(c, s, ys), x, ms, Replacements(c, s, xs), own);
    assert xs[..|ys|] == ys;
    forall j: nat | j < |xs| && xs[j].action.DoReceive? && Held(c, s, xs, j, ArrivalKey(xs[j]))
      ensures MemoryOf(c, s, xs, j) in ms'
    {
      if j < |ys| {
        assert xs[..j] == ys[..j] && xs[j] == ys[j];
        HeldStep(c, s, ys, x, j, ArrivalKey(ys[j]));
        assert MemoryOf(c, s, ys, j) in ms;
      } else {
        HeldNow(c, s, ys, x);
      }
    }
    forall m | m in ms' ensures m in Memories(c, s, xs) {
      if TakesForNew(c, After(c, s, ys), x) && m == own {
        HeldNow(c, s, ys, x);
      } else {
        var j: nat :| j < |ys| && ys[j].action.DoReceive? && Held(c, s, ys, j, ArrivalKey(ys[j])) &&
                      m == MemoryOf(c, s, ys, j);
        HeldStep(c, s, ys, x, j, ArrivalKey(ys[j]));
        assert xs[j] == ys[j];
      }
    }
  }

  lemma {:induction false} KeepsHeard(c: Config, s: State, x: Input, ms: set<Memory>, e: nat)
    requires Keeps(s.table, e, ms) && Arrives(c.addr, x)
    ensures Keeps(LookedUp(s, x), e, set m | m in ms && !Clears(c, s, x, m.key.peer))
  {
    var src, session := ArrivalKey(x).peer, ArrivalKey(x).session;
    var kept := set m | m in ms && !Clears(c, s, x, m.key.peer);
    if SessionChanged(s.table.sources, src, session) {
      KeepsDrop(s.table, e, ms, src);
      assert kept == set m | m in ms && m.key.peer != src;
      KeepsSeen(s.table.(seen := DropSource(s.table.seen, src)), LookedUp(s, x), e, kept);
    } else {
      assert kept == ms;
      KeepsSeen(s.table, LookedUp(s, x), e, kept);
    }
  }

  /** The source table does not matter. */
  lemma {:induction false} KeepsSeen(t: Table, t': Table, e: nat, ms: set<Memory>)
    requires Keeps(t, e, ms) && t'.seen == t.seen && t'.next == t.next
    ensures Keeps(t', e, ms)
  {
    forall m | m in ms ensures InPlace(t', e, m) { assert InPlace(t, e, m); }
  }

  lemma {:induction false} KeptUntil(t: Table, e: nat, ms: set<Memory>)
    requires Keeps(t, e, ms)
    ensures (set m | m in ms && e <= m.until) == ms
  {
    forall m | m in ms ensures e <= m.until { assert InPlace(t, e, m); }
  }

  /** What an arrival leaves in the table: t is the table it looks up its key in, kept what that remembers. */
  lemma {:induction false} ArrivalKeeps(t: Table, kept: set<Memory>, e: nat, key: Key, full: bool, own: Memory)
    requires Keeps(t, e, kept) && ValidTable(t) && own == Memory(key, Place(t), e + Life(t))
    requires full <==> FreeSeen(t.seen) == SEEN_MAX
    ensures var e' := e + if full then 1 else 0;
            Keeps(Remember(t, key), e', (set m | m in kept && e' <= m.until) + {own})
  {
    KeptUntil(t, e, kept);
    if full {
      KeepsReplace(t, e, kept, key);
      assert (set m | m in kept && e + 1 <= m.until) == set m | m in kept && m.until > e;
    } else {
      KeepsFill(t, e, kept, key);
    }
  }

  lemma {:induction false} StepKeeps(c: Config, s: State, x: Input, ms: set<Memory>, e: nat, own: Memory)
    requires Valid(s) && Keeps(s.table, e, ms)
    requires Arrives(c.addr, x) ==>
               var t := LookedUp(s, x); own == Memory(ArrivalKey(x), Place(t), e + Life(t))
    ensures var e' := e + if Replaces(c, s, x) then 1 else 0;
            Keeps(Step(c, s, x).state.table, e', MemoriesAfter(c, s, x, ms, e', own))
  {
    StepTable(c, s, x);
    var kept := set m | m in ms && !Clears(c, s, x, m.key.peer);
    var e' := e + if Replaces(c, s, x) then 1 else 0;
    assert (set m | m in ms && !Clears(c, s, x, m.key.peer) && e' <= m.until) == set m | m in kept && e' <= m.until;
    if Arrives(c.addr, x) {
      KeepsHeard(c, s, x, ms, e);
      KeptUntil(LookedUp(s, x), e, kept);
      if TakesForNew(c, s, x) { ArrivalKeeps(LookedUp(s, x), kept, e, ArrivalKey(x), Replaces(c, s, x), own); }
    } else {
      KeptUntil(s.table, e, ms);
      assert kept == ms;
    }
  }

  lemma {:induction false} OneMoreCall(c: Config, s: State, ys: seq<Input>, x: Input)
    requires Valid(s)
    ensures After(c, s, ys + [x]) == Step(c, After(c, s, ys), x).state
    ensures Replacements(c, s, ys + [x]) ==
            Replacements(c, s, ys) + if Replaces(c, After(c, s, ys), x) then 1 else 0
  {
    assert (ys + [x])[..|ys|] == ys;
  }

  lemma {:induction false} OwnIs(c: Config, s: State, ys: seq<Input>, x: Input, s1: State, e: nat, own: Memory)
    requires Valid(s) && |s.table.seen| == SEEN_MAX && x.action.DoReceive? && own == OwnMemory(c, s, ys, x)
    requires s1 == After(c, s, ys) && e == Replacements(c, s, ys)
    ensures |s1.table.seen| == SEEN_MAX && var t := LookedUp(s1, x); own == Memory(ArrivalKey(x), Place(t), e + Life(t))
  {
    SizeKept(c, s, ys);
  }

  lemma {:induction false} RunKeepsStep(c: Config, s: State, ys: seq<Input>, x: Input, s1: State, e: nat,
          ms: set<Memory>, own: Memory)
    requires Valid(s) && |s.table.seen| == SEEN_MAX
    requires s1 == After(c, s, ys) && e == Replacements(c, s, ys) && ms == Memories(c, s, ys) && Keeps(s1.table, e, ms)
    requires x.action.DoReceive? ==> own == OwnMemory(c, s, ys, x)
    ensures var xs := ys + [x];
            Keeps(After(c, s, xs).table, Replacements(c, s, xs), Memories(c, s, xs))
  {
    if x.action.DoReceive? { OwnIs(c, s, ys, x, s1, e, own); }
    OneMoreCall(c, s, ys, x);
    MemoriesStep(c, s, ys, x, own);
    StepKeeps(c, s1, x, ms, e, own);
  }

  lemma {:induction false} RunKeeps(c: Config, firstSeq: u16, xs: seq<Input>)
    ensures var s0 := Initial(firstSeq);
            Keeps(After(c, s0, xs).table, Replacements(c, s0, xs), Memories(c, s0, xs))
  {
    var s0 := Initial(firstSeq);
    if xs == [] {
      assert Memories(c, s0, xs) == {};
    } else {
      RunKeeps(c, firstSeq, xs[..|xs| - 1]);
      var ys, x := xs[..|xs| - 1], xs[|xs| - 1];
      var own := if x.action.DoReceive? then OwnMemory(c, s0, ys, x) else Memory(Key(0, 0, 0), 0, 0);
      RunKeepsStep(c, s0, ys, x, After(c, s0, ys), Replacements(c, s0, ys), Memories(c, s0, ys), own);
      assert xs == ys + [x];
    }
  }

  /** In every run, changes of session included: the table contains a key exactly when some call delivered it, its
      source has not been cleared since, and there have been no more replacements than the key outlives. */
  lemma {:induction false} ContainsIffHeld(c: Config, firstSeq: u16, xs: seq<Input>, key: Key)
    ensures Contains(After(c, Initial(firstSeq), xs).table.seen, key) <==>
            exists j: nat :: Held(c, Initial(firstSeq), xs, j, key)
  {
    var s0 := Initial(firstSeq);
    RunKeeps(c, firstSeq, xs);
    ContainsIffKept(After(c, s0, xs).table, Replacements(c, s0, xs), Memories(c, s0, xs), key);
    if m :| m in Memories(c, s0, xs) && m.key == key {
      var j: nat :| j < |xs| && xs[j].action.DoReceive? && Held(c, s0, xs, j, ArrivalKey(xs[j])) &&
                    m == MemoryOf(c, s0, xs, j);
    }
    if j: nat :| Held(c, s0, xs, j, key) {
      assert MemoryOf(c, s0, xs, j) in Memories(c, s0, xs);
    }
  }

  lemma {:induction false} ContainsHeard(c: Config, s: State, x: Input, key: Key)
    requires Arrives(c.addr, x)
    ensures Contains(LookedUp(s, x).seen, key) <==> Contains(s.table.seen, key) && !Clears(c, s, x, key.peer)
  {
    var t := LookedUp(s, x);
    if i :| 0 <= i < |t.seen| && t.seen[i] == Seen(true, key) { assert s.table.seen[i] == Seen(true, key); }
    if i :| 0 <= i < |s.table.seen| && s.table.seen[i] == Seen(true, key) {
      if !Clears(c, s, x, key.peer) { assert t.seen[i] == Seen(true, key); }
    }
  }

  /** Exactly which arrivals the C endpoint takes for duplicates, in every run: those of a key that is still held and
      that they do not clear themselves. */
  lemma {:induction false} DuplicateIffHeld(c: Config, firstSeq: u16, xs: seq<Input>)
    requires xs != [] && Arrives(c.addr, xs[|xs| - 1])
    ensures var s0, ys, x := Initial(firstSeq), xs[..|xs| - 1], xs[|xs| - 1];
            var known := (exists j: nat :: Held(c, s0, ys, j, ArrivalKey(x))) &&
                         !Clears(c, After(c, s0, ys), x, ArrivalKey(x).peer);
            Last(c, s0, xs).outcome == Receives(if known then RxDuplicate else RxDelivered)
  {
    var s0, ys, x := Initial(firstSeq), xs[..|xs| - 1], xs[|xs| - 1];
    ContainsIffHeld(c, firstSeq, ys, ArrivalKey(x));
    ContainsHeard(c, After(c, s0, ys), x, ArrivalKey(x));
    StepTable(c, After(c, s0, ys), x);
  }
}
