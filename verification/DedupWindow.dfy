/** How far back the fixed table of seen keys remembers. */
module DedupWindow {
  import opened Bytes
  import opened Framing
  import opened Endpoint
  import opened Runs

  /** After the deliveries ds, slot m % 16 holds delivery m, for the last 16 deliveries; the other slots are free. */
  ghost predicate Window(t: Table, ds: seq<Key>) {
    && |t.seen| == SEEN_MAX
    && (forall m :: 0 <= m < |ds| && |ds| - SEEN_MAX <= m ==> InSlot(t.seen, m, ds[m]))
    && (forall j :: |ds| <= j < SEEN_MAX ==> !t.seen[j].inUse)
    && t.next == if |ds| < SEEN_MAX then 0 else |ds| % SEEN_MAX
  }

  predicate InSlot(seen: seq<Seen>, m: nat, key: Key)
    requires |seen| == SEEN_MAX
  {
    seen[m % SEEN_MAX] == Seen(true, key)
  }

  /** The key is among the last n deliveries. */
  predicate Recent(ds: seq<Key>, n: nat, key: Key) { exists m :: 0 <= m < |ds| && |ds| - n <= m && ds[m] == key }

  /** The table contains a key exactly when it is among the last 16 deliveries. */
  lemma {:induction false} ContainsIffRecent(t: Table, ds: seq<Key>, key: Key)
    requires Window(t, ds)
    ensures Contains(t.seen, key) <==> Recent(ds, SEEN_MAX, key)
  {
    if m :| 0 <= m < |ds| && |ds| - SEEN_MAX <= m && ds[m] == key {
      assert InSlot(t.seen, m, ds[m]);
    }
    if i :| 0 <= i < SEEN_MAX && t.seen[i] == Seen(true, key) {
      var m := Occupant(i, |ds|);
      assert InSlot(t.seen, m, ds[m]);
    }
  }

  /** The delivery that occupies slot i after k deliveries. */
  lemma {:induction false} Occupant(i: nat, k: nat) returns (m: nat)
    requires i < SEEN_MAX && i < k
    ensures m < k && k - SEEN_MAX <= m && m % SEEN_MAX == i
  {
    m := i;
    while m < k - SEEN_MAX
      invariant m % SEEN_MAX == i && m < k
      decreases k - m
    {
      m := m + SEEN_MAX;
    }
  }

  lemma {:induction false} NoneFree(t: Table, ds: seq<Key>)
    requires Window(t, ds) && |ds| >= SEEN_MAX
    ensures FreeSeen(t.seen) == SEEN_MAX
  {
    forall i | 0 <= i < SEEN_MAX ensures t.seen[i].inUse {
      var m := Occupant(i, |ds|);
      assert InSlot(t.seen, m, ds[m]);
    }
  }

  lemma {:induction false} FirstFree(t: Table, ds: seq<Key>)
    requires Window(t, ds) && |ds| < SEEN_MAX
    ensures FreeSeen(t.seen) == |ds|
  {
    assert !t.seen[|ds|].inUse;
    forall i | 0 <= i < |ds| ensures t.seen[i].inUse { assert InSlot(t.seen, i, ds[i]); }
  }

  lemma {:induction false} WindowRemember(t: Table, ds: seq<Key>, key: Key)
    requires Window(t, ds)
    ensures Window(Remember(t, key), ds + [key])
  {
    var k, t' := |ds|, Remember(t, key);
    if k < SEEN_MAX { FirstFree(t, ds); } else { NoneFree(t, ds); }
    assert t'.seen == t.seen[k % SEEN_MAX := Seen(true, key)];
    forall m | 0 <= m <= k && k + 1 - SEEN_MAX <= m ensures InSlot(t'.seen, m, (ds + [key])[m]) {
      if m < k { assert InSlot(t.seen, m, ds[m]); }
    }
  }

  // ---------------------------------------------------------------------
  // Whole runs.
  // ---------------------------------------------------------------------

  /** The keys of the reliable frames delivered so far, in order. */
  function Deliveries(c: Config, s: State, xs: seq<Input>): seq<Key>
    requires Valid(s)
  {
    if xs == [] then []
    else
      var ys, x := xs[..|xs| - 1], xs[|xs| - 1];
      Deliveries(c, s, ys) +
      if Arrives(c.addr, x) && Step(c, After(c, s, ys), x).outcome == Receives(RxDelivered) then [ArrivalKey(x)] else []
  }

  /** No change of session clears an entry of the table. */
  predicate NothingForgotten(c: Config, s: State, xs: seq<Input>)
    requires Valid(s)
  {
    xs != [] ==>
      var ys, x := xs[..|xs| - 1], xs[|xs| - 1];
      && NothingForgotten(c, s, ys)
      && (Arrives(c.addr, x) ==>
            Heard(After(c, s, ys).table, ArrivalKey(x).peer, ArrivalKey(x).session).seen == After(c, s, ys).table.seen)
  }

  lemma {:induction false} StepTable(c: Config, s: State, x: Input)
    requires Valid(s)
    ensures !Arrives(c.addr, x) ==> Step(c, s, x).state.table == s.table
    ensures Arrives(c.addr, x) ==>
              var t, m, key := Heard(s.table, ArrivalKey(x).peer, ArrivalKey(x).session), Step(c, s, x), ArrivalKey(x);
              if Contains(t.seen, key) then m.outcome == Receives(RxDuplicate) && m.state.table == t
              else m.outcome == Receives(RxDelivered) && m.state.table == Remember(t, key)
  {}

  lemma {:induction false} WindowRun(c: Config, firstSeq: u16, xs: seq<Input>)
    requires NothingForgotten(c, Initial(firstSeq), xs)
    ensures var t := After(c, Initial(firstSeq), xs).table;
            Window(t, Deliveries(c, Initial(firstSeq), xs))
  {
    var s0 := Initial(firstSeq);
    if xs != [] {
      var ys, x := xs[..|xs| - 1], xs[|xs| - 1];
      WindowRun(c, firstSeq, ys);
      StepTable(c, After(c, s0, ys), x);
      if Arrives(c.addr, x) {
        WindowStep(After(c, s0, ys).table, Heard(After(c, s0, ys).table, ArrivalKey(x).peer, ArrivalKey(x).session),
                   Deliveries(c, s0, ys), ArrivalKey(x));
      } else {
        assert Deliveries(c, s0, xs) == Deliveries(c, s0, ys);
      }
    }
  }

  lemma {:induction false} WindowStep(t: Table, h: Table, ds: seq<Key>, key: Key)
    requires Window(t, ds) && h.seen == t.seen && h.next == t.next
    ensures Window(h, ds) && Window(Remember(h, key), ds + [key])
  {
    WindowRemember(h, ds, key);
  }

  /** While no change of session clears an entry, an arrival is a duplicate exactly when its key is one of the last
      sixteen delivered. */
  lemma {:induction false} DuplicateIffRecent(c: Config, firstSeq: u16, xs: seq<Input>)
    requires xs != [] && Arrives(c.addr, xs[|xs| - 1]) && NothingForgotten(c, Initial(firstSeq), xs)
    ensures var recent := Recent(Deliveries(c, Initial(firstSeq), xs[..|xs| - 1]), SEEN_MAX, ArrivalKey(xs[|xs| - 1]));
            Last(c, Initial(firstSeq), xs).outcome == Receives(if recent then RxDuplicate else RxDelivered)
  {
    var s0, ys, x := Initial(firstSeq), xs[..|xs| - 1], xs[|xs| - 1];
    WindowRun(c, firstSeq, ys);
    StepTable(c, After(c, s0, ys), x);
    ContainsIffRecent(After(c, s0, ys).table, Deliveries(c, s0, ys), ArrivalKey(x));
  }

  /** Then any seventeen deliveries in a row have different keys. */
  lemma {:induction false} SeventeenDistinct(c: Config, firstSeq: u16, xs: seq<Input>, i: nat, j: nat)
    requires NothingForgotten(c, Initial(firstSeq), xs)
    requires i < j < |Deliveries(c, Initial(firstSeq), xs)| && j - i <= SEEN_MAX
    ensures Deliveries(c, Initial(firstSeq), xs)[i] != Deliveries(c, Initial(firstSeq), xs)[j]
  {
    var s0 := Initial(firstSeq);
    if xs != [] {
      var ys, x := xs[..|xs| - 1], xs[|xs| - 1];
      var ds := Deliveries(c, s0, ys);
      if j < |ds| {
        SeventeenDistinct(c, firstSeq, ys, i, j);
      } else {
        DuplicateIffRecent(c, firstSeq, xs);
        assert !Recent(ds, SEEN_MAX, ArrivalKey(x));
        assert ds[i] != ArrivalKey(x);
      }
    }
  }
}
