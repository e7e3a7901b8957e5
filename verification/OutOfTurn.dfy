/** A run in which the fixed table forgets a key after a single delivery. */
module OutOfTurn {
  import opened Bytes
  import opened Framing
  import opened Endpoint
  import opened PyEndpoint
  import opened Runs
  import opened DedupWindow
  import opened DedupLifetime
  import opened DedupHoles
  import AtMostOnce

  /** One frame of a source, fifteen of another, the first source in a new session, the other one again, and the frame
      of the new session once more. */
  function OutOfTurn(src: byte, other: byte, dst: byte): (xs: seq<Input>)
    ensures |xs| == SEEN_MAX + 3 && forall x :: x in xs ==> x.action.DoReceive?
  {
    Opening(src, other, dst) +
    [Arrival(src, dst, 2, 0), Arrival(other, dst, 1, SEEN_MAX), Arrival(src, dst, 2, 0)]
  }

  function Arrival(src: byte, dst: byte, session: byte, seqno: u16): (x: Input)
    ensures Arrives(dst, x) && ArrivalKey(x) == Key(src, session, seqno)
  {
    Input(0, DoReceive(NewFrame(src, dst, session, seqno)))
  }

  function Opening(src: byte, other: byte, dst: byte): (xs: seq<Input>)
    ensures |xs| == SEEN_MAX
    ensures forall i :: 0 <= i < SEEN_MAX ==> xs[i] == Arrival(if i == 0 then src else other, dst, 1, i)
  {
    seq(SEEN_MAX, i requires 0 <= i < SEEN_MAX => Arrival(if i == 0 then src else other, dst, 1, i))
  }

  /** The tables after k frames of the opening. */
  ghost predicate AfterOpening(t: Table, src: byte, other: byte, k: nat) {
    && |t.sources| == SOURCES_MAX && |t.seen| == SEEN_MAX && t.next == 0 && k <= SEEN_MAX
    && (forall i :: 0 <= i < SOURCES_MAX ==> (t.sources[i].inUse <==> i < k && i < 2))
    && (k > 0 ==> t.sources[0] == Source(true, src, 1)) && (k > 1 ==> t.sources[1] == Source(true, other, 1))
    && (forall i :: 0 <= i < SEEN_MAX ==> (t.seen[i].inUse <==> i < k))
    && (forall i :: 0 <= i < k ==> t.seen[i].key == Key(if i == 0 then src else other, 1, i))
  }

  /** The source can be heard without clearing anything. */
  lemma {:induction false} OpeningSources(t: Table, src: byte, other: byte, k: nat, who: byte)
    requires AfterOpening(t, src, other, k) && src != other && k < SEEN_MAX && who == if k == 0 then src else other
    ensures Heard(t, who, 1).seen == t.seen
    ensures var ss := Heard(t, who, 1).sources;
            && (forall i :: 0 <= i < SOURCES_MAX ==> (ss[i].inUse <==> i <= k && i < 2))
            && ss[0] == Source(true, src, 1) && (k > 0 ==> ss[1] == Source(true, other, 1))
  {
    var ss := t.sources;
    if k < 2 {
      assert !ss[k].inUse && forall i :: 0 <= i < k ==> ss[i].inUse;
      assert FreeSource(ss) == k && FindSource(ss, who) == SOURCES_MAX;
    } else {
      assert !IsSource(ss[0], other) && IsSource(ss[1], other);
      assert FindSource(ss, other) == 1;
    }
  }

  lemma {:induction false} OpeningStep(c: Config, s: State, src: byte, other: byte, k: nat)
    requires Valid(s) && AfterOpening(s.table, src, other, k) && src != other && k < SEEN_MAX
    ensures var x := Arrival(if k == 0 then src else other, c.addr, 1, k);
            TakesForNew(c, s, x) && AfterOpening(Step(c, s, x).state.table, src, other, k + 1)
  {
    var who := if k == 0 then src else other;
    var x, t := Arrival(who, c.addr, 1, k), Heard(s.table, who, 1);
    OpeningSources(s.table, src, other, k, who);
    StepTable(c, s, x);
    assert !t.seen[k].inUse && FreeSeen(t.seen) == k;
    assert !Contains(t.seen, Key(who, 1, k));
  }

  lemma {:induction false} OpeningTable(c: Config, firstSeq: u16, src: byte, other: byte, k: nat)
    requires src != other && k <= SEEN_MAX
    ensures AfterOpening(After(c, Initial(firstSeq), Opening(src, other, c.addr)[..k]).table, src, other, k)
  {
    if k > 0 {
      var xs := Opening(src, other, c.addr);
      OpeningTable(c, firstSeq, src, other, k - 1);
      assert xs[..k] == xs[..k - 1] + [xs[k - 1]];
      OneMoreCall(c, Initial(firstSeq), xs[..k - 1], xs[k - 1]);
      OpeningStep(c, After(c, Initial(firstSeq), xs[..k - 1]), src, other, k - 1);
    }
  }

  /** The source's new session makes a hole at the replacement index. */
  lemma {:induction false} FirstHole(t: Table, src: byte, other: byte, h: Table)
    requires AfterOpening(t, src, other, SEEN_MAX) && src != other && h == Heard(t, src, 2)
    ensures h.next == 0 && |h.seen| == SEEN_MAX && FreeSeen(h.seen) == 0 && !Contains(h.seen, Key(src, 2, 0))
    ensures forall i :: 0 < i < SEEN_MAX ==> h.seen[i] == t.seen[i]
    ensures |h.sources| == SOURCES_MAX && h.sources[0] == Source(true, src, 2) && h.sources[1] == Source(true, other, 1)
  {
    assert IsSource(t.sources[0], src);
    assert FindSource(t.sources, src) == 0;
    assert !h.seen[0].inUse;
  }

  /** The other source, in its old session, changes nothing before its key goes to the replacement index. */
  lemma {:induction false} OthersStay(t: Table, src: byte, other: byte)
    requires |t.sources| == SOURCES_MAX
    requires t.sources[0] == Source(true, src, 2) && t.sources[1] == Source(true, other, 1)
    requires |t.seen| == SEEN_MAX && t.next == 0 && src != other
    requires forall i :: 0 <= i < SEEN_MAX ==> t.seen[i].inUse && t.seen[i].key != Key(other, 1, SEEN_MAX)
    ensures var h := Heard(t, other, 1);
            && h.seen == t.seen && h.next == 0 && h.sources == t.sources
            && FreeSeen(h.seen) == SEEN_MAX && !Contains(h.seen, Key(other, 1, SEEN_MAX))
  {
    assert !IsSource(t.sources[0], other) && IsSource(t.sources[1], other);
    assert FindSource(t.sources, other) == 1;
    AllUsed(t.seen);
  }

  lemma {:induction false} StillNew(t: Table, src: byte, other: byte)
    requires src != other && forall i :: 0 <= i < |t.seen| ==> t.seen[i].key.peer == other
    ensures !Contains(Heard(t, src, 2).seen, Key(src, 2, 0))
  {}

  /** A full table whose next victim is the only key of a source: the source's new session fills that hole, and the
      next delivery empties it. */
  lemma {:induction false} HoleForgets(c: Config, s: State, src: byte, other: byte, s1: State, s2: State)
    requires Valid(s) && AfterOpening(s.table, src, other, SEEN_MAX) && src != other
    requires s1 == Step(c, s, Arrival(src, c.addr, 2, 0)).state
    requires s2 == Step(c, s1, Arrival(other, c.addr, 1, SEEN_MAX)).state
    ensures TakesForNew(c, s, Arrival(src, c.addr, 2, 0)) && TakesForNew(c, s1, Arrival(other, c.addr, 1, SEEN_MAX))
    ensures TakesForNew(c, s2, Arrival(src, c.addr, 2, 0))
  {
    var x, y := Arrival(src, c.addr, 2, 0), Arrival(other, c.addr, 1, SEEN_MAX);
    var h := LookedUp(s, x);
    FirstHole(s.table, src, other, h);
    StepTable(c, s, x);
    assert s1.table == h.(seen := h.seen[0 := Seen(true, Key(src, 2, 0))]);
    OthersStay(s1.table, src, other);
    StepTable(c, s1, y);
    assert s2.table.seen == s1.table.seen[0 := Seen(true, Key(other, 1, SEEN_MAX))];
    StepTable(c, s2, x);
    StillNew(s2.table, src, other);
  }

  /** No frame comes in again after its source has used another session. */
  lemma {:induction false} NothingReturns(src: byte, other: byte, dst: byte)
    requires src != other
    ensures AtMostOnce.NoReturn(dst, OutOfTurn(src, other, dst))
  {
    var xs := OutOfTurn(src, other, dst);
    forall i: nat, j: nat, k: nat | i < j < k < |xs| ensures !AtMostOnce.Returns(dst, xs, i, j, k) {
      if ArrivalKey(xs[i]) == ArrivalKey(xs[k]) {
        assert i == SEEN_MAX && j == SEEN_MAX + 1;
      }
    }
  }

  /** Eviction is not first in, first out: from the start, for any two sources, a frame is delivered twice with one
      delivery in between, in a run in which Python delivers every frame at most once. */
  lemma {:induction false} DeliveredOutOfTurn(c: Config, pc: PyConfig, firstSeq: u16, src: byte, other: byte)
    requires c.addr == pc.addr && src != other
    ensures var s0, xs, key := Initial(firstSeq), OutOfTurn(src, other, c.addr), Key(src, 2, 0);
            && DeliveredBy(c, s0, xs, SEEN_MAX, key) && DeliveredBy(c, s0, xs, SEEN_MAX + 2, key)
            && AtMostOnce.AtMostOnce(pc, firstSeq, xs)
  {
    var s0, xs := Initial(firstSeq), OutOfTurn(src, other, c.addr);
    var n, opening := SEEN_MAX, Opening(src, other, c.addr);
    OpeningTable(c, firstSeq, src, other, n);
    assert xs[..n] == opening[..n] && xs[..n + 1][..n] == xs[..n] && xs[..n + 2][..n + 1] == xs[..n + 1];
    HoleForgets(c, After(c, s0, xs[..n]), src, other, After(c, s0, xs[..n + 1]), After(c, s0, xs[..n + 2]));
    NothingReturns(src, other, c.addr);
    AtMostOnce.AtMostOnceIff(pc, firstSeq, xs);
  }
}
