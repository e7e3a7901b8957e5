/** What the fixed tables of src/arc_reliable.c hold, seen as a set of keys and a map of sessions. */
module Tables {
  import opened Bytes
  import opened Endpoint

  // ---------------------------------------------------------------------
  // The source table.
  // ---------------------------------------------------------------------

  ghost predicate DistinctSources(ss: seq<Source>) {
    forall i, j :: 0 <= i < j < |ss| && ss[i].inUse && ss[j].inUse ==> ss[i].src != ss[j].src
  }

  /** The table records the session of exactly the sources in m. */
  ghost predicate Records(ss: seq<Source>, m: map<byte, byte>) {
    && DistinctSources(ss)
    && (forall i :: 0 <= i < |ss| && ss[i].inUse ==> ss[i].src in m && m[ss[i].src] == ss[i].session)
    && (forall src :: src in m ==> FindSource(ss, src) < |ss|)
  }

  lemma {:induction false} FindSourceIs(ss: seq<Source>, i: nat)
    requires DistinctSources(ss) && i < |ss| && ss[i].inUse
    ensures FindSource(ss, ss[i].src) == i
  {}

  ghost function SourceSet(ss: seq<Source>): set<byte> { set i | 0 <= i < |ss| && ss[i].inUse :: ss[i].src }

  lemma {:induction false} FullSources(ss: seq<Source>)
    requires DistinctSources(ss) && forall i :: 0 <= i < |ss| ==> ss[i].inUse
    ensures |SourceSet(ss)| == |ss|
  {
    if ss != [] {
      var n := |ss| - 1;
      FullSources(ss[..n]);
      assert SourceSet(ss) == SourceSet(ss[..n]) + {ss[n].src};
    }
  }

  lemma {:induction false} SubsetSize<T>(a: set<T>, b: set<T>)
    requires a <= b
    ensures |a| <= |b|
  {
    assert b == a + (b - a);
  }

  /** While the sources come from a set no larger than the table, there is a slot for each new one. */
  lemma {:induction false} RoomForSource(ss: seq<Source>, m: map<byte, byte>, peers: set<byte>, src: byte)
    requires Records(ss, m) && m.Keys <= peers && src in peers && src !in m && |peers| <= |ss|
    ensures FreeSource(ss) < |ss|
  {
    if FreeSource(ss) == |ss| {
      FullSources(ss);
      SubsetSize(SourceSet(ss) + {src}, peers);
      assert false;
    }
  }

  lemma {:induction false} NoteKnownSource(ss: seq<Source>, m: map<byte, byte>, src: byte, session: byte)
    requires Records(ss, m) && src in m
    ensures SessionChanged(ss, src, session) <==> m[src] != session
    ensures Records(NoteSession(ss, src, session), m[src := session])
  {
    var i := FindSource(ss, src);
    var r := ss[i := Source(true, src, session)];
    FindSourceIs(ss, i);
    forall src' | src' in m[src := session] ensures FindSource(r, src') < |r| {
      var i' := FindSource(ss, src');
      assert IsSource(r[i'], src');
    }
  }

  lemma {:induction false} NoteNewSource(ss: seq<Source>, m: map<byte, byte>, src: byte, session: byte)
    requires Records(ss, m) && src !in m && FreeSource(ss) < |ss|
    ensures !SessionChanged(ss, src, session)
    ensures Records(NoteSession(ss, src, session), m[src := session])
  {
    var j := FreeSource(ss);
    var r := ss[j := Source(true, src, session)];
    assert FindSource(ss, src) == |ss|;
    forall src' | src' in m[src := session] ensures FindSource(r, src') < |r| {
      var i' := if src' == src then j else FindSource(ss, src');
      assert IsSource(r[i'], src');
    }
  }

  /** Once noted, a session does not count as changed; nor does it when there was no room to note it. */
  lemma {:induction false} SessionNoted(ss: seq<Source>, src: byte, session: byte)
    ensures !SessionChanged(NoteSession(ss, src, session), src, session)
  {
    var r := NoteSession(ss, src, session);
    var i, j := FindSource(ss, src), FreeSource(ss);
    if i < |ss| || j < |ss| {
      var k := if i < |ss| then i else j;
      assert r[k] == Source(true, src, session) && IsSource(r[k], src);
      assert forall m :: 0 <= m < k ==> !IsSource(ss[m], src) && r[m] == ss[m];
      assert FindSource(r, src) == k;
    }
  }

  // ---------------------------------------------------------------------
  // The table of seen keys.
  // ---------------------------------------------------------------------

  ghost function Live(ss: seq<Seen>): set<Key> { set i | 0 <= i < |ss| && ss[i].inUse :: ss[i].key }

  ghost predicate DistinctSeen(ss: seq<Seen>) {
    forall i, j :: 0 <= i < j < |ss| && ss[i].inUse && ss[j].inUse ==> ss[i].key != ss[j].key
  }

  lemma {:induction false} ContainsIffLive(ss: seq<Seen>, key: Key)
    ensures Contains(ss, key) <==> key in Live(ss)
  {
    if key in Live(ss) {
      var i :| 0 <= i < |ss| && ss[i].inUse && ss[i].key == key;
      assert ss[i] == Seen(true, key);
    }
  }

  lemma {:induction false} LiveDropSource(ss: seq<Seen>, src: byte)
    ensures Live(DropSource(ss, src)) == set k | k in Live(ss) && k.peer != src
    ensures DistinctSeen(ss) ==> DistinctSeen(DropSource(ss, src))
  {
    var r := DropSource(ss, src);
    forall k | k in Live(ss) && k.peer != src ensures k in Live(r) {
      var i :| 0 <= i < |ss| && ss[i].inUse && ss[i].key == k;
      assert r[i] == ss[i];
    }
  }

  lemma {:induction false} LiveRemember(t: Table, key: Key)
    requires ValidTable(t)
    ensures Live(Remember(t, key).seen) <= Live(t.seen) + {key}
    ensures key in Live(Remember(t, key).seen)
    ensures FreeSeen(t.seen) < |t.seen| ==> Live(Remember(t, key).seen) == Live(t.seen) + {key}
    ensures DistinctSeen(t.seen) && key !in Live(t.seen) ==> DistinctSeen(Remember(t, key).seen)
  {
    var n := FreeSeen(t.seen);
    var i := if n < |t.seen| then n else t.next;
    var r := Remember(t, key).seen;
    assert r == t.seen[i := Seen(true, key)];
    assert r[i].key == key && r[i].inUse;
    if n < |t.seen| {
      forall k | k in Live(t.seen) ensures k in Live(r) {
        var m :| 0 <= m < |t.seen| && t.seen[m].inUse && t.seen[m].key == k;
        assert r[m] == t.seen[m];
      }
    }
  }

  lemma {:induction false} FullSeen(ss: seq<Seen>)
    requires DistinctSeen(ss) && forall i :: 0 <= i < |ss| ==> ss[i].inUse
    ensures |Live(ss)| == |ss|
  {
    if ss != [] {
      var n := |ss| - 1;
      FullSeen(ss[..n]);
      assert Live(ss) == Live(ss[..n]) + {ss[n].key};
    }
  }
}
