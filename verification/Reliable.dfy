/** The endpoint object of src/arc_reliable.c: tables changed in place, callbacks appended to a log. */
module Reliable {
  import opened Bytes
  import opened Framing
  import opened Endpoint

  class ReliableEndpoint {
    const config: Config
    var nextSeq: u16
    const pending: array<Pending>
    const seen: array<Seen>
    var seenNextIdx: byte
    const sources: array<Source>
    ghost var log: seq<Event>

    ghost predicate Valid()
      reads this, pending, seen, sources
    {
      pending.Length == PENDING_MAX && seen.Length == SEEN_MAX && sources.Length == SOURCES_MAX &&
      seenNextIdx < seen.Length
    }

    ghost function Tables(): Table
      reads this, seen, sources
    {
      Table(seen[..], seenNextIdx, sources[..])
    }

    ghost function Value(): State
      reads this, pending, seen, sources
    {
      State(pending[..], Tables(), nextSeq)
    }

    /** arc_reliable_init. */
    constructor (addr: byte, session: byte, timeout: u32, maxRetries: byte, firstSeq: u16)
      ensures Valid() && fresh(pending) && fresh(seen) && fresh(sources)
      ensures config == Config(addr, session, timeout, maxRetries)
      ensures Value() == Initial(firstSeq) && log == []
    {
      config := Config(addr, session, timeout, maxRetries);
      nextSeq := firstSeq;
      pending := new Pending[PENDING_MAX](_ => Pending(false, 0, 0, Frame(0, 0, 0, 0, 0, 0, 0, [])));
      seen := new Seen[SEEN_MAX](_ => Seen(false, Key(0, 0, 0)));
      sources := new Source[SOURCES_MAX](_ => Source(false, 0, 0));
      seenNextIdx := 0;
      log := [];
    }

    /** take_seq. */
    method TakeSeq() returns (seqno: u16)
      modifies `nextSeq
      ensures seqno == old(nextSeq) && nextSeq == NextSeq(old(nextSeq))
    {
      seqno := nextSeq;
      nextSeq := (nextSeq + 1) % 0x1_0000;
    }

    /** pending_alloc; the table size stands for NULL. */
    method PendingAlloc() returns (i: nat)
      ensures i == FreePending(pending[..])
    {
      i := 0;
      while i < pending.Length
        invariant i <= pending.Length && FreePending(pending[..], i) == FreePending(pending[..])
      {
        if !pending[i].inUse { return; }
        i := i + 1;
      }
    }

    /** pending_find; the table size stands for NULL. */
    method PendingFind(dst: byte, session: byte, seqno: u16) returns (i: nat)
      ensures i == FindPending(pending[..], Key(dst, session, seqno))
    {
      i := 0;
      ghost var key := Key(dst, session, seqno);
      while i < pending.Length
        invariant i <= pending.Length && FindPending(pending[..], key, i) == FindPending(pending[..], key)
      {
        var p := pending[i];
        if p.inUse && p.frame.dst == dst && p.frame.session == session && p.frame.seqno == seqno { return; }
        i := i + 1;
      }
    }

    /** seen_contains. */
    method SeenContains(key: Key) returns (found: bool)
      ensures found == Contains(seen[..], key)
    {
      for i := 0 to seen.Length
        invariant forall j :: 0 <= j < i ==> seen[..][j] != Seen(true, key)
      {
        if seen[i].inUse && seen[i].key == key {
          assert seen[..][i] == Seen(true, key);
          return true;
        }
      }
      return false;
    }

    /** seen_drop_source. */
    method SeenDropSource(src: byte)
      requires Valid()
      modifies seen
      ensures seen[..] == DropSource(old(seen[..]), src)
    {
      ghost var before := seen[..];
      for i := 0 to seen.Length
        invariant forall j :: 0 <= j < i ==> seen[j] == DropSource(before, src)[j]
        invariant forall j :: i <= j < seen.Length ==> seen[j] == before[j]
      {
        if seen[i].inUse && seen[i].key.peer == src {
          seen[i] := seen[i].(inUse := false);
        }
      }
    }

    /** seen_add. */
    method SeenAdd(key: Key)
      requires Valid()
      modifies this`seenNextIdx, seen
      ensures Valid() && Tables() == Remember(old(Tables()), key)
    {
      var i := 0;
      ghost var before := seen[..];
      while i < seen.Length
        invariant i <= seen.Length && FreeSeen(before, i) == FreeSeen(before)
        invariant seen[..] == before && seenNextIdx == old(seenNextIdx)
      {
        if !seen[i].inUse {
          seen[i] := Seen(true, key);
          assert seen[..] == before[i := Seen(true, key)];
          return;
        }
        i := i + 1;
      }
      seen[seenNextIdx] := Seen(true, key);
      assert seen[..] == before[seenNextIdx := Seen(true, key)];
      seenNextIdx := (seenNextIdx + 1) % SEEN_MAX;
    }

    /** source_session_changed. */
    method SourceSessionChanged(src: byte, session: byte) returns (changed: bool)
      requires Valid()
      modifies sources
      ensures changed == SessionChanged(old(sources[..]), src, session)
      ensures sources[..] == NoteSession(old(sources[..]), src, session)
    {
      ghost var before := sources[..];
      var freeSlot: nat, i: nat := sources.Length, 0;
      while i < sources.Length
        invariant i <= sources.Length && sources[..] == before
        invariant FindSource(before, src, i) == FindSource(before, src)
        invariant freeSlot == (if FreeSource(before) < i then FreeSource(before) else sources.Length)
      {
        if !sources[i].inUse {
          if freeSlot == sources.Length { freeSlot := i; }
        } else if sources[i].src == src {
          if sources[i].session == session { return false; }
          sources[i] := sources[i].(session := session);
          assert sources[..] == before[i := Source(true, src, session)];
          return true;
        }
        i := i + 1;
      }
      if freeSlot != sources.Length {
        sources[freeSlot] := Source(true, src, session);
        assert sources[..] == before[freeSlot := Source(true, src, session)];
      }
      return false;
    }

    /** emit_ack. */
    method EmitAck(original: Frame)
      modifies `nextSeq, `log
      ensures nextSeq == NextSeq(old(nextSeq))
      ensures original.dst == config.addr ==> log == old(log) + [Sent(AckOf(original, config.session, old(nextSeq)))]
    {
      var seqno := TakeSeq();
      var ack := Frame(config.addr, original.src, FLAG_ACK, config.session, seqno, FAMILY_NETMGMT, NETMGMT_ACK,
                       [High(original.seqno), Low(original.seqno)]);
      log := log + [Sent(ack)];
    }

    /** arc_reliable_send. */
    method Send(dst: byte, family: byte, kind: byte, flags: byte, reliable: bool, payload: seq<byte>, now: u32)
      returns (r: Result<u16>)
      requires Valid()
      modifies this, pending
      ensures Valid()
      ensures var sending := Endpoint.Send(config, old(Value()), dst, family, kind, flags, reliable, payload, now);
              r == sending.result && Value() == sending.state && log == old(log) + sending.events
    {
      if |payload| > PAYLOAD_MAX { return Err(TooLong); }
      var allFlags := Marked(flags, reliable);
      var seqno := TakeSeq();
      var f := Frame(config.addr, dst, allFlags, config.session, seqno, family, kind, payload);
      if reliable {
        var i := PendingAlloc();
        if i == pending.Length { return Err(Buffer); }
        ghost var before := pending[..];
        pending[i] := Pending(true, (now + config.timeout) % CLOCK, 0, f);
        assert pending[..] == before[i := Pending(true, Deadline(config, now), 0, f)];
      }
      log := log + [Sent(f)];
      return Ok(seqno);
    }

    /** arc_reliable_receive. */
    method Receive(f: Frame) returns (rx: Rx)
      requires Valid()
      modifies this, pending, seen, sources
      ensures Valid()
      ensures var receiving := Endpoint.Receive(config, old(Value()), f);
              rx == receiving.rx && Value() == receiving.state && log == old(log) + receiving.events
    {
      if f.dst != config.addr { return RxIgnored; }
      if IsAck(f) {
        if |f.payload| != 2 { return RxAck; }
        var acked := Join(f.payload[0], f.payload[1]);
        var i := PendingFind(f.src, config.session, acked);
        if i != pending.Length {
          ghost var before := pending[..];
          pending[i] := pending[i].(inUse := false);
          assert pending[..] == before[i := before[i].(inUse := false)];
        }
        return RxAck;
      }
      if IsReliable(f) {
        var changed := SourceSessionChanged(f.src, f.session);
        if changed { SeenDropSource(f.src); }
        var duplicate := SeenContains(SourceKey(f));
        EmitAck(f);
        if duplicate { return RxDuplicate; }
        SeenAdd(SourceKey(f));
      }
      log := log + [Delivered(f)];
      return RxDelivered;
    }

    /** arc_reliable_tick. */
    method Tick(now: u32)
      requires Valid()
      modifies `log, pending
      ensures Valid() && Value() == Endpoint.Tick(config, old(Value()), now)
      ensures log == old(log) + TickEvents(config, old(pending[..]), now)
    {
      ghost var before := pending[..];
      for i := 0 to pending.Length
        invariant forall j :: 0 <= j < i ==> pending[j] == TickSlot(config, before[j], now)
        invariant forall j :: i <= j < pending.Length ==> pending[j] == before[j]
        invariant log == old(log) + TickEvents(config, before[..i], now)
      {
        var p := pending[i];
        assert before[..i + 1][..i] == before[..i];
        if p.inUse {
          var delta := Signed((now - p.deadline) % CLOCK);
          if delta >= 0 {
            if p.retries >= config.maxRetries {
              pending[i] := p.(inUse := false);
              log := log + [Failed(p.frame)];
            } else {
              pending[i] := p.(retries := p.retries + 1, deadline := (now + config.timeout) % CLOCK);
              log := log + [Sent(p.frame)];
            }
          }
        }
      }
      assert before[..pending.Length] == before;
    }

    /** arc_reliable_pending_count. */
    method CountPending() returns (n: nat)
      ensures n == PendingCount(pending[..])
    {
      n := 0;
      for i := 0 to pending.Length
        invariant n == PendingCount(pending[..i])
      {
        assert pending[..i + 1][..i] == pending[..i];
        if pending[i].inUse { n := n + 1; }
      }
      assert pending[..pending.Length] == pending[..];
    }
  }
}
