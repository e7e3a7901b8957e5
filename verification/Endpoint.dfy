/** One reliable endpoint of src/arc_reliable.c: retransmission, acknowledgement and duplicate suppression
    over fixed tables. The functions say what one call does to the tables and which callbacks it makes; they work
    for any table sizes, Initial has the sizes of src/arc_reliable.h. */
module Endpoint {
  import opened Bytes
  import opened Framing

  const PENDING_MAX := 8
  const SEEN_MAX := 16
  const SOURCES_MAX := 6
  const PAYLOAD_MAX := 64

  const CLOCK: int := 0x1_0000_0000
  const HALF_CLOCK: int := 0x8000_0000

  /** A received frame is known by its source, the source's session and its sequence number; a frame waiting
      for its ACK by its destination, our session and its sequence number. */
  datatype Key = Key(peer: byte, session: byte, seqno: u16)

  /** A pending slot; the frame is the one pending_to_frame would assemble from it. */
  datatype Pending = Pending(inUse: bool, deadline: u32, retries: byte, frame: Frame)

  datatype Seen = Seen(inUse: bool, key: Key)

  datatype Source = Source(inUse: bool, src: byte, session: byte)

  /** Fixed by arc_reliable_init. */
  datatype Config = Config(addr: byte, session: byte, timeout: u32, maxRetries: byte)

  /** The receive side: keys already delivered, with the replacement index, and the sessions of known sources. */
  datatype Table = Table(seen: seq<Seen>, next: nat, sources: seq<Source>)

  datatype State = State(pending: seq<Pending>, table: Table, nextSeq: u16)

  /** Calls of send_fn, deliver_fn and fail_fn. */
  datatype Event = Sent(frame: Frame) | Delivered(frame: Frame) | Failed(frame: Frame)

  /** arc_rx_result_t. */
  datatype Rx = RxIgnored | RxDelivered | RxDuplicate | RxAck

  datatype Sending = Sending(state: State, events: seq<Event>, result: Result<u16>)

  datatype Receiving = Receiving(state: State, events: seq<Event>, rx: Rx)

  // ---------------------------------------------------------------------
  // Frames and keys.
  // ---------------------------------------------------------------------

  function NextSeq(seqno: u16): u16 { (seqno + 1) % 0x1_0000 }

  function SourceKey(f: Frame): Key { Key(f.src, f.session, f.seqno) }

  function PendingKey(f: Frame): Key { Key(f.dst, f.session, f.seqno) }

  predicate IsReliable(f: Frame) { HasBit(f.flags, RELIABLE_BIT) }

  predicate IsAck(f: Frame) { HasBit(f.flags, ACK_BIT) && f.family == FAMILY_NETMGMT && f.kind == NETMGMT_ACK }

  /** A two's complement reading of a uint32_t. */
  function Signed(x: u32): int { if x < HALF_CLOCK then x else x - CLOCK }

  /** `(int32_t)(now_ms - deadline_ms) >= 0`. */
  predicate Due(deadline: u32, now: u32) { Signed((now - deadline) % CLOCK) >= 0 }

  // ---------------------------------------------------------------------
  // Searching the tables.
  // ---------------------------------------------------------------------

  /** The first free pending slot from k on, or the table size. */
  function FreePending(ps: seq<Pending>, k: nat := 0): (i: nat)
    requires k <= |ps|
    ensures k <= i <= |ps| && (i < |ps| ==> !ps[i].inUse)
    ensures forall j :: k <= j < i ==> ps[j].inUse
    decreases |ps| - k
  {
    if k == |ps| || !ps[k].inUse then k else FreePending(ps, k + 1)
  }

  predicate Waits(p: Pending, key: Key) { p.inUse && PendingKey(p.frame) == key }

  /** The first slot that waits under a key. */
  function FindPending(ps: seq<Pending>, key: Key, k: nat := 0): (i: nat)
    requires k <= |ps|
    ensures k <= i <= |ps| && (i < |ps| ==> Waits(ps[i], key))
    ensures forall j :: k <= j < i ==> !Waits(ps[j], key)
    decreases |ps| - k
  {
    if k == |ps| || Waits(ps[k], key) then k else FindPending(ps, key, k + 1)
  }

  function PendingCount(ps: seq<Pending>): (n: nat)
    ensures n <= |ps|
  {
    if ps == [] then 0 else PendingCount(ps[..|ps| - 1]) + if ps[|ps| - 1].inUse then 1 else 0
  }

  function FreeSeen(ss: seq<Seen>, k: nat := 0): (i: nat)
    requires k <= |ss|
    ensures k <= i <= |ss| && (i < |ss| ==> !ss[i].inUse)
    ensures forall j :: k <= j < i ==> ss[j].inUse
    decreases |ss| - k
  {
    if k == |ss| || !ss[k].inUse then k else FreeSeen(ss, k + 1)
  }

  predicate Contains(ss: seq<Seen>, key: Key) { exists i :: 0 <= i < |ss| && ss[i] == Seen(true, key) }

  function FreeSource(ss: seq<Source>, k: nat := 0): (i: nat)
    requires k <= |ss|
    ensures k <= i <= |ss| && (i < |ss| ==> !ss[i].inUse)
    ensures forall j :: k <= j < i ==> ss[j].inUse
    decreases |ss| - k
  {
    if k == |ss| || !ss[k].inUse then k else FreeSource(ss, k + 1)
  }

  predicate IsSource(s: Source, src: byte) { s.inUse && s.src == src }

  function FindSource(ss: seq<Source>, src: byte, k: nat := 0): (i: nat)
    requires k <= |ss|
    ensures k <= i <= |ss| && (i < |ss| ==> IsSource(ss[i], src))
    ensures forall j :: k <= j < i ==> !IsSource(ss[j], src)
    decreases |ss| - k
  {
    if k == |ss| || IsSource(ss[k], src) then k else FindSource(ss, src, k + 1)
  }

  // ---------------------------------------------------------------------
  // The receive side.
  // ---------------------------------------------------------------------

  predicate ValidTable(t: Table) { t.next < |t.seen| <= 256 }

  /** source_session_changed. */
  predicate SessionChanged(ss: seq<Source>, src: byte, session: byte) {
    var i := FindSource(ss, src);
    i < |ss| && ss[i].session != session
  }

  /** What source_session_changed leaves in the source table. */
  function NoteSession(ss: seq<Source>, src: byte, session: byte): (r: seq<Source>)
    ensures |r| == |ss|
  {
    var i := FindSource(ss, src);
    if i < |ss| then ss[i := Source(true, src, session)]
    else
      var j := FreeSource(ss);
      if j < |ss| then ss[j := Source(true, src, session)] else ss
  }

  /** seen_drop_source. */
  function DropSource(ss: seq<Seen>, src: byte): (r: seq<Seen>)
    ensures |r| == |ss|
    ensures forall i :: 0 <= i < |ss| ==> r[i] == if ss[i].key.peer == src then Seen(false, ss[i].key) else ss[i]
  {
    seq(|ss|, i requires 0 <= i < |ss| => if ss[i].key.peer == src then Seen(false, ss[i].key) else ss[i])
  }

  /** The session bookkeeping that comes before the duplicate test. */
  function Heard(t: Table, src: byte, session: byte): (r: Table)
    ensures |r.seen| == |t.seen| && r.next == t.next && |r.sources| == |t.sources|
  {
    Table(if SessionChanged(t.sources, src, session) then DropSource(t.seen, src) else t.seen, t.next,
          NoteSession(t.sources, src, session))
  }

  /** seen_add: the first free slot, or the slot the replacement index points at. */
  function Remember(t: Table, key: Key): (r: Table)
    requires ValidTable(t)
    ensures ValidTable(r) && |r.seen| == |t.seen|
  {
    var i := FreeSeen(t.seen);
    if i < |t.seen| then t.(seen := t.seen[i := Seen(true, key)])
    else t.(seen := t.seen[t.next := Seen(true, key)], next := (t.next + 1) % |t.seen|)
  }

  // ---------------------------------------------------------------------
  // The three calls.
  // ---------------------------------------------------------------------

  predicate Valid(s: State) { ValidTable(s.table) }

  function Initial(firstSeq: u16): (s: State)
    ensures Valid(s)
  {
    State(seq(PENDING_MAX, _ => Pending(false, 0, 0, Frame(0, 0, 0, 0, 0, 0, 0, []))),
          Table(seq(SEEN_MAX, _ => Seen(false, Key(0, 0, 0))), 0, seq(SOURCES_MAX, _ => Source(false, 0, 0))), firstSeq)
  }

  /** `if (reliable) flags |= ARC_FLAG_RELIABLE`. */
  function Marked(flags: byte, reliable: bool): byte { if reliable then Or(flags, FLAG_RELIABLE) else flags }

  /** The frame arc_reliable_send makes. */
  function Outgoing(c: Config, seqno: u16, dst: byte, family: byte, kind: byte, flags: byte, reliable: bool,
                    payload: seq<byte>): Frame
  {
    Frame(c.addr, dst, Marked(flags, reliable), c.session, seqno, family, kind, payload)
  }

  function Deadline(c: Config, now: u32): u32 { (now + c.timeout) % CLOCK }

  function Send(c: Config, s: State, dst: byte, family: byte, kind: byte, flags: byte, reliable: bool,
                payload: seq<byte>, now: u32): Sending
  {
    if |payload| > PAYLOAD_MAX then Sending(s, [], Err(TooLong))
    else
      var s1 := s.(nextSeq := NextSeq(s.nextSeq));
      var f := Outgoing(c, s.nextSeq, dst, family, kind, flags, reliable, payload);
      if !reliable then Sending(s1, [Sent(f)], Ok(f.seqno))
      else
        var i := FreePending(s.pending);
        if i == |s.pending| then Sending(s1, [], Err(Buffer))
        else Sending(s1.(pending := s.pending[i := Pending(true, Deadline(c, now), 0, f)]), [Sent(f)], Ok(f.seqno))
  }

  function Release(ps: seq<Pending>, key: Key): (r: seq<Pending>)
    ensures |r| == |ps|
  {
    var i := FindPending(ps, key);
    if i == |ps| then ps else ps[i := ps[i].(inUse := false)]
  }

  function ReceiveReliable(c: Config, s: State, f: Frame): (r: Receiving)
    requires Valid(s)
    ensures Valid(r.state)
  {
    var t := Heard(s.table, f.src, f.session);
    var ack := Sent(AckOf(f, c.session, s.nextSeq));
    if Contains(t.seen, SourceKey(f)) then
      Receiving(s.(table := t, nextSeq := NextSeq(s.nextSeq)), [ack], RxDuplicate)
    else
      Receiving(s.(table := Remember(t, SourceKey(f)), nextSeq := NextSeq(s.nextSeq)), [ack, Delivered(f)], RxDelivered)
  }

  function Receive(c: Config, s: State, f: Frame): (r: Receiving)
    requires Valid(s)
    ensures Valid(r.state)
  {
    if f.dst != c.addr then Receiving(s, [], RxIgnored)
    else if IsAck(f) then
      if |f.payload| != 2 then Receiving(s, [], RxAck)
      else
        var key := Key(f.src, c.session, Join(f.payload[0], f.payload[1]));
        Receiving(s.(pending := Release(s.pending, key)), [], RxAck)
    else if IsReliable(f) then ReceiveReliable(c, s, f)
    else Receiving(s, [Delivered(f)], RxDelivered)
  }

  /** What one pending slot goes through in arc_reliable_tick. */
  function TickSlot(c: Config, p: Pending, now: u32): Pending {
    if !p.inUse || !Due(p.deadline, now) then p
    else if p.retries >= c.maxRetries then p.(inUse := false)
    else Pending(true, Deadline(c, now), p.retries + 1, p.frame)
  }

  function SlotEvents(c: Config, p: Pending, now: u32): seq<Event> {
    if !p.inUse || !Due(p.deadline, now) then []
    else if p.retries >= c.maxRetries then [Failed(p.frame)]
    else [Sent(p.frame)]
  }

  function TickSlots(c: Config, ps: seq<Pending>, now: u32): (r: seq<Pending>)
    ensures |r| == |ps| && forall i :: 0 <= i < |ps| ==> r[i] == TickSlot(c, ps[i], now)
  {
    seq(|ps|, i requires 0 <= i < |ps| => TickSlot(c, ps[i], now))
  }

  function TickEvents(c: Config, ps: seq<Pending>, now: u32): seq<Event> {
    if ps == [] then [] else TickEvents(c, ps[..|ps| - 1], now) + SlotEvents(c, ps[|ps| - 1], now)
  }

  function Tick(c: Config, s: State, now: u32): State { s.(pending := TickSlots(c, s.pending, now)) }

  lemma {:induction false} TickEventsMembers(c: Config, ps: seq<Pending>, now: u32, e: Event)
    ensures e in TickEvents(c, ps, now) <==> exists i :: 0 <= i < |ps| && e in SlotEvents(c, ps[i], now)
  {
    if ps != [] {
      var n := |ps| - 1;
      TickEventsMembers(c, ps[..n], now, e);
      if e in TickEvents(c, ps[..n], now) {
        var i :| 0 <= i < n && e in SlotEvents(c, ps[..n][i], now);
        assert e in SlotEvents(c, ps[i], now);
      }
      if i :| 0 <= i < |ps| && e in SlotEvents(c, ps[i], now) {
        if i < n { assert e in SlotEvents(c, ps[..n][i], now); }
      }
    }
  }
}
