/** The structs of src/arc_messages_fc_video.h and the encoders and decoders that work on them in place. */
module FcVideoReports {
  import opened Bytes
  import opened FcVideo

  /** arc_fc_video_layouts_report_t. */
  class LayoutsReport {
    var count: byte
    const names: array2<byte>

    ghost predicate Valid()
      reads this
    {
      names.Length0 == MAX_LAYOUTS && names.Length1 == LAYOUT_NAME_CAP
    }

    constructor ()
      ensures Valid() && fresh(names)
    {
      count := 0;
      names := new byte[MAX_LAYOUTS, LAYOUT_NAME_CAP];
    }

    function Row(i: nat): (r: seq<byte>)
      requires i < names.Length0
      reads names
      ensures |r| == names.Length1 && forall j :: 0 <= j < |r| ==> r[j] == names[i, j]
    {
      seq(names.Length1, j requires 0 <= j < names.Length1 reads names => names[i, j])
    }

    ghost function Rows(n: nat): (r: seq<seq<byte>>)
      requires n <= names.Length0
      reads names
      ensures |r| == n && forall i :: 0 <= i < n ==> r[i] == Row(i)
    {
      seq(n, i requires 0 <= i < n reads names => Row(i))
    }

    /** `memcpy(out + off, msg->names[i], n)`. */
    method CopyName(i: nat, n: nat, out: array<byte>, off: nat)
      requires i < names.Length0 && n <= names.Length1 && off + n <= out.Length
      modifies out
      ensures out[..off + n] == old(out[..off]) + Row(i)[..n]
      ensures out[off + n..] == old(out[off + n..])
    {
      for j := 0 to n
        invariant out[..off + j] == old(out[..off]) + Row(i)[..j]
        invariant out[off + j..] == old(out[off + j..])
      {
        out[off + j] := names[i, j];
      }
    }

    /** The bounded scan for a NUL. */
    method NameLength(i: nat) returns (n: nat)
      requires i < names.Length0
      ensures n == NulAt(Row(i))
    {
      n := 0;
      while n < names.Length1 && names[i, n] != 0
        invariant n <= names.Length1 && NulAt(Row(i), n) == NulAt(Row(i))
      {
        n := n + 1;
      }
    }

    /** The scan of the second pass, without a bound: the first pass has shown that there is a NUL. */
    method NameLengthUnguarded(i: nat) returns (n: nat)
      requires i < names.Length0 && Terminated(Row(i))
      ensures n == NulAt(Row(i))
    {
      n := 0;
      while names[i, n] != 0
        invariant n < names.Length1 && NulAt(Row(i), n) == NulAt(Row(i))
        decreases names.Length1 - n
      {
        n := n + 1;
      }
    }

    lemma {:induction false} RowsPush(i: nat)
      requires i < names.Length0
      ensures NamesBytes(Names(Rows(i + 1))) == NamesBytes(Names(Rows(i))) + CString(Row(i)) + [0]
    {
      assert Names(Rows(i + 1))[..i] == Names(Rows(i));
    }

    /** The first pass of the encoder: the size, or None for a name without NUL. */
    method Measure() returns (ok: bool, needed: nat)
      requires Valid() && count <= MAX_LAYOUTS
      ensures ok <==> forall i :: 0 <= i < count ==> Terminated(Row(i))
      ensures ok ==> needed == |LayoutsBytes(Names(Rows(count)))|
    {
      needed := 1;
      for i := 0 to count
        invariant forall k :: 0 <= k < i ==> Terminated(Row(k))
        invariant needed == 1 + |NamesBytes(Names(Rows(i)))|
      {
        var n := NameLength(i);
        if n >= LAYOUT_NAME_CAP { return false, needed; }
        RowsPush(i);
        needed := needed + n + 1;
      }
      return true, needed;
    }

    /** One name of the second pass, with its NUL. */
    method AppendName(i: nat, out: array<byte>, off: nat) returns (end: nat)
      requires i < names.Length0 && Terminated(Row(i)) && off + NulAt(Row(i)) + 1 <= out.Length
      modifies out
      ensures end == off + NulAt(Row(i)) + 1
      ensures out[..end] == old(out[..off]) + CString(Row(i)) + [0] && out[end..] == old(out[end..])
    {
      var n := NameLengthUnguarded(i);
      CopyName(i, n, out, off);
      SameEnd(out[..], old(out[..]), off + n, off + n + 1);
      Push(out, off + n, 0);
      return off + n + 1;
    }

    /** The second pass. */
    method Write(out: array<byte>) returns (off: nat)
      requires Valid() && count <= MAX_LAYOUTS && forall i :: 0 <= i < count ==> Terminated(Row(i))
      requires |LayoutsBytes(Names(Rows(count)))| <= out.Length
      modifies out
      ensures var s := LayoutsBytes(Names(Rows(count)));
              off == |s| && out[..] == s + old(out[|s|..])
    {
      ghost var ns, before := Names(Rows(count)), out[..];
      Push(out, 0, count);
      off := 1;
      for i := 0 to count
        invariant LaidOut(out[..], before, ns, i, off)
      {
        LaidOutRoom(out[..], before, ns, i, off);
        ghost var buf, start := out[..], off;
        off := AppendName(i, out, off);
        LaidOutStep(buf, out[..], before, ns, i, start);
      }
      LaidOutEnds(out[..], before, ns, off);
    }

    /** arc_fc_video_layouts_report_encode. */
    method Encode(out: array<byte>) returns (r: Result<nat>)
      requires Valid()
      modifies out
      ensures count > MAX_LAYOUTS ==> r == Err(BadArg) && out[..] == old(out[..])
      ensures count <= MAX_LAYOUTS ==>
                match EncodeLayouts(Rows(count), out.Length)
                case Err(e) => r == Err(e) && out[..] == old(out[..])
                case Ok(s) => r == Ok(|s|) && out[..] == s + old(out[|s|..])
    {
      if count > MAX_LAYOUTS { return Err(BadArg); }
      var ok, needed := Measure();
      if !ok { return Err(BadArg); }
      if needed > MAX_PAYLOAD_SIZE { return Err(TooLong); }
      if out.Length < needed { return Err(Buffer); }
      var off := Write(out);
      return Ok(off);
    }

    /** `memcpy(msg->names[i], in + start, n); msg->names[i][n] = 0;` */
    method SetName(i: nat, input: array<byte>, start: nat, n: nat)
      requires i < names.Length0 && n < names.Length1 && start + n <= input.Length
      modifies names
      ensures Row(i) == input[start..start + n] + [0] + old(Row(i))[n + 1..]
      ensures forall k :: 0 <= k < names.Length0 && k != i ==> Row(k) == old(Row(k))
    {
      for j := 0 to n
        invariant forall m :: 0 <= m < j ==> names[i, m] == input[start + m]
        invariant forall m :: j <= m < names.Length1 ==> names[i, m] == old(names[i, m])
        invariant forall k, m :: 0 <= k < names.Length0 && k != i && 0 <= m < names.Length1 ==> names[k, m] == old(names[k, m])
      {
        names[i, j] := input[start + j];
      }
      names[i, n] := 0;
    }

    /** arc_fc_video_layouts_report_decode over the first len bytes. After an error the struct may be partly filled. */
    method Decode(input: array<byte>, len: nat) returns (r: Result<()>)
      requires Valid() && len <= input.Length
      modifies `count, names
      ensures match DecodeLayouts(input[..len])
              case Err(e) => r == Err(e)
              case Ok(ns) => r == Ok(()) && count == |ns| && Filled(Rows(MAX_LAYOUTS), old(Rows(MAX_LAYOUTS)), ns)
    {
      if len < 1 { return Err(BadLength); }
      var n := input[0];
      if n > MAX_LAYOUTS { return Err(TooLong); }
      ghost var s, before := input[..len], Rows(MAX_LAYOUTS);
      var off := 1;
      count := n;
      ghost var done: seq<seq<byte>> := [];
      ParsingStarts(s);
      for i := 0 to n
        invariant count == n && 1 <= off <= len && |done| == i && Parsing(s, off, n - i, done)
        invariant Filled(Rows(MAX_LAYOUTS), before, done)
      {
        ghost var middle := Rows(MAX_LAYOUTS);
        ParsingStep(s, off, n - i, done);
        var end := ReadName(i, input, len, off);
        if end.Err? { return Err(end.error); }
        FilledStep(before, middle, Rows(MAX_LAYOUTS), done, CStringFrom(s, off));
        done := done + [CStringFrom(s, off)];
        off := end.value;
      }
      ParsingEnds(s, off, done);
      if off != len { return Err(BadLength); }
      return Ok(());
    }

    /** One name; the position after its NUL. */
    method ReadName(i: nat, input: array<byte>, len: nat, off: nat) returns (r: Result<nat>)
      requires Valid() && i < MAX_LAYOUTS && off <= len <= input.Length
      modifies names
      ensures r == NameEnd(input[..len], off)
      ensures r.Ok? ==>
                var name := CStringFrom(input[..len], off);
                && r.value <= len && |name| < LAYOUT_NAME_CAP
                && Rows(MAX_LAYOUTS)[i] == name + [0] + old(Rows(MAX_LAYOUTS))[i][|name| + 1..]
                && forall k :: 0 <= k < MAX_LAYOUTS && k != i ==> Rows(MAX_LAYOUTS)[k] == old(Rows(MAX_LAYOUTS))[k]
    {
      var end := FindNul(input, len, off);
      if end >= len { return Err(BadLength); }
      var nameLen := end - off;
      if nameLen + 1 > LAYOUT_NAME_CAP { return Err(TooLong); }
      SetName(i, input, off, nameLen);
      assert CStringFrom(input[..len], off) == input[off..end];
      return Ok(end + 1);
    }
  }

  /** The string at a position, up to its NUL or the end. */
  function CStringFrom(s: seq<byte>, off: nat): seq<byte>
    requires off <= |s|
  {
    s[off..NulAt(s, off)]
  }

  function NameEnd(s: seq<byte>, off: nat): Result<nat>
    requires off <= |s|
  {
    var n := NulAt(s, off);
    if n == |s| then Err(BadLength) else if n - off + 1 > LAYOUT_NAME_CAP then Err(TooLong) else Ok(n + 1)
  }

  lemma {:induction false} TwoPushed(front: seq<byte>, now: seq<byte>, head: seq<byte>, done: seq<byte>, a: byte,
          b: byte)
    requires front == head + done && now == (front + [a]) + [b]
    ensures now == head + (done + [a, b])
  {}

  lemma {:induction false} SameEnd<T>(a: seq<T>, b: seq<T>, i: nat, j: nat)
    requires |a| == |b| && i <= j <= |a| && a[i..] == b[i..]
    ensures a[j..] == b[j..]
  {
    assert a[j..] == a[i..][j - i..] && b[j..] == b[i..][j - i..];
  }

  /** The count and the first i names are in the buffer, the rest of it is untouched. */
  ghost predicate LaidOut(buf: seq<byte>, before: seq<byte>, ns: seq<seq<byte>>, i: nat, off: nat) {
    && |ns| <= MAX_LAYOUTS && i <= |ns| && |buf| == |before| && |LayoutsBytes(ns)| <= |buf|
    && off == 1 + |NamesBytes(ns[..i])| && off <= |buf|
    && buf[..off] == [|ns|] + NamesBytes(ns[..i]) && buf[off..] == before[off..]
  }

  lemma {:induction false} LaidOutRoom(buf: seq<byte>, before: seq<byte>, ns: seq<seq<byte>>, i: nat, off: nat)
    requires LaidOut(buf, before, ns, i, off) && i < |ns|
    ensures off + |ns[i]| + 1 <= |buf|
  {
    NamesBytesPush(ns, i);
    NamesBytesGrow(ns, i + 1);
  }

  lemma {:induction false} LaidOutStep(buf: seq<byte>, buf': seq<byte>, before: seq<byte>, ns: seq<seq<byte>>,
          i: nat, off: nat)
    requires LaidOut(buf, before, ns, i, off) && i < |ns| && |buf'| == |buf| && off + |ns[i]| + 1 <= |buf|
    requires buf'[..off + |ns[i]| + 1] == buf[..off] + ns[i] + [0] && buf'[off + |ns[i]| + 1..] == buf[off + |ns[i]| + 1..]
    ensures LaidOut(buf', before, ns, i + 1, off + |ns[i]| + 1)
  {
    NamesBytesPush(ns, i);
    SameEnd(buf, before, off, off + |ns[i]| + 1);
  }

  lemma {:induction false} LaidOutEnds(buf: seq<byte>, before: seq<byte>, ns: seq<seq<byte>>, off: nat)
    requires LaidOut(buf, before, ns, |ns|, off)
    ensures off == |LayoutsBytes(ns)| && buf == LayoutsBytes(ns) + before[off..]
  {
    assert ns[..|ns|] == ns;
    assert buf == buf[..off] + buf[off..];
  }

  /** `while (off < len && in[off] != 0) off++;` */
  method FindNul(input: array<byte>, len: nat, start: nat) returns (off: nat)
    requires start <= len <= input.Length
    ensures off == NulAt(input[..len], start)
  {
    off := start;
    while off < len && input[off] != 0
      invariant start <= off <= len && NulAt(input[..len], off) == NulAt(input[..len], start)
    {
      off := off + 1;
    }
  }

  /** The first rows hold these names and their NULs over what was there before, the other rows are unchanged. */
  ghost predicate Filled(rows: seq<seq<byte>>, before: seq<seq<byte>>, ns: seq<seq<byte>>) {
    && |ns| <= |rows| == |before|
    && (forall i :: 0 <= i < |ns| ==> |ns[i]| < |before[i]| && rows[i] == ns[i] + [0] + before[i][|ns[i]| + 1..])
    && (forall i :: |ns| <= i < |rows| ==> rows[i] == before[i])
  }

  lemma {:induction false} FilledStep(before: seq<seq<byte>>, rows: seq<seq<byte>>, rows': seq<seq<byte>>,
          ns: seq<seq<byte>>, name: seq<byte>)
    requires Filled(rows, before, ns) && |ns| < |rows| == |rows'| && |name| < |rows[|ns|]|
    requires rows'[|ns|] == name + [0] + rows[|ns|][|name| + 1..]
    requires forall i :: 0 <= i < |rows| && i != |ns| ==> rows'[i] == rows[i]
    ensures Filled(rows', before, ns + [name])
  {}

  lemma {:induction false} ParsingStarts(s: seq<byte>)
    requires |s| >= 1 && s[0] <= MAX_LAYOUTS
    ensures Parsing(s, 1, s[0], [])
  {
    match ParseNames(s, 1, s[0])
    case Err(_) =>
    case Ok(rest) => assert [] + rest == rest;
  }

  /** The names in done have been read, k more are to come from position off on. */
  ghost predicate Parsing(s: seq<byte>, off: nat, k: nat, done: seq<seq<byte>>) {
    && off <= |s|
    && DecodeLayouts(s) == match ParseNames(s, off, k)
                           case Err(e) => Err(e)
                           case Ok(rest) => Ok(done + rest)
  }

  lemma {:induction false} ParsingStep(s: seq<byte>, off: nat, k: nat, done: seq<seq<byte>>)
    requires k > 0 && Parsing(s, off, k, done)
    ensures match NameEnd(s, off)
            case Err(e) => DecodeLayouts(s) == Err(e)
            case Ok(end) => Parsing(s, end, k - 1, done + [CStringFrom(s, off)])
  {
    if NameEnd(s, off).Ok? {
      match ParseNames(s, NameEnd(s, off).value, k - 1)
      case Err(_) =>
      case Ok(rest) => Associate(done, [CStringFrom(s, off)], rest);
    }
  }

  lemma {:induction false} ParsingEnds(s: seq<byte>, off: nat, done: seq<seq<byte>>)
    requires Parsing(s, off, 0, done)
    ensures DecodeLayouts(s) == if off == |s| then Ok(done) else Err(BadLength)
  {
    assert done + [] == done;
  }

  /** The senders once the first k have been read. */
  function ReadInto(before: seq<Sender>, s: seq<byte>, k: nat): (r: seq<Sender>)
    requires k <= |before| && 2 * k <= |s|
    ensures |r| == |before|
  {
    if k == 0 then before else ReadInto(before, s, k - 1)[k - 1 := Sender(s[2 * k - 2], s[2 * k - 1])]
  }

  lemma {:induction false} ReadIntoAll(before: seq<Sender>, s: seq<byte>, k: nat)
    requires k <= |before| && 2 * k == |s|
    ensures ReadInto(before, s, k) == SendersOf(s) + before[k..]
  {
    ReadIntoIs(before, s, k);
    assert s[..2 * k] == s;
  }

  lemma {:induction false} ReadIntoIs(before: seq<Sender>, s: seq<byte>, k: nat)
    requires k <= |before| && 2 * k <= |s|
    ensures ReadInto(before, s, k) == SendersOf(s[..2 * k]) + before[k..]
  {
    if k == 0 {
      assert s[..0] == [] && before[0..] == before;
    } else {
      ReadIntoIs(before, s, k - 1);
      SendersOfPush(s, k - 1);
      ReplaceFirst(SendersOf(s[..2 * (k - 1)]), before[k - 1..], Sender(s[2 * k - 2], s[2 * k - 1]));
      assert before[k - 1..][1..] == before[k..];
    }
  }

  lemma {:induction false} ReplaceFirst<T>(a: seq<T>, b: seq<T>, x: T)
    requires b != []
    ensures (a + b)[|a| := x] == a + [x] + b[1..]
  {}

  /** arc_fc_video_status_report_t. */
  class StatusReport {
    var slotCount: byte
    const slots: array<byte>
    var senderCount: byte
    const senders: array<Sender>

    ghost predicate Valid()
      reads this
    {
      slots.Length == MAX_SLOTS && senders.Length == MAX_SENDERS
    }

    constructor ()
      ensures Valid() && fresh(slots) && fresh(senders)
    {
      slotCount, senderCount := 0, 0;
      slots := new byte[MAX_SLOTS];
      senders := new Sender[MAX_SENDERS](_ => Sender(0, 0));
    }

    /** Both counts and the slots. */
    method WriteSlots(out: array<byte>) returns (off: nat)
      requires Valid() && slotCount <= MAX_SLOTS && out != slots && slotCount as int + 2 <= out.Length
      modifies out
      ensures off == slotCount as int + 2
      ensures out[..off] == [slotCount] + slots[..slotCount] + [senderCount] && out[off..] == old(out[off..])
    {
      Push(out, 0, slotCount);
      SameEnd(out[..], old(out[..]), 1, 1 + slotCount as int);
      Memcpy(out, 1, slots, 0, slotCount);
      var n: nat := slotCount;
      SameEnd(out[..], old(out[..]), n + 1, n + 2);
      Push(out, n + 1, senderCount);
      return n + 2;
    }

    method WriteSenders(out: array<byte>, start: nat) returns (off: nat)
      requires Valid() && senderCount <= MAX_SENDERS && start + 2 * senderCount as int <= out.Length
      modifies out
      ensures off == start + 2 * senderCount as int
      ensures out[..] == old(out[..start]) + SendersBytes(senders[..senderCount]) + old(out[off..])
    {
      off := start;
      ghost var ss := senders[..senderCount];
      assert ss[..0] == [];
      for i := 0 to senderCount
        invariant off == start + 2 * i
        invariant out[..off] == old(out[..start]) + SendersBytes(ss[..i]) && out[off..] == old(out[off..])
      {
        SendersBytesPush(ss, i);
        ghost var front := out[..off];
        SameEnd(out[..], old(out[..]), off, off + 1);
        Push(out, off, senders[i].addr);
        SameEnd(out[..], old(out[..]), off + 1, off + 2);
        Push(out, off + 1, senders[i].flags);
        TwoPushed(front, out[..off + 2], old(out[..start]), SendersBytes(ss[..i]), ss[i].addr, ss[i].flags);
        off := off + 2;
      }
      assert ss[..senderCount] == ss;
      assert out[..] == out[..off] + out[off..];
    }

    /** arc_fc_video_status_report_encode. */
    method Encode(out: array<byte>) returns (r: Result<nat>)
      requires Valid() && out != slots
      modifies out
      ensures slotCount > MAX_SLOTS || senderCount > MAX_SENDERS ==> r == Err(BadArg) && out[..] == old(out[..])
      ensures slotCount <= MAX_SLOTS && senderCount <= MAX_SENDERS ==>
                var s := StatusBytes(slots[..slotCount], senders[..senderCount]);
                if out.Length < |s| then r == Err(Buffer) && out[..] == old(out[..])
                else r == Ok(|s|) && out[..] == s + old(out[|s|..])
    {
      if slotCount > MAX_SLOTS { return Err(BadArg); }
      if senderCount > MAX_SENDERS { return Err(BadArg); }
      var needed := 2 + slotCount as int + 2 * senderCount as int;
      if needed > MAX_PAYLOAD_SIZE { return Err(TooLong); }
      if out.Length < needed { return Err(Buffer); }
      var off := WriteSlots(out);
      off := WriteSenders(out, off);
      return Ok(off);
    }

    method ReadSenders(input: array<byte>, start: nat, k: nat)
      requires Valid() && k <= MAX_SENDERS && start + 2 * k <= input.Length
      modifies senders
      ensures senders[..] == SendersOf(input[start..start + 2 * k]) + old(senders[k..])
    {
      ghost var before, s := senders[..], input[start..start + 2 * k];
      var off := start;
      for i := 0 to k
        invariant off == start + 2 * i
        invariant senders[..] == ReadInto(before, s, i)
      {
        var sender := Sender(input[off], input[off + 1]);
        ghost var buf := senders[..];
        senders[i] := sender;
        assert senders[..] == buf[i := sender];
        off := off + 2;
      }
      ReadIntoAll(before, s, k);
    }

    /** arc_fc_video_status_report_decode over the first len bytes. After an error the struct may be partly filled. */
    method Decode(input: array<byte>, len: nat) returns (r: Result<()>)
      requires Valid() && len <= input.Length && input != slots
      modifies `slotCount, `senderCount, slots, senders
      ensures match DecodeStatus(input[..len])
              case Err(e) => r == Err(e)
              case Ok(v) =>
                && r == Ok(()) && slotCount == |v.0| && senderCount == |v.1|
                && slots[..] == v.0 + old(slots[|v.0|..]) && senders[..] == v.1 + old(senders[|v.1|..])
    {
      if len < 2 { return Err(BadLength); }
      var n := input[0];
      if n > MAX_SLOTS { return Err(TooLong); }
      if len < 1 + n as int + 1 { return Err(BadLength); }
      slotCount := n;
      Memcpy(slots, 0, input, 1, n);
      assert slots[..] == input[1..1 + n] + old(slots[n..]);
      var off: nat := 1 + n;
      var k := input[off];
      off := off + 1;
      if k > MAX_SENDERS { return Err(TooLong); }
      if len != 2 + n as int + k as int * 2 { return Err(BadLength); }
      senderCount := k;
      ReadSenders(input, off, k);
      PrefixSlice(input[..], len, 1, 1 + n as int);
      PrefixSlice(input[..], len, off, len);
      return Ok(());
    }
  }
}
