/** The variable-length FC_VIDEO payloads of src/arc_messages_fc_video.c as byte strings. */
module FcVideo {
  import opened Bytes
  import Framing

  const MAX_PAYLOAD_SIZE := Framing.MAX_PAYLOAD_SIZE
  const MAX_LAYOUTS := 16
  const LAYOUT_NAME_CAP := 24
  const MAX_SLOTS := 4
  const MAX_SENDERS := 8

  datatype Sender = Sender(addr: byte, flags: byte)

  // ---------------------------------------------------------------------
  // Layouts report.
  // ---------------------------------------------------------------------

  /** Index of the first NUL from k on, or the length. */
  function NulAt(s: seq<byte>, k: nat := 0): (n: nat)
    requires k <= |s|
    ensures k <= n <= |s| && (n < |s| ==> s[n] == 0)
    ensures forall j :: k <= j < n ==> s[j] != 0
    decreases |s| - k
  {
    if k == |s| || s[k] == 0 then k else NulAt(s, k + 1)
  }

  /** The C string at the start of a buffer. */
  function CString(s: seq<byte>): seq<byte> { s[..NulAt(s)] }

  predicate Terminated(row: seq<byte>) { NulAt(row) < |row| }

  /** The strings of a list of buffers. */
  function Names(rows: seq<seq<byte>>): (r: seq<seq<byte>>)
    ensures |r| == |rows| && forall i :: 0 <= i < |rows| ==> r[i] == CString(rows[i])
  {
    seq(|rows|, i requires 0 <= i < |rows| => CString(rows[i]))
  }

  /** Each name with its NUL. */
  function NamesBytes(names: seq<seq<byte>>): seq<byte> {
    if names == [] then [] else NamesBytes(names[..|names| - 1]) + names[|names| - 1] + [0]
  }

  /** What arc_fc_video_layouts_report_encode makes of a struct whose first `count` names are rows. */
  function LayoutsBytes(names: seq<seq<byte>>): seq<byte>
    requires |names| <= MAX_LAYOUTS
  {
    [|names|] + NamesBytes(names)
  }

  function EncodeLayouts(rows: seq<seq<byte>>, capacity: nat): Result<seq<byte>> {
    if |rows| > MAX_LAYOUTS || exists i :: 0 <= i < |rows| && !Terminated(rows[i]) then Err(BadArg)
    else
      var s := LayoutsBytes(Names(rows));
      if |s| > MAX_PAYLOAD_SIZE then Err(TooLong) else if capacity < |s| then Err(Buffer) else Ok(s)
  }

  /** Read `count` names from position off on, and nothing after them. */
  function ParseNames(s: seq<byte>, off: nat, count: nat): (r: Result<seq<seq<byte>>>)
    requires off <= |s|
    ensures r.Ok? ==> |r.value| == count
    decreases count
  {
    if count == 0 then if off == |s| then Ok([]) else Err(BadLength)
    else
      var n := NulAt(s, off);
      if n == |s| then Err(BadLength)
      else if n - off + 1 > LAYOUT_NAME_CAP then Err(TooLong)
      else
        match ParseNames(s, n + 1, count - 1)
        case Err(e) => Err(e)
        case Ok(rest) => Ok([s[off..n]] + rest)
  }

  /** The names arc_fc_video_layouts_report_decode reads. */
  function DecodeLayouts(s: seq<byte>): (r: Result<seq<seq<byte>>>)
    ensures r.Ok? ==> |r.value| <= MAX_LAYOUTS
  {
    if |s| < 1 then Err(BadLength)
    else if s[0] > MAX_LAYOUTS then Err(TooLong)
    else ParseNames(s, 1, s[0])
  }

  /** A name that fits a buffer with its NUL. */
  predicate IsName(name: seq<byte>) { |name| < LAYOUT_NAME_CAP && forall j :: 0 <= j < |name| ==> name[j] != 0 }

  lemma {:induction false} NulAtIs(s: seq<byte>, off: nat, name: seq<byte>, rest: seq<byte>)
    requires IsName(name) && off <= |s| && s[off..] == name + [0] + rest
    ensures NulAt(s, off) == off + |name| && off + |name| < |s| && s[off..off + |name|] == name
    ensures s[off + |name| + 1..] == rest
  {
    var n := off + |name|;
    assert s[off..][|name|] == 0;
    forall j | off <= j < n ensures s[j] == name[j - off] { assert s[off..][j - off] == name[j - off]; }
    assert s[n + 1..] == s[off..][|name| + 1..];
  }

  lemma {:induction false} NamesBytesFront(names: seq<seq<byte>>)
    requires names != []
    ensures NamesBytes(names) == names[0] + [0] + NamesBytes(names[1..])
    decreases |names|
  {
    var n := |names| - 1;
    if n > 0 {
      NamesBytesFront(names[..n]);
      assert names[1..][..n - 1] == names[..n][1..];
    }
  }

  lemma {:induction false} ParseFirst(s: seq<byte>, off: nat, n: nat, name: seq<byte>, rest: seq<seq<byte>>)
    requires off <= n < |s| && NulAt(s, off) == n && |name| < LAYOUT_NAME_CAP && s[off..n] == name
    requires ParseNames(s, n + 1, |rest|) == Ok(rest)
    ensures ParseNames(s, off, |rest| + 1) == Ok([name] + rest)
  {}

  lemma {:induction false} ParseNamesStep(s: seq<byte>, off: nat, n: nat, name: seq<byte>, tail: seq<byte>,
          rest: seq<seq<byte>>)
    requires IsName(name) && off <= |s| && s[off..] == name + [0] + tail && n == off + |name| < |s|
    requires ParseNames(s, n + 1, |rest|) == Ok(rest)
    ensures ParseNames(s, off, |rest| + 1) == Ok([name] + rest)
  {
    NulAtIs(s, off, name, tail);
    ParseFirst(s, off, n, name, rest);
  }

  lemma {:induction false} FirstAndRest<T>(s: seq<T>)
    requires s != []
    ensures s == [s[0]] + s[1..]
  {}

  lemma {:induction false} ParseNamesOf(s: seq<byte>, off: nat, names: seq<seq<byte>>)
    requires off <= |s| && s[off..] == NamesBytes(names) && forall i :: 0 <= i < |names| ==> IsName(names[i])
    ensures ParseNames(s, off, |names|) == Ok(names)
    decreases |names|
  {
    if names != [] {
      var name, rest := names[0], names[1..];
      var n, tail := off + |name|, NamesBytes(rest);
      NamesBytesFront(names);
      NulAtIs(s, off, name, tail);
      ParseNamesOf(s, n + 1, rest);
      ParseNamesStep(s, off, n, name, tail, rest);
      FirstAndRest(names);
    }
  }

  lemma {:induction false} NameParts(s: seq<byte>, off: nat, n: nat)
    requires off <= n < |s| && s[n] == 0
    ensures s[off..] == s[off..n] + [0] + s[n + 1..]
  {}

  lemma {:induction false} ParsedFirst(s: seq<byte>, off: nat, n: nat, names: seq<seq<byte>>, rest: seq<seq<byte>>)
    requires off <= n < |s| && s[n] == 0 && IsName(s[off..n]) && names == [s[off..n]] + rest
    requires s[n + 1..] == NamesBytes(rest) && forall i :: 0 <= i < |rest| ==> IsName(rest[i])
    ensures s[off..] == NamesBytes(names) && forall i :: 0 <= i < |names| ==> IsName(names[i])
  {
    assert names[1..] == rest;
    NamesBytesFront(names);
    NameParts(s, off, n);
  }

  lemma {:induction false} ParsedNames(s: seq<byte>, off: nat, count: nat)
    requires off <= |s| && ParseNames(s, off, count).Ok?
    ensures var names := ParseNames(s, off, count).value;
            s[off..] == NamesBytes(names) && forall i :: 0 <= i < |names| ==> IsName(names[i])
    decreases count
  {
    if count > 0 {
      var n := NulAt(s, off);
      ParsedNames(s, n + 1, count - 1);
      ParsedFirst(s, off, n, ParseNames(s, off, count).value, ParseNames(s, n + 1, count - 1).value);
    }
  }

  lemma {:induction false} NamesBytesPush(names: seq<seq<byte>>, i: nat)
    requires i < |names|
    ensures NamesBytes(names[..i + 1]) == NamesBytes(names[..i]) + names[i] + [0]
  {
    assert names[..i + 1][..i] == names[..i];
  }

  lemma {:induction false} NamesBytesGrow(names: seq<seq<byte>>, i: nat)
    requires i <= |names|
    ensures |NamesBytes(names[..i])| <= |NamesBytes(names)|
    decreases |names| - i
  {
    if i < |names| {
      NamesBytesPush(names, i);
      NamesBytesGrow(names, i + 1);
    } else {
      assert names[..i] == names;
    }
  }

  /** Decoding an encoded report gives back the count and every name up to its NUL. */
  lemma {:induction false} DecodeOfEncodedLayouts(rows: seq<seq<byte>>, capacity: nat)
    requires EncodeLayouts(rows, capacity).Ok? && forall i :: 0 <= i < |rows| ==> |rows[i]| == LAYOUT_NAME_CAP
    ensures DecodeLayouts(EncodeLayouts(rows, capacity).value) == Ok(Names(rows))
  {
    var names, s := Names(rows), EncodeLayouts(rows, capacity).value;
    forall i | 0 <= i < |names| ensures IsName(names[i]) { assert Terminated(rows[i]); }
    assert s[1..] == NamesBytes(names);
    ParseNamesOf(s, 1, names);
  }

  /** Rows that hold these names. */
  predicate NamedRows(rows: seq<seq<byte>>, names: seq<seq<byte>>) {
    |rows| == |names| && forall i :: 0 <= i < |rows| ==> Terminated(rows[i]) && CString(rows[i]) == names[i]
  }

  /** An accepted payload encodes back to itself exactly when it is no longer than a payload may be; the decoder does
      not check that. */
  lemma {:induction false} LayoutsEncodeBackIff(s: seq<byte>, rows: seq<seq<byte>>, capacity: nat)
    requires DecodeLayouts(s).Ok? && NamedRows(rows, DecodeLayouts(s).value) && capacity >= |s|
    ensures EncodeLayouts(rows, capacity) == if |s| <= MAX_PAYLOAD_SIZE then Ok(s) else Err(TooLong)
  {
    var names := DecodeLayouts(s).value;
    ParsedNames(s, 1, s[0]);
    assert Names(rows) == names;
    assert s == [s[0]] + s[1..];
  }

  /** Where each name is: its bytes, then a NUL, then the next name. */
  lemma {:induction false} LayoutsLayout(names: seq<seq<byte>>, i: nat)
    requires |names| <= MAX_LAYOUTS && i < |names|
    ensures var s, off := LayoutsBytes(names), 1 + |NamesBytes(names[..i])|;
            && s[0] as int == |names| && off + |names[i]| < |s|
            && s[off..off + |names[i]|] == names[i] && s[off + |names[i]|] == 0
            && 1 + |NamesBytes(names[..i + 1])| == off + |names[i]| + 1
  {
    NamesBytesFrom(names, i);
  }

  /** A list of names begins with its first i + 1 names. */
  lemma {:induction false} NamesBytesFrom(names: seq<seq<byte>>, i: nat)
    requires i < |names|
    ensures var a := NamesBytes(names[..i]);
            NamesBytes(names[..i + 1]) == a + names[i] + [0] && a + names[i] + [0] <= NamesBytes(names)
    decreases |names| - i
  {
    NamesBytesPush(names, i);
    if i + 1 < |names| {
      NamesBytesFrom(names, i + 1);
    } else {
      assert names[..i + 1] == names;
    }
  }

  /** A report whose end is lost, or which has something behind it, is of the wrong length. */
  lemma {:induction false} CutLayoutsRefused(s: seq<byte>, n: nat, rest: seq<byte>)
    requires DecodeLayouts(s).Ok?
    ensures n < |s| ==> DecodeLayouts(s[..n]) == Err(BadLength)
    ensures rest != [] ==> DecodeLayouts(s + rest) == Err(BadLength)
  {
    if 1 <= n < |s| { CutNames(s, 1, s[0], n); }
    if rest != [] { ExtendedNames(s, 1, s[0], rest); }
  }

  lemma {:induction false} SameNul(s: seq<byte>, t: seq<byte>, off: nat, n: nat)
    requires off <= n <= |s| && n <= |t| && s[..n] == t[..n]
    ensures NulAt(s, off) < n ==> NulAt(t, off) == NulAt(s, off)
  {
    if NulAt(s, off) < n {
      assert forall j :: off <= j <= NulAt(s, off) ==> s[..n][j] == s[j] && t[..n][j] == t[j];
    }
  }

  lemma {:induction false} CutNames(s: seq<byte>, off: nat, count: nat, n: nat)
    requires off <= n < |s| && ParseNames(s, off, count).Ok?
    ensures ParseNames(s[..n], off, count) == Err(BadLength)
    decreases count
  {
    var t, nul := s[..n], NulAt(s, off);
    assert t[..n] == s[..n];
    if count > 0 {
      if nul < n {
        SameNul(s, t, off, n);
        CutNames(s, nul + 1, count - 1, n);
      } else {
        SameNul(t, s, off, n);
      }
    }
  }

  lemma {:induction false} ExtendedNames(s: seq<byte>, off: nat, count: nat, rest: seq<byte>)
    requires off <= |s| && ParseNames(s, off, count).Ok? && rest != []
    ensures ParseNames(s + rest, off, count) == Err(BadLength)
    decreases count
  {
    if count > 0 {
      assert (s + rest)[..|s|] == s[..|s|];
      SameNul(s, s + rest, off, |s|);
      ExtendedNames(s, NulAt(s, off) + 1, count - 1, rest);
    }
  }

  /** Which error a report gets before any name is looked at, and for its first name: no NUL means wrong length, more
      than 23 characters too long. */
  lemma {:induction false} LayoutsErrors(s: seq<byte>)
    ensures s == [] ==> DecodeLayouts(s) == Err(BadLength)
    ensures |s| >= 1 && s[0] > 16 ==> DecodeLayouts(s) == Err(TooLong)
    ensures |s| >= 1 && 1 <= s[0] <= 16 && (forall j :: 1 <= j < |s| ==> s[j] != 0) ==>
              DecodeLayouts(s) == Err(BadLength)
    ensures |s| >= 25 && 1 <= s[0] <= 16 && (forall j :: 1 <= j < 25 ==> s[j] != 0) && NulAt(s, 1) < |s| ==>
              DecodeLayouts(s) == Err(TooLong)
  {}

  /** Which error the encoder gives, in the source's order: names without a NUL or too many of them, a report of more
      than 241 bytes, a short buffer. */
  lemma {:induction false} EncodeLayoutsErrors(rows: seq<seq<byte>>, capacity: nat)
    requires forall i :: 0 <= i < |rows| ==> |rows[i]| == LAYOUT_NAME_CAP
    ensures var fit := |rows| <= 16 && forall i :: 0 <= i < |rows| ==> 0 in rows[i];
            var r := EncodeLayouts(rows, capacity);
            && (r == Err(BadArg) <==> !fit)
            && (fit ==> var size := 1 + |NamesBytes(Names(rows))|;
                        && (r == Err(TooLong) <==> size > 241)
                        && (r == Err(Buffer) <==> size <= 241 && capacity < size))
  {
    forall i | 0 <= i < |rows| ensures Terminated(rows[i]) <==> 0 in rows[i] {
      if NulAt(rows[i]) == |rows[i]| { assert forall j :: 0 <= j < |rows[i]| ==> rows[i][j] != 0; }
    }
  }

  /** Names of 23 characters, as long as they may be. */
  function LongNames(n: nat): (names: seq<seq<byte>>)
    ensures |names| == n && forall i :: 0 <= i < n ==> IsName(names[i]) && |names[i]| == LAYOUT_NAME_CAP - 1
  {
    seq(n, i => seq(LAYOUT_NAME_CAP - 1, j => 1))
  }

  lemma {:induction false} LongNamesBytes(names: seq<seq<byte>>)
    requires forall i :: 0 <= i < |names| ==> |names[i]| == LAYOUT_NAME_CAP - 1
    ensures |NamesBytes(names)| == |names| * LAYOUT_NAME_CAP
  {
    if names != [] { LongNamesBytes(names[..|names| - 1]); }
  }

  /** Reports longer than a payload may be are accepted: sixteen names of 23 characters make 385 bytes. */
  lemma {:induction false} LongLayoutsAccepted()
    ensures var names := LongNames(MAX_LAYOUTS);
            |LayoutsBytes(names)| == 385 && DecodeLayouts(LayoutsBytes(names)) == Ok(names)
  {
    var names := LongNames(MAX_LAYOUTS);
    var s := LayoutsBytes(names);
    LongNamesBytes(names);
    assert s[1..] == NamesBytes(names);
    ParseNamesOf(s, 1, names);
  }

  // ---------------------------------------------------------------------
  // Status report.
  // ---------------------------------------------------------------------

  function SendersBytes(senders: seq<Sender>): (s: seq<byte>)
    ensures |s| == 2 * |senders|
  {
    if senders == [] then []
    else SendersBytes(senders[..|senders| - 1]) + [senders[|senders| - 1].addr, senders[|senders| - 1].flags]
  }

  function StatusBytes(slots: seq<byte>, senders: seq<Sender>): (s: seq<byte>)
    requires |slots| <= MAX_SLOTS && |senders| <= MAX_SENDERS
    ensures |s| == 2 + |slots| + 2 * |senders|
  {
    [|slots|] + slots + [|senders|] + SendersBytes(senders)
  }

  function SendersOf(s: seq<byte>): (r: seq<Sender>)
    requires |s| % 2 == 0
    ensures |r| == |s| / 2
  {
    if s == [] then [] else SendersOf(s[..|s| - 2]) + [Sender(s[|s| - 2], s[|s| - 1])]
  }

  lemma {:induction false} SendersBytesPush(ss: seq<Sender>, i: nat)
    requires i < |ss|
    ensures SendersBytes(ss[..i + 1]) == SendersBytes(ss[..i]) + [ss[i].addr, ss[i].flags]
  {
    assert ss[..i + 1][..i] == ss[..i];
  }

  lemma {:induction false} SendersOfPush(s: seq<byte>, i: nat)
    requires 2 * i + 2 <= |s|
    ensures SendersOf(s[..2 * i + 2]) == SendersOf(s[..2 * i]) + [Sender(s[2 * i], s[2 * i + 1])]
  {
    assert s[..2 * i + 2][..2 * i] == s[..2 * i];
  }

  /** What arc_fc_video_status_report_decode reads. */
  function DecodeStatus(s: seq<byte>): (r: Result<(seq<byte>, seq<Sender>)>)
    ensures r.Ok? ==> |r.value.0| <= MAX_SLOTS && |r.value.1| <= MAX_SENDERS
  {
    if |s| < 2 then Err(BadLength)
    else if s[0] > MAX_SLOTS then Err(TooLong)
    else
      var n := s[0];
      if |s| < 1 + n + 1 then Err(BadLength)
      else if s[n + 1] > MAX_SENDERS then Err(TooLong)
      else if |s| != 2 + n + s[n + 1] * 2 then Err(BadLength)
      else Ok((s[1..n + 1], SendersOf(s[n + 2..])))
  }

  lemma {:induction false} SendersRoundTrip(senders: seq<Sender>)
    ensures SendersOf(SendersBytes(senders)) == senders
  {
    if senders != [] {
      var n, s := |senders| - 1, SendersBytes(senders);
      assert s[..|s| - 2] == SendersBytes(senders[..n]);
      SendersRoundTrip(senders[..n]);
    }
  }

  lemma {:induction false} SendersBytesSnoc(ss: seq<Sender>, x: Sender)
    ensures SendersBytes(ss + [x]) == SendersBytes(ss) + [x.addr, x.flags]
  {
    assert (ss + [x])[..|ss|] == ss;
  }

  lemma {:induction false} LastTwo(s: seq<byte>)
    requires |s| >= 2
    ensures s == s[..|s| - 2] + [s[|s| - 2], s[|s| - 1]]
  {}

  lemma {:induction false} SendersBytesBack(s: seq<byte>)
    requires |s| % 2 == 0
    ensures SendersBytes(SendersOf(s)) == s
  {
    if s != [] {
      var t, a, b := s[..|s| - 2], s[|s| - 2], s[|s| - 1];
      SendersBytesBack(t);
      SendersBytesSnoc(SendersOf(t), Sender(a, b));
      LastTwo(s);
    }
  }

  /** Every status report comes back from its bytes. */
  lemma {:induction false} DecodeOfEncodedStatus(slots: seq<byte>, senders: seq<Sender>)
    requires |slots| <= MAX_SLOTS && |senders| <= MAX_SENDERS
    ensures DecodeStatus(StatusBytes(slots, senders)) == Ok((slots, senders))
  {
    var s := StatusBytes(slots, senders);
    SendersRoundTrip(senders);
    assert s[1..|slots| + 1] == slots && s[|slots| + 1] == |senders| && s[|slots| + 2..] == SendersBytes(senders);
  }

  lemma {:induction false} StatusParts(s: seq<byte>, n: nat)
    requires n + 2 <= |s|
    ensures s == [s[0]] + s[1..n + 1] + [s[n + 1]] + s[n + 2..]
  {}

  /** And every accepted payload is the encoding of what was read from it. */
  lemma {:induction false} StatusEncodesBack(s: seq<byte>)
    requires DecodeStatus(s).Ok?
    ensures StatusBytes(DecodeStatus(s).value.0, DecodeStatus(s).value.1) == s
  {
    SendersBytesBack(s[s[0] as int + 2..]);
    StatusParts(s, s[0]);
  }

  /** Where each slot and each sender is. */
  lemma {:induction false} StatusLayout(slots: seq<byte>, senders: seq<Sender>)
    requires |slots| <= MAX_SLOTS && |senders| <= MAX_SENDERS
    ensures var s, n := StatusBytes(slots, senders), |slots|;
            && s[0] as int == n && s[1..n + 1] == slots && s[n + 1] as int == |senders|
            && forall k :: 0 <= k < |senders| ==>
                 s[n + 2 + 2 * k] == senders[k].addr && s[n + 3 + 2 * k] == senders[k].flags
  {
    var s, n := StatusBytes(slots, senders), |slots|;
    forall k | 0 <= k < |senders|
      ensures s[n + 2 + 2 * k] == senders[k].addr && s[n + 3 + 2 * k] == senders[k].flags
    {
      SendersBytesAt(senders, k);
    }
  }

  lemma {:induction false} SendersBytesAt(senders: seq<Sender>, k: nat)
    requires k < |senders|
    ensures SendersBytes(senders)[2 * k] == senders[k].addr && SendersBytes(senders)[2 * k + 1] == senders[k].flags
  {
    if k < |senders| - 1 { SendersBytesAt(senders[..|senders| - 1], k); }
  }

  /** Which error a status report gets: too short for its counts or not of their length, or a count over its limit. */
  lemma {:induction false} StatusErrors(s: seq<byte>)
    ensures |s| < 2 ==> DecodeStatus(s) == Err(BadLength)
    ensures |s| >= 2 && s[0] > 4 ==> DecodeStatus(s) == Err(TooLong)
    ensures |s| >= 2 && s[0] <= 4 && |s| < s[0] as int + 2 ==> DecodeStatus(s) == Err(BadLength)
    ensures |s| >= 2 && s[0] <= 4 && |s| >= s[0] as int + 2 ==>
              var m := s[s[0] as int + 1];
              && (m > 8 ==> DecodeStatus(s) == Err(TooLong))
              && (m <= 8 && |s| != s[0] as int + 2 + 2 * m as int ==> DecodeStatus(s) == Err(BadLength))
              && (m <= 8 && |s| == s[0] as int + 2 + 2 * m as int ==> DecodeStatus(s).Ok?)
  {}
}
