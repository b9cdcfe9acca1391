/** Server-sent events: the wire format, the bounded replay buffer and the numbered stream. */
module Sse {
  import opened Common
  import opened Text

  // ---------------------------------------------------------------- numerals

  /** A numeral without sign: digits, with single underscores allowed between them. */
  function ParseDigits(s: string): Option<nat> {
    if s == "" || !IsDigit(s[|s| - 1]) then None
    else
      var d, front := s[|s| - 1] as int - '0' as int, s[..|s| - 1];
      if front == "" then Some(d)
      else match ParseDigits(if Last(front) == '_' then front[..|front| - 1] else front)
        case None => None
        case Some(n) => Some(10 * n + d)
  }

  /** Python's `int(s)`: spaces around are ignored, and one sign may come first. */
  function ParseInt(s: string): Option<int> {
    var t := Strip(s);
    if t != "" && (t[0] == '-' || t[0] == '+') then
      match ParseDigits(t[1..])
      case None => None
      case Some(n) => Some(if t[0] == '-' then 0 - n else n)
    else
      match ParseDigits(t)
      case None => None
      case Some(n) => Some(n)
  }

  lemma {:induction false} ParseDecimalDigits(n: nat)
    ensures ParseDigits(Decimal(n)) == Some(n)
  {
    var s := Decimal(n);
    if n >= 10 {
      ParseDecimalDigits(n / 10);
      assert s[..|s| - 1] == Decimal(n / 10);
      assert IsDigit(Last(Decimal(n / 10)));
    }
  }

  lemma ParseDecimal(n: nat)
    ensures ParseInt(Decimal(n)) == Some(n)
  {
    var s := Decimal(n);
    assert IsDigit(s[0]) && IsDigit(s[|s| - 1]);
    StripTrimmed(s);
    ParseDecimalDigits(n);
  }

  /** A sign is read, and spaces around are not. */
  lemma ParseSigned(n: nat)
    ensures ParseInt("-" + Decimal(n)) == Some(0 - n) && ParseInt("+" + Decimal(n)) == Some(n)
    ensures ParseInt(Decimal(n) + " ") == Some(n)
  {
    SignedIs('-', n);
    SignedIs('+', n);
    SpacedIs(n);
  }

  lemma SignedIs(sign: char, n: nat)
    requires sign == '-' || sign == '+'
    ensures ParseInt([sign] + Decimal(n)) == Some(if sign == '-' then 0 - n else n)
  {
    var s := Decimal(n);
    var t := [sign] + s;
    ParseDecimalDigits(n);
    hide ParseDigits, Strip, Decimal;
    assert IsDigit(s[|s| - 1]) && t[|t| - 1] == s[|s| - 1];
    StripTrimmed(t);
    assert t[1..] == s;
  }

  lemma SpacedIs(n: nat)
    ensures ParseInt(Decimal(n) + " ") == Some(n)
  {
    ParseDecimal(n);
    hide ParseDigits, Strip, Decimal;
    StripTrailing(Decimal(n), ' ');
    assert [' '] == " ";
  }

  // ------------------------------------------------------------- wire format

  const NL := "\n"

  function FormatEvent(id: nat, data: string): string {
    "id: " + Decimal(id) + NL + "data: " + data + NL + NL
  }

  predicate IsLineEnd(c: char) { c == '\n' || c == '\r' }

  ghost predicate OneLine(s: string) { forall i :: 0 <= i < |s| ==> !IsLineEnd(s[i]) }

  // ------------------------------------- the client's parser (HTML standard)

  /** The buffers of section 9.2.6 of the WHATWG HTML standard. */
  datatype Buffers = Buffers(data: string, eventType: string, lastId: string)

  datatype Message = Message(eventType: string, lastId: string, data: string)

  function LineLength(s: string): (n: nat)
    ensures n <= |s| && (n < |s| ==> IsLineEnd(s[n])) && OneLine(s[..n])
  {
    if s == "" || IsLineEnd(s[0]) then 0 else 1 + LineLength(s[1..])
  }

  /** What follows the line: CRLF, LF and CR each end one. */
  function AfterLine(s: string): (r: string)
    requires LineLength(s) < |s|
    ensures |r| < |s|
  {
    var n := LineLength(s);
    if s[n] == '\r' && n + 1 < |s| && s[n + 1] == '\n' then s[n + 2..] else s[n + 1..]
  }

  function ColonAt(line: string): (n: nat)
    ensures n <= |line| && (n < |line| ==> line[n] == ':')
  {
    if line == "" || line[0] == ':' then 0 else 1 + ColonAt(line[1..])
  }

  function FieldValue(line: string): string {
    var n := ColonAt(line);
    if n == |line| then ""
    else if n + 1 < |line| && line[n + 1] == ' ' then line[n + 2..] else line[n + 1..]
  }

  /** One non-empty line.  A line that starts with a colon has an empty field name, which no
      case matches: it is a comment.  `retry` concerns the connection, not the messages. */
  function ProcessLine(line: string, b: Buffers): Buffers {
    var field, value := line[..ColonAt(line)], FieldValue(line);
    if field == "data" then b.(data := b.data + value + NL)
    else if field == "event" then b.(eventType := value)
    else if field == "id" && '\0' !in value then b.(lastId := value)
    else b
  }

  function Dispatch(b: Buffers): seq<Message> {
    if b.data == "" then []
    else
      var data := if b.data[|b.data| - 1] == '\n' then b.data[..|b.data| - 1] else b.data;
      [Message(if b.eventType == "" then "message" else b.eventType, b.lastId, data)]
  }

  /** Messages a client dispatches for a stream; an unfinished last line is discarded. */
  function ParseStream(s: string, b: Buffers): seq<Message>
    decreases |s|
  {
    var n := LineLength(s);
    if n == |s| then []
    else if n == 0 then Dispatch(b) + ParseStream(AfterLine(s), Buffers("", "", b.lastId))
    else ParseStream(AfterLine(s), ProcessLine(s[..n], b))
  }

  // --------------------------------------------------------------- round trip

  lemma {:induction false} LineLengthIs(line: string, rest: string)
    requires OneLine(line)
    ensures LineLength(line + NL + rest) == |line|
    ensures (line + NL + rest)[..|line|] == line
    ensures AfterLine(line + NL + rest) == rest
  {
    var s := line + NL + rest;
    if line != "" {
      LineLengthIs(line[1..], rest);
      assert s[1..] == line[1..] + NL + rest;
    }
    assert s[|line|] == '\n' && s[|line| + 1..] == rest;
  }

  lemma FieldOf(name: string, value: string)
    requires name == "id" || name == "data"
    ensures var line := name + ": " + value;
            line[..ColonAt(line)] == name && FieldValue(line) == value
  {
    var line := name + ": " + value;
    ColonAfter(name, ": " + value);
    assert line == name + (": " + value);
    assert line[|name| + 2..] == value;
  }

  lemma {:induction false} ColonAfter(name: string, rest: string)
    requires ':' !in name && rest != "" && rest[0] == ':'
    ensures ColonAt(name + rest) == |name|
  {
    if name == "" {
      assert name + rest == rest;
    } else {
      assert (name + rest)[1..] == name[1..] + rest;
      ColonAfter(name[1..], rest);
    }
  }

  /** A field line and its end are consumed together. */
  lemma ParseField(name: string, value: string, rest: string, b: Buffers)
    requires name == "id" || name == "data"
    requires OneLine(value)
    ensures ParseStream(name + ": " + value + NL + rest, b) == ParseStream(rest, ProcessLine(name + ": " + value, b))
  {
    hide ProcessLine, LineLength, AfterLine;
    LineLengthIs(name + ": " + value, rest);
  }

  lemma ParseBlank(rest: string, b: Buffers)
    ensures ParseStream(NL + rest, b) == Dispatch(b) + ParseStream(rest, Buffers("", "", b.lastId))
  {
    LineLengthIs("", rest);
    assert "" + NL + rest == NL + rest;
  }

  lemma FormatPieces(id: nat, data: string, rest: string)
    ensures FormatEvent(id, data) + rest
         == "id" + ": " + Decimal(id) + NL + ("data" + ": " + data + NL + (NL + rest))
  {
  }

  /** One formatted event at the head of a stream is dispatched as exactly that message. */
  lemma ParseOne(id: nat, data: string, rest: string, lastId: string)
    requires OneLine(data)
    ensures ParseStream(FormatEvent(id, data) + rest, Buffers("", "", lastId))
         == [Message("message", Decimal(id), data)] + ParseStream(rest, Buffers("", "", Decimal(id)))
  {
    hide ParseStream, Decimal;
    FormatPieces(id, data, rest);
    var start := Buffers("", "", lastId);
    DecimalOneLine(id);
    ParseField("id", Decimal(id), "data" + ": " + data + NL + (NL + rest), start);
    FieldOf("id", Decimal(id));
    var numbered := Buffers("", "", Decimal(id));
    assert ProcessLine("id" + ": " + Decimal(id), start) == numbered;
    ParseField("data", data, NL + rest, numbered);
    FieldOf("data", data);
    var filled := Buffers(data + NL, "", Decimal(id));
    assert "" + data + NL == data + NL;
    assert ProcessLine("data" + ": " + data, numbered) == filled;
    ParseBlank(rest, filled);
    assert (data + NL)[..|data|] == data;
  }

  lemma DecimalOneLine(n: nat)
    ensures OneLine(Decimal(n)) && '\0' !in Decimal(n)
  {
  }

  datatype Event = Event(id: nat, data: string)

  function Wire(events: seq<Event>): string {
    if events == [] then "" else FormatEvent(events[0].id, events[0].data) + Wire(events[1..])
  }

  function Messages(events: seq<Event>): seq<Message> {
    if events == [] then []
    else [Message("message", Decimal(events[0].id), events[0].data)] + Messages(events[1..])
  }

  /** Whatever was received before, a concatenation of formatted events reads back as the same
      ids and data in the same order, none lost and none added. */
  lemma {:induction false} WireRoundTrip(events: seq<Event>, lastId: string)
    requires forall e <- events :: OneLine(e.data)
    ensures ParseStream(Wire(events), Buffers("", "", lastId)) == Messages(events)
  {
    if events != [] {
      var e := events[0];
      WireRoundTrip(events[1..], Decimal(e.id));
      ParseOne(e.id, e.data, Wire(events[1..]), lastId);
    }
  }

  /** A line adds less data than it is long. */
  lemma LineGrowth(line: string, b: Buffers)
    ensures var grown := ProcessLine(line, b).data;
            || grown == b.data
            || (|b.data| < |grown| && |line| >= 4 && |grown| - |b.data| <= (if |line| > 5 then |line| - 4 else 1)
                && grown[|grown| - 1] == '\n')
  {
    if line[..ColonAt(line)] == "data" {
      assert |line[..ColonAt(line)]| == 4;
    }
  }

  lemma ParseStep(s: string, b: Buffers)
    ensures var n := LineLength(s);
            ParseStream(s, b)
            == if n == |s| then []
               else if n == 0 then Dispatch(b) + ParseStream(AfterLine(s), Buffers("", "", b.lastId))
               else ParseStream(AfterLine(s), ProcessLine(s[..n], b))
    ensures LineLength(s) < |s| ==> |AfterLine(s)| < |s| - LineLength(s)
  {
    hide ProcessLine, Dispatch;
  }

  lemma DispatchFirst(b: Buffers, rest: seq<Message>)
    requires b.data != "" && b.data[|b.data| - 1] == '\n'
    ensures |(Dispatch(b) + rest)[0].data| == |b.data| - 1
  {
  }

  /** How much data the next message can carry. */
  lemma {:induction false} NextMessageBound(s: string, b: Buffers)
    requires b.data != "" && b.data[|b.data| - 1] == '\n' && ParseStream(s, b) != []
    ensures |ParseStream(s, b)[0].data| < |b.data| + if |s| > 5 then |s| - 5 else 0
    decreases |s|
  {
    hide ParseStream, ProcessLine, LineLength, AfterLine, Dispatch;
    var n := LineLength(s);
    ParseStep(s, b);
    if n == 0 {
      DispatchFirst(b, ParseStream(AfterLine(s), Buffers("", "", b.lastId)));
    } else {
      LineGrowth(s[..n], b);
      ParseStep(AfterLine(s), ProcessLine(s[..n], b));
      NextMessageBound(AfterLine(s), ProcessLine(s[..n], b));
    }
  }

  /** The round trip of a single event holds if and only if its data is one line. */
  lemma RoundTripIffOneLine(id: nat, data: string, lastId: string)
    ensures ParseStream(FormatEvent(id, data), Buffers("", "", lastId)) == [Message("message", Decimal(id), data)]
       <==> OneLine(data)
  {
    if OneLine(data) {
      ParseOne(id, data, "", lastId);
      assert FormatEvent(id, data) + "" == FormatEvent(id, data);
    } else {
      BrokenDataIsCut(id, data, lastId);
    }
  }

  lemma BrokenDataIsCut(id: nat, data: string, lastId: string)
    requires !OneLine(data)
    ensures var received := ParseStream(FormatEvent(id, data), Buffers("", "", lastId));
            received != [] ==> |received[0].data| < |data|
  {
    hide ParseStream, Decimal;
    var n := LineLength(data);
    var head, tail := data[..n], data[n + 1..] + NL + NL;
    var start, numbered := Buffers("", "", lastId), Buffers("", "", Decimal(id));
    var filled := Buffers(head + NL, "", Decimal(id));
    FormatPieces(id, data, "");
    assert FormatEvent(id, data) + "" == FormatEvent(id, data);
    DecimalOneLine(id);
    FieldOf("id", Decimal(id));
    ParseField("id", Decimal(id), "data" + ": " + data + NL + (NL + ""), start);
    assert ProcessLine("id" + ": " + Decimal(id), start) == numbered;
    FieldOf("data", head);
    assert "" + head + NL == head + NL;
    assert ProcessLine("data" + ": " + head, numbered) == filled;
    BrokenField(data, NL + "", numbered);
    var rest := AfterLine("data" + ": " + data + NL + (NL + ""));
    if ParseStream(rest, filled) != [] {
      NextMessageBound(rest, filled);
    }
  }

  lemma BrokenField(data: string, rest: string, b: Buffers)
    requires !OneLine(data)
    ensures var n := LineLength(data);
            var stream := "data" + ": " + data + NL + rest;
            && n < |data|
            && LineLength(stream) == n + 6
            && ParseStream(stream, b) == ParseStream(AfterLine(stream), ProcessLine("data" + ": " + data[..n], b))
            && |AfterLine(stream)| <= |data| - n + |rest|
  {
    var n := LineLength(data);
    assert data[..|data|] == data;
    var stream := "data" + ": " + data + NL + rest;
    LineLengthUpTo(stream, n + 6);
    assert stream[..n + 6] == "data" + ": " + data[..n];
  }

  lemma {:induction false} LineLengthUpTo(s: string, n: nat)
    requires n < |s| && OneLine(s[..n]) && IsLineEnd(s[n])
    ensures LineLength(s) == n
  {
    if n > 0 {
      assert s[..n][0] == s[0];
      assert s[1..][..n - 1] == s[..n][1..];
      LineLengthUpTo(s[1..], n - 1);
    }
  }

  // -------------------------------------------------------------- id recovery

  /** The characters at which Python's `splitlines` ends a line. */
  predicate IsPyLineEnd(c: char) {
    var n := c as int;
    10 <= n <= 13 || 28 <= n <= 30 || n == 133 || n == 8232 || n == 8233
  }

  function PyLineLength(s: string): (n: nat)
    ensures n <= |s| && (n < |s| ==> IsPyLineEnd(s[n]))
  {
    if s == "" || IsPyLineEnd(s[0]) then 0 else 1 + PyLineLength(s[1..])
  }

  /** `s.splitlines()`. */
  function PyLines(s: string): seq<string>
    decreases |s|
  {
    if s == "" then [] else
      var n := PyLineLength(s);
      if n == |s| then [s]
      else [s[..n]] + PyLines(if s[n] == '\r' && n + 1 < |s| && s[n + 1] == '\n' then s[n + 2..] else s[n + 1..])
  }

  const ID_FIELD := "id: "

  /** The first `id: ` line at or after index `k`. */
  function IdLine(lines: seq<string>, k: nat): (r: Option<string>)
    requires k <= |lines|
    ensures r.Some? ==> ID_FIELD <= r.value
    decreases |lines| - k
  {
    if k == |lines| then None
    else if ID_FIELD <= lines[k] then Some(lines[k])
    else IdLine(lines, k + 1)
  }

  /** The scan that continues numbering after a replay: the number on the first `id: ` line,
      or `startId` if there is none. */
  method RecoverId(raw: string, startId: nat) returns (r: Option<int>)
    ensures r == match IdLine(PyLines(raw), 0)
                 case None => Some(startId)
                 case Some(line) => ParseInt(line[4..])
  {
    var lines := PyLines(raw);
    for k := 0 to |lines|
      invariant IdLine(lines, k) == IdLine(lines, 0)
    {
      if ID_FIELD <= lines[k] {
        return ParseInt(lines[k][4..]);
      }
    }
    return Some(startId);
  }

  lemma {:induction false} PyLineLengthIs(line: string, rest: string)
    requires forall i :: 0 <= i < |line| ==> !IsPyLineEnd(line[i])
    ensures PyLineLength(line + NL + rest) == |line|
  {
    if line != "" {
      assert (line + NL + rest)[1..] == line[1..] + NL + rest;
      PyLineLengthIs(line[1..], rest);
    }
  }

  /** The scan recovers the number of every formatted event, whatever its data. */
  lemma ScanFindsId(id: nat, data: string)
    ensures var found := IdLine(PyLines(FormatEvent(id, data)), 0);
            found.Some? && ParseInt(found.value[4..]) == Some(id)
  {
    var line, rest := ID_FIELD + Decimal(id), "data: " + data + NL + NL;
    assert FormatEvent(id, data) == line + NL + rest;
    PyLineLengthIs(line, rest);
    assert (line + NL + rest)[..|line|] == line;
    assert PyLines(FormatEvent(id, data))[0] == line;
    assert line[4..] == Decimal(id);
    ParseDecimal(id);
  }

  // ------------------------------------------------------------ replay buffer

  const MAX_SIZE: nat := 100
  const MAX_AGE: real := 60.0

  datatype Buffered = Buffered(id: nat, raw: string, createdAt: real)

  predicate InOrder(log: seq<Buffered>) {
    forall i, j :: 0 <= i < j < |log| ==> log[i].createdAt <= log[j].createdAt
  }

  /** The raw texts of the entries numbered above `lastId`. */
  function RawsAfter(entries: seq<Buffered>, lastId: int): seq<string> {
    if entries == [] then []
    else (if entries[0].id > lastId then [entries[0].raw] else []) + RawsAfter(entries[1..], lastId)
  }

  function Newest(log: seq<Buffered>): seq<Buffered> {
    if |log| > MAX_SIZE then log[|log| - MAX_SIZE..] else log
  }

  /** The entries not older than the age limit. */
  function Fresh(entries: seq<Buffered>, now: real): seq<Buffered> {
    if entries == [] then []
    else (if entries[0].createdAt >= now - MAX_AGE then [entries[0]] else []) + Fresh(entries[1..], now)
  }

  /** What a full log would answer: the newest entries, filtered by age and by number. */
  function Replay(log: seq<Buffered>, lastId: int, now: real): seq<string> {
    RawsAfter(Fresh(Newest(log), now), lastId)
  }

  /** What a replay answers, entry by entry: those among the last hundred, at most a minute old, whose
      number is above the client's. */
  lemma ReplayHolds(log: seq<Buffered>, lastId: int, now: real, raw: string)
    ensures raw in Replay(log, lastId, now)
       <==> exists i :: 0 <= i < |log| && i >= |log| - 100 && log[i].raw == raw
                        && log[i].createdAt >= now - 60.0 && log[i].id > lastId
  {
    var newest := Newest(log);
    FreshHolds(newest, now);
    RawsHold(Fresh(newest, now), lastId, raw);
    var first := |log| - |newest|;
    assert forall i :: 0 <= i < |newest| ==> newest[i] == log[first + i];
    if b :| b in Fresh(newest, now) && b.id > lastId && b.raw == raw {
      var i :| 0 <= i < |newest| && newest[i] == b;
      assert log[first + i] == b;
    }
    if i :| 0 <= i < |log| && i >= |log| - 100 && log[i].raw == raw
            && log[i].createdAt >= now - 60.0 && log[i].id > lastId {
      assert newest[i - first] == log[i];
    }
  }

  lemma {:induction false} FreshHolds(entries: seq<Buffered>, now: real)
    ensures forall b :: b in Fresh(entries, now) <==> b in entries && b.createdAt >= now - 60.0
  {
    if entries != [] {
      FreshHolds(entries[1..], now);
    }
  }

  lemma {:induction false} RawsHold(entries: seq<Buffered>, lastId: int, raw: string)
    ensures raw in RawsAfter(entries, lastId) <==> exists b :: b in entries && b.id > lastId && b.raw == raw
  {
    if entries != [] {
      RawsHold(entries[1..], lastId, raw);
      assert forall b :: b in entries <==> b == entries[0] || b in entries[1..];
    }
  }

  lemma {:induction false} FreshIsSuffix(entries: seq<Buffered>, now: real, k: nat)
    requires InOrder(entries) && k <= |entries|
    requires forall i :: 0 <= i < k ==> entries[i].createdAt < now - MAX_AGE
    requires k < |entries| ==> entries[k].createdAt >= now - MAX_AGE
    ensures Fresh(entries, now) == entries[k..]
  {
    if entries != [] {
      if k > 0 {
        FreshIsSuffix(entries[1..], now, k - 1);
        assert entries[1..][k - 1..] == entries[k..];
      } else {
        if |entries| > 1 {
          assert entries[0].createdAt <= entries[1].createdAt;
        }
        FreshIsSuffix(entries[1..], now, 0);
        assert entries == [entries[0]] + entries[1..];
      }
    }
  }

  /** `events` is the tail of `log`; whatever it lacks is beyond the size limit or has expired. */
  ghost predicate Tracks(events: seq<Buffered>, log: seq<Buffered>, clock: real) {
    && InOrder(log)
    && (forall i :: 0 <= i < |log| ==> log[i].createdAt <= clock)
    && |events| <= MAX_SIZE && |events| <= |log|
    && events == log[|log| - |events|..]
    && forall i :: 0 <= i && |log| - MAX_SIZE <= i < |log| - |events| ==> log[i].createdAt < clock - MAX_AGE
  }

  /** `append` on a deque of bounded length. */
  function PushBounded(events: seq<Buffered>, entry: Buffered): seq<Buffered> {
    (if |events| == MAX_SIZE then events[1..] else events) + [entry]
  }

  lemma AppendTracks(events: seq<Buffered>, log: seq<Buffered>, clock: real, entry: Buffered)
    requires Tracks(events, log, clock) && clock <= entry.createdAt
    ensures Tracks(PushBounded(events, entry), log + [entry], entry.createdAt)
  {
  }

  lemma PruneTracks(events: seq<Buffered>, log: seq<Buffered>, clock: real)
    requires Tracks(events, log, clock) && events != [] && events[0].createdAt < clock - MAX_AGE
    ensures Tracks(events[1..], log, clock)
  {
  }

  lemma NewestInOrder(log: seq<Buffered>)
    requires InOrder(log)
    ensures InOrder(Newest(log)) && Newest(log) == log[|log| - |Newest(log)|..]
  {
    var newest, first := Newest(log), |log| - |Newest(log)|;
    forall i, j | 0 <= i < j < |newest| ensures newest[i].createdAt <= newest[j].createdAt {
      assert log[first + i].createdAt <= log[first + j].createdAt;
    }
  }

  lemma TracksFresh(events: seq<Buffered>, log: seq<Buffered>, clock: real)
    requires Tracks(events, log, clock)
    requires events != [] ==> events[0].createdAt >= clock - MAX_AGE
    ensures events == Fresh(Newest(log), clock)
  {
    hide Fresh, InOrder;
    NewestInOrder(log);
    var newest, first := Newest(log), |log| - |Newest(log)|;
    var k := |newest| - |events|;
    forall i | 0 <= i < k ensures newest[i].createdAt < clock - MAX_AGE {
      assert newest[i] == log[first + i];
    }
    assert newest[k..] == events;
    FreshIsSuffix(newest, clock, k);
  }

  /** The deque, pruned only when read.  The ghost fields hold everything ever appended and the
      latest clock reading. */
  class EventBuffer {
    var events: seq<Buffered>
    ghost var log: seq<Buffered>
    ghost var clock: real

    ghost predicate Valid()
      reads this
    {
      Tracks(events, log, clock)
    }

    constructor (ghost now: real)
      ensures Valid() && log == [] && events == [] && clock == now
    {
      events, log, clock := [], [], now;
    }

    method Append(id: nat, raw: string, now: real)
      requires Valid() && now >= clock
      modifies this
      ensures Valid() && clock == now
      ensures log == old(log) + [Buffered(id, raw, now)]
      ensures events == PushBounded(old(events), Buffered(id, raw, now))
    {
      var entry := Buffered(id, raw, now);
      AppendTracks(events, log, clock, entry);
      events := (if |events| == MAX_SIZE then events[1..] else events) + [entry];
      log, clock := log + [entry], now;
    }

    /** Prunes, then filters: exactly what the full log would answer. */
    method EventsAfter(lastId: int, now: real) returns (raws: seq<string>)
      requires Valid() && now >= clock
      modifies this
      ensures Valid() && clock == now && log == old(log)
      ensures raws == Replay(log, lastId, now)
      ensures events == Fresh(Newest(log), now)
    {
      clock := now;
      var cutoff := now - MAX_AGE;
      while events != [] && events[0].createdAt < cutoff
        invariant Tracks(events, log, now) && log == old(log) && clock == now
        decreases |events|
      {
        PruneTracks(events, log, now);
        events := events[1..];
      }
      TracksFresh(events, log, now);
      raws := FilterAfter(events, lastId);
    }
  }

  /** The list comprehension over the retained events. */
  method FilterAfter(entries: seq<Buffered>, lastId: int) returns (raws: seq<string>)
    ensures raws == RawsAfter(entries, lastId)
  {
    raws := [];
    for k := 0 to |entries|
      invariant raws == RawsAfter(entries[..k], lastId)
    {
      hide RawsAfter;
      RawsAfterNext(entries, k, lastId);
      if entries[k].id > lastId {
        raws := raws + [entries[k].raw];
      }
    }
    assert entries[..|entries|] == entries;
  }

  lemma {:induction false} RawsAfterConcat(a: seq<Buffered>, b: seq<Buffered>, lastId: int)
    ensures RawsAfter(a + b, lastId) == RawsAfter(a, lastId) + RawsAfter(b, lastId)
  {
    if a == [] {
      assert a + b == b;
    } else {
      assert (a + b)[1..] == a[1..] + b;
      RawsAfterConcat(a[1..], b, lastId);
    }
  }

  lemma RawsAfterNext(entries: seq<Buffered>, k: nat, lastId: int)
    requires k < |entries|
    ensures RawsAfter(entries[..k + 1], lastId)
         == if entries[k].id > lastId then RawsAfter(entries[..k], lastId) + [entries[k].raw]
            else RawsAfter(entries[..k], lastId)
  {
    assert entries[..k + 1] == entries[..k] + [entries[k]];
    RawsAfterConcat(entries[..k], [entries[k]], lastId);
    assert [entries[k]][1..] == [];
  }

  // -------------------------------------------------------------- gap freedom

  /** Consecutive numbers, as a stream assigns them. */
  predicate Consecutive(log: seq<Buffered>) {
    forall i :: 0 <= i < |log| ==> log[i].id == log[0].id + i
  }

  lemma {:induction false} RawsAfterSkips(entries: seq<Buffered>, k: nat, lastId: int)
    requires k <= |entries| && forall i :: 0 <= i < k ==> entries[i].id <= lastId
    ensures RawsAfter(entries, lastId) == RawsAfter(entries[k..], lastId)
  {
    if k > 0 {
      RawsAfterSkips(entries[1..], k - 1, lastId);
      assert entries[1..][k - 1..] == entries[k..];
    }
  }

  lemma {:induction false} RawsAfterKeeps(entries: seq<Buffered>, k: nat, lastId: int)
    requires k <= |entries|
    ensures |RawsAfter(entries, lastId)| >= |RawsAfter(entries[k..], lastId)|
    ensures (exists i :: 0 <= i < k && entries[i].id > lastId)
            ==> |RawsAfter(entries, lastId)| > |RawsAfter(entries[k..], lastId)|
  {
    if k > 0 {
      RawsAfterKeeps(entries[1..], k - 1, lastId);
      assert entries[1..][k - 1..] == entries[k..];
      if i :| 0 <= i < k && entries[i].id > lastId {
        if i > 0 { assert entries[1..][i - 1].id > lastId; }
      }
    }
  }

  ghost function ExpiredCount(entries: seq<Buffered>, now: real): (k: nat)
    requires InOrder(entries)
    ensures k <= |entries| && Fresh(entries, now) == entries[k..]
  {
    if entries == [] then 0
    else if entries[0].createdAt >= now - MAX_AGE then FreshIsSuffix(entries, now, 0); 0
    else
      assert entries[1..] == entries[1..][0..];
      1 + ExpiredCount(entries[1..], now)
  }

  /** A replay misses nothing if and only if nothing was dropped, or the client's number is at
      least the oldest retained number minus one (at least the newest number of all when
      nothing is retained). */
  lemma ReplayIsGapFree(log: seq<Buffered>, lastId: int, now: real)
    requires InOrder(log) && Consecutive(log)
    ensures var retained := Fresh(Newest(log), now);
            Replay(log, lastId, now) == RawsAfter(log, lastId)
            <==> || |retained| == |log|
                 || (retained != [] && lastId >= retained[0].id - 1)
                 || (retained == [] && lastId >= log[|log| - 1].id)
  {
    var k := RetainedFrom(log, now);
    if k > 0 {
      assert log[k - 1].id == log[0].id + (k - 1);
      if k < |log| { assert log[k].id == log[k - 1].id + 1; }
      if lastId >= log[k - 1].id {
        RawsAfterSkips(log, k, lastId);
      } else {
        RawsAfterKeeps(log, k, lastId);
      }
    }
  }

  // ------------------------------------------------------------------- stream

  /** What the loop meets in one round: the client gone, fifteen seconds without an event, an
      event of the domain generator, or its end. */
  datatype Round =
    | Disconnected
    | Timeout(heartbeat: string, at: real)
    | Domain(data: string, at: real)
    | Exhausted

  predicate Continues(r: Round) { r.Timeout? || r.Domain? }

  function Payload(r: Round): string
    requires Continues(r)
  {
    if r.Timeout? then r.heartbeat else r.data
  }

  /** Rounds until the loop leaves. */
  function LiveRounds(rounds: seq<Round>): (n: nat)
    ensures n <= |rounds|
    ensures forall i :: 0 <= i < n ==> Continues(rounds[i])
    ensures n < |rounds| ==> !Continues(rounds[n])
  {
    if rounds == [] || !Continues(rounds[0]) then 0 else 1 + LiveRounds(rounds[1..])
  }

  ghost predicate ClockRuns(rounds: seq<Round>, start: real) {
    && (forall i :: 0 <= i < |rounds| && Continues(rounds[i]) ==> start <= rounds[i].at)
    && (forall i, j :: 0 <= i < j < |rounds| && Continues(rounds[i]) && Continues(rounds[j])
                       ==> rounds[i].at <= rounds[j].at)
  }

  /** The entry that round `i` of a stream leaves in the buffer. */
  function Entry(rounds: seq<Round>, startId: nat, i: nat): Buffered
    requires i < |rounds| && Continues(rounds[i])
  {
    var id := startId + 1 + i;
    Buffered(id, FormatEvent(id, Payload(rounds[i])), rounds[i].at)
  }

  /** Everything streamed is buffered and numbered consecutively from `startId + 1`, heartbeats
      included; nothing follows a disconnect or the end of the generator. */
  method StreamEvents(rounds: seq<Round>, buffer: EventBuffer, startId: nat) returns (sent: seq<string>)
    requires buffer.Valid() && ClockRuns(rounds, buffer.clock)
    modifies buffer
    ensures buffer.Valid()
    ensures |sent| == LiveRounds(rounds)
    ensures buffer.log == old(buffer.log) + seq(|sent|, i requires 0 <= i < |sent| => Entry(rounds, startId, i))
    ensures forall i :: 0 <= i < |sent| ==>
              sent[i] == match rounds[i]
                         case Domain(data, _) => FormatEvent(startId + 1 + i, data)
                         case Timeout(heartbeat, _) => FormatEvent(startId + 1 + i, heartbeat)
                         case _ => ""
  {
    hide FormatEvent, Tracks;
    sent := [];
    var eventId := startId;
    ghost var added := [];
    for k := 0 to |rounds|
      invariant k <= LiveRounds(rounds) && |sent| == |added| == k && eventId == startId + k
      invariant buffer.Valid() && buffer.log == old(buffer.log) + added
      invariant forall i :: k <= i < |rounds| && Continues(rounds[i]) ==> buffer.clock <= rounds[i].at
      invariant forall i :: 0 <= i < k ==> added[i] == Entry(rounds, startId, i) && sent[i] == added[i].raw
      invariant forall i :: 0 <= i < k ==>
                  sent[i] == FormatEvent(startId + 1 + i,
                                         if rounds[i].Domain? then rounds[i].data else rounds[i].heartbeat)
    {
      if !Continues(rounds[k]) {
        break;
      }
      eventId := eventId + 1;
      var formatted := FormatEvent(eventId, Payload(rounds[k]));
      buffer.Append(eventId, formatted, rounds[k].at);
      added := added + [Entry(rounds, startId, k)];
      sent := sent + [formatted];
    }
    assert added == seq(|sent|, i requires 0 <= i < |sent| => Entry(rounds, startId, i));
  }

  /** The wire as it is written: the texts sent, one after the other. */
  function Written(sent: seq<string>): string {
    if sent == [] then "" else sent[0] + Written(sent[1..])
  }

  /** The events that a stream of live rounds should deliver. */
  ghost predicate Delivers(rounds: seq<Round>, startId: nat, events: seq<Event>) {
    forall i :: 0 <= i < |events| ==>
      i < |rounds| && events[i].id == startId + 1 + i
      && match rounds[i]
         case Domain(data, _) => events[i].data == data
         case Timeout(heartbeat, _) => events[i].data == heartbeat
         case _ => false
  }

  lemma {:induction false} WrittenIsWire(sent: seq<string>, events: seq<Event>)
    requires |sent| == |events|
    requires forall i :: 0 <= i < |sent| ==> sent[i] == FormatEvent(events[i].id, events[i].data)
    ensures Written(sent) == Wire(events)
  {
    hide FormatEvent;
    if sent != [] {
      WrittenIsWire(sent[1..], events[1..]);
    }
  }

  /** From the generator to the client: whoever reads what a stream of one-line data wrote receives
      exactly the data of its rounds, in order, under consecutive ids. */
  lemma StreamIsReceived(rounds: seq<Round>, startId: nat, sent: seq<string>, events: seq<Event>, lastId: string)
    requires |sent| == |events| && Delivers(rounds, startId, events)
    requires forall e <- events :: OneLine(e.data)
    requires forall i :: 0 <= i < |sent| && i < |rounds| ==>
               sent[i] == match rounds[i]
                          case Domain(data, _) => FormatEvent(startId + 1 + i, data)
                          case Timeout(heartbeat, _) => FormatEvent(startId + 1 + i, heartbeat)
                          case _ => ""
    ensures ParseStream(Written(sent), Buffers("", "", lastId)) == Messages(events)
  {
    hide FormatEvent, ParseStream;
    WrittenIsWire(sent, events);
    WireRoundTrip(events, lastId);
  }

  ghost predicate Formatted(log: seq<Buffered>) {
    forall i :: 0 <= i < |log| ==> exists data :: log[i].raw == FormatEvent(log[i].id, data)
  }

  lemma {:induction false} LastRaw(entries: seq<Buffered>, lastId: int)
    requires RawsAfter(entries, lastId) != []
    requires forall i, j :: 0 <= i < j < |entries| ==> entries[i].id < entries[j].id
    ensures entries != []
    ensures Last(RawsAfter(entries, lastId)) == Last(entries).raw
  {
    if |entries| > 1 {
      if RawsAfter(entries[1..], lastId) != [] {
        LastRaw(entries[1..], lastId);
      }
    }
  }

  /** The number recovered from the last replayed event is that of the newest entry, so numbering
      resumes right after everything ever sent. */
  lemma ReplayContinuesNumbering(log: seq<Buffered>, lastId: int, now: real)
    requires InOrder(log) && Consecutive(log) && Formatted(log) && Replay(log, lastId, now) != []
    ensures var found := IdLine(PyLines(Last(Replay(log, lastId, now))), 0);
            log != [] && found.Some? && ParseInt(found.value[4..]) == Some(Last(log).id)
  {
    var k := RetainedFrom(log, now);
    hide *;
    SuffixIncreases(log, k);
    LastOfReplay(log, lastId, now, k);
    LastIsFormatted(log);
    var data :| Last(log).raw == FormatEvent(Last(log).id, data);
    ScanFindsId(Last(log).id, data);
  }

  /** Where the retained entries begin. */
  ghost function RetainedFrom(log: seq<Buffered>, now: real): (k: nat)
    requires InOrder(log)
    ensures k <= |log| && Fresh(Newest(log), now) == log[k..]
  {
    var newest := Newest(log);
    var expired := ExpiredCount(newest, now);
    assert newest[expired..] == log[|log| - |newest| + expired..];
    |log| - |newest| + expired
  }

  lemma SuffixIncreases(log: seq<Buffered>, k: nat)
    requires Consecutive(log) && k <= |log|
    ensures forall i, j :: 0 <= i < j < |log[k..]| ==> log[k..][i].id < log[k..][j].id
  {
  }

  lemma LastOfReplay(log: seq<Buffered>, lastId: int, now: real, k: nat)
    requires k <= |log| && Fresh(Newest(log), now) == log[k..] && Replay(log, lastId, now) != []
    requires forall i, j :: 0 <= i < j < |log[k..]| ==> log[k..][i].id < log[k..][j].id
    ensures log != [] && Last(Replay(log, lastId, now)) == Last(log).raw
  {
    LastRaw(log[k..], lastId);
    assert Last(log[k..]) == Last(log);
  }

  lemma LastIsFormatted(log: seq<Buffered>)
    requires Formatted(log) && log != []
    ensures exists data :: Last(log).raw == FormatEvent(Last(log).id, data)
  {
    assert log[|log| - 1] == Last(log);
  }
}
