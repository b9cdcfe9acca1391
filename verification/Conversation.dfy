/** The conversation history handed to the answering stages: a window over recent messages and
    a summary of the older ones. */
module Conversation {
  import opened Common
  import opened Rows

  const SUMMARY_THRESHOLD: nat := 20
  const SLIDING_WINDOW_SIZE: nat := 15
  const DEGRADED_WINDOW_SIZE: nat := 30

  type SessionId = nat

  datatype Kind = UserQuestion | AiAnswer | AiClarification | SystemNote

  datatype Message = Message(id: nat, session: SessionId, kind: Kind, content: string, sequence: int)

  datatype Role = System | User | Assistant

  datatype Turn = Turn(role: Role, content: string)

  /** Its wording is of no consequence here. */
  const SYSTEM_PROMPT: Turn := Turn(System, "summarise")

  /** The model behind the summaries, when one is configured: a reply or an exception. */
  datatype Generator = Disabled | Enabled(reply: seq<Turn> -> Option<string>)

  /** Message identifiers are unique, and so are sequence numbers within a session. */
  predicate DistinctMessages(a: Message, b: Message) {
    a.id != b.id && !(a.session == b.session && a.sequence == b.sequence)
  }

  // ------------------------------------------------------------ ORDER BY

  datatype Direction = Asc | Desc

  predicate Precedes(a: Message, b: Message, d: Direction) {
    if d.Asc? then a.sequence < b.sequence else a.sequence > b.sequence
  }

  ghost predicate Sorted(rows: seq<Message>, d: Direction) {
    forall i, j :: 0 <= i < j < |rows| ==> Precedes(rows[i], rows[j], d)
  }

  ghost predicate SameRows(a: seq<Message>, b: seq<Message>) {
    forall m :: m in a <==> m in b
  }

  function Insert(m: Message, rows: seq<Message>, d: Direction): seq<Message> {
    if rows == [] || Precedes(m, rows[0], d) then [m] + rows
    else [rows[0]] + Insert(m, rows[1..], d)
  }

  /** `ORDER BY sequence`, in either direction. */
  function OrderBy(rows: seq<Message>, d: Direction): seq<Message> {
    if rows == [] then [] else Insert(rows[0], OrderBy(rows[1..], d), d)
  }

  ghost predicate OfOneSession(rows: seq<Message>) {
    forall i, j :: 0 <= i < j < |rows| ==> rows[i].sequence != rows[j].sequence
  }

  lemma {:induction false} InsertSorts(m: Message, rows: seq<Message>, d: Direction)
    requires Sorted(rows, d) && forall r :: r in rows ==> r.sequence != m.sequence
    ensures Sorted(Insert(m, rows, d), d) && SameRows(Insert(m, rows, d), [m] + rows)
  {
    if rows != [] && !Precedes(m, rows[0], d) {
      var rest := rows[1..];
      InsertSorts(m, rest, d);
      var tail := Insert(m, rest, d);
      forall j | 0 <= j < |tail| ensures Precedes(rows[0], tail[j], d) {
        assert tail[j] in [m] + rest;
      }
      assert rows == [rows[0]] + rest;
    }
  }

  lemma {:induction false} OrderBySorts(rows: seq<Message>, d: Direction)
    requires OfOneSession(rows)
    ensures Sorted(OrderBy(rows, d), d) && SameRows(OrderBy(rows, d), rows)
  {
    if rows != [] {
      OrderBySorts(rows[1..], d);
      InsertSorts(rows[0], OrderBy(rows[1..], d), d);
      assert rows == [rows[0]] + rows[1..];
    }
  }

  /** Sorted rows are determined by which rows they are. */
  lemma {:induction false} SortedIsUnique(a: seq<Message>, b: seq<Message>, d: Direction)
    requires Sorted(a, d) && Sorted(b, d) && SameRows(a, b)
    ensures a == b
  {
    assert |a| > 0 ==> a[0] in b;
    assert |b| > 0 ==> b[0] in a;
    if a != [] {
      assert a[0] == b[0];
      forall m ensures m in a[1..] <==> m in b[1..] {
        assert m in a[1..] <==> m in a && m != a[0];
        assert m in b[1..] <==> m in b && m != b[0];
      }
      SortedIsUnique(a[1..], b[1..], d);
    }
  }

  function Reverse(rows: seq<Message>): (r: seq<Message>)
    ensures |r| == |rows| && forall i :: 0 <= i < |r| ==> r[i] == rows[|rows| - 1 - i]
  {
    seq(|rows|, i requires 0 <= i < |rows| => rows[|rows| - 1 - i])
  }

  lemma ReverseSorts(rows: seq<Message>)
    requires Sorted(rows, Asc)
    ensures Sorted(Reverse(rows), Desc) && SameRows(Reverse(rows), rows)
  {
    var back, n := Reverse(rows), |rows|;
    forall i, j | 0 <= i < j < n ensures Precedes(back[i], back[j], Desc) {
      assert Precedes(rows[n - 1 - j], rows[n - 1 - i], Asc);
    }
    forall m | m in rows ensures m in back {
      var i :| 0 <= i < n && rows[i] == m;
      assert back[n - 1 - i] == m;
    }
  }

  lemma DescendingReversesAscending(rows: seq<Message>)
    requires OfOneSession(rows)
    ensures OrderBy(rows, Desc) == Reverse(OrderBy(rows, Asc))
  {
    hide Sorted, OrderBy, Reverse;
    OrderBySorts(rows, Asc);
    OrderBySorts(rows, Desc);
    var up := OrderBy(rows, Asc);
    ReverseSorts(up);
    SortedIsUnique(OrderBy(rows, Desc), Reverse(up), Desc);
  }

  // ------------------------------------------------------------ fetching

  function InSession(session: SessionId, before: Option<int>): Message -> bool {
    (m: Message) => m.session == session && (before.Some? ==> m.sequence < before.value)
  }

  function Min(a: nat, b: nat): nat { if a < b then a else b }

  function Tail(rows: seq<Message>, n: nat): seq<Message> {
    rows[|rows| - Min(n, |rows|)..]
  }

  lemma TailFacts(rows: seq<Message>, n: nat)
    ensures var older, tail := rows[..|rows| - Min(n, |rows|)], Tail(rows, n);
            && rows == older + tail && |tail| == Min(n, |rows|)
            && (tail != [] ==> tail[0] == rows[|rows| - Min(n, |rows|)])
  {
  }

  function Ids(rows: seq<Message>): set<nat> { set m | m in rows :: m.id }

  /** `_fetch_messages`.  With a limit, the newest rows are chosen in a descending subquery, and
      the table is joined with it by identifier to read them in ascending order. */
  function Fetch(table: seq<Message>, session: SessionId, limit: Option<nat>, before: Option<int>): seq<Message> {
    var selected := Filter(InSession(session, before), table);
    if limit.None? then OrderBy(selected, Asc)
    else
      var newest := OrderBy(selected, Desc);
      var ids := Ids(newest[..Min(limit.value, |newest|)]);
      OrderBy(Filter((m: Message) => m.id in ids, table), Asc)
  }

  /** The whole history of a session, oldest message first. */
  function History(table: seq<Message>, session: SessionId): seq<Message> {
    Fetch(table, session, None, None)
  }

  lemma SelectedAreOfOneSession(table: seq<Message>, session: SessionId, before: Option<int>)
    requires Pairwise(DistinctMessages, table)
    ensures OfOneSession(Filter(InSession(session, before), table))
  {
    var selected := Filter(InSession(session, before), table);
    PairwiseFilter(DistinctMessages, InSession(session, before), table);
    forall i, j | 0 <= i < j < |selected| ensures selected[i].sequence != selected[j].sequence {
      assert selected[i] in selected && selected[j] in selected;
      assert DistinctMessages(selected[i], selected[j]);
    }
  }

  lemma OneRowPerId(table: seq<Message>, a: Message, b: Message)
    requires Pairwise(DistinctMessages, table) && a in table && b in table
    ensures a.id == b.id ==> a == b
  {
    if a != b {
      var i :| 0 <= i < |table| && table[i] == a;
      var j :| 0 <= j < |table| && table[j] == b;
      assert if i < j then DistinctMessages(table[i], table[j]) else DistinctMessages(table[j], table[i]);
    }
  }

  /** What an unlimited fetch returns: exactly the selected rows, in strictly ascending order. */
  lemma FetchIsAscending(table: seq<Message>, session: SessionId, before: Option<int>)
    requires Pairwise(DistinctMessages, table)
    ensures Sorted(Fetch(table, session, None, before), Asc)
    ensures forall m :: m in Fetch(table, session, None, before) <==> m in table && InSession(session, before)(m)
  {
    SelectedAreOfOneSession(table, session, before);
    OrderBySorts(Filter(InSession(session, before), table), Asc);
  }

  /** Limiting keeps the most recent messages: the descending, limited, re-sorted query returns
      a suffix of the ascending one. */
  lemma FetchIsSuffix(table: seq<Message>, session: SessionId, limit: nat, before: Option<int>)
    requires Pairwise(DistinctMessages, table)
    ensures Fetch(table, session, Some(limit), before) == Tail(Fetch(table, session, None, before), limit)
  {
    var selected := Filter(InSession(session, before), table);
    SelectedAreOfOneSession(table, session, before);
    OrderBySorts(selected, Asc);
    DescendingReversesAscending(selected);
    var up := OrderBy(selected, Asc);
    var kept := Tail(up, limit);
    var top := Reverse(up)[..Min(limit, |up|)];
    var n := |top|;
    assert forall i :: 0 <= i < n ==> top[i] == kept[n - 1 - i];
    assert forall i :: 0 <= i < n ==> kept[i] == top[n - 1 - i];
    JoinFindsTheRows(table, top, kept);
  }

  /** Joining the table with the identifiers of some of its rows finds those rows again. */
  lemma JoinFindsTheRows(table: seq<Message>, top: seq<Message>, kept: seq<Message>)
    requires Pairwise(DistinctMessages, table)
    requires forall m :: m in top ==> m in table
    requires SameRows(top, kept) && Sorted(kept, Asc)
    ensures OrderBy(Filter((m: Message) => m.id in Ids(top), table), Asc) == kept
  {
    var joined := Filter((m: Message) => m.id in Ids(top), table);
    forall m ensures m in joined <==> m in kept {
      if m in joined {
        var t :| t in top && t.id == m.id;
        OneRowPerId(table, t, m);
      }
    }
    PairwiseFilter(DistinctMessages, (m: Message) => m.id in Ids(top), table);
    forall i, j | 0 <= i < j < |joined| ensures joined[i].sequence != joined[j].sequence {
      assert DistinctMessages(joined[i], joined[j]);
      assert joined[i] in kept && joined[j] in kept;
    }
    OrderBySorts(joined, Asc);
    SortedIsUnique(OrderBy(joined, Asc), kept, Asc);
  }

  /** Reading what came before the first message of a suffix gives the rest of the history. */
  lemma BeforeWindowIsPrefix(table: seq<Message>, session: SessionId, n: nat)
    requires Pairwise(DistinctMessages, table)
    requires 0 < n <= |History(table, session)|
    ensures var h := History(table, session);
            Fetch(table, session, None, Some(h[|h| - n].sequence)) == h[..|h| - n]
  {
    var h := History(table, session);
    var cut := |h| - n;
    var older := Fetch(table, session, None, Some(h[cut].sequence));
    FetchIsAscending(table, session, None);
    FetchIsAscending(table, session, Some(h[cut].sequence));
    assert forall i :: cut < i < |h| ==> Precedes(h[cut], h[i], Asc);
    forall m ensures m in older <==> m in h[..cut] {
      assert InSession(session, None)(m) <==> m.session == session;
      if m in older {
        assert m in h;
        var i :| 0 <= i < |h| && h[i] == m;
        assert h[..cut][i] == m;
      }
      if m in h[..cut] {
        var i :| 0 <= i < cut && h[i] == m;
        assert h[i] in h && Precedes(h[i], h[cut], Asc);
      }
    }
    SortedIsUnique(older, h[..cut], Asc);
  }

  // ------------------------------------------------------------ the service

  function TurnOf(m: Message): Turn {
    Turn(if m.kind.UserQuestion? then User else Assistant, m.content)
  }

  /** The chat shown to the summariser. */
  function Transcript(messages: seq<Message>): (turns: seq<Turn>)
    ensures |turns| == |messages| + 1 && turns[0].role == System
    ensures forall i :: 0 <= i < |messages| ==>
              && turns[i + 1].content == messages[i].content
              && (turns[i + 1].role == User <==> messages[i].kind == UserQuestion)
              && (turns[i + 1].role == Assistant <==> messages[i].kind != UserQuestion)
  {
    [SYSTEM_PROMPT] + seq(|messages|, i requires 0 <= i < |messages| => TurnOf(messages[i]))
  }

  method GenerateSummary(reply: seq<Turn> -> Option<string>, messages: seq<Message>) returns (summary: Option<string>)
    ensures summary == reply(Transcript(messages))
  {
    var chat := [SYSTEM_PROMPT];
    for k := 0 to |messages|
      invariant chat == Transcript(messages[..k])
    {
      var role := if messages[k].kind.UserQuestion? then User else Assistant;
      chat := chat + [Turn(role, messages[k].content)];
    }
    assert messages[..|messages|] == messages;
    summary := reply(chat);
  }

  /** The service of one request: the stored messages and the configured summariser. */
  class ConversationContextService {
    const table: seq<Message>
    const generator: Generator

    constructor (rows: seq<Message>, g: Generator)
      ensures table == rows && generator == g
    {
      table, generator := rows, g;
    }

    /** Every message of a short conversation, else the last fifteen. */
    method GetContext(session: SessionId, maxContextMessages: int := SUMMARY_THRESHOLD) returns (messages: seq<Message>)
      requires Pairwise(DistinctMessages, table)
      ensures var h := History(table, session);
              messages == if |h| <= maxContextMessages then h else Tail(h, SLIDING_WINDOW_SIZE)
    {
      CountIsLength(table, session);
      FetchIsSuffix(table, session, SLIDING_WINDOW_SIZE, None);
      var total := |Filter(InSession(session, None), table)|;
      if total == 0 {
        return [];
      }
      if total <= maxContextMessages {
        return Fetch(table, session, None, None);
      }
      messages := Fetch(table, session, Some(SLIDING_WINDOW_SIZE), None);
    }

    method BuildSummary(session: SessionId, upTo: int) returns (summary: Option<string>)
      ensures var older := Fetch(table, session, None, Some(upTo));
              summary == if older == [] || generator.Disabled? then None else generator.reply(Transcript(older))
    {
      var older := Fetch(table, session, None, Some(upTo));
      if older == [] {
        return None;
      }
      if generator.Disabled? {
        return None;
      }
      summary := GenerateSummary(generator.reply, older);
    }

    /** A short conversation is returned whole.  Of a long one, a summary covers exactly the
        messages left of the returned window, with no gap and no overlap; without a summary the
        window is the last thirty messages if a summariser is configured, else the last fifteen. */
    method GetContextWithSummary(session: SessionId, maxContextMessages: int := SUMMARY_THRESHOLD)
      returns (recent: seq<Message>, summary: Option<string>)
      requires Pairwise(DistinctMessages, table)
      ensures |History(table, session)| <= maxContextMessages ==>
                recent == History(table, session) && summary.None?
      ensures generator.Disabled? && |History(table, session)| > maxContextMessages ==>
                recent == Tail(History(table, session), SLIDING_WINDOW_SIZE) && summary.None?
      ensures summary.Some? ==>
                exists older :: History(table, session) == older + recent && older != []
                                && |recent| == SLIDING_WINDOW_SIZE && generator.Enabled?
                                && generator.reply(Transcript(older)) == summary
      ensures generator.Enabled? && summary.None? && |History(table, session)| > maxContextMessages ==>
                recent == Tail(History(table, session), DEGRADED_WINDOW_SIZE)
      ensures generator.Enabled? && |History(table, session)| > maxContextMessages && summary.None?
              && |History(table, session)| > SLIDING_WINDOW_SIZE ==>
                var h := History(table, session);
                generator.reply(Transcript(h[..|h| - SLIDING_WINDOW_SIZE])).None?
    {
      ghost var h := History(table, session);
      assert h == Fetch(table, session, None, None);
      hide Fetch, Pairwise, Transcript, OrderBy, Filter, History, InSession, Tail;
      CountIsLength(table, session);
      FetchIsSuffix(table, session, SLIDING_WINDOW_SIZE, None);
      FetchIsSuffix(table, session, DEGRADED_WINDOW_SIZE, None);
      var total := |Filter(InSession(session, None), table)|;
      if total == 0 {
        return [], None;
      }
      if total <= maxContextMessages {
        recent := Fetch(table, session, None, None);
        return recent, None;
      }
      TailFacts(h, SLIDING_WINDOW_SIZE);
      recent := Fetch(table, session, Some(SLIDING_WINDOW_SIZE), None);
      if recent == [] {
        return [], None;
      }
      BeforeWindowIsPrefix(table, session, Min(SLIDING_WINDOW_SIZE, |h|));
      ghost var older := h[..|h| - Min(SLIDING_WINDOW_SIZE, |h|)];
      summary := BuildSummary(session, recent[0].sequence);
      if summary.None? && generator.Enabled? {
        recent := Fetch(table, session, Some(DEGRADED_WINDOW_SIZE), None);
      }
    }
  }

  /** `COUNT(*)` agrees with the length of the history. */
  lemma CountIsLength(table: seq<Message>, session: SessionId)
    ensures |Filter(InSession(session, None), table)| == |History(table, session)|
  {
    OrderByLength(Filter(InSession(session, None), table), Asc);
  }

  lemma {:induction false} InsertLength(m: Message, rows: seq<Message>, d: Direction)
    ensures |Insert(m, rows, d)| == |rows| + 1
  {
    if rows != [] && !Precedes(m, rows[0], d) {
      InsertLength(m, rows[1..], d);
    }
  }

  lemma {:induction false} OrderByLength(rows: seq<Message>, d: Direction)
    ensures |OrderBy(rows, d)| == |rows|
  {
    if rows != [] {
      OrderByLength(rows[1..], d);
      InsertLength(rows[0], OrderBy(rows[1..], d), d);
    }
  }
}
