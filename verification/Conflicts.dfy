/** Which of a concept's sources is authoritative. */
module Conflicts {
  import opened Common
  import opened KnowledgeGraph
  import opened Rows

  function Priority(documentType: string): int {
    if documentType == "errata" then 60
    else if documentType == "faq" then 50
    else if documentType == "core_rules" then 40
    else if documentType == "expansion_rules" then 40
    else if documentType == "strategy" then 20
    else 10
  }

  /** The order of authority: errata, then FAQ, then the rules of core and expansions alike, then strategy,
      then everything else alike. */
  lemma PriorityOrder(other: string, another: string)
    requires other !in ["errata", "faq", "core_rules", "expansion_rules", "strategy"]
    requires another !in ["errata", "faq", "core_rules", "expansion_rules", "strategy"]
    ensures Priority("errata") > Priority("faq") > Priority("core_rules") == Priority("expansion_rules")
    ensures Priority("expansion_rules") > Priority("strategy") > Priority(other) == Priority(another)
  {
    assert "errata"[0] == 'e' && "faq"[0] == 'f' && "core_rules"[0] == 'c' && "strategy"[0] == 's';
    assert "expansion_rules"[1] == 'x' && "errata"[1] == 'r';
    var named := ["errata", "faq", "core_rules", "expansion_rules", "strategy"];
    assert named[0] in named && named[1] in named && named[2] in named && named[3] in named && named[4] in named;
  }

  function OnConcept(c: Id): Source -> bool { (s: Source) => s.concept == c }

  /** `list_by_concept`, in insertion order. */
  function ListByConcept(sources: seq<Source>, c: Id): seq<Source> { Filter(OnConcept(c), sources) }

  /** The first flagged source of a list is the `i`-th. */
  predicate IsFirstFlagged(list: seq<Source>, i: int) {
    0 <= i < |list| && list[i].authoritative && forall j :: 0 <= j < i ==> !list[j].authoritative
  }

  function FirstAuthoritative(list: seq<Source>): (r: Option<Source>)
    ensures r.Some? ==>
              exists i :: IsFirstFlagged(list, i) && list[i] == r.value
    ensures r.None? ==> forall s :: s in list ==> !s.authoritative
  {
    if list == [] then None
    else if list[0].authoritative then assert IsFirstFlagged(list, 0); Some(list[0])
    else
      var rest := FirstAuthoritative(list[1..]);
      assert forall i :: IsFirstFlagged(list[1..], i) ==> IsFirstFlagged(list, i + 1) && list[i + 1] == list[1..][i];
      rest
  }

  /** `max` by creation time: the first of the latest. */
  function Newest(list: seq<Source>): (r: Source)
    requires list != []
    ensures r in list && forall s :: s in list ==> s.createdAt <= r.createdAt
  {
    if |list| == 1 then list[0]
    else
      var later := Newest(list[1..]);
      if later.createdAt > list[0].createdAt then later else list[0]
  }

  function Flagged(s: Source, c: Id, winner: Id): Source {
    if s.concept == c then s.(authoritative := s.id == winner) else s
  }

  /** One source of the concept is flagged, its others are not. */
  function UpdateAuthoritative(sources: seq<Source>, c: Id, winner: Id): (r: seq<Source>)
    ensures |r| == |sources| && forall i :: 0 <= i < |r| ==> r[i] == Flagged(sources[i], c, winner)
  {
    if sources == [] then []
    else [Flagged(sources[0], c, winner)] + UpdateAuthoritative(sources[1..], c, winner)
  }

  /** `resolve_conflicts` for a source that was just added. */
  function Resolve(sources: seq<Source>, c: Id, added: Source): seq<Source> {
    var list := ListByConcept(sources, c);
    if |list| <= 1 then sources
    else
      match FirstAuthoritative(list)
      case None => UpdateAuthoritative(sources, c, added.id)
      case Some(current) =>
        if current.id == added.id then sources
        else if Priority(added.documentType) > Priority(current.documentType)
        then UpdateAuthoritative(sources, c, added.id)
        else sources
  }

  function ResolveNewest(sources: seq<Source>, c: Id): seq<Source> {
    var list := ListByConcept(sources, c);
    if |list| > 1 then Resolve(sources, c, Newest(list)) else sources
  }

  function ResolveAll(sources: seq<Source>, cs: seq<Id>): seq<Source>
    decreases |cs|
  {
    if cs == [] then sources else ResolveAll(ResolveNewest(sources, cs[0]), cs[1..])
  }

  // ------------------------------------------------------------ only flags move

  ghost predicate SameButFlags(a: seq<Source>, b: seq<Source>) {
    |a| == |b| && forall i :: 0 <= i < |a| ==> b[i] == a[i].(authoritative := b[i].authoritative)
  }

  lemma {:induction false} ResolveAllMovesFlags(sources: seq<Source>, cs: seq<Id>)
    ensures SameButFlags(sources, ResolveAll(sources, cs))
    decreases |cs|
  {
    if cs != [] {
      ResolveAllMovesFlags(ResolveNewest(sources, cs[0]), cs[1..]);
    }
  }

  // ------------------------------------------------------------------- ranking

  /** The first authoritative source outranks or equals every source in the list. */
  ghost predicate Ranked(list: seq<Source>) {
    list != [] ==>
      var first := FirstAuthoritative(list);
      first.Some? && forall s :: s in list ==> Priority(s.documentType) <= Priority(first.value.documentType)
  }

  lemma {:induction false} UpdateListed(sources: seq<Source>, c: Id, winner: Id, other: Id)
    ensures ListByConcept(UpdateAuthoritative(sources, c, winner), other)
         == UpdateAuthoritative(ListByConcept(sources, other), c, winner)
    ensures other != c ==> ListByConcept(UpdateAuthoritative(sources, c, winner), other)
                           == ListByConcept(sources, other)
  {
    if sources != [] {
      UpdateListed(sources[1..], c, winner, other);
      var updated := UpdateAuthoritative(sources, c, winner);
      assert updated[1..] == UpdateAuthoritative(sources[1..], c, winner);
      var rest := ListByConcept(sources[1..], other);
      if sources[0].concept == other {
        assert ([sources[0]] + rest)[1..] == rest;
      } else {
        assert [] + rest == rest;
      }
    }
  }

  /** Where the ranking already holds, resolving changes nothing. */
  lemma RankedIsFixed(sources: seq<Source>, c: Id)
    requires Ranked(ListByConcept(sources, c))
    ensures ResolveNewest(sources, c) == sources
  {
  }

  lemma OtherConceptsStay(sources: seq<Source>, c: Id, other: Id)
    requires other != c
    ensures ListByConcept(ResolveNewest(sources, c), other) == ListByConcept(sources, other)
  {
    var list := ListByConcept(sources, c);
    if |list| > 1 {
      UpdateListed(sources, c, Newest(list).id, other);
    }
  }

  /** A concept's list as one ingest leaves it before conflicts are resolved: what it was, then
      new sources of one document type, later than all before and flagged by default. */
  ghost predicate Extended(before: seq<Source>, after: seq<Source>, documentType: string, now: int) {
    && before <= after
    && (forall i :: 0 <= i < |before| ==> before[i].createdAt < now)
    && (forall i :: |before| <= i < |after| ==>
          after[i].documentType == documentType && after[i].createdAt == now && after[i].authoritative)
    && (forall i, j :: 0 <= i < j < |after| ==> after[i].id != after[j].id)
  }

  lemma {:induction false} FirstOfConcat(a: seq<Source>, b: seq<Source>)
    ensures FirstAuthoritative(a + b)
         == if FirstAuthoritative(a).Some? then FirstAuthoritative(a) else FirstAuthoritative(b)
  {
    if a == [] {
      assert a + b == b;
    } else {
      assert (a + b)[1..] == a[1..] + b;
      FirstOfConcat(a[1..], b);
    }
  }

  /** The newest source is the first that the document added. */
  lemma {:induction false} NewestIsFirstAdded(before: seq<Source>, after: seq<Source>, documentType: string, now: int)
    requires Extended(before, after, documentType, now) && |before| < |after|
    ensures Newest(after) == after[|before|]
  {
    if before == [] {
      if |after| > 1 {
        assert Newest(after[1..]) in after[1..];
      }
    } else {
      NewestIsFirstAdded(before[1..], after[1..], documentType, now);
    }
  }

  lemma {:induction false} OnlyWinner(list: seq<Source>, c: Id, k: nat)
    requires k < |list| && forall i :: 0 <= i < |list| ==> list[i].concept == c
    requires forall i, j :: 0 <= i < j < |list| ==> list[i].id != list[j].id
    ensures var updated := UpdateAuthoritative(list, c, list[k].id);
            FirstAuthoritative(updated) == Some(list[k].(authoritative := true))
  {
    var updated := UpdateAuthoritative(list, c, list[k].id);
    if k > 0 {
      OnlyWinner(list[1..], c, k - 1);
      assert updated[1..] == UpdateAuthoritative(list[1..], c, list[k].id);
    }
  }

  /** The newest source takes over from the first authoritative one, if there is any. */
  ghost predicate Displaced(list: seq<Source>) {
    && |list| > 1
    && match FirstAuthoritative(list)
       case None => true
       case Some(current) =>
         current.id != Newest(list).id && Priority(Newest(list).documentType) > Priority(current.documentType)
  }

  ghost function ResolvedList(list: seq<Source>, c: Id): seq<Source> {
    if Displaced(list) then UpdateAuthoritative(list, c, Newest(list).id) else list
  }

  lemma ListOfResolved(sources: seq<Source>, c: Id)
    ensures ListByConcept(ResolveNewest(sources, c), c) == ResolvedList(ListByConcept(sources, c), c)
  {
    hide ListByConcept;
    var list := ListByConcept(sources, c);
    if Displaced(list) {
      UpdateListed(sources, c, Newest(list).id, c);
    }
  }

  lemma AddedFirst(before: seq<Source>, after: seq<Source>, documentType: string, now: int)
    requires Extended(before, after, documentType, now) && |before| < |after|
    ensures Newest(after) == after[|before|]
    ensures FirstAuthoritative(after)
         == if FirstAuthoritative(before).Some? then FirstAuthoritative(before) else Some(after[|before|])
  {
    NewestIsFirstAdded(before, after, documentType, now);
    var added := after[|before|..];
    assert after == before + added;
    FirstOfConcat(before, added);
  }

  lemma ListedAreOn(sources: seq<Source>, c: Id)
    ensures forall i :: 0 <= i < |ListByConcept(sources, c)| ==> ListByConcept(sources, c)[i].concept == c
  {
    forall i | 0 <= i < |ListByConcept(sources, c)| ensures ListByConcept(sources, c)[i].concept == c {
      assert ListByConcept(sources, c)[i] in ListByConcept(sources, c);
    }
  }

  lemma PrioritiesSplit(before: seq<Source>, after: seq<Source>, documentType: string, now: int)
    requires Extended(before, after, documentType, now)
    ensures forall s :: s in after ==> s in before || s.documentType == documentType
  {
    forall s | s in after ensures s in before || s.documentType == documentType {
      var i :| 0 <= i < |after| && after[i] == s;
      if i < |before| { assert before[i] == s; }
    }
  }

  ghost predicate AllRanked(sources: seq<Source>) {
    forall c :: Ranked(ListByConcept(sources, c))
  }

  ghost predicate DistinctIds(list: seq<Source>) {
    forall i, j :: 0 <= i < j < |list| ==> list[i].id != list[j].id
  }

  lemma {:induction false} NewestIgnoresFlags(a: seq<Source>, b: seq<Source>)
    requires a != [] && SameButFlags(a, b)
    ensures Newest(b).id == Newest(a).id && Newest(b).createdAt == Newest(a).createdAt
  {
    if |a| > 1 {
      NewestIgnoresFlags(a[1..], b[1..]);
    }
  }

  /** Resolving once is enough: afterwards the newest source no longer displaces anyone. */
  lemma ResolvedIsSettled(list: seq<Source>, c: Id)
    requires DistinctIds(list) && forall i :: 0 <= i < |list| ==> list[i].concept == c
    ensures !Displaced(ResolvedList(list, c))
  {
    hide Newest, FirstAuthoritative, UpdateAuthoritative;
    if Displaced(list) {
      var k :| 0 <= k < |list| && list[k] == Newest(list);
      OnlyWinner(list, c, k);
      NewestIgnoresFlags(list, UpdateAuthoritative(list, c, list[k].id));
    }
  }

  /** A concept with several sources none of which is flagged gets its newest one flagged, and only that. */
  lemma UnflaggedGetsNewest(sources: seq<Source>, c: Id)
    requires var list := ListByConcept(sources, c);
             |list| > 1 && forall s :: s in list ==> !s.authoritative
    ensures var after, newest := ResolveNewest(sources, c), Newest(ListByConcept(sources, c));
            && |after| == |sources|
            && forall i :: 0 <= i < |after| ==>
                 after[i] == sources[i].(authoritative := if sources[i].concept == c then sources[i].id == newest.id
                                                          else sources[i].authoritative)
  {
    hide ListByConcept, Newest;
  }

  lemma UndisplacedIsFixed(sources: seq<Source>, c: Id)
    requires !Displaced(ListByConcept(sources, c))
    ensures ResolveNewest(sources, c) == sources
  {
  }

  lemma {:induction false} SettledListStays(sources: seq<Source>, cs: seq<Id>, c: Id)
    requires !Displaced(ListByConcept(sources, c))
    ensures ListByConcept(ResolveAll(sources, cs), c) == ListByConcept(sources, c)
    decreases |cs|
  {
    hide Displaced, ResolveNewest, ListByConcept;
    if cs != [] {
      if cs[0] == c {
        UndisplacedIsFixed(sources, c);
      } else {
        OtherConceptsStay(sources, cs[0], c);
      }
      SettledListStays(ResolveNewest(sources, cs[0]), cs[1..], c);
    }
  }

  /** Resolving all concepts does to the list of each what resolving that concept once does. */
  lemma {:induction false} ResolvedOnce(sources: seq<Source>, cs: seq<Id>, c: Id)
    requires c in cs && DistinctIds(ListByConcept(sources, c))
    ensures ListByConcept(ResolveAll(sources, cs), c) == ResolvedList(ListByConcept(sources, c), c)
    decreases |cs|
  {
    hide Displaced, ResolvedList, ResolveNewest, ListByConcept, DistinctIds;
    var next := ResolveNewest(sources, cs[0]);
    if cs[0] == c {
      ListOfResolved(sources, c);
      ListedAreOn(sources, c);
      ResolvedIsSettled(ListByConcept(sources, c), c);
      SettledListStays(next, cs[1..], c);
    } else {
      OtherConceptsStay(sources, cs[0], c);
      ResolvedOnce(next, cs[1..], c);
    }
  }

  lemma {:induction false} AllSettledIsFixed(sources: seq<Source>, cs: seq<Id>)
    requires forall c :: c in cs ==> !Displaced(ListByConcept(sources, c))
    ensures ResolveAll(sources, cs) == sources
    decreases |cs|
  {
    hide Displaced, ResolveNewest, ListByConcept;
    if cs != [] {
      UndisplacedIsFixed(sources, cs[0]);
      AllSettledIsFixed(sources, cs[1..]);
    }
  }

  /** Resolving all concepts a second time changes nothing. */
  lemma ResolveAllIsIdempotent(sources: seq<Source>, cs: seq<Id>)
    requires forall c :: c in cs ==> DistinctIds(ListByConcept(sources, c))
    ensures ResolveAll(ResolveAll(sources, cs), cs) == ResolveAll(sources, cs)
  {
    hide Displaced, ResolveAll, ListByConcept, DistinctIds;
    var resolved := ResolveAll(sources, cs);
    forall c | c in cs ensures !Displaced(ListByConcept(resolved, c)) {
      ResolvedOnce(sources, cs, c);
      ListedAreOn(sources, c);
      ResolvedIsSettled(ListByConcept(sources, c), c);
    }
    AllSettledIsFixed(resolved, cs);
  }

  // ----------------------------------------------------- ranking, exactly

  /** No source of the list has a higher priority. */
  ghost predicate Tops(list: seq<Source>, priority: int) {
    forall s :: s in list ==> Priority(s.documentType) <= priority
  }

  /** Resolving ranks a list that was not ranked exactly when it moves the flag to a source of
      maximal priority. */
  lemma RankedResolvedIff(list: seq<Source>, c: Id)
    requires DistinctIds(list) && forall i :: 0 <= i < |list| ==> list[i].concept == c
    ensures Ranked(ResolvedList(list, c))
       <==> Ranked(list) || (Displaced(list) && Tops(list, Priority(Newest(list).documentType)))
  {
    hide Newest, FirstAuthoritative, UpdateAuthoritative, Priority;
    if Displaced(list) {
      var k :| 0 <= k < |list| && list[k] == Newest(list);
      OnlyWinner(list, c, k);
      SameTypesTop(list, UpdateAuthoritative(list, c, list[k].id), Priority(list[k].documentType));
    }
  }

  lemma SameTypesTop(a: seq<Source>, b: seq<Source>, priority: int)
    requires SameButFlags(a, b)
    ensures Tops(a, priority) <==> Tops(b, priority)
  {
    hide Priority;
    if Tops(a, priority) {
      forall s | s in b ensures Priority(s.documentType) <= priority {
        var i :| 0 <= i < |b| && b[i] == s;
        assert a[i] in a;
      }
    }
    if Tops(b, priority) {
      forall s | s in a ensures Priority(s.documentType) <= priority {
        var i :| 0 <= i < |a| && a[i] == s;
        assert b[i] in b;
      }
    }
  }

  /** Whatever the earlier sources were: once a later document adds to them and conflicts are
      resolved, the list is ranked if and only if they were, or none of them outranks the document. */
  lemma ExtendedRanksIff(before: seq<Source>, after: seq<Source>, c: Id, documentType: string, now: int)
    requires Extended(before, after, documentType, now) && |before| < |after|
    requires forall i :: 0 <= i < |after| ==> after[i].concept == c
    ensures Ranked(ResolvedList(after, c)) <==> Ranked(before) || Tops(before, Priority(documentType))
  {
    hide Newest, FirstAuthoritative, UpdateAuthoritative, Priority, ResolvedList;
    AddedFirst(before, after, documentType, now);
    RankedResolvedIff(after, c);
    TopsSplit(before, after, documentType, now);
    if FirstAuthoritative(before).Some? {
      var f := FirstAuthoritative(before).value;
      var i :| IsFirstFlagged(before, i) && before[i] == f;
      assert f in before && after[i].id != after[|before|].id;
    } else {
      assert !Displaced(after);
    }
  }

  lemma TopsSplit(before: seq<Source>, after: seq<Source>, documentType: string, now: int)
    requires Extended(before, after, documentType, now) && |before| < |after|
    ensures forall priority :: Tops(after, priority) <==> Tops(before, priority) && Priority(documentType) <= priority
  {
    hide Priority;
    PrioritiesSplit(before, after, documentType, now);
    assert after[|before|] in after;
    assert forall s :: s in before ==> s in after by {
      forall s | s in before ensures s in after {
        var i :| 0 <= i < |before| && before[i] == s;
        assert after[i] == s;
      }
    }
  }

  /** Which sources are flagged once a document that outranks all earlier ones has added to them:
      its first source alone if one of them was flagged, and all it added otherwise. */
  lemma NewcomerFlags(before: seq<Source>, after: seq<Source>, c: Id, documentType: string, now: int)
    requires Extended(before, after, documentType, now) && |before| < |after|
    requires forall i :: 0 <= i < |after| ==> after[i].concept == c
    requires forall s :: s in before ==> Priority(s.documentType) < Priority(documentType)
    ensures var resolved := ResolvedList(after, c);
            && |resolved| == |after|
            && forall i :: 0 <= i < |after| ==>
                 (resolved[i].authoritative <==>
                  if FirstAuthoritative(before).Some? then i == |before| else i >= |before|)
  {
    hide Newest, FirstAuthoritative, Priority;
    AddedFirst(before, after, documentType, now);
    if FirstAuthoritative(before).Some? {
      var f := FirstAuthoritative(before).value;
      var k :| IsFirstFlagged(before, k) && before[k] == f;
      assert f in before && after[k].id != after[|before|].id;
      assert Displaced(after);
    } else {
      assert !Displaced(after);
      assert forall i :: 0 <= i < |before| ==> after[i] == before[i] && before[i] in before;
    }
  }

  lemma {:induction false} UnresolvedStays(sources: seq<Source>, cs: seq<Id>, c: Id)
    requires c !in cs
    ensures ListByConcept(ResolveAll(sources, cs), c) == ListByConcept(sources, c)
    decreases |cs|
  {
    hide ResolveNewest, ListByConcept;
    if cs != [] {
      OtherConceptsStay(sources, cs[0], c);
      UnresolvedStays(ResolveNewest(sources, cs[0]), cs[1..], c);
    }
  }
}
