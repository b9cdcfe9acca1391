/** Removing a document's contributions from the graph. */
module GraphRemoval {
  import opened Common
  import opened KnowledgeGraph
  import opened Rows
  import opened GraphIntegration

  // ----------------------------------------------------------------- deletes

  function NotOn(c: Id): Source -> bool { (s: Source) => s.concept != c }

  function NotTouching(c: Id): Association -> bool { (a: Association) => a.source != c && a.target != c }

  function NotIn(gone: set<Id>): Association -> bool {
    (a: Association) => a.source !in gone && a.target !in gone
  }

  function SupportedBy(rows: seq<Association>): AssociationSource -> bool {
    (s: AssociationSource) => exists i :: 0 <= i < |rows| && rows[i].id == s.association
  }

  predicate HasAlias(g: Graph, c: Id) {
    exists k :: k in g.concepts && g.concepts[k].canonical == Some(c)
  }

  /** Deleting a concept cascades to its sources and associations, and on to their sources; the
      reference of an alias is not cascaded, so an alias blocks the delete. */
  ghost function DeleteConcept(g: Graph, c: Id): Result<Graph> {
    if c !in g.concepts then Success(g)
    else if HasAlias(g, c) then Failure(StillReferenced)
    else
      var associations := Filter(NotTouching(c), g.associations);
      Success(g.(concepts := g.concepts - {c}, sources := Filter(NotOn(c), g.sources),
                 associations := associations,
                 associationSources := Filter(SupportedBy(associations), g.associationSources)))
  }

  lemma DeleteKeepsDistinct(g: Graph, c: Id)
    requires Pairwise(DistinctSources, g.sources) && DeleteConcept(g, c).Success?
    ensures Pairwise(DistinctSources, DeleteConcept(g, c).value.sources)
  {
    PairwiseFilter(DistinctSources, NotOn(c), g.sources);
  }

  // ---------------------------------------------------------------- removal

  /** The concepts that a document's sources name, in the order of their first source. */
  function Contributed(sources: seq<Source>, doc: DocumentId): (cs: seq<Id>)
    ensures forall c :: c in cs <==> exists s :: s in sources && s.document == doc && s.concept == c
    ensures forall i, j :: 0 <= i < j < |cs| ==> cs[i] != cs[j]
  {
    if sources == [] then []
    else
      var last := Last(sources);
      var front := Contributed(sources[..|sources| - 1], doc);
      assert sources == sources[..|sources| - 1] + [last];
      if last.document == doc && last.concept !in front then front + [last.concept] else front
  }

  /** No other document is a source of the concept. */
  predicate OnlyFrom(g: Graph, doc: DocumentId, c: Id) {
    forall s :: s in g.sources && s.concept == c ==> s.document == doc
  }

  function NotTheirs(doc: DocumentId, c: Id): Source -> bool {
    (s: Source) => !(s.document == doc && s.concept == c)
  }

  datatype Removal = Removal(graph: Graph, removed: nat, updated: nat)

  ghost function RemoveOne(r: Removal, doc: DocumentId, c: Id): Result<Removal> {
    if OnlyFrom(r.graph, doc, c) then
      var g1 :- DeleteConcept(r.graph, c);
      Success(Removal(g1, r.removed + 1, r.updated))
    else
      Success(Removal(r.graph.(sources := Filter(NotTheirs(doc, c), r.graph.sources)), r.removed, r.updated + 1))
  }

  ghost function RemoveEach(r: Removal, doc: DocumentId, cs: seq<Id>): Result<Removal>
    decreases |cs|
  {
    if cs == [] then Success(r)
    else
      var next :- RemoveOne(r, doc, cs[0]);
      RemoveEach(next, doc, cs[1..])
  }

  ghost function RemoveDocument(g: Graph, doc: DocumentId): Result<Removal> {
    RemoveEach(Removal(g, 0, 0), doc, Contributed(g.sources, doc))
  }

  // ------------------------------------------------------------- closed form

  /** Concepts with sources from this document only, and those with others too: what the
      contribution report lists. */
  ghost function SoleSourced(g: Graph, doc: DocumentId): set<Id> {
    set c | c in Contributed(g.sources, doc) && OnlyFrom(g, doc, c)
  }

  ghost function Shared(g: Graph, doc: DocumentId): set<Id> {
    set c | c in Contributed(g.sources, doc) && !OnlyFrom(g, doc, c)
  }

  function NotFrom(doc: DocumentId): Source -> bool { (s: Source) => s.document != doc }

  function NotAmong(doc: DocumentId, done: set<Id>): Source -> bool {
    (s: Source) => !(s.document == doc && s.concept in done)
  }

  /** The graph without the document's contributions to the concepts `done`; those in `gone`
      go altogether. */
  function Without(g: Graph, doc: DocumentId, done: set<Id>, gone: set<Id>): Graph {
    var associations := Filter(NotIn(gone), g.associations);
    g.(concepts := g.concepts - gone, sources := Filter(NotAmong(doc, done), g.sources),
       associations := associations,
       associationSources := Filter(SupportedBy(associations), g.associationSources))
  }

  /** Nothing the loop did so far touches the sources of a concept still to come. */
  lemma OnlyFromLater(g: Graph, doc: DocumentId, done: set<Id>, gone: set<Id>, c: Id)
    requires c !in done
    ensures OnlyFrom(Without(g, doc, done, gone), doc, c) == OnlyFrom(g, doc, c)
  {
    forall s | s in g.sources && s.concept == c ensures s in Filter(NotAmong(doc, done), g.sources) {}
  }

  lemma WithoutOneMoreSource(g: Graph, doc: DocumentId, done: set<Id>, gone: set<Id>, c: Id)
    ensures Filter(NotTheirs(doc, c), Without(g, doc, done, gone).sources)
         == Without(g, doc, done + {c}, gone).sources
  {
    FilterTwice(NotAmong(doc, done), NotTheirs(doc, c), NotAmong(doc, done + {c}), g.sources);
  }

  lemma SupportedTwice(g: Graph, gone: set<Id>, c: Id)
    ensures var before, after := Filter(NotIn(gone), g.associations), Filter(NotIn(gone + {c}), g.associations);
            && Filter(NotTouching(c), before) == after
            && Filter(SupportedBy(after), Filter(SupportedBy(before), g.associationSources))
               == Filter(SupportedBy(after), g.associationSources)
  {
    var before, after := Filter(NotIn(gone), g.associations), Filter(NotIn(gone + {c}), g.associations);
    FilterTwice(NotIn(gone), NotTouching(c), NotIn(gone + {c}), g.associations);
    hide Filter, SupportedBy;
    SupportedByFewer(before, after, g.associationSources);
  }

  lemma SupportedByFewer(before: seq<Association>, after: seq<Association>, rows: seq<AssociationSource>)
    requires forall a :: a in after ==> a in before
    ensures Filter(SupportedBy(after), Filter(SupportedBy(before), rows)) == Filter(SupportedBy(after), rows)
  {
    hide Filter;
    forall s | s in rows && SupportedBy(after)(s) ensures SupportedBy(before)(s) {
      var i :| 0 <= i < |after| && after[i].id == s.association;
      assert after[i] in before;
      var j :| 0 <= j < |before| && before[j] == after[i];
    }
    FilterTwice(SupportedBy(before), SupportedBy(after), SupportedBy(after), rows);
  }

  /** Aliases outlive the loop, since only canonical concepts have sources. */
  lemma AliasesOutlive(g: Graph, doc: DocumentId, done: set<Id>, gone: set<Id>, c: Id)
    requires forall k :: k in gone ==> IsCanonical(g, k)
    ensures HasAlias(Without(g, doc, done, gone), c) == HasAlias(g, c)
  {
    if k :| k in g.concepts && g.concepts[k].canonical == Some(c) {
      assert !IsCanonical(g, k);
      assert k in Without(g, doc, done, gone).concepts;
    }
  }

  lemma DeleteFromWithout(g: Graph, doc: DocumentId, done: set<Id>, gone: set<Id>, c: Id)
    requires forall k :: k in gone ==> IsCanonical(g, k)
    requires IsCanonical(g, c) && c !in done && gone <= done && OnlyFrom(g, doc, c)
    ensures DeleteConcept(Without(g, doc, done, gone), c)
         == if HasAlias(g, c) then Failure(StillReferenced) else Success(Without(g, doc, done + {c}, gone + {c}))
  {
    hide HasAlias;
    var before := Without(g, doc, done, gone);
    AliasesOutlive(g, doc, done, gone, c);
    FilterTwice(NotAmong(doc, done), NotOn(c), NotAmong(doc, done + {c}), g.sources);
    SupportedTwice(g, gone, c);
    assert before.concepts - {c} == g.concepts - (gone + {c});
  }

  /** The loop's progress in closed form: the concepts deleted and those only stripped. */
  ghost function Progress(g: Graph, doc: DocumentId, gone: set<Id>, kept: set<Id>): Removal {
    Removal(Without(g, doc, gone + kept, gone), |gone|, |kept|)
  }

  lemma RemoveOneStep(g: Graph, doc: DocumentId, gone: set<Id>, kept: set<Id>, c: Id)
    requires forall k :: k in gone ==> IsCanonical(g, k)
    requires IsCanonical(g, c) && c !in gone && c !in kept
    ensures RemoveOne(Progress(g, doc, gone, kept), doc, c)
         == if !OnlyFrom(g, doc, c) then Success(Progress(g, doc, gone, kept + {c}))
            else if HasAlias(g, c) then Failure(StillReferenced)
            else Success(Progress(g, doc, gone + {c}, kept))
  {
    hide OnlyFrom, HasAlias, DeleteConcept;
    var done := gone + kept;
    OnlyFromLater(g, doc, done, gone, c);
    assert gone + (kept + {c}) == done + {c} && (gone + {c}) + kept == done + {c};
    if OnlyFrom(g, doc, c) {
      DeleteFromWithout(g, doc, done, gone, c);
    } else {
      WithoutOneMoreSource(g, doc, done, gone, c);
    }
  }

  ghost function Sole(g: Graph, doc: DocumentId, cs: seq<Id>): set<Id> {
    set c | c in cs && OnlyFrom(g, doc, c)
  }

  ghost function NotSole(g: Graph, doc: DocumentId, cs: seq<Id>): set<Id> {
    set c | c in cs && !OnlyFrom(g, doc, c)
  }

  ghost predicate Blocked(g: Graph, concepts: set<Id>) {
    exists c :: c in concepts && HasAlias(g, c)
  }

  lemma {:induction false} RemoveEachClosed(g: Graph, doc: DocumentId, cs: seq<Id>, gone: set<Id>, kept: set<Id>)
    requires forall k :: k in gone ==> IsCanonical(g, k)
    requires forall i, j :: 0 <= i < j < |cs| ==> cs[i] != cs[j]
    requires forall c :: c in cs ==> IsCanonical(g, c) && c !in gone && c !in kept
    ensures RemoveEach(Progress(g, doc, gone, kept), doc, cs)
         == if Blocked(g, Sole(g, doc, cs)) then Failure(StillReferenced)
            else Success(Progress(g, doc, gone + Sole(g, doc, cs), kept + NotSole(g, doc, cs)))
    decreases |cs|
  {
    hide OnlyFrom, HasAlias, RemoveOne, Progress;
    var all, others := Sole(g, doc, cs), NotSole(g, doc, cs);
    if cs == [] {
      assert gone + all == gone && kept + others == kept;
    } else {
      var c, rest := cs[0], cs[1..];
      RemoveOneStep(g, doc, gone, kept, c);
      assert cs == [c] + rest;
      if OnlyFrom(g, doc, c) {
        assert all == {c} + Sole(g, doc, rest) && others == NotSole(g, doc, rest);
        assert gone + all == (gone + {c}) + Sole(g, doc, rest);
        if !HasAlias(g, c) {
          RemoveEachClosed(g, doc, rest, gone + {c}, kept);
        } else {
          assert c in all;
        }
      } else {
        assert others == {c} + NotSole(g, doc, rest) && all == Sole(g, doc, rest);
        assert kept + others == (kept + {c}) + NotSole(g, doc, rest);
        RemoveEachClosed(g, doc, rest, gone, kept + {c});
      }
    }
  }

  /** Every concept with a source from the document, sources and all. */
  ghost function Removed(g: Graph, doc: DocumentId): Graph {
    var gone := SoleSourced(g, doc);
    var associations := Filter(NotIn(gone), g.associations);
    g.(concepts := g.concepts - gone, sources := Filter(NotFrom(doc), g.sources),
       associations := associations,
       associationSources := Filter(SupportedBy(associations), g.associationSources))
  }

  /** Removal fails exactly when a concept sourced from this document alone has an alias.
      Otherwise the sources of the document go, the concepts it alone sourced go with whatever
      hangs on them, everything else stays, and the two counters equal the sizes of the sole and
      shared sets as they were before. */
  lemma RemovalClosedForm(g: Graph, doc: DocumentId)
    requires Sound(g)
    ensures RemoveDocument(g, doc)
         == if Blocked(g, SoleSourced(g, doc)) then Failure(StillReferenced)
            else Success(Removal(Removed(g, doc), |SoleSourced(g, doc)|, |Shared(g, doc)|))
  {
    hide RemoveEach, OnlyFrom, Blocked, Progress, Contributed, SourcesSound, AssociationsSound,
         FullySourced, ConceptsSound;
    ContributedAreCanonical(g, doc);
    RemovalStarts(g, doc);
    RemoveEachClosed(g, doc, Contributed(g.sources, doc), {}, {});
    RemovalEnds(g, doc);
  }

  lemma ContributedAreCanonical(g: Graph, doc: DocumentId)
    requires SourcesSound(g)
    ensures forall c :: c in Contributed(g.sources, doc) ==> IsCanonical(g, c)
  {
    forall c | c in Contributed(g.sources, doc) ensures IsCanonical(g, c) {
      var s :| s in g.sources && s.document == doc && s.concept == c;
    }
  }

  lemma RemovalStarts(g: Graph, doc: DocumentId)
    requires AssociationsSound(g)
    ensures Progress(g, doc, {}, {}) == Removal(g, 0, 0)
  {
    NothingDone(g, doc);
    var none: set<Id> := {};
    assert none + none == none;
  }

  lemma RemovalEnds(g: Graph, doc: DocumentId)
    ensures Progress(g, doc, {} + SoleSourced(g, doc), {} + Shared(g, doc))
         == Removal(Removed(g, doc), |SoleSourced(g, doc)|, |Shared(g, doc)|)
  {
    hide Without, Removed;
    var sole, shared := SoleSourced(g, doc), Shared(g, doc);
    assert {} + sole == sole && {} + shared == shared;
    AllDone(g, doc);
  }

  lemma AllDone(g: Graph, doc: DocumentId)
    ensures Without(g, doc, SoleSourced(g, doc) + Shared(g, doc), SoleSourced(g, doc)) == Removed(g, doc)
  {
    var all := SoleSourced(g, doc) + Shared(g, doc);
    forall s | s in g.sources ensures NotAmong(doc, all)(s) == NotFrom(doc)(s) {
      if s.document == doc {
        assert s.concept in Contributed(g.sources, doc);
      }
    }
    FilterAgree(NotAmong(doc, all), NotFrom(doc), g.sources);
  }

  lemma NothingDone(g: Graph, doc: DocumentId)
    requires AssociationsSound(g)
    ensures Without(g, doc, {}, {}) == g
  {
    hide Pairwise;
    FilterAll(NotAmong(doc, {}), g.sources);
    FilterAll(NotIn({}), g.associations);
    forall s | s in g.associationSources ensures SupportedBy(g.associations)(s) {
      var a :| a in g.associations && a.id == s.association;
      var i :| 0 <= i < |g.associations| && g.associations[i] == a;
    }
    FilterAll(SupportedBy(g.associations), g.associationSources);
    assert g.concepts - {} == g.concepts;
  }

  // --------------------------------------------------------- what removal keeps

  lemma RemovedConceptsSound(g: Graph, doc: DocumentId)
    requires Sound(g) && forall c :: c in SoleSourced(g, doc) ==> !HasAlias(g, c)
    ensures ConceptsSound(Removed(g, doc))
  {
    var g' := Removed(g, doc);
    forall c | c in g'.concepts && g'.concepts[c].canonical.Some?
      ensures IsCanonical(g', g'.concepts[c].canonical.value)
           && g'.concepts[g'.concepts[c].canonical.value].game == g'.concepts[c].game
    {
      var k := g.concepts[c].canonical.value;
      assert HasAlias(g, k);
    }
  }

  lemma RemovedSourcesSound(g: Graph, doc: DocumentId)
    requires Sound(g)
    ensures SourcesSound(Removed(g, doc)) && FullySourced(Removed(g, doc))
  {
    var g' := Removed(g, doc);
    PairwiseFilter(DistinctSources, NotFrom(doc), g.sources);
    forall s | s in g'.sources ensures IsCanonical(g', s.concept) {
      assert IsCanonical(g, s.concept);
      assert !OnlyFrom(g, doc, s.concept);
    }
    forall c | IsCanonical(g', c) ensures Sourced(g', c) {
      assert IsCanonical(g, c);
      var s :| s in g.sources && s.concept == c;
      if s.document == doc {
        assert c in Contributed(g.sources, doc);
        var other :| other in g.sources && other.concept == c && other.document != doc;
        assert other in g'.sources;
      } else {
        assert s in g'.sources;
      }
    }
  }

  lemma RemovedAssociationsSound(g: Graph, doc: DocumentId)
    requires Sound(g)
    ensures AssociationsSound(Removed(g, doc))
  {
    var g' := Removed(g, doc);
    PairwiseFilter(DistinctAssociations, NotIn(SoleSourced(g, doc)), g.associations);
    PairwiseFilter(DistinctAssociationSources, SupportedBy(g'.associations), g.associationSources);
    forall a | a in g'.associations
      ensures IsCanonical(g', a.source) && IsCanonical(g', a.target)
    {
      assert IsCanonical(g, a.source) && IsCanonical(g, a.target);
    }
    forall s | s in g'.associationSources ensures exists a :: a in g'.associations && a.id == s.association {
      var i :| 0 <= i < |g'.associations| && g'.associations[i].id == s.association;
      assert g'.associations[i] in g'.associations;
    }
  }

  /** A removal that succeeds keeps every constraint, and cannot make two names collide. */
  lemma RemovalSound(g: Graph, doc: DocumentId)
    requires Sound(g) && RemoveDocument(g, doc).Success?
    ensures Sound(RemoveDocument(g, doc).value.graph) && RemoveDocument(g, doc).value.graph.lower == g.lower
    ensures UniqueUpToCase(g) ==> UniqueUpToCase(RemoveDocument(g, doc).value.graph)
  {
    hide RemoveDocument, OnlyFrom;
    RemovalClosedForm(g, doc);
    RemovedConceptsSound(g, doc);
    RemovedSourcesSound(g, doc);
    RemovedAssociationsSound(g, doc);
  }

  // -------------------------------------------------------------- round trip

  ghost predicate AliasFree(es: seq<Extracted>) {
    forall e :: e in es ==> e.aliases == []
  }

  ghost predicate NewConceptsCanonical(g: Graph, g': Graph) {
    forall c :: c in g'.concepts && c !in g.concepts ==> g'.concepts[c].canonical.None?
  }

  lemma {:induction false} AliasFreeCreatesCanonical(g: Graph, d: Document, es: seq<Extracted>)
    requires Sound(g) && AliasFree(es) && IntegrateConcepts(g, d, es).Success?
    ensures NewConceptsCanonical(g, IntegrateConcepts(g, d, es).value.graph)
    decreases |es|
  {
    hide Sound;
    if es != [] {
      var first := IntegrateConcept(g, d, es[0]).value;
      IntegrateConceptSound(g, d, es[0]);
      IntegrateConceptsSound(first.graph, d, es[1..]);
      AliasFreeCreatesCanonical(first.graph, d, es[1..]);
    }
  }

  /** Aliases that are new belong to concepts that are new. */
  ghost predicate NewAliasesOfNew(g: Graph, g': Graph) {
    forall k :: k in g'.concepts && k !in g.concepts && g'.concepts[k].canonical.Some? ==>
      g'.concepts[k].canonical.value !in g.concepts
  }

  lemma IntegrateAliasesOfNew(g: Graph, d: Document, e: Extracted)
    requires Sound(g) && IntegrateConcept(g, d, e).Success?
    ensures NewAliasesOfNew(g, IntegrateConcept(g, d, e).value.graph)
  {
    hide AssociationsSound, FullySourced, SourcesSound, Pairwise;
    if FindByName(g.lower, g.concepts, d.id.game, e.name).value.None? {
      CreateSourcedSound(g, d, e);
      AliasesBring(CreateSourced(g, d, e).value, d.id.game, g.nextId, e, e.aliases);
      AddAliasesSound(CreateSourced(g, d, e).value, d, g.nextId, e, e.aliases);
    }
  }

  lemma {:induction false} IntegrateAllAliasesOfNew(g: Graph, d: Document, es: seq<Extracted>)
    requires Sound(g) && IntegrateConcepts(g, d, es).Success?
    ensures NewAliasesOfNew(g, IntegrateConcepts(g, d, es).value.graph)
    decreases |es|
  {
    hide Sound, IntegrateConcept, HasSource, IsCanonical;
    if es != [] {
      var first := IntegrateConcept(g, d, es[0]).value;
      IntegrateConceptSound(g, d, es[0]);
      IntegrateConceptsSound(first.graph, d, es[1..]);
      IntegrateAliasesOfNew(g, d, es[0]);
      IntegrateAllAliasesOfNew(first.graph, d, es[1..]);
    }
  }

  /** `g'` has the concepts and sources of `g` plus those of one document it had not seen. */
  ghost predicate GrewBy(g: Graph, g': Graph, doc: DocumentId) {
    && (forall c :: c in g.concepts ==> c in g'.concepts && g'.concepts[c] == g.concepts[c])
    && |g.sources| <= |g'.sources|
    && (forall i :: 0 <= i < |g.sources| ==>
          g'.sources[i].(authoritative := g.sources[i].authoritative) == g.sources[i])
    && (forall i :: |g.sources| <= i < |g'.sources| ==> g'.sources[i].document == doc)
    && (forall s :: s in g.sources ==> s.document != doc)
  }

  /** Sources with the authority flag left out of account. */
  function Unflagged(sources: seq<Source>): (r: seq<Source>)
    ensures |r| == |sources| && forall i :: 0 <= i < |r| ==> r[i] == sources[i].(authoritative := false)
  {
    if sources == [] then [] else [sources[0].(authoritative := false)] + Unflagged(sources[1..])
  }

  lemma OldSourceOldConcept(g: Graph, g': Graph, doc: DocumentId, i: nat)
    requires Sound(g) && GrewBy(g, g', doc) && i < |g'.sources|
    ensures g'.sources[i].concept in g.concepts || g'.sources[i].document == doc
  {
    if i < |g.sources| {
      assert g.sources[i] in g.sources;
      assert IsCanonical(g, g.sources[i].concept);
    }
  }

  lemma NewIsSole(g: Graph, g': Graph, doc: DocumentId, c: Id)
    requires Sound(g) && Sound(g') && GrewBy(g, g', doc) && IsCanonical(g', c) && c !in g.concepts
    ensures c in SoleSourced(g', doc)
  {
    hide AssociationsSound, Pairwise;
    var s :| s in g'.sources && s.concept == c;
    forall t | t in g'.sources && t.concept == c ensures t.document == doc {
      var i :| 0 <= i < |g'.sources| && g'.sources[i] == t;
      OldSourceOldConcept(g, g', doc, i);
    }
    assert c in Contributed(g'.sources, doc);
  }

  lemma OldIsNotSole(g: Graph, g': Graph, doc: DocumentId, c: Id)
    requires Sound(g) && Sound(g') && GrewBy(g, g', doc) && c in g.concepts
    ensures c !in SoleSourced(g', doc)
  {
    hide AssociationsSound, Pairwise;
    if IsCanonical(g, c) {
      var t :| t in g.sources && t.concept == c;
      var i :| 0 <= i < |g.sources| && g.sources[i] == t;
      assert g'.sources[i] in g'.sources && g'.sources[i].document != doc;
    } else {
      assert !IsCanonical(g', c);
      assert forall s :: s in g'.sources ==> s.concept != c;
    }
  }

  lemma SoleAreTheNew(g: Graph, g': Graph, doc: DocumentId, c: Id)
    requires Sound(g) && Sound(g') && GrewBy(g, g', doc) && NewConceptsCanonical(g, g')
    ensures c in SoleSourced(g', doc) <==> c in g'.concepts && c !in g.concepts
  {
    if c in g.concepts {
      OldIsNotSole(g, g', doc, c);
    } else if c in g'.concepts {
      NewIsSole(g, g', doc, c);
    } else {
      hide GrewBy, AssociationsSound, Pairwise;
      assert forall s :: s in g'.sources ==> s.concept != c;
    }
  }

  lemma NewHaveNoAlias(g: Graph, g': Graph, doc: DocumentId, c: Id)
    requires Sound(g) && Sound(g') && GrewBy(g, g', doc) && NewConceptsCanonical(g, g') && c !in g.concepts
    ensures !HasAlias(g', c)
  {
    forall k | k in g'.concepts ensures g'.concepts[k].canonical != Some(c) {
      if k in g.concepts && g.concepts[k].canonical.Some? {
        assert IsCanonical(g, g.concepts[k].canonical.value);
      }
    }
  }

  lemma OldSourcesRemain(g: Graph, g': Graph, doc: DocumentId)
    requires GrewBy(g, g', doc)
    ensures Unflagged(Filter(NotFrom(doc), g'.sources)) == Unflagged(g.sources)
  {
    var n := |g.sources|;
    var kept, added := g'.sources[..n], g'.sources[n..];
    assert g'.sources == kept + added;
    FilterConcat(NotFrom(doc), kept, added);
    forall s | s in kept ensures NotFrom(doc)(s) {
      var i :| 0 <= i < n && kept[i] == s;
      assert g.sources[i] in g.sources;
    }
    FilterAll(NotFrom(doc), kept);
    FilterNone(NotFrom(doc), added);
  }

  /** A new alias blocks the removal: its concept is new too, so this document alone sources it. */
  lemma NewAliasBlocks(g: Graph, g': Graph, doc: DocumentId)
    requires Sound(g) && Sound(g') && GrewBy(g, g', doc) && NewAliasesOfNew(g, g')
    requires !NewConceptsCanonical(g, g')
    ensures RemoveDocument(g', doc).Failure?
  {
    hide GrewBy, OnlyFrom, RemoveDocument, AssociationsSound, FullySourced, SourcesSound;
    var k :| k in g'.concepts && k !in g.concepts && g'.concepts[k].canonical.Some?;
    var c := g'.concepts[k].canonical.value;
    assert IsCanonical(g', c) && HasAlias(g', c);
    NewIsSole(g, g', doc, c);
    RemovalClosedForm(g', doc);
  }

  /** Taking back what one document added works if and only if it added no alias row; then concepts
      are as before, and so are the sources but for their flags. */
  lemma RemovalUndoesGrowth(g: Graph, g': Graph, doc: DocumentId)
    requires Sound(g) && Sound(g') && GrewBy(g, g', doc) && NewAliasesOfNew(g, g')
    ensures var r := RemoveDocument(g', doc);
            && (r.Success? <==> NewConceptsCanonical(g, g'))
            && (r.Success? ==> r.value.graph.concepts == g.concepts
                               && Unflagged(r.value.graph.sources) == Unflagged(g.sources))
  {
    hide Sound, GrewBy, Unflagged, HasAlias, OnlyFrom, RemoveDocument, NewConceptsCanonical, NewAliasesOfNew;
    if NewConceptsCanonical(g, g') {
      RemovalClosedForm(g', doc);
      var sole := SoleSourced(g', doc);
      forall c ensures c in sole <==> c in g'.concepts && c !in g.concepts {
        SoleAreTheNew(g, g', doc, c);
      }
      forall c | c in sole ensures !HasAlias(g', c) {
        NewHaveNoAlias(g, g', doc, c);
      }
      OldSourcesRemain(g, g', doc);
      OldConceptsRemain(g, g', doc, sole);
    } else {
      NewAliasBlocks(g, g', doc);
    }
  }

  lemma OldConceptsRemain(g: Graph, g': Graph, doc: DocumentId, gone: set<Id>)
    requires GrewBy(g, g', doc) && forall c :: c in gone <==> c in g'.concepts && c !in g.concepts
    ensures g'.concepts - gone == g.concepts
  {
  }
}
