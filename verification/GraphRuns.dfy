/** Whole ingests and removals, and runs of them over one graph. */
module GraphRuns {
  import opened Common
  import opened KnowledgeGraph
  import opened Rows
  import opened GraphIntegration
  import opened GraphRemoval
  import opened Conflicts

  import LikePattern

  /** What one hand-off brings: the document, whether it replaces an earlier version of itself,
      and what extraction and discovery found in its chunks. */
  datatype Payload = Payload(document: Document, replacesVersion: bool,
                             concepts: seq<Extracted>, associations: seq<Discovered>)

  ghost function Cleared(g: Graph, p: Payload): Result<Graph> {
    if p.replacesVersion then
      var r :- RemoveDocument(g, p.document.id);
      Success(r.graph)
    else Success(g)
  }

  /** The tail of the pipeline once concepts are in. */
  ghost function Finish(r: IntegratedAll, p: Payload): Graph
    requires forall c :: c in r.concepts ==> c in r.graph.concepts
  {
    var names := BuildConceptMap(r.graph, r.concepts);
    var linked := IntegrateAssociations(r.graph, p.document, names, p.associations);
    linked.(sources := ResolveAll(linked.sources, r.concepts))
  }

  ghost function Ingest(g: Graph, p: Payload): Result<Graph> {
    var cleared :- Cleared(g, p);
    if p.concepts == [] then Success(cleared)
    else
      var r :- IntegrateConcepts(cleared, p.document, p.concepts);
      Success(Finish(r, p))
  }

  datatype Step = Ingesting(payload: Payload) | Removing(document: DocumentId)

  /** A step is one transaction: when it fails nothing of it remains. */
  ghost function Apply(g: Graph, step: Step): Graph {
    match step
    case Ingesting(p) => (match Ingest(g, p) case Success(g') => g' case Failure(_) => g)
    case Removing(doc) => (match RemoveDocument(g, doc) case Success(r) => r.graph case Failure(_) => g)
  }

  ghost function Run(g: Graph, steps: seq<Step>): Graph
    decreases |steps|
  {
    if steps == [] then g else Run(Apply(g, steps[0]), steps[1..])
  }

  // ------------------------------------------------------- what every run keeps

  lemma FlagsKeepSound(g: Graph, sources: seq<Source>)
    requires Sound(g) && SameButFlags(g.sources, sources)
    ensures Sound(g.(sources := sources))
  {
    hide AssociationsSound, ConceptsSound, SourcesSound, FullySourced;
    var g' := g.(sources := sources);
    AssociationsPersist(g, g');
    ConceptsPersist(g, g');
    FlagsKeepSources(g, g');
    FlagsKeepFullySourced(g, g');
  }

  lemma FlagsKeepSources(g: Graph, g': Graph)
    requires SourcesSound(g) && g' == g.(sources := g'.sources) && SameButFlags(g.sources, g'.sources)
    ensures SourcesSound(g')
  {
    forall s | s in g'.sources
      ensures s.id < g'.nextId && IsCanonical(g', s.concept) && g'.concepts[s.concept].game == s.document.game
    {
      var i :| 0 <= i < |g'.sources| && g'.sources[i] == s;
      assert g.sources[i] in g.sources;
      assert IsCanonical(g, g.sources[i].concept);
    }
    forall i, j | 0 <= i < j < |g'.sources| ensures DistinctSources(g'.sources[i], g'.sources[j]) {
      assert DistinctSources(g.sources[i], g.sources[j]);
    }
  }

  lemma FlagsKeepFullySourced(g: Graph, g': Graph)
    requires FullySourced(g) && g' == g.(sources := g'.sources) && SameButFlags(g.sources, g'.sources)
    ensures FullySourced(g')
  {
    forall c | IsCanonical(g', c) ensures Sourced(g', c) {
      assert IsCanonical(g, c);
      var s :| s in g.sources && s.concept == c;
      var i :| 0 <= i < |g.sources| && g.sources[i] == s;
      assert g'.sources[i] in g'.sources;
    }
  }

  lemma ConceptsPersist(g: Graph, g': Graph)
    requires ConceptsSound(g) && g'.concepts == g.concepts && g'.nextId == g.nextId
    ensures ConceptsSound(g')
  {
  }

  lemma {:induction false} ConceptMapIsCanonical(g: Graph, game: GameId, ids: seq<Id>)
    requires forall c :: c in ids ==> c in g.concepts && IsCanonical(g, c) && g.concepts[c].game == game
    ensures MapsToCanonical(g, game, BuildConceptMap(g, ids))
  {
  }

  lemma FinishKeeps(r: IntegratedAll, p: Payload)
    requires Sound(r.graph)
    requires forall c :: c in r.concepts ==> IsCanonical(r.graph, c) && r.graph.concepts[c].game == p.document.id.game
    ensures var g' := Finish(r, p);
            && Sound(g') && g'.concepts == r.graph.concepts && SameButFlags(r.graph.sources, g'.sources)
            && g'.lower == r.graph.lower
            && g'.sources == ResolveAll(r.graph.sources, r.concepts)
  {
    hide Sound;
    ConceptMapIsCanonical(r.graph, p.document.id.game, r.concepts);
    var names := BuildConceptMap(r.graph, r.concepts);
    IntegrateAssociationsSound(r.graph, p.document, names, p.associations);
    var linked := IntegrateAssociations(r.graph, p.document, names, p.associations);
    ResolveAllMovesFlags(linked.sources, r.concepts);
    FlagsKeepSound(linked, ResolveAll(linked.sources, r.concepts));
  }

  lemma ClearedSound(g: Graph, p: Payload)
    requires Sound(g) && Cleared(g, p).Success?
    ensures Sound(Cleared(g, p).value) && Cleared(g, p).value.lower == g.lower
    ensures UniqueUpToCase(g) ==> UniqueUpToCase(Cleared(g, p).value)
  {
    if p.replacesVersion {
      RemovalSound(g, p.document.id);
    }
  }

  lemma IngestSound(g: Graph, p: Payload)
    requires Sound(g) && Ingest(g, p).Success?
    ensures Sound(Ingest(g, p).value) && Ingest(g, p).value.lower == g.lower
    ensures UniqueUpToCase(g) && NamesStayApart(g.lower, p.concepts) ==> UniqueUpToCase(Ingest(g, p).value)
  {
    hide Sound, Cleared, IntegrateConcepts, Finish, NamesStayApart;
    ClearedSound(g, p);
    var cleared := Cleared(g, p).value;
    if p.concepts != [] {
      var r := IntegrateConcepts(cleared, p.document, p.concepts).value;
      IntegrateConceptsSound(cleared, p.document, p.concepts);
      FinishKeeps(r, p);
      if UniqueUpToCase(g) && NamesStayApart(g.lower, p.concepts) {
        IntegrateConceptsUnique(cleared, p.document, p.concepts);
      }
    }
  }

  lemma ApplySound(g: Graph, step: Step)
    requires Sound(g)
    ensures Sound(Apply(g, step)) && Apply(g, step).lower == g.lower
    ensures UniqueUpToCase(g) && NamesApart(g.lower, step) ==> UniqueUpToCase(Apply(g, step))
  {
    hide Sound, UniqueUpToCase, Ingest, RemoveDocument;
    match step
    case Ingesting(p) =>
      if Ingest(g, p).Success? { IngestSound(g, p); }
    case Removing(doc) =>
      if RemoveDocument(g, doc).Success? { RemovalSound(g, doc); }
  }

  ghost predicate NamesApart(lower: Folding, step: Step) {
    step.Ingesting? ==> NamesStayApart(lower, step.payload.concepts)
  }

  /** Every run of ingests and removals keeps every constraint of the graph: aliases point one
      hop to live canonical concepts, sources hang on canonical concepts only and are unique per
      chunk, every canonical concept has one, and no association dangles or repeats a key. */
  lemma {:induction false} RunSound(g: Graph, steps: seq<Step>)
    requires Sound(g)
    ensures Sound(Run(g, steps))
    decreases |steps|
  {
    hide Sound, Apply;
    if steps != [] {
      ApplySound(g, steps[0]);
      RunSound(Apply(g, steps[0]), steps[1..]);
    }
  }

  /** Names stay unique up to case in every run whose extracted names stay apart. */
  lemma {:induction false} RunUniqueUpToCase(g: Graph, steps: seq<Step>)
    requires Sound(g) && UniqueUpToCase(g)
    requires forall i :: 0 <= i < |steps| ==> NamesApart(g.lower, steps[i])
    ensures UniqueUpToCase(Run(g, steps))
    decreases |steps|
  {
    hide Sound, UniqueUpToCase, Apply, NamesApart;
    if steps != [] {
      ApplySound(g, steps[0]);
      RunUniqueUpToCase(Apply(g, steps[0]), steps[1..]);
    }
  }

  lemma EmptyIsSound(lower: Folding)
    ensures Sound(Empty(lower)) && UniqueUpToCase(Empty(lower)) && AllRanked(Empty(lower).sources)
  {
  }

  // ---------------------------------------------------------------- round trip

  /** Ingesting a document not seen before and removing it again leaves the concepts and the sources
      as they were, authority flags aside, if and only if the ingest created no alias row; otherwise
      the removal fails. */
  lemma IngestThenRemove(g: Graph, p: Payload)
    requires Sound(g) && !p.replacesVersion
    requires forall s :: s in g.sources ==> s.document != p.document.id
    requires Ingest(g, p).Success?
    ensures var g' := Ingest(g, p).value;
            var r := RemoveDocument(g', p.document.id);
            && (r.Success? <==> NewConceptsCanonical(g, g'))
            && (r.Success? ==> r.value.graph.concepts == g.concepts
                               && Unflagged(r.value.graph.sources) == Unflagged(g.sources))
  {
    hide Sound, RemoveDocument, Unflagged, IntegrateConcepts, Finish;
    var g' := Ingest(g, p).value;
    IngestSound(g, p);
    if p.concepts == [] {
      NoGrowth(g, p.document.id);
    } else {
      var r := IntegrateConcepts(g, p.document, p.concepts).value;
      IntegrateConceptsSound(g, p.document, p.concepts);
      IntegrateAllAliasesOfNew(g, p.document, p.concepts);
      FinishKeeps(r, p);
      GrowthThroughFlags(g, r.graph, g', p.document);
    }
    RemovalUndoesGrowth(g, g', p.document.id);
  }

  /** A document that brings no aliases creates no alias row. */
  lemma AliasFreeIngest(g: Graph, p: Payload)
    requires Sound(g) && !p.replacesVersion && AliasFree(p.concepts) && Ingest(g, p).Success?
    ensures NewConceptsCanonical(g, Ingest(g, p).value)
  {
    hide Sound, IntegrateConcepts, Finish;
    if p.concepts != [] {
      var r := IntegrateConcepts(g, p.document, p.concepts).value;
      IntegrateConceptsSound(g, p.document, p.concepts);
      AliasFreeCreatesCanonical(g, p.document, p.concepts);
      FinishKeeps(r, p);
    }
  }

  lemma NoGrowth(g: Graph, doc: DocumentId)
    requires forall s :: s in g.sources ==> s.document != doc
    ensures GrewBy(g, g, doc) && NewAliasesOfNew(g, g)
  {
  }

  lemma GrowthThroughFlags(g: Graph, mid: Graph, g': Graph, d: Document)
    requires Grows(g, mid, d)
    requires g'.concepts == mid.concepts && SameButFlags(mid.sources, g'.sources)
    requires forall s :: s in g.sources ==> s.document != d.id
    ensures GrewBy(g, g', d.id)
  {
    forall i | 0 <= i < |g.sources|
      ensures g'.sources[i].(authoritative := g.sources[i].authoritative) == g.sources[i]
    {
      assert mid.sources[i] == g.sources[i];
    }
  }

  // ------------------------------------------------------------- a second time

  lemma {:induction false} MapGoesByConcepts(g: Graph, g': Graph, ids: seq<Id>)
    requires g'.concepts == g.concepts && g'.lower == g.lower && forall c :: c in ids ==> c in g.concepts
    ensures BuildConceptMap(g', ids) == BuildConceptMap(g, ids)
  {
    if ids != [] {
      MapGoesByConcepts(g, g', ids[..|ids| - 1]);
    }
  }

  lemma AbsorbedThroughFlags(g: Graph, g': Graph, d: Document, e: Extracted, c: Id)
    requires Absorbed(g, d, e, c) && SameButFlags(g.sources, g'.sources)
    requires g'.concepts == g.concepts && g'.lower == g.lower
    ensures Absorbed(g', d, e, c)
  {
    var i :| 0 <= i < |g.sources| && g.sources[i].concept == c && g.sources[i].chunk == e.chunk;
    assert g'.sources[i].concept == c && g'.sources[i].chunk == e.chunk;
  }

  /** Finishing a second time on the finished graph changes nothing. */
  lemma FinishIsIdempotent(r: IntegratedAll, p: Payload)
    requires Sound(r.graph)
    requires forall c :: c in r.concepts ==> IsCanonical(r.graph, c) && r.graph.concepts[c].game == p.document.id.game
    ensures var g' := Finish(r, p);
            g'.concepts == r.graph.concepts && Finish(IntegratedAll(g', r.concepts), p) == g'
  {
    var d, ids := p.document, r.concepts;
    var names := BuildConceptMap(r.graph, ids);
    var linked := IntegrateAssociations(r.graph, d, names, p.associations);
    var g' := Finish(r, p);
    FinishKeeps(r, p);
    MapGoesByConcepts(r.graph, g', ids);
    AssociationsStand(r.graph, g', d, names, p.associations);
    forall c | c in ids ensures DistinctIds(ListByConcept(r.graph.sources, c)) {
      ListedAreDistinct(r.graph.sources, c);
    }
    hide Sound, BuildConceptMap, IntegrateAssociations, ResolveAll, DistinctIds;
    ResolveAllIsIdempotent(r.graph.sources, ids);
  }

  lemma AssociationsStand(g: Graph, g': Graph, d: Document, names: map<string, Id>, xs: seq<Discovered>)
    requires var linked := IntegrateAssociations(g, d, names, xs);
             && g'.associations == linked.associations && g'.associationSources == linked.associationSources
             && g'.lower == linked.lower
    ensures IntegrateAssociations(g', d, names, xs) == g'
  {
    hide Held, IntegrateAssociations;
    var linked := IntegrateAssociations(g, d, names, xs);
    IntegrateAssociationsHold(g, d, names, xs);
    forall x | x in xs ensures Held(g', d, names, x) {
      HeldStays(linked, g', d, names, x);
    }
    HeldChangesNothing(g', d, names, xs);
  }

  /** Every name of the document leads, in the graph its concepts were integrated into, to the concept
      it was integrated into. */
  ghost predicate NamesLead(g: Graph, p: Payload)
    requires Sound(g) && !p.replacesVersion && Ingest(g, p).Success? && p.concepts != []
  {
    var r := IntegrateConcepts(g, p.document, p.concepts).value;
    IntegrateConceptsSound(g, p.document, p.concepts);
    forall i :: 0 <= i < |p.concepts| ==> Leads(r.graph, p.document.id.game, p.concepts[i].name, r.concepts[i])
  }

  /** The exact condition: a second first ingest of the same document integrates into the same concepts
      and changes nothing at all, neither concepts nor associations, nor the sources of either, nor a
      flag, if and only if its names lead. */
  lemma IngestRerunIff(g: Graph, p: Payload)
    requires Sound(g) && !p.replacesVersion && Ingest(g, p).Success? && p.concepts != []
    ensures var g', ids := Ingest(g, p).value, IntegrateConcepts(g, p.document, p.concepts).value.concepts;
            (&& IntegrateConcepts(g', p.document, p.concepts) == Success(IntegratedAll(g', ids))
             && Ingest(g', p) == Success(g'))
            <==> NamesLead(g, p)
  {
    hide Sound, IntegrateConcepts, Finish, Leads, HasSource;
    var d, es := p.document, p.concepts;
    var r, g' := IntegrateConcepts(g, d, es).value, Ingest(g, p).value;
    IngestSound(g, p);
    IntegrateConceptsSound(g, d, es);
    FinishKeeps(r, p);
    if NamesLead(g, p) {
      forall i | 0 <= i < |es| ensures Absorbed(g', d, es[i], r.concepts[i]) {
        assert Absorbed(r.graph, d, es[i], r.concepts[i]);
        AbsorbedThroughFlags(r.graph, g', d, es[i], r.concepts[i]);
      }
      AbsorbedChangesNothing(g', d, es, r.concepts);
      FinishIsIdempotent(r, p);
    } else if IntegrateConcepts(g', d, es) == Success(IntegratedAll(g', r.concepts)) {
      UnchangedMeansLeads(g', d, es, r.concepts);
      forall i | 0 <= i < |es| ensures Leads(r.graph, d.id.game, es[i].name, r.concepts[i]) {
        LeadsGoesByConcepts(g', r.graph, d.id.game, es[i].name, r.concepts[i]);
      }
    }
  }

  lemma LeadsGoesByConcepts(g: Graph, g': Graph, game: GameId, name: string, c: Id)
    requires g'.concepts == g.concepts && g'.lower == g.lower && Leads(g, game, name, c)
    ensures Leads(g', game, name, c)
  {
  }

  /** Names that select only themselves lead, so such a document may be ingested twice. */
  lemma IngestIsIdempotent(g: Graph, p: Payload)
    requires Sound(g) && UniqueUpToCase(g) && !p.replacesVersion && Ingest(g, p).Success?
    requires Selective(g, p.document.id.game, p.concepts)
    ensures Ingest(Ingest(g, p).value, p) == Ingest(g, p)
  {
    hide Sound, UniqueUpToCase, Selective, IntegrateConcepts, Finish, Leads, HasSource, Selects, NamesStayApart;
    if p.concepts != [] {
      SelectiveSelects(g, p.document, p.concepts);
      IntegrateConceptsAbsorbs(g, p.document, p.concepts);
      IngestRerunIff(g, p);
    }
  }

  // ------------------------------------------------------------------ authority

  ghost predicate AllBefore(sources: seq<Source>, now: int) {
    forall i :: 0 <= i < |sources| ==> sources[i].createdAt < now
  }

  /** Every source the document added hangs on one of the concepts returned. */
  lemma {:induction false} AddedAreReturned(g: Graph, d: Document, es: seq<Extracted>)
    requires Sound(g) && IntegrateConcepts(g, d, es).Success?
    ensures var r := IntegrateConcepts(g, d, es).value;
            forall i :: |g.sources| <= i < |r.graph.sources| ==> r.graph.sources[i].concept in r.concepts
    decreases |es|
  {
    hide Sound;
    if es != [] {
      var first := IntegrateConcept(g, d, es[0]).value;
      AddedIsReturned(g, d, es[0]);
      IntegrateConceptSound(g, d, es[0]);
      AddedAreReturned(first.graph, d, es[1..]);
      IntegrateConceptsSound(first.graph, d, es[1..]);
      var r := IntegrateConcepts(g, d, es).value;
      forall i | |g.sources| <= i < |r.graph.sources| ensures r.graph.sources[i].concept in r.concepts {
        if i < |first.graph.sources| {
          assert r.graph.sources[i] == first.graph.sources[i];
        }
      }
    }
  }

  lemma AddedIsReturned(g: Graph, d: Document, e: Extracted)
    requires Sound(g) && IntegrateConcept(g, d, e).Success?
    ensures var r := IntegrateConcept(g, d, e).value;
            forall i :: |g.sources| <= i < |r.graph.sources| ==> r.graph.sources[i].concept == r.concept
  {
    hide AssociationsSound, FullySourced, SourcesSound, Pairwise;
    match FindByName(g.lower, g.concepts, d.id.game, e.name).value
    case Some(c) =>
    case None =>
      CreateSourcedSound(g, d, e);
      AddAliasesSound(CreateSourced(g, d, e).value, d, g.nextId, e, e.aliases);
  }

  /** What an ingest does to the list of one concept. */
  lemma ListExtended(g: Graph, mid: Graph, d: Document, c: Id)
    requires Grows(g, mid, d) && AllBefore(g.sources, d.now) && Pairwise(DistinctSources, mid.sources)
    ensures Extended(ListByConcept(g.sources, c), ListByConcept(mid.sources, c), d.documentType, d.now)
  {
    hide Filter, Pairwise;
    var n := |g.sources|;
    var kept, added := mid.sources[..n], mid.sources[n..];
    assert mid.sources == kept + added && kept == g.sources;
    FilterConcat(OnConcept(c), kept, added);
    var before, extra := ListByConcept(g.sources, c), Filter(OnConcept(c), added);
    var after := ListByConcept(mid.sources, c);
    forall i | 0 <= i < |before| ensures before[i].createdAt < d.now {
      ListedIsStored(g.sources, c, before[i]);
    }
    forall i | 0 <= i < |extra|
      ensures extra[i].documentType == d.documentType && extra[i].createdAt == d.now && extra[i].authoritative
    {
      assert extra[i] in extra;
      var k :| 0 <= k < |added| && added[k] == extra[i];
      assert mid.sources[n + k] == extra[i];
    }
    ListedAreDistinct(mid.sources, c);
  }

  lemma ListedIsStored(sources: seq<Source>, c: Id, s: Source)
    requires s in ListByConcept(sources, c)
    ensures exists k :: 0 <= k < |sources| && sources[k] == s
  {
  }

  lemma ListedAreDistinct(sources: seq<Source>, c: Id)
    requires Pairwise(DistinctSources, sources)
    ensures var list := ListByConcept(sources, c);
            forall i, j :: 0 <= i < j < |list| ==> list[i].id != list[j].id
  {
    var list := ListByConcept(sources, c);
    PairwiseFilter(DistinctSources, OnConcept(c), sources);
    forall i, j | 0 <= i < j < |list| ensures list[i].id != list[j].id {
      assert DistinctSources(list[i], list[j]);
    }
  }

  lemma UntouchedList(g: Graph, mid: Graph, d: Document, returned: seq<Id>, c: Id)
    requires Grows(g, mid, d) && c !in returned
    requires forall i :: |g.sources| <= i < |mid.sources| ==> mid.sources[i].concept in returned
    ensures ListByConcept(mid.sources, c) == ListByConcept(g.sources, c)
  {
    var n := |g.sources|;
    var kept, added := mid.sources[..n], mid.sources[n..];
    assert mid.sources == kept + added && kept == g.sources;
    FilterConcat(OnConcept(c), kept, added);
    FilterNone(OnConcept(c), added);
  }

  /** The concepts an ingest resolves. */
  ghost function Returned(g: Graph, p: Payload): seq<Id>
    requires Ingest(g, p).Success?
  {
    if p.concepts == [] then []
    else IntegrateConcepts(Cleared(g, p).value, p.document, p.concepts).value.concepts
  }

  /** The sources of a concept once a version that is replaced is cleared away, and after the
      whole ingest. */
  ghost function Rest(g: Graph, p: Payload, c: Id): seq<Source>
    requires Cleared(g, p).Success?
  {
    ListByConcept(Cleared(g, p).value.sources, c)
  }

  ghost function After(g: Graph, p: Payload, c: Id): seq<Source>
    requires Ingest(g, p).Success?
  {
    ListByConcept(Ingest(g, p).value.sources, c)
  }

  /** What an ingest makes of the sources of one concept: new ones are added, and if the concept is
      among those returned its list is resolved once. */
  lemma IngestedList(g: Graph, p: Payload, c: Id) returns (extended: seq<Source>)
    requires Sound(g) && Ingest(g, p).Success? && AllBefore(Cleared(g, p).value.sources, p.document.now)
    ensures Extended(Rest(g, p, c), extended, p.document.documentType, p.document.now)
    ensures DistinctIds(extended) && forall i :: 0 <= i < |extended| ==> extended[i].concept == c
    ensures |After(g, p, c)| == |extended|
    ensures After(g, p, c) == if c in Returned(g, p) then ResolvedList(extended, c) else Rest(g, p, c)
    ensures |extended| > |Rest(g, p, c)| ==> c in Returned(g, p)
  {
    var cleared, d := Cleared(g, p).value, p.document;
    ClearedSound(g, p);
    DistinctInSound(cleared);
    if p.concepts == [] {
      extended := Rest(g, p, c);
      ListedAreOn(cleared.sources, c);
      ListedAreDistinct(cleared.sources, c);
      ListUnextended(cleared.sources, c, d.documentType, d.now);
    } else {
      hide Sound, ListByConcept, IntegrateConcepts, Finish, Extended, DistinctIds, ResolvedList;
      var r := IntegrateConcepts(cleared, d, p.concepts).value;
      IntegrateConceptsSound(cleared, d, p.concepts);
      AddedAreReturned(cleared, d, p.concepts);
      FinishKeeps(r, p);
      DistinctInSound(r.graph);
      FlagsKeepLength(r.graph.sources, Ingest(g, p).value.sources, c);
      extended := ListByConcept(r.graph.sources, c);
      ListExtended(cleared, r.graph, d, c);
      ListedAreDistinct(r.graph.sources, c);
      ListedAreOn(r.graph.sources, c);
      if c in r.concepts {
        ResolvedOnce(r.graph.sources, r.concepts, c);
      } else {
        UntouchedList(cleared, r.graph, d, r.concepts, c);
        UnresolvedStays(r.graph.sources, r.concepts, c);
      }
    }
  }

  lemma ListUnextended(sources: seq<Source>, c: Id, documentType: string, now: int)
    requires AllBefore(sources, now) && DistinctIds(ListByConcept(sources, c))
    ensures Extended(ListByConcept(sources, c), ListByConcept(sources, c), documentType, now)
  {
    var list := ListByConcept(sources, c);
    forall i | 0 <= i < |list| ensures list[i].createdAt < now {
      ListedIsStored(sources, c, list[i]);
    }
  }

  /** Exactly when an ingest, replacing a version or not, leaves the first authoritative source of a
      concept with maximal priority.  If the concept gains a source: what was left of its sources was
      ranked, or none of them outranks the document.  If it gains none: what was left was ranked, or
      resolving moves the flag to a source of maximal priority. */
  ghost predicate WillRank(g: Graph, p: Payload, c: Id)
    requires Ingest(g, p).Success?
  {
    var rest := Rest(g, p, c);
    || Ranked(rest)
    || if |After(g, p, c)| > |rest| then Tops(rest, Priority(p.document.documentType))
       else c in Returned(g, p) && Displaced(rest) && Tops(rest, Priority(Newest(rest).documentType))
  }

  lemma IngestRanksIff(g: Graph, p: Payload, c: Id)
    requires Sound(g) && Ingest(g, p).Success? && AllBefore(Cleared(g, p).value.sources, p.document.now)
    ensures Ranked(After(g, p, c)) <==> WillRank(g, p, c)
  {
    hide Sound, Ingest, Cleared, Ranked, Tops, ListByConcept, Displaced, ResolvedList, Returned, Newest, Priority;
    IngestClears(g, p);
    var rest, d := Rest(g, p, c), p.document;
    var extended := IngestedList(g, p, c);
    if |extended| > |rest| {
      ExtendedRanksIff(rest, extended, c, d.documentType, d.now);
    } else {
      assert extended == rest;
      RankedResolvedIff(rest, c);
    }
  }

  /** What an ingest that adds no source to a concept does to its list. */
  lemma WithoutGain(g: Graph, p: Payload, c: Id)
    requires Sound(g) && Ingest(g, p).Success? && AllBefore(Cleared(g, p).value.sources, p.document.now)
    requires |After(g, p, c)| <= |Rest(g, p, c)|
    ensures After(g, p, c) == if c in Returned(g, p) then ResolvedList(Rest(g, p, c), c) else Rest(g, p, c)
  {
    hide Sound, Ingest, Cleared, ListByConcept, ResolvedList, Returned;
    IngestClears(g, p);
    var extended := IngestedList(g, p, c);
    assert extended == Rest(g, p, c);
  }

  /** A document that outranks everything left of a concept's sources, and adds to them, ends as the
      only authoritative one: exactly its first source is flagged if a flag was left to displace, and
      exactly all it added otherwise. */
  lemma IngestCrownsNewcomer(g: Graph, p: Payload, c: Id)
    requires Sound(g) && Ingest(g, p).Success? && AllBefore(Cleared(g, p).value.sources, p.document.now)
    requires |After(g, p, c)| > |Rest(g, p, c)|
    requires forall s :: s in Rest(g, p, c) ==> Priority(s.documentType) < Priority(p.document.documentType)
    ensures var rest, after := Rest(g, p, c), After(g, p, c);
            forall i :: 0 <= i < |after| ==>
              (after[i].authoritative <==> if FirstAuthoritative(rest).Some? then i == |rest| else i >= |rest|)
  {
    hide Sound, Ingest, Cleared, ListByConcept, ResolvedList, Returned, FirstAuthoritative, Priority;
    IngestClears(g, p);
    var extended := IngestedList(g, p, c);
    NewcomerFlags(Rest(g, p, c), extended, c, p.document.documentType, p.document.now);
  }

  lemma {:induction false} FlagsKeepLength(a: seq<Source>, b: seq<Source>, c: Id)
    requires SameButFlags(a, b)
    ensures |ListByConcept(a, c)| == |ListByConcept(b, c)|
  {
    if a != [] {
      assert b[0] == a[0].(authoritative := b[0].authoritative);
      FlagsKeepLength(a[1..], b[1..], c);
    }
  }

  lemma DistinctInSound(g: Graph)
    requires Sound(g)
    ensures Pairwise(DistinctSources, g.sources)
  {
  }

  // ------------------------------------------------------------------------- removal

  ghost predicate FirstTops(list: seq<Source>) {
    FirstAuthoritative(list).Some? && Tops(list, Priority(FirstAuthoritative(list).value.documentType))
  }

  /** A removal spoils the ranking of a concept exactly when it takes the first flagged source,
      leaves others, and no flagged one among them has maximal priority and comes first. */
  lemma RemovalKeepsRankingIff(list: seq<Source>, doc: DocumentId)
    requires Ranked(list) && list != []
    ensures var rest := Filter(NotFrom(doc), list);
            Ranked(rest)
            <==> rest == [] || FirstAuthoritative(list).value.document != doc || FirstTops(rest)
  {
    var rest, first := Filter(NotFrom(doc), list), FirstAuthoritative(list).value;
    if first.document != doc {
      FirstStaysFirst(list, doc);
      hide FirstAuthoritative, Priority;
      assert forall s :: s in rest ==> s in list;
    }
  }

  lemma {:induction false} FirstStaysFirst(list: seq<Source>, doc: DocumentId)
    requires FirstAuthoritative(list).Some? && FirstAuthoritative(list).value.document != doc
    ensures FirstAuthoritative(Filter(NotFrom(doc), list)) == FirstAuthoritative(list)
  {
    if !list[0].authoritative {
      FirstStaysFirst(list[1..], doc);
      var rest := Filter(NotFrom(doc), list[1..]);
      assert ([list[0]] + rest)[1..] == rest && [] + rest == rest;
    } else {
      assert NotFrom(doc)(list[0]);
    }
  }

  lemma RemovedList(g: Graph, doc: DocumentId, c: Id)
    requires Sound(g) && RemoveDocument(g, doc).Success?
    ensures ListByConcept(RemoveDocument(g, doc).value.graph.sources, c)
         == Filter(NotFrom(doc), ListByConcept(g.sources, c))
    ensures forall s :: s in RemoveDocument(g, doc).value.graph.sources ==> s in g.sources
  {
    hide Sound, RemoveDocument, SoleSourced, Shared, Blocked;
    RemovalClosedForm(g, doc);
    var both := (s: Source) => OnConcept(c)(s) && NotFrom(doc)(s);
    FilterTwice(OnConcept(c), NotFrom(doc), both, g.sources);
    FilterTwice(NotFrom(doc), OnConcept(c), both, g.sources);
  }

  // ----------------------------------------------------------------------------- runs

  /** Exactly when a step leaves every concept ranked; a step that fails changes nothing. */
  ghost predicate StepRanks(g: Graph, step: Step) {
    match step
    case Ingesting(p) => Ingest(g, p).Success? ==> forall c :: WillRank(g, p, c)
    case Removing(doc) =>
      RemoveDocument(g, doc).Success? ==> forall c :: Ranked(Filter(NotFrom(doc), ListByConcept(g.sources, c)))
  }

  ghost predicate NotAfter(sources: seq<Source>, now: int) { forall s :: s in sources ==> s.createdAt <= now }

  /** Each ingest is later than all before it. */
  predicate InTime(steps: seq<Step>, now: int)
    decreases |steps|
  {
    steps == [] || match steps[0]
                   case Ingesting(p) => now < p.document.now && InTime(steps[1..], p.document.now)
                   case Removing(_) => InTime(steps[1..], now)
  }

  lemma ClearedIsEarlier(g: Graph, p: Payload, now: int)
    requires Sound(g) && NotAfter(g.sources, now) && now < p.document.now && Cleared(g, p).Success?
    ensures AllBefore(Cleared(g, p).value.sources, p.document.now)
  {
    hide Sound, RemoveDocument;
    if p.replacesVersion {
      RemovedList(g, p.document.id, 0);
    }
    var sources := Cleared(g, p).value.sources;
    forall i | 0 <= i < |sources| ensures sources[i].createdAt < p.document.now {
      assert sources[i] in sources;
    }
  }

  lemma TimesGrow(g: Graph, mid: Graph, d: Document, sources: seq<Source>)
    requires Grows(g, mid, d) && AllBefore(g.sources, d.now) && SameButFlags(mid.sources, sources)
    ensures NotAfter(sources, d.now)
  {
    forall s | s in sources ensures s.createdAt <= d.now {
      var i :| 0 <= i < |sources| && sources[i] == s;
      if i < |g.sources| { assert mid.sources[i] == g.sources[i]; }
    }
  }

  lemma TimesStay(g: Graph, p: Payload)
    requires Sound(g) && Ingest(g, p).Success? && AllBefore(Cleared(g, p).value.sources, p.document.now)
    ensures NotAfter(Ingest(g, p).value.sources, p.document.now)
  {
    var cleared, sources := Cleared(g, p).value, Ingest(g, p).value.sources;
    ClearedSound(g, p);
    if p.concepts != [] {
      hide Sound, IntegrateConcepts, Finish, Cleared, Grows, SameButFlags, AllBefore, NotAfter;
      var r := IntegrateConcepts(cleared, p.document, p.concepts).value;
      IntegrateConceptsSound(cleared, p.document, p.concepts);
      FinishKeeps(r, p);
      TimesGrow(cleared, r.graph, p.document, sources);
    }
  }

  lemma StepRanksIff(g: Graph, step: Step, now: int)
    requires Sound(g) && AllRanked(g.sources) && NotAfter(g.sources, now) && InTime([step], now)
    ensures AllRanked(Apply(g, step).sources) <==> StepRanks(g, step)
    ensures NotAfter(Apply(g, step).sources, if step.Ingesting? then step.payload.document.now else now)
  {
    hide Sound, Ranked, Ingest, RemoveDocument, WillRank, ListByConcept, Cleared;
    match step
    case Ingesting(p) =>
      if Ingest(g, p).Success? {
        IngestClears(g, p);
        ClearedIsEarlier(g, p, now);
        TimesStay(g, p);
        forall c ensures Ranked(ListByConcept(Apply(g, step).sources, c)) <==> WillRank(g, p, c) {
          IngestRanksIff(g, p, c);
        }
      }
    case Removing(doc) =>
      if RemoveDocument(g, doc).Success? {
        forall c ensures ListByConcept(Apply(g, step).sources, c) == Filter(NotFrom(doc), ListByConcept(g.sources, c)) {
          RemovedList(g, doc, c);
        }
        RemovedList(g, doc, 0);
      }
  }

  lemma IngestClears(g: Graph, p: Payload)
    requires Ingest(g, p).Success?
    ensures Cleared(g, p).Success?
  {
    hide IntegrateConcepts, RemoveDocument, Finish;
  }

  ghost predicate RankedThroughout(g: Graph, steps: seq<Step>)
    decreases |steps|
  {
    AllRanked(g.sources) && (steps == [] || RankedThroughout(Apply(g, steps[0]), steps[1..]))
  }

  ghost predicate EachStepRanks(g: Graph, steps: seq<Step>)
    decreases |steps|
  {
    steps == [] || (StepRanks(g, steps[0]) && EachStepRanks(Apply(g, steps[0]), steps[1..]))
  }

  /** Over every run of ingests, replacing or not, and removals: the ranking holds throughout if and
      only if each step meets its condition on the tables it finds. */
  lemma {:induction false} RunRanksIff(g: Graph, steps: seq<Step>, now: int)
    requires Sound(g) && AllRanked(g.sources) && NotAfter(g.sources, now) && InTime(steps, now)
    ensures RankedThroughout(g, steps) <==> EachStepRanks(g, steps)
    decreases |steps|
  {
    hide Sound, AllRanked, StepRanks, Apply, NotAfter;
    if steps != [] {
      var next := Apply(g, steps[0]);
      assert InTime([steps[0]], now);
      StepRanksIff(g, steps[0], now);
      ApplySound(g, steps[0]);
      if StepRanks(g, steps[0]) {
        RunRanksIff(next, steps[1..], if steps[0].Ingesting? then steps[0].payload.document.now else now);
      } else {
        NotRankedNotThroughout(next, steps[1..]);
      }
    }
  }

  lemma NotRankedNotThroughout(g: Graph, steps: seq<Step>)
    requires !AllRanked(g.sources)
    ensures !RankedThroughout(g, steps)
  {
  }

  ghost predicate FirstIngests(steps: seq<Step>) {
    forall i :: 0 <= i < |steps| ==> steps[i].Ingesting? && !steps[i].payload.replacesVersion
  }

  /** First ingests meet the condition whatever they bring, so the ranking holds after every run of
      them. */
  lemma {:induction false} RunRanks(g: Graph, steps: seq<Step>, now: int)
    requires Sound(g) && AllRanked(g.sources) && NotAfter(g.sources, now)
    requires InTime(steps, now) && FirstIngests(steps)
    ensures RankedThroughout(g, steps)
    decreases |steps|
  {
    hide Sound, AllRanked, StepRanks, Apply, NotAfter;
    if steps != [] {
      var p := steps[0].payload;
      assert InTime([steps[0]], now) && steps[0] == Ingesting(p);
      FirstIngestRanks(g, p);
      StepRanksIff(g, steps[0], now);
      ApplySound(g, steps[0]);
      RunRanks(Apply(g, steps[0]), steps[1..], p.document.now);
    }
  }

  lemma FirstIngestRanks(g: Graph, p: Payload)
    requires AllRanked(g.sources) && !p.replacesVersion
    ensures StepRanks(g, Ingesting(p))
  {
    hide Ingest, Ranked, Returned, ListByConcept;
    if Ingest(g, p).Success? {
      forall c ensures WillRank(g, p, c) {
        assert Rest(g, p, c) == ListByConcept(g.sources, c);
      }
    }
  }

  // ------------------------------------------------- a run that loses the ranking

  /** One document with one concept in one chunk. */
  function Brings(name: string, number: nat, documentType: string, now: nat, again: bool): Payload {
    Payload(Document(DocumentId(0, number), documentType, None, now), again,
            [Extracted(name, "", "", [], now)], [])
  }

  function Brought(id: Id, number: nat, documentType: string, now: nat): Source {
    Source(id, 0, DocumentId(0, number), now, None, documentType, true, now)
  }

  /** Tables with a single concept. */
  function OneConcept(lower: Folding, name: string, sources: seq<Source>, nextId: Id): Graph {
    Graph(map[0 := Concept(0, name, "", "", None)], sources, [], [], nextId, lower)
  }

  lemma OneIntegrated(g: Graph, d: Document, e: Extracted)
    requires IntegrateConcept(g, d, e).Success?
    ensures var one := IntegrateConcept(g, d, e).value;
            IntegrateConcepts(g, d, [e]) == Success(IntegratedAll(one.graph, [one.concept]))
  {
    hide IntegrateConcept;
    var one := IntegrateConcept(g, d, e).value;
    assert IntegrateConcepts(one.graph, d, [e][1..]) == Success(IntegratedAll(one.graph, []));
    assert [one.concept] + [] == [one.concept] && [e][0] == e;
  }

  /** Taking the second document back leaves the first source as it is. */
  lemma RemoveSecond(g: Graph, name: string, first: Source, second: Source)
    requires Sound(g) && g == OneConcept(g.lower, name, [first, second], g.nextId)
    requires first.concept == second.concept == 0 && first.document != second.document
    ensures var r := RemoveDocument(g, second.document);
            r.Success? && r.value.graph == OneConcept(g.lower, name, [first], g.nextId)
  {
    hide Sound, RemoveDocument;
    RemovalClosedForm(g, second.document);
    assert first in g.sources && second in g.sources;
    assert !OnlyFrom(g, second.document, 0);
    assert SoleSourced(g, second.document) == {};
    var rest := [second];
    assert g.sources == [first] + rest && [first] + [] == [first];
    FilterConcat(NotFrom(second.document), [first], rest);
    FilterAll(NotFrom(second.document), [first]);
    FilterNone(NotFrom(second.document), rest);
    assert g.concepts - {} == g.concepts;
  }

  lemma IngestFirst(lower: Folding, name: string, number: nat, documentType: string, now: nat)
    ensures Ingest(Empty(lower), Brings(name, number, documentType, now, false))
         == Success(OneConcept(lower, name, [Brought(1, number, documentType, now)], 2))
  {
    var g, p := Empty(lower), Brings(name, number, documentType, now, false);
    var d, e, sources := p.document, p.concepts[0], [Brought(1, number, documentType, now)];
    assert Hits(lower, g.concepts, 0, name) == {};
    var g' := OneConcept(lower, name, sources, 2);
    assert g.concepts[0 := Concept(0, name, "", "", None)] == g'.concepts && g.sources + sources == sources;
    assert CreateSourced(g, d, e) == Success(g');
    assert IntegrateConcept(g, d, e) == Success(Integrated(g', 0));
    OneIntegrated(g, d, e);
    assert ListByConcept(sources, 0) == Filter(OnConcept(0), sources[1..]) + sources;
    assert ResolveAll(sources, [0]) == sources;
  }

  /** A document that names the concept again adds one source, and the list is resolved. */
  lemma IngestAgain(g: Graph, name: string, number: nat, documentType: string, now: nat)
    requires LikePattern.IsPlain(name) && g == OneConcept(g.lower, name, g.sources, g.nextId)
    requires forall s :: s in g.sources ==> s.chunk != now
    ensures Ingest(g, Brings(name, number, documentType, now, false))
         == Success(OneConcept(g.lower, name,
                               ResolveNewest(g.sources + [Brought(g.nextId, number, documentType, now)], 0),
                               g.nextId + 1))
  {
    var p := Brings(name, number, documentType, now, false);
    var d, e, added := p.document, p.concepts[0], Brought(g.nextId, number, documentType, now);
    LookupIsEqualityIffPlain(g.lower, name);
    FindSelected(g, 0, name, 0);
    var g' := OneConcept(g.lower, name, g.sources + [added], g.nextId + 1);
    assert IntegrateConcept(g, d, e) == Success(Integrated(g', 0));
    OneIntegrated(g, d, e);
    assert ResolveAll(g'.sources, [0]) == ResolveAll(ResolveNewest(g'.sources, 0), []);
  }

  /** A later version of the second document takes the place of its source. */
  lemma IngestReplacing(g: Graph, name: string, first: Source, second: Source, documentType: string, now: nat)
    requires Sound(g) && LikePattern.IsPlain(name) && g == OneConcept(g.lower, name, [first, second], g.nextId)
    requires first.concept == second.concept == 0 && first.document != second.document
    requires first.chunk != now && second.document.game == 0
    ensures var added := Brought(g.nextId, second.document.number, documentType, now);
            Ingest(g, Brings(name, second.document.number, documentType, now, true))
            == Success(OneConcept(g.lower, name, ResolveNewest([first] + [added], 0), g.nextId + 1))
  {
    hide Sound, RemoveDocument, ResolveNewest;
    var number := second.document.number;
    var p, cleared := Brings(name, number, documentType, now, true), OneConcept(g.lower, name, [first], g.nextId);
    RemoveSecond(g, name, first, second);
    IngestAgain(cleared, name, number, documentType, now);
    assert Cleared(g, p) == Success(cleared);
    assert Ingest(g, p) == Ingest(cleared, Brings(name, number, documentType, now, false));
  }

  lemma PairListed(a: Source, b: Source)
    requires a.concept == b.concept == 0
    ensures ListByConcept([a] + [b], 0) == [a, b]
    ensures FirstAuthoritative([a, b])
         == if a.authoritative then Some(a) else if b.authoritative then Some(b) else None
    ensures Newest([a, b]) == if b.createdAt > a.createdAt then b else a
    ensures [a] + [b] == [a, b]
  {
    assert [a, b][1..] == [b] && [b][1..] == [];
    FilterAll(OnConcept(0), [a, b]);
  }

  lemma RunOfThree(g: Graph, a: Step, b: Step, c: Step)
    ensures Run(g, [a, b, c]) == Apply(Apply(Apply(g, a), b), c)
  {
    hide Apply;
    var rest, last := [a, b, c][1..], [a, b, c][1..][1..];
    assert rest == [b, c] && last == [c] && last[1..] == [];
    assert Run(g, [a, b, c]) == Run(Apply(g, a), rest);
    assert Run(Apply(g, a), rest) == Run(Apply(Apply(g, a), b), last);
  }

  /** The failing input: errata displace a FAQ and are replaced by a version of lower type.  The FAQ
      is not flagged again, so the lower one is authoritative. */
  lemma ReplacementUnranks(lower: Folding, name: string)
    requires LikePattern.IsPlain(name)
    ensures var steps := [Ingesting(Brings(name, 1, "faq", 1, false)), Ingesting(Brings(name, 2, "errata", 2, false)),
                          Ingesting(Brings(name, 2, "core_rules", 3, true))];
            var sources := Run(Empty(lower), steps).sources;
            && sources == [Brought(1, 1, "faq", 1).(authoritative := false), Brought(3, 2, "core_rules", 3)]
            && !AllRanked(sources)
  {
    hide Sound, Ingest, RemoveDocument, Brings, ListByConcept, FirstAuthoritative, Newest;
    var faq, errata, newer := Brought(1, 1, "faq", 1), Brought(2, 2, "errata", 2), Brought(3, 2, "core_rules", 3);
    var unflagged := faq.(authoritative := false);
    var p1, p2, p3 := Brings(name, 1, "faq", 1, false), Brings(name, 2, "errata", 2, false),
                      Brings(name, 2, "core_rules", 3, true);
    var g1, g2 := OneConcept(lower, name, [faq], 2), OneConcept(lower, name, [unflagged, errata], 3);
    EmptyIsSound(lower);
    IngestFirst(lower, name, 1, "faq", 1);
    IngestSound(Empty(lower), p1);
    PairListed(faq, errata);
    assert ResolveNewest([faq] + [errata], 0) == [unflagged, errata];
    IngestAgain(g1, name, 2, "errata", 2);
    IngestSound(g1, p2);
    PairListed(unflagged, newer);
    IngestReplacing(g2, name, unflagged, errata, "core_rules", 3);
    RunOfThree(Empty(lower), Ingesting(p1), Ingesting(p2), Ingesting(p3));
    assert unflagged in [unflagged, newer] && Priority("faq") > Priority("core_rules");
    assert !Ranked(ListByConcept([unflagged, newer], 0));
  }
}
