/** Merging a document's extracted concepts and associations into the graph. */
module GraphIntegration {
  import opened Common
  import opened KnowledgeGraph
  import opened Rows
  import LikePattern

  /** The document being ingested; `now` is the time of the transaction. */
  datatype Document = Document(id: DocumentId, documentType: string,
                               expansion: Option<ExpansionId>, now: int)

  datatype Extracted = Extracted(name: string, semanticType: string, description: string,
                                 aliases: seq<string>, chunk: ChunkId)

  datatype Discovered = Discovered(sourceName: string, targetName: string, relationship: string,
                                   description: Option<string>, chunk: ChunkId)

  // ---------------------------------------------------------------- concepts

  function NewSource(g: Graph, c: Id, d: Document, chunk: ChunkId): Source {
    Source(g.nextId, c, d.id, chunk, d.expansion, d.documentType, true, d.now)
  }

  function CreateSource(g: Graph, c: Id, d: Document, chunk: ChunkId): Graph {
    g.(sources := g.sources + [NewSource(g, c, d, chunk)], nextId := g.nextId + 1)
  }

  predicate HasSource(g: Graph, c: Id, chunk: ChunkId) {
    exists i :: 0 <= i < |g.sources| && g.sources[i].concept == c && g.sources[i].chunk == chunk
  }

  function AddSourceIfNew(g: Graph, c: Id, d: Document, chunk: ChunkId): Graph {
    if HasSource(g, c, chunk) then g else CreateSource(g, c, d, chunk)
  }

  /** An insert that the unique name constraint may reject. */
  ghost function CreateConcept(g: Graph, concept: Concept): Result<Graph> {
    if NameTaken(g.concepts, concept.game, concept.name) then Failure(DuplicateName)
    else Success(g.(concepts := g.concepts[g.nextId := concept], nextId := g.nextId + 1))
  }

  /** One hop along `canonical_id`; a missing target would leave the alias itself. */
  function ResolveCanonical(g: Graph, c: Id): Id
    requires c in g.concepts
  {
    match g.concepts[c].canonical
    case None => c
    case Some(k) => if k in g.concepts then k else c
  }

  function AliasOf(game: GameId, c: Id, e: Extracted, name: string): Concept {
    Concept(game, name, e.semanticType, "Alias for " + e.name, Some(c))
  }

  ghost function AddAlias(g: Graph, game: GameId, c: Id, e: Extracted, name: string): Result<Graph> {
    var existing :- FindByName(g.lower, g.concepts, game, name);
    if existing.Some? then Success(g) else CreateConcept(g, AliasOf(game, c, e, name))
  }

  ghost function AddAliases(g: Graph, game: GameId, c: Id, e: Extracted, names: seq<string>): (r: Result<Graph>)
    ensures r.Success? ==> g.concepts.Keys <= r.value.concepts.Keys
    decreases |names|
  {
    if names == [] then Success(g)
    else
      var g1 :- AddAlias(g, game, c, e, names[0]);
      AddAliases(g1, game, c, e, names[1..])
  }

  datatype Integrated = Integrated(graph: Graph, concept: Id)

  ghost function CreateSourced(g: Graph, d: Document, e: Extracted): Result<Graph> {
    var g1 :- CreateConcept(g, Concept(d.id.game, e.name, e.semanticType, e.description, None));
    Success(CreateSource(g1, g.nextId, d, e.chunk))
  }

  ghost function IntegrateConcept(g: Graph, d: Document, e: Extracted): (r: Result<Integrated>)
    ensures r.Success? ==> g.concepts.Keys + {r.value.concept} <= r.value.graph.concepts.Keys
  {
    var existing :- FindByName(g.lower, g.concepts, d.id.game, e.name);
    match existing
    case Some(c) =>
      var canonical := ResolveCanonical(g, c);
      Success(Integrated(AddSourceIfNew(g, canonical, d, e.chunk), canonical))
    case None =>
      var g1 :- CreateSourced(g, d, e);
      var g2 :- AddAliases(g1, d.id.game, g.nextId, e, e.aliases);
      Success(Integrated(g2, g.nextId))
  }

  datatype IntegratedAll = IntegratedAll(graph: Graph, concepts: seq<Id>)

  ghost function IntegrateConcepts(g: Graph, d: Document, es: seq<Extracted>): (r: Result<IntegratedAll>)
    ensures r.Success? ==> g.concepts.Keys <= r.value.graph.concepts.Keys
    ensures r.Success? ==> forall c :: c in r.value.concepts ==> c in r.value.graph.concepts
    decreases |es|
  {
    if es == [] then Success(IntegratedAll(g, []))
    else
      var first :- IntegrateConcept(g, d, es[0]);
      var rest :- IntegrateConcepts(first.graph, d, es[1..]);
      Success(IntegratedAll(rest.graph, [first.concept] + rest.concepts))
  }

  // ------------------------------------------------------------ associations

  /** `{c.name.lower(): c.id}`: each key is the spelling of its concept, a concept of the list. */
  function BuildConceptMap(g: Graph, ids: seq<Id>): (m: map<string, Id>)
    requires forall c :: c in ids ==> c in g.concepts
    ensures forall name :: name in m ==> m[name] in ids && Fold(g.lower, g.concepts[m[name]].name) == name
  {
    if ids == [] then map[]
    else BuildConceptMap(g, ids[..|ids| - 1])[Fold(g.lower, g.concepts[Last(ids)].name) := Last(ids)]
  }

  /** Every spelling of the list is a key, and a later concept replaces an earlier one of the same
      spelling: the last of each spelling is the one found. */
  lemma {:induction false} LastOfSpellingIsFound(g: Graph, ids: seq<Id>, i: nat)
    requires forall c :: c in ids ==> c in g.concepts
    requires i < |ids|
    requires forall j :: i < j < |ids| ==>
               Fold(g.lower, g.concepts[ids[j]].name) != Fold(g.lower, g.concepts[ids[i]].name)
    ensures var m, name := BuildConceptMap(g, ids), Fold(g.lower, g.concepts[ids[i]].name);
            name in m && m[name] == ids[i]
  {
    hide Fold;
    if i < |ids| - 1 {
      LastOfSpellingIsFound(g, ids[..|ids| - 1], i);
    }
  }

  /** The association with a given key; the unique constraint admits one at most. */
  function FindAssociation(rows: seq<Association>, wanted: Association): (r: Option<Id>)
    ensures r.Some? ==> exists a :: a in rows && SameKey(a, wanted) && a.id == r.value
    ensures r.None? ==> forall a :: a in rows ==> !SameKey(a, wanted)
  {
    if rows == [] then None
    else if SameKey(rows[0], wanted) then Some(rows[0].id)
    else FindAssociation(rows[1..], wanted)
  }

  predicate HasAssociationSource(g: Graph, a: Id, chunk: ChunkId) {
    exists i :: 0 <= i < |g.associationSources| && g.associationSources[i].association == a
                && g.associationSources[i].chunk == chunk
  }

  function AddAssociationSource(g: Graph, a: Id, d: Document, chunk: ChunkId): Graph {
    g.(associationSources := g.associationSources + [AssociationSource(g.nextId, a, d.id, chunk, d.expansion)],
       nextId := g.nextId + 1)
  }

  function CreateAssociation(g: Graph, row: Association): Graph {
    g.(associations := g.associations + [row], nextId := g.nextId + 1)
  }

  function Wanted(g: Graph, d: Document, x: Discovered, source: Id, target: Id): Association {
    Association(g.nextId, d.id.game, source, target, x.relationship, x.description)
  }

  /** An association whose ends the map does not know is skipped. */
  function IntegrateAssociation(g: Graph, d: Document, names: map<string, Id>, x: Discovered): Graph {
    var s, t := Fold(g.lower, x.sourceName), Fold(g.lower, x.targetName);
    if s !in names || t !in names then g
    else
      var row := Wanted(g, d, x, names[s], names[t]);
      match FindAssociation(g.associations, row)
      case Some(a) =>
        if HasAssociationSource(g, a, x.chunk) then g else AddAssociationSource(g, a, d, x.chunk)
      case None => AddAssociationSource(CreateAssociation(g, row), g.nextId, d, x.chunk)
  }

  function IntegrateAssociations(g: Graph, d: Document, names: map<string, Id>, xs: seq<Discovered>): Graph
    decreases |xs|
  {
    if xs == [] then g
    else IntegrateAssociations(IntegrateAssociation(g, d, names, xs[0]), d, names, xs[1..])
  }

  // ---------------------------------------------------------- what ingest keeps

  /** Concepts persist unchanged and sources only accumulate, all of them from `d`. */
  ghost predicate Grows(g: Graph, g': Graph, d: Document) {
    && (forall c :: c in g.concepts ==> c in g'.concepts && g'.concepts[c] == g.concepts[c])
    && (forall c :: c in g'.concepts && c !in g.concepts ==> g.nextId <= c && g'.concepts[c].game == d.id.game)
    && g.nextId <= g'.nextId && g'.lower == g.lower
    && g.sources <= g'.sources
    && (forall i :: |g.sources| <= i < |g'.sources| ==>
          && g'.sources[i].document == d.id && g'.sources[i].documentType == d.documentType
          && g'.sources[i].expansion == d.expansion
          && g'.sources[i].createdAt == d.now && g'.sources[i].authoritative && g.nextId <= g'.sources[i].id)
    && g'.associations == g.associations && g'.associationSources == g.associationSources
  }

  lemma GrowsTransitive(g: Graph, g1: Graph, g2: Graph, d: Document)
    requires Grows(g, g1, d) && Grows(g1, g2, d)
    ensures Grows(g, g2, d)
  {
    forall i | |g.sources| <= i < |g2.sources|
      ensures && g2.sources[i].document == d.id && g2.sources[i].documentType == d.documentType
              && g2.sources[i].expansion == d.expansion
              && g2.sources[i].createdAt == d.now && g2.sources[i].authoritative && g.nextId <= g2.sources[i].id
    {
      if i < |g1.sources| { assert g2.sources[i] == g1.sources[i]; }
    }
  }

  lemma AddSourceSound(g: Graph, c: Id, d: Document, chunk: ChunkId)
    requires Sound(g) && IsCanonical(g, c) && g.concepts[c].game == d.id.game
    ensures var g' := AddSourceIfNew(g, c, d, chunk);
            Sound(g') && Grows(g, g', d) && g'.concepts == g.concepts && HasSource(g', c, chunk)
  {
    var g' := AddSourceIfNew(g, c, d, chunk);
    if !HasSource(g, c, chunk) {
      PairwiseAppend(DistinctSources, g.sources, NewSource(g, c, d, chunk));
      assert g'.sources[|g.sources|] == NewSource(g, c, d, chunk);
      SourcesGrow(g, g');
    }
  }

  /** More sources on the same concepts keep every concept sourced. */
  lemma SourcesGrow(g: Graph, g': Graph)
    requires FullySourced(g) && g'.concepts == g.concepts && g.sources <= g'.sources
    ensures FullySourced(g')
  {
    forall c | IsCanonical(g', c) ensures Sourced(g', c) {
      assert IsCanonical(g, c);
      var s :| s in g.sources && s.concept == c;
      assert s in g'.sources;
    }
  }

  ghost predicate Persists(g: Graph, g': Graph) {
    && g.nextId <= g'.nextId && g'.lower == g.lower
    && forall c :: c in g.concepts ==> c in g'.concepts && g'.concepts[c] == g.concepts[c]
  }

  /** A new row keeps the concept constraints. */
  lemma ConceptAdded(g: Graph, concept: Concept)
    requires ConceptsSound(g) && !NameTaken(g.concepts, concept.game, concept.name)
    requires concept.canonical.Some?
             ==> IsCanonical(g, concept.canonical.value) && g.concepts[concept.canonical.value].game == concept.game
    ensures var g' := CreateConcept(g, concept).value;
            ConceptsSound(g') && Persists(g, g')
  {
  }

  lemma AssociationsPersist(g: Graph, g': Graph)
    requires AssociationsSound(g) && Persists(g, g')
    requires g'.associations == g.associations && g'.associationSources == g.associationSources
    ensures AssociationsSound(g')
  {
    forall a | a in g.associations
      ensures && IsCanonical(g', a.source) && IsCanonical(g', a.target) && a.id < g'.nextId
              && g'.concepts[a.source].game == a.game && g'.concepts[a.target].game == a.game
    {
      assert IsCanonical(g, a.source) && IsCanonical(g, a.target);
    }
  }

  lemma SourcesPersist(g: Graph, g': Graph)
    requires SourcesSound(g) && Persists(g, g') && g'.sources == g.sources
    ensures SourcesSound(g')
  {
    forall s | s in g'.sources
      ensures s.id < g'.nextId && IsCanonical(g', s.concept) && g'.concepts[s.concept].game == s.document.game
    {
      assert IsCanonical(g, s.concept);
    }
  }

  lemma SourceAppended(g: Graph, c: Id, d: Document, chunk: ChunkId)
    requires SourcesSound(g) && IsCanonical(g, c) && g.concepts[c].game == d.id.game
    requires forall s :: s in g.sources ==> !(s.concept == c && s.chunk == chunk)
    ensures SourcesSound(CreateSource(g, c, d, chunk))
  {
    PairwiseAppend(DistinctSources, g.sources, NewSource(g, c, d, chunk));
  }

  lemma CreateSourcedSound(g: Graph, d: Document, e: Extracted)
    requires Sound(g) && CreateSourced(g, d, e).Success?
    ensures var g' := CreateSourced(g, d, e).value;
            && Sound(g') && Grows(g, g', d) && IsCanonical(g', g.nextId)
            && g'.concepts == g.concepts[g.nextId := Concept(d.id.game, e.name, e.semanticType, e.description, None)]
            && HasSource(g', g.nextId, e.chunk)
  {
    hide AssociationsSound, FullySourced, Pairwise;
    var concept := Concept(d.id.game, e.name, e.semanticType, e.description, None);
    var g1 := CreateConcept(g, concept).value;
    ConceptAdded(g, concept);
    SourcesPersist(g, g1);
    SourceAppended(g1, g.nextId, d, e.chunk);
    var g' := CreateSource(g1, g.nextId, d, e.chunk);
    AssociationsPersist(g, g');
    FirstSourceCounts(g, g', NewSource(g1, g.nextId, d, e.chunk));
    assert g'.sources[|g.sources|] == NewSource(g1, g.nextId, d, e.chunk);
  }

  lemma FirstSourceCounts(g: Graph, g': Graph, row: Source)
    requires FullySourced(g) && g'.sources == g.sources + [row]
    requires forall c :: IsCanonical(g', c) ==> c == row.concept || IsCanonical(g, c)
    ensures FullySourced(g')
  {
    assert row in g'.sources;
    forall c | IsCanonical(g', c) ensures Sourced(g', c) {
      if c != row.concept {
        var s :| s in g.sources && s.concept == c;
        assert s in g'.sources;
      }
    }
  }

  lemma CreateAliasSound(g: Graph, d: Document, c: Id, e: Extracted, name: string)
    requires Sound(g) && IsCanonical(g, c) && g.concepts[c].game == d.id.game
    requires !NameTaken(g.concepts, d.id.game, name)
    ensures var g' := CreateConcept(g, AliasOf(d.id.game, c, e, name)).value;
            Sound(g') && Grows(g, g', d) && IsCanonical(g', c)
  {
    hide AssociationsSound, Pairwise;
    var g' := CreateConcept(g, AliasOf(d.id.game, c, e, name)).value;
    ConceptAdded(g, AliasOf(d.id.game, c, e, name));
    SourcesPersist(g, g');
    AssociationsPersist(g, g');
    forall k | IsCanonical(g', k) ensures Sourced(g', k) {
      assert IsCanonical(g, k);
    }
  }

  lemma {:induction false} AddAliasesSound(g: Graph, d: Document, c: Id, e: Extracted, names: seq<string>)
    requires Sound(g) && IsCanonical(g, c) && g.concepts[c].game == d.id.game
    requires AddAliases(g, d.id.game, c, e, names).Success?
    ensures var g' := AddAliases(g, d.id.game, c, e, names).value;
            && Sound(g') && Grows(g, g', d) && IsCanonical(g', c) && g'.sources == g.sources
    decreases |names|
  {
    if names != [] {
      var g1 := AddAlias(g, d.id.game, c, e, names[0]).value;
      if g1 != g {
        CreateAliasSound(g, d, c, e, names[0]);
      }
      AddAliasesSound(g1, d, c, e, names[1..]);
      GrowsTransitive(g, g1, AddAliases(g, d.id.game, c, e, names).value, d);
    }
  }

  /** Integrating one concept keeps every constraint, and its chunk is now a source of the
      canonical concept returned.  The broken-chain branch is not taken. */
  lemma IntegrateConceptSound(g: Graph, d: Document, e: Extracted)
    requires Sound(g) && IntegrateConcept(g, d, e).Success?
    ensures var r := IntegrateConcept(g, d, e).value;
            && Sound(r.graph) && Grows(g, r.graph, d)
            && IsCanonical(r.graph, r.concept) && r.graph.concepts[r.concept].game == d.id.game
            && HasSource(r.graph, r.concept, e.chunk)
  {
    hide HasSource;
    var existing := FindByName(g.lower, g.concepts, d.id.game, e.name).value;
    match existing
    case Some(c) =>
      assert c in Hits(g.lower, g.concepts, d.id.game, e.name);
      AddSourceSound(g, ResolveCanonical(g, c), d, e.chunk);
    case None =>
      CreateSourcedSound(g, d, e);
      var g1 := CreateSourced(g, d, e).value;
      AddAliasesSound(g1, d, g.nextId, e, e.aliases);
      var g2 := AddAliases(g1, d.id.game, g.nextId, e, e.aliases).value;
      GrowsTransitive(g, g1, g2, d);
      HasSourceStays(g1, g2, g.nextId, e.chunk);
  }

  lemma HasSourceStays(g: Graph, g': Graph, c: Id, chunk: ChunkId)
    requires HasSource(g, c, chunk) && g.sources <= g'.sources
    ensures HasSource(g', c, chunk)
  {
    var i :| 0 <= i < |g.sources| && g.sources[i].concept == c && g.sources[i].chunk == chunk;
    assert g'.sources[i] == g.sources[i];
  }

  lemma {:induction false} IntegrateConceptsSound(g: Graph, d: Document, es: seq<Extracted>)
    requires Sound(g) && IntegrateConcepts(g, d, es).Success?
    ensures var r := IntegrateConcepts(g, d, es).value;
            && Sound(r.graph) && Grows(g, r.graph, d) && |r.concepts| == |es|
            && forall i :: 0 <= i < |es| ==>
                 && IsCanonical(r.graph, r.concepts[i]) && r.graph.concepts[r.concepts[i]].game == d.id.game
                 && HasSource(r.graph, r.concepts[i], es[i].chunk)
    decreases |es|
  {
    hide HasSource, Sound, IntegrateConcept;
    if es != [] {
      var first := IntegrateConcept(g, d, es[0]).value;
      IntegrateConceptSound(g, d, es[0]);
      IntegrateConceptsSound(first.graph, d, es[1..]);
      var r := IntegrateConcepts(g, d, es).value;
      GrowsTransitive(g, first.graph, r.graph, d);
      HasSourceStays(first.graph, r.graph, first.concept, es[0].chunk);
    }
  }

  /** A name that, used as a pattern, matches itself. */
  predicate SelfMatching(lower: Folding, name: string) { LikePattern.IlikeMatches(lower, name, name) }

  /** No other spelling folds to the same. */
  ghost predicate OneSpelling(lower: Folding, name: string) {
    forall s :: Fold(lower, s) == Fold(lower, name) ==> s == name
  }

  /** A name that cannot be stored beside another casing of itself: a lookup finds the other one or
      fails on it, or there is no other one and the unique key decides. */
  ghost predicate StaysApart(lower: Folding, name: string) {
    SelfMatching(lower, name) || IlikeTrips(lower, name, name) || OneSpelling(lower, name)
  }

  ghost predicate NamesStayApart(lower: Folding, es: seq<Extracted>) {
    forall e :: e in es ==> StaysApart(lower, e.name) && forall a :: a in e.aliases ==> StaysApart(lower, a)
  }

  /** Wildcards do no harm here; only a backslash can. */
  lemma BackslashFreeIsSelfMatching(lower: Folding, name: string)
    requires '\\' !in name
    ensures SelfMatching(lower, name)
  {
    forall i | 0 <= i < |name| ensures Fold(lower, name)[i] != '\\' {}
    LikePattern.BackslashFreeMatchesItself(Fold(lower, name));
  }

  /** In every graph a name that a lookup does not find is new up to case: exactly when the name,
      as a pattern, matches itself or fails on itself. */
  lemma FreeNameIsNewIff(lower: Folding, game: GameId, name: string)
    ensures (forall concepts: map<Id, Concept>, c |
               FindByName(lower, concepts, game, name) == Success(None) && c in concepts && concepts[c].game == game ::
               Fold(lower, concepts[c].name) != Fold(lower, name))
       <==> SelfMatching(lower, name) || IlikeTrips(lower, name, name)
  {
    if SelfMatching(lower, name) || IlikeTrips(lower, name, name) {
      forall concepts: map<Id, Concept>, c
        | FindByName(lower, concepts, game, name) == Success(None) && c in concepts && concepts[c].game == game
        ensures Fold(lower, concepts[c].name) != Fold(lower, name)
      {
        if Fold(lower, concepts[c].name) == Fold(lower, name) {
          SameSpellingShows(lower, concepts, game, name, c);
        }
      }
    } else {
      var stored: map<Id, Concept> := map[0 := Concept(game, name, "", "", None)];
      assert 0 in stored;
      assert Hits(lower, stored, game, name) == {};
    }
  }

  lemma SameSpellingShows(lower: Folding, concepts: map<Id, Concept>, game: GameId, name: string, c: Id)
    requires c in concepts && concepts[c].game == game && Fold(lower, concepts[c].name) == Fold(lower, name)
    ensures SelfMatching(lower, name) ==> c in Hits(lower, concepts, game, name)
    ensures IlikeTrips(lower, name, name) ==> Raises(lower, concepts, game, name)
  {
  }

  lemma CreateKeepsUnique(g: Graph, concept: Concept)
    requires ConceptsSound(g) && UniqueUpToCase(g) && StaysApart(g.lower, concept.name)
    requires FindByName(g.lower, g.concepts, concept.game, concept.name) == Success(None)
    requires CreateConcept(g, concept).Success?
    ensures UniqueUpToCase(CreateConcept(g, concept).value)
  {
    forall c | c in g.concepts && g.concepts[c].game == concept.game
      ensures Fold(g.lower, g.concepts[c].name) != Fold(g.lower, concept.name)
    {
      if Fold(g.lower, g.concepts[c].name) == Fold(g.lower, concept.name) {
        SameSpellingShows(g.lower, g.concepts, concept.game, concept.name, c);
      }
    }
  }

  lemma {:induction false} AddAliasesUnique(g: Graph, d: Document, c: Id, e: Extracted, names: seq<string>)
    requires Sound(g) && IsCanonical(g, c) && g.concepts[c].game == d.id.game
    requires UniqueUpToCase(g) && forall a :: a in names ==> StaysApart(g.lower, a)
    requires AddAliases(g, d.id.game, c, e, names).Success?
    ensures UniqueUpToCase(AddAliases(g, d.id.game, c, e, names).value)
    decreases |names|
  {
    hide UniqueUpToCase;
    if names != [] {
      var g1 := AddAlias(g, d.id.game, c, e, names[0]).value;
      if FindByName(g.lower, g.concepts, d.id.game, names[0]).value.None? {
        CreateKeepsUnique(g, AliasOf(d.id.game, c, e, names[0]));
        CreateAliasSound(g, d, c, e, names[0]);
      }
      AddAliasesUnique(g1, d, c, e, names[1..]);
    }
  }

  /** Names stay unique up to case as long as every name brought in stays apart. */
  lemma {:induction false} IntegrateConceptsUnique(g: Graph, d: Document, es: seq<Extracted>)
    requires Sound(g) && UniqueUpToCase(g) && NamesStayApart(g.lower, es) && IntegrateConcepts(g, d, es).Success?
    ensures UniqueUpToCase(IntegrateConcepts(g, d, es).value.graph)
    decreases |es|
  {
    hide UniqueUpToCase, Sound, IntegrateConcept;
    if es != [] {
      IntegrateConceptUnique(g, d, es[0]);
      IntegrateConceptSound(g, d, es[0]);
      IntegrateConceptsUnique(IntegrateConcept(g, d, es[0]).value.graph, d, es[1..]);
    }
  }

  lemma IntegrateConceptUnique(g: Graph, d: Document, e: Extracted)
    requires Sound(g) && UniqueUpToCase(g) && NamesStayApart(g.lower, [e]) && IntegrateConcept(g, d, e).Success?
    ensures UniqueUpToCase(IntegrateConcept(g, d, e).value.graph)
  {
    assert e in [e];
    match FindByName(g.lower, g.concepts, d.id.game, e.name).value
    case Some(c) =>
    case None =>
      var concept := Concept(d.id.game, e.name, e.semanticType, e.description, None);
      CreateKeepsUnique(g, concept);
      CreateSourcedSound(g, d, e);
      AddAliasesUnique(CreateSourced(g, d, e).value, d, g.nextId, e, e.aliases);
  }

  /** Integrating one alias-free concept of this name makes two names collide. */
  ghost predicate MakesCollide(g: Graph, d: Document, e: Extracted, name: string) {
    && Sound(g) && UniqueUpToCase(g) && e.name == name && e.aliases == []
    && IntegrateConcept(g, d, e).Success? && !UniqueUpToCase(IntegrateConcept(g, d, e).value.graph)
  }

  /** The tables with one concept and its source. */
  function Single(lower: Folding, name: string): Graph {
    Graph(map[0 := Concept(0, name, "", "", None)],
          [Source(1, 0, DocumentId(0, 0), 0, None, "other", true, 0)], [], [], 2, lower)
  }

  lemma SingleIsSound(lower: Folding, name: string)
    ensures Sound(Single(lower, name)) && UniqueUpToCase(Single(lower, name))
  {
    var g := Single(lower, name);
    assert g.sources[0] in g.sources;
  }

  /** The failing input: another casing of the name is stored, and the lookup misses it. */
  lemma OtherCasingCollides(lower: Folding, name: string, stored: string)
    requires !SelfMatching(lower, name) && !IlikeTrips(lower, name, name)
    requires Fold(lower, stored) == Fold(lower, name) && stored != name
    ensures MakesCollide(Single(lower, stored), Document(DocumentId(0, 1), "other", None, 1),
                         Extracted(name, "", "", [], 1), name)
  {
    var g, d := Single(lower, stored), Document(DocumentId(0, 1), "other", None, 1);
    var e := Extracted(name, "", "", [], 1);
    SingleIsSound(lower, stored);
    hide Sound;
    assert Hits(lower, g.concepts, 0, name) == {};
    var g' := IntegrateConcept(g, d, e).value.graph;
    assert 0 in g'.concepts && 2 in g'.concepts;
    assert g'.concepts[0].name == stored && g'.concepts[2].name == name;
  }

  lemma NoCollision(g: Graph, d: Document, e: Extracted, name: string)
    requires StaysApart(g.lower, name)
    ensures !MakesCollide(g, d, e, name)
  {
    hide Sound, UniqueUpToCase, StaysApart, IntegrateConcept;
    if Sound(g) && UniqueUpToCase(g) && e.name == name && e.aliases == [] && IntegrateConcept(g, d, e).Success? {
      IntegrateConceptUnique(g, d, e);
    }
  }

  /** Exactly which names can make two names of a game collide: those that neither match nor fail on
      themselves and have another casing. */
  lemma CollisionIff(lower: Folding, name: string)
    ensures (exists g: Graph, d: Document, e: Extracted :: g.lower == lower && MakesCollide(g, d, e, name))
       <==> !StaysApart(lower, name)
  {
    hide MakesCollide;
    if StaysApart(lower, name) {
      forall g: Graph, d: Document, e: Extracted | g.lower == lower ensures !MakesCollide(g, d, e, name) {
        NoCollision(g, d, e, name);
      }
    } else {
      var stored :| Fold(lower, stored) == Fold(lower, name) && stored != name;
      OtherCasingCollides(lower, name, stored);
    }
  }

  /** Such names exist under every folding that folds anything: a character that another one folds to,
      with a backslash before it.  Of ASCII letters, `\a` beside `\A`. */
  lemma SomeNamesCollide(lower: Folding, upper: char)
    requires lower(upper) != upper
    ensures !StaysApart(lower, ['\\', lower(upper)])
  {
    var c := lower(upper);
    var name, other := ['\\', c], ['\\', upper];
    assert LikePattern.IsMeta('\\') && lower('\\') == '\\' && !LikePattern.IsMeta(upper);
    assert !LikePattern.IsMeta(c) && lower(c) == c;
    FoldPair(lower, '\\', c);
    FoldPair(lower, '\\', upper);
    assert Fold(lower, other) == Fold(lower, name) == name && other != name;
    assert name[0] == '\\' && name[1] == c != name[0];
  }

  lemma FoldPair(lower: Folding, a: char, b: char)
    ensures Fold(lower, [a, b]) == [lower(a), lower(b)]
  {
  }

  // --------------------------------------------------- what associations keep

  ghost predicate MapsToCanonical(g: Graph, game: GameId, names: map<string, Id>) {
    forall n :: n in names ==> IsCanonical(g, names[n]) && g.concepts[names[n]].game == game
  }

  lemma IntegrateAssociationSound(g: Graph, d: Document, names: map<string, Id>, x: Discovered)
    requires Sound(g) && MapsToCanonical(g, d.id.game, names)
    ensures var g' := IntegrateAssociation(g, d, names, x);
            && Sound(g') && g'.concepts == g.concepts && g'.sources == g.sources && g.nextId <= g'.nextId
            && g'.lower == g.lower
  {
    var s, t := Fold(g.lower, x.sourceName), Fold(g.lower, x.targetName);
    if s in names && t in names {
      var row := Wanted(g, d, x, names[s], names[t]);
      match FindAssociation(g.associations, row)
      case Some(a) =>
        if !HasAssociationSource(g, a, x.chunk) {
          AddAssociationSourceSound(g, a, d, x.chunk);
        }
      case None =>
        CreateAssociationSound(g, row);
        var g1 := CreateAssociation(g, row);
        assert row in g1.associations;
        AddAssociationSourceSound(g1, g.nextId, d, x.chunk);
    }
  }

  lemma CreateAssociationSound(g: Graph, row: Association)
    requires Sound(g) && row.id == g.nextId
    requires IsCanonical(g, row.source) && IsCanonical(g, row.target)
    requires g.concepts[row.source].game == g.concepts[row.target].game == row.game
    requires forall a :: a in g.associations ==> !SameKey(a, row)
    ensures var g' := CreateAssociation(g, row);
            && Sound(g')
            && forall s :: s in g'.associationSources ==> s.association != row.id
  {
    var g' := CreateAssociation(g, row);
    PairwiseAppend(DistinctAssociations, g.associations, row);
    SourcesGrow(g, g');
    forall s | s in g'.associationSources ensures s.association != row.id
      && exists a :: a in g'.associations && a.id == s.association
    {
      var a :| a in g.associations && a.id == s.association;
      assert a in g'.associations;
    }
  }

  lemma AddAssociationSourceSound(g: Graph, a: Id, d: Document, chunk: ChunkId)
    requires Sound(g) && !HasAssociationSource(g, a, chunk)
    requires exists row :: row in g.associations && row.id == a
    ensures Sound(AddAssociationSource(g, a, d, chunk))
  {
    var g' := AddAssociationSource(g, a, d, chunk);
    var added := Last(g'.associationSources);
    forall y | y in g.associationSources ensures DistinctAssociationSources(y, added) {
      var i :| 0 <= i < |g.associationSources| && g.associationSources[i] == y;
    }
    PairwiseAppend(DistinctAssociationSources, g.associationSources, added);
    SourcesGrow(g, g');
  }

  /** Integrating associations keeps every constraint: no unique key is ever violated. */
  lemma {:induction false} IntegrateAssociationsSound(g: Graph, d: Document, names: map<string, Id>,
                                                      xs: seq<Discovered>)
    requires Sound(g) && MapsToCanonical(g, d.id.game, names)
    ensures var g' := IntegrateAssociations(g, d, names, xs);
            && Sound(g') && g'.concepts == g.concepts && g'.sources == g.sources && g.nextId <= g'.nextId
            && g'.lower == g.lower
    decreases |xs|
  {
    hide Sound, IntegrateAssociation;
    if xs != [] {
      IntegrateAssociationSound(g, d, names, xs[0]);
      IntegrateAssociationsSound(IntegrateAssociation(g, d, names, xs[0]), d, names, xs[1..]);
    }
  }

  // -------------------------------------------- associations a second time

  /** The rows already hold what the discovered association would contribute. */
  ghost predicate Held(g: Graph, d: Document, names: map<string, Id>, x: Discovered) {
    var s, t := Fold(g.lower, x.sourceName), Fold(g.lower, x.targetName);
    s in names && t in names ==>
      var found := FindAssociation(g.associations, Wanted(g, d, x, names[s], names[t]));
      found.Some? && HasAssociationSource(g, found.value, x.chunk)
  }

  lemma {:induction false} FindGoesByKey(rows: seq<Association>, a: Association, b: Association)
    requires SameKey(a, b)
    ensures FindAssociation(rows, a) == FindAssociation(rows, b)
  {
    if rows != [] {
      FindGoesByKey(rows[1..], a, b);
    }
  }

  lemma {:induction false} FindInConcat(rows: seq<Association>, more: seq<Association>, wanted: Association)
    ensures FindAssociation(rows + more, wanted)
         == if FindAssociation(rows, wanted).Some? then FindAssociation(rows, wanted)
            else FindAssociation(more, wanted)
  {
    if rows == [] {
      assert rows + more == more;
    } else {
      assert (rows + more)[1..] == rows[1..] + more;
      FindInConcat(rows[1..], more, wanted);
    }
  }

  /** Associations and their sources only accumulate. */
  ghost predicate Accumulates(g: Graph, g': Graph) {
    && g.associations <= g'.associations && g.associationSources <= g'.associationSources
    && g'.lower == g.lower
  }

  lemma HeldStays(g: Graph, g': Graph, d: Document, names: map<string, Id>, x: Discovered)
    requires Held(g, d, names, x) && Accumulates(g, g')
    ensures Held(g', d, names, x)
  {
    var s, t := Fold(g.lower, x.sourceName), Fold(g.lower, x.targetName);
    if s in names && t in names {
      var before, after := Wanted(g, d, x, names[s], names[t]), Wanted(g', d, x, names[s], names[t]);
      FindGoesByKey(g'.associations, before, after);
      assert g'.associations == g.associations + g'.associations[|g.associations|..];
      FindInConcat(g.associations, g'.associations[|g.associations|..], before);
      var a := FindAssociation(g.associations, before).value;
      var i :| 0 <= i < |g.associationSources| && g.associationSources[i].association == a
               && g.associationSources[i].chunk == x.chunk;
      assert g'.associationSources[i] == g.associationSources[i];
    }
  }

  lemma IntegrateAssociationHolds(g: Graph, d: Document, names: map<string, Id>, x: Discovered)
    ensures var g' := IntegrateAssociation(g, d, names, x); Held(g', d, names, x) && Accumulates(g, g')
  {
    var s, t := Fold(g.lower, x.sourceName), Fold(g.lower, x.targetName);
    var g' := IntegrateAssociation(g, d, names, x);
    if s in names && t in names {
      var row := Wanted(g, d, x, names[s], names[t]);
      FindGoesByKey(g'.associations, row, Wanted(g', d, x, names[s], names[t]));
      FindInConcat(g.associations, [row], row);
      if g' != g {
        assert g'.associationSources[|g.associationSources|].chunk == x.chunk;
      }
    }
  }

  lemma {:induction false} IntegrateAssociationsHold(g: Graph, d: Document, names: map<string, Id>,
                                                     xs: seq<Discovered>)
    ensures var g' := IntegrateAssociations(g, d, names, xs);
            Accumulates(g, g') && forall x :: x in xs ==> Held(g', d, names, x)
    decreases |xs|
  {
    hide Held, IntegrateAssociation;
    if xs != [] {
      var first := IntegrateAssociation(g, d, names, xs[0]);
      IntegrateAssociationHolds(g, d, names, xs[0]);
      IntegrateAssociationsHold(first, d, names, xs[1..]);
      HeldStays(first, IntegrateAssociations(g, d, names, xs), d, names, xs[0]);
    }
  }

  lemma {:induction false} HeldChangesNothing(g: Graph, d: Document, names: map<string, Id>, xs: seq<Discovered>)
    requires forall x :: x in xs ==> Held(g, d, names, x)
    ensures IntegrateAssociations(g, d, names, xs) == g
    decreases |xs|
  {
    hide HasAssociationSource;
    if xs != [] {
      assert Held(g, d, names, xs[0]);
      HeldChangesNothing(g, d, names, xs[1..]);
    }
  }

  /** Integrating associations a second time changes nothing, whatever their names. */
  lemma AssociationsAreIdempotent(g: Graph, d: Document, names: map<string, Id>, xs: seq<Discovered>)
    ensures var g' := IntegrateAssociations(g, d, names, xs); IntegrateAssociations(g', d, names, xs) == g'
  {
    hide Held, IntegrateAssociations;
    IntegrateAssociationsHold(g, d, names, xs);
    HeldChangesNothing(IntegrateAssociations(g, d, names, xs), d, names, xs);
  }

  // ------------------------------------------------------------- idempotence

  /** The name leads, through at most one alias, to the concept `c`. */
  ghost predicate Leads(g: Graph, game: GameId, name: string, c: Id) {
    var found := FindByName(g.lower, g.concepts, game, name);
    && found.Success? && found.value.Some?
    && found.value.value in g.concepts && ResolveCanonical(g, found.value.value) == c
  }

  /** The graph already holds what `e` would contribute, on the concept `c`. */
  ghost predicate Absorbed(g: Graph, d: Document, e: Extracted, c: Id) {
    Leads(g, d.id.game, e.name, c) && HasSource(g, c, e.chunk)
  }

  /** As a pattern the name selects exactly the concepts that bear it, case ignored. */
  ghost predicate Selects(lower: Folding, concepts: map<Id, Concept>, game: GameId, name: string) {
    forall c :: c in concepts && concepts[c].game == game ==>
      (LikePattern.IlikeMatches(lower, name, concepts[c].name) <==> Fold(lower, concepts[c].name) == Fold(lower, name))
  }

  lemma FindSelected(g: Graph, game: GameId, name: string, c: Id)
    requires UniqueUpToCase(g) && Selects(g.lower, g.concepts, game, name)
    requires c in g.concepts && g.concepts[c].game == game && Fold(g.lower, g.concepts[c].name) == Fold(g.lower, name)
    ensures FindByName(g.lower, g.concepts, game, name) == Success(Some(c))
  {
    assert Hits(g.lower, g.concepts, game, name) == {c};
    MatchingRaisesNothing(g.lower, g.concepts, game, name, g.concepts[c].name);
  }

  lemma SelectsEarlier(g: Graph, g': Graph, game: GameId, name: string)
    requires Persists(g, g') && Selects(g.lower, g'.concepts, game, name)
    ensures Selects(g.lower, g.concepts, game, name)
  {
  }

  lemma LeadsStays(g: Graph, g': Graph, game: GameId, name: string, c: Id)
    requires Sound(g) && Persists(g, g') && UniqueUpToCase(g') && Selects(g.lower, g'.concepts, game, name)
    requires Leads(g, game, name, c)
    ensures Leads(g', game, name, c)
  {
    var x := FindByName(g.lower, g.concepts, game, name).value.value;
    assert x in Hits(g.lower, g.concepts, game, name);
    SelectsEarlier(g, g', game, name);
    FindSelected(g', game, name, x);
  }

  /** What is absorbed stays absorbed as the graph grows, while its name selects only its own. */
  lemma AbsorbedStays(g: Graph, g': Graph, d: Document, e: Extracted, c: Id)
    requires Sound(g) && Grows(g, g', d) && UniqueUpToCase(g') && Selects(g.lower, g'.concepts, d.id.game, e.name)
    requires Absorbed(g, d, e, c)
    ensures Absorbed(g', d, e, c)
  {
    hide Sound, UniqueUpToCase, Selects, Leads, HasSource;
    LeadsStays(g, g', d.id.game, e.name, c);
    HasSourceStays(g, g', c, e.chunk);
  }

  lemma IntegrateAbsorbs(g: Graph, d: Document, e: Extracted)
    requires Sound(g) && UniqueUpToCase(g) && NamesStayApart(g.lower, [e]) && IntegrateConcept(g, d, e).Success?
    requires Selects(g.lower, IntegrateConcept(g, d, e).value.graph.concepts, d.id.game, e.name)
    ensures var r := IntegrateConcept(g, d, e).value; Absorbed(r.graph, d, e, r.concept)
  {
    hide Sound, UniqueUpToCase, Selects, IntegrateConcept, Leads, HasSource, NamesStayApart;
    IntegrateLeads(g, d, e);
    IntegrateConceptSound(g, d, e);
  }

  lemma IntegrateLeads(g: Graph, d: Document, e: Extracted)
    requires Sound(g) && UniqueUpToCase(g) && NamesStayApart(g.lower, [e]) && IntegrateConcept(g, d, e).Success?
    requires Selects(g.lower, IntegrateConcept(g, d, e).value.graph.concepts, d.id.game, e.name)
    ensures var r := IntegrateConcept(g, d, e).value; Leads(r.graph, d.id.game, e.name, r.concept)
  {
    hide HasSource, AssociationsSound, FullySourced, SourcesSound, Pairwise, UniqueUpToCase, Selects;
    var r := IntegrateConcept(g, d, e).value;
    IntegrateConceptUnique(g, d, e);
    match FindByName(g.lower, g.concepts, d.id.game, e.name).value
    case Some(c) => SameConceptsFindSame(g, r.graph, d.id.game, e.name);
    case None =>
      CreatedStays(g, d, e);
      FindSelected(r.graph, d.id.game, e.name, g.nextId);
  }

  lemma CreatedStays(g: Graph, d: Document, e: Extracted)
    requires Sound(g) && IntegrateConcept(g, d, e).Success?
    requires FindByName(g.lower, g.concepts, d.id.game, e.name) == Success(None)
    ensures var r := IntegrateConcept(g, d, e).value;
            && r.concept == g.nextId && g.nextId in r.graph.concepts && r.graph.lower == g.lower
            && r.graph.concepts[g.nextId] == Concept(d.id.game, e.name, e.semanticType, e.description, None)
  {
    hide Sound, FindByName, AddAliases;
    CreateSourcedSound(g, d, e);
    AddAliasesSound(CreateSourced(g, d, e).value, d, g.nextId, e, e.aliases);
  }

  lemma {:induction false} IntegrateConceptsAbsorbs(g: Graph, d: Document, es: seq<Extracted>)
    requires Sound(g) && UniqueUpToCase(g) && NamesStayApart(g.lower, es) && IntegrateConcepts(g, d, es).Success?
    requires var concepts := IntegrateConcepts(g, d, es).value.graph.concepts;
             forall e :: e in es ==> Selects(g.lower, concepts, d.id.game, e.name)
    ensures var r := IntegrateConcepts(g, d, es).value;
            |r.concepts| == |es| && forall i :: 0 <= i < |es| ==> Absorbed(r.graph, d, es[i], r.concepts[i])
    decreases |es|
  {
    hide Absorbed, Sound, UniqueUpToCase, IntegrateConcept, Selects, StaysApart, IsCanonical, HasSource;
    IntegrateConceptsUnique(g, d, es);
    if es != [] {
      var first, r := IntegrateConcept(g, d, es[0]).value, IntegrateConcepts(g, d, es).value;
      IntegrateConceptSound(g, d, es[0]);
      IntegrateConceptUnique(g, d, es[0]);
      IntegrateConceptsSound(first.graph, d, es[1..]);
      SelectsEarlier(first.graph, r.graph, d.id.game, es[0].name);
      IntegrateAbsorbs(g, d, es[0]);
      IntegrateConceptsAbsorbs(first.graph, d, es[1..]);
      AbsorbedStays(first.graph, r.graph, d, es[0], first.concept);
    }
  }

  lemma AbsorbedIsFixed(g: Graph, d: Document, e: Extracted, c: Id)
    requires Absorbed(g, d, e, c)
    ensures IntegrateConcept(g, d, e) == Success(Integrated(g, c))
  {
    hide HasSource;
  }

  lemma {:induction false} AbsorbedChangesNothing(g: Graph, d: Document, es: seq<Extracted>, ids: seq<Id>)
    requires |ids| == |es| && forall i :: 0 <= i < |es| ==> Absorbed(g, d, es[i], ids[i])
    ensures IntegrateConcepts(g, d, es) == Success(IntegratedAll(g, ids))
  {
    hide Absorbed, IntegrateConcept;
    if es != [] {
      AbsorbedIsFixed(g, d, es[0], ids[0]);
      forall i | 0 <= i < |es| - 1 ensures Absorbed(g, d, es[1..][i], ids[1..][i]) {
        assert Absorbed(g, d, es[i + 1], ids[i + 1]);
      }
      AbsorbedChangesNothing(g, d, es[1..], ids[1..]);
      assert ids == [ids[0]] + ids[1..];
    }
  }

  /** Integrating a concept either changes nothing, its name leading to the concept returned, or
      uses up an identifier. */
  lemma ChangesShow(g: Graph, d: Document, e: Extracted)
    requires Sound(g) && IntegrateConcept(g, d, e).Success?
    ensures var r := IntegrateConcept(g, d, e).value;
            (r.graph == g && Leads(g, d.id.game, e.name, r.concept)) || r.graph.nextId > g.nextId
  {
    hide Sound;
    match FindByName(g.lower, g.concepts, d.id.game, e.name).value
    case Some(c) =>
      assert c in Hits(g.lower, g.concepts, d.id.game, e.name);
    case None =>
      CreateSourcedSound(g, d, e);
      AddAliasesSound(CreateSourced(g, d, e).value, d, g.nextId, e, e.aliases);
  }

  lemma {:induction false} UnchangedMeansLeads(g: Graph, d: Document, es: seq<Extracted>, ids: seq<Id>)
    requires Sound(g) && IntegrateConcepts(g, d, es) == Success(IntegratedAll(g, ids))
    ensures |ids| == |es| && forall i :: 0 <= i < |es| ==> Leads(g, d.id.game, es[i].name, ids[i])
    decreases |es|
  {
    hide Sound, Leads, IntegrateConcept, HasSource;
    if es != [] {
      var first := IntegrateConcept(g, d, es[0]).value;
      ChangesShow(g, d, es[0]);
      IntegrateConceptSound(g, d, es[0]);
      IntegrateConceptsSound(first.graph, d, es[1..]);
      assert first.graph == g;
      UnchangedMeansLeads(g, d, es[1..], ids[1..]);
    }
  }

  /** The exact condition: integrating a list a second time changes nothing and returns the same
      concepts if and only if, in the graph that the first time left, every name of the list leads
      to the concept it was integrated into. */
  lemma RerunIff(g: Graph, d: Document, es: seq<Extracted>)
    requires Sound(g) && IntegrateConcepts(g, d, es).Success?
    ensures var r := IntegrateConcepts(g, d, es).value;
            |r.concepts| == |es|
            && (IntegrateConcepts(r.graph, d, es) == Success(r)
                <==> forall i :: 0 <= i < |es| ==> Leads(r.graph, d.id.game, es[i].name, r.concepts[i]))
  {
    hide Sound, Leads, HasSource, IntegrateConcepts;
    var r := IntegrateConcepts(g, d, es).value;
    IntegrateConceptsSound(g, d, es);
    if forall i :: 0 <= i < |es| ==> Leads(r.graph, d.id.game, es[i].name, r.concepts[i]) {
      assert forall i :: 0 <= i < |es| ==> Absorbed(r.graph, d, es[i], r.concepts[i]);
      AbsorbedChangesNothing(r.graph, d, es, r.concepts);
    }
    if IntegrateConcepts(r.graph, d, es) == Success(r) {
      UnchangedMeansLeads(r.graph, d, es, r.concepts);
    }
  }

  ghost predicate Brings(es: seq<Extracted>, name: string) {
    exists e :: e in es && (name == e.name || name in e.aliases)
  }

  /** The name is in the game already, or the list brings it. */
  ghost predicate Known(g: Graph, game: GameId, es: seq<Extracted>, name: string) {
    Brings(es, name) || exists c :: c in g.concepts && g.concepts[c].game == game && g.concepts[c].name == name
  }

  /** Among the names of the game and those the list brings, each name of the list, as a pattern,
      selects only itself, case ignored; and the aliases stay apart. */
  ghost predicate Selective(g: Graph, game: GameId, es: seq<Extracted>) {
    && (forall e, name :: e in es && Known(g, game, es, name) ==>
          (LikePattern.IlikeMatches(g.lower, e.name, name) <==> Fold(g.lower, name) == Fold(g.lower, e.name)))
    && (forall e, a :: e in es && a in e.aliases ==> StaysApart(g.lower, a))
  }

  lemma {:induction false} AliasesBring(g: Graph, game: GameId, c: Id, e: Extracted, names: seq<string>)
    requires AddAliases(g, game, c, e, names).Success?
    ensures var g' := AddAliases(g, game, c, e, names).value;
            forall k :: k in g'.concepts && k !in g.concepts ==>
              g'.concepts[k].name in names && g'.concepts[k].canonical == Some(c)
    ensures var g' := AddAliases(g, game, c, e, names).value;
            forall k :: k in g.concepts && k < g.nextId ==> k in g'.concepts && g'.concepts[k] == g.concepts[k]
    decreases |names|
  {
    if names != [] {
      var g1 := AddAlias(g, game, c, e, names[0]).value;
      AliasesBring(g1, game, c, e, names[1..]);
      var g' := AddAliases(g, game, c, e, names).value;
      forall k | k in g'.concepts && k !in g.concepts
        ensures g'.concepts[k].name in names && g'.concepts[k].canonical == Some(c)
      {
        if k in g1.concepts {
          assert k == g.nextId && g1.nextId > k;
        }
      }
    }
  }

  lemma NewNamesAreBrought(g: Graph, d: Document, e: Extracted)
    requires Sound(g) && IntegrateConcept(g, d, e).Success?
    ensures var g' := IntegrateConcept(g, d, e).value.graph;
            forall k :: k in g'.concepts && k !in g.concepts ==>
              g'.concepts[k].name == e.name || g'.concepts[k].name in e.aliases
  {
    hide Sound;
    if FindByName(g.lower, g.concepts, d.id.game, e.name).value.None? {
      CreateSourcedSound(g, d, e);
      var g1 := CreateSourced(g, d, e).value;
      AddAliasesSound(g1, d, g.nextId, e, e.aliases);
      AliasesBring(g1, d.id.game, g.nextId, e, e.aliases);
    }
  }

  lemma {:induction false} NewNamesAreBroughtByAll(g: Graph, d: Document, es: seq<Extracted>)
    requires Sound(g) && IntegrateConcepts(g, d, es).Success?
    ensures var g' := IntegrateConcepts(g, d, es).value.graph;
            forall k :: k in g'.concepts && k !in g.concepts ==> Brings(es, g'.concepts[k].name)
    decreases |es|
  {
    hide Sound, IntegrateConcept, HasSource;
    if es != [] {
      var first := IntegrateConcept(g, d, es[0]).value;
      IntegrateConceptSound(g, d, es[0]);
      NewNamesAreBrought(g, d, es[0]);
      NewNamesAreBroughtByAll(first.graph, d, es[1..]);
      IntegrateConceptsSound(first.graph, d, es[1..]);
      var g' := IntegrateConcepts(g, d, es).value.graph;
      forall k | k in g'.concepts && k !in g.concepts ensures Brings(es, g'.concepts[k].name) {
        if k in first.graph.concepts {
          assert es[0] in es;
        } else {
          var e :| e in es[1..] && (g'.concepts[k].name == e.name || g'.concepts[k].name in e.aliases);
          assert e in es;
        }
      }
    }
  }

  lemma NamesAreKnown(g: Graph, d: Document, es: seq<Extracted>, c: Id)
    requires Sound(g) && IntegrateConcepts(g, d, es).Success?
    requires var g' := IntegrateConcepts(g, d, es).value.graph; c in g'.concepts && g'.concepts[c].game == d.id.game
    ensures Known(g, d.id.game, es, IntegrateConcepts(g, d, es).value.graph.concepts[c].name)
  {
    hide Sound, IntegrateConcepts, HasSource, IsCanonical, Brings;
    NewNamesAreBroughtByAll(g, d, es);
    IntegrateConceptsSound(g, d, es);
  }

  lemma SelectiveSelects(g: Graph, d: Document, es: seq<Extracted>)
    requires Sound(g) && Selective(g, d.id.game, es) && IntegrateConcepts(g, d, es).Success?
    ensures NamesStayApart(g.lower, es)
    ensures var concepts := IntegrateConcepts(g, d, es).value.graph.concepts;
            forall e :: e in es ==> Selects(g.lower, concepts, d.id.game, e.name)
  {
    hide Sound, IntegrateConcepts, Known, OneSpelling, LikePattern.IlikeMatches;
    var concepts := IntegrateConcepts(g, d, es).value.graph.concepts;
    forall e | e in es ensures StaysApart(g.lower, e.name) {
      BroughtIsKnown(g, d.id.game, es, e);
    }
    forall e, c | e in es && c in concepts && concepts[c].game == d.id.game
      ensures LikePattern.IlikeMatches(g.lower, e.name, concepts[c].name)
         <==> Fold(g.lower, concepts[c].name) == Fold(g.lower, e.name)
    {
      NamesAreKnown(g, d, es, c);
    }
  }

  lemma BroughtIsKnown(g: Graph, game: GameId, es: seq<Extracted>, e: Extracted)
    requires e in es
    ensures Known(g, game, es, e.name)
  {
  }

  /** Checked before the first call: when names select only themselves, integrating a list a
      second time changes nothing at all and returns the same concepts. */
  lemma IntegrationIsIdempotent(g: Graph, d: Document, es: seq<Extracted>)
    requires Sound(g) && UniqueUpToCase(g) && Selective(g, d.id.game, es) && IntegrateConcepts(g, d, es).Success?
    ensures var r := IntegrateConcepts(g, d, es).value;
            IntegrateConcepts(r.graph, d, es) == Success(r)
  {
    hide Sound, UniqueUpToCase, Selective, Selects, Absorbed, IntegrateConcepts, NamesStayApart;
    var r := IntegrateConcepts(g, d, es).value;
    SelectiveSelects(g, d, es);
    IntegrateConceptsAbsorbs(g, d, es);
    AbsorbedChangesNothing(r.graph, d, es, r.concepts);
  }

  /** Names without wildcard and backslash are selective in every graph. */
  lemma PlainIsSelective(g: Graph, game: GameId, es: seq<Extracted>)
    requires forall name :: Brings(es, name) ==> LikePattern.IsPlain(name)
    ensures Selective(g, game, es)
  {
    hide LikePattern.Matches;
    forall e, name | e in es
      ensures LikePattern.IlikeMatches(g.lower, e.name, name) <==> Fold(g.lower, name) == Fold(g.lower, e.name)
    {
      assert Brings(es, e.name);
      FoldIsFolded(g.lower, e.name);
      LikePattern.PlainMatchesOnlyItself(Fold(g.lower, e.name), Fold(g.lower, name));
    }
    forall e, a | e in es && a in e.aliases ensures StaysApart(g.lower, a) {
      assert Brings(es, a);
      BackslashFreeIsSelfMatching(g.lower, a);
    }
  }

  /** For a single concept without aliases the condition is exact: integrating it again is a
      no-op if and only if it was found in the first place or its name, as a pattern, matches
      itself.  Otherwise the second attempt fails, on the pattern or on the unique name. */
  lemma RerunOfOne(g: Graph, d: Document, e: Extracted)
    requires Sound(g) && e.aliases == [] && IntegrateConcept(g, d, e).Success?
    ensures var found := FindByName(g.lower, g.concepts, d.id.game, e.name).value.Some?;
            var r := IntegrateConcept(g, d, e).value;
            IntegrateConcept(r.graph, d, e)
            == if found || SelfMatching(g.lower, e.name) then Success(r)
               else Failure(if IlikeTrips(g.lower, e.name, e.name) then InvalidPattern else DuplicateName)
  {
    hide Sound;
    var r := IntegrateConcept(g, d, e).value;
    IntegrateConceptSound(g, d, e);
    match FindByName(g.lower, g.concepts, d.id.game, e.name).value
    case Some(c) =>
      SameConceptsFindSame(g, r.graph, d.id.game, e.name);
    case None =>
      CreatedIsFoundIff(g, d, e);
      if SelfMatching(g.lower, e.name) {
        LikePattern.MatchingNeverTrips(Fold(g.lower, e.name), Fold(g.lower, e.name), Fold(g.lower, e.name));
      }
  }

  lemma SameConceptsFindSame(g: Graph, g': Graph, game: GameId, name: string)
    requires g'.concepts == g.concepts && g'.lower == g.lower
    ensures FindByName(g'.lower, g'.concepts, game, name) == FindByName(g.lower, g.concepts, game, name)
  {
  }

  lemma CreatedIsFoundIff(g: Graph, d: Document, e: Extracted)
    requires Sound(g) && CreateSourced(g, d, e).Success?
    requires FindByName(g.lower, g.concepts, d.id.game, e.name) == Success(None)
    ensures var g' := CreateSourced(g, d, e).value;
            && NameTaken(g'.concepts, d.id.game, e.name)
            && FindByName(g'.lower, g'.concepts, d.id.game, e.name)
               == if IlikeTrips(g.lower, e.name, e.name) then Failure(InvalidPattern)
                  else Success(if SelfMatching(g.lower, e.name) then Some(g.nextId) else None)
  {
    hide Sound, IlikeTrips;
    var g' := CreateSourced(g, d, e).value;
    var game := d.id.game;
    assert g'.concepts[g.nextId].name == e.name;
    CreateSourcedSound(g, d, e);
    assert Raises(g'.lower, g'.concepts, game, e.name) <==> IlikeTrips(g.lower, e.name, e.name) by {
      if c :| c in g'.concepts && g'.concepts[c].game == game && IlikeTrips(g.lower, e.name, g'.concepts[c].name) {
        assert c != g.nextId ==> c in g.concepts && Raises(g.lower, g.concepts, game, e.name);
      }
    }
    var hits := Hits(g'.lower, g'.concepts, game, e.name);
    forall c ensures c in hits <==> SelfMatching(g.lower, e.name) && c == g.nextId {
      assert c in g.concepts ==> c !in Hits(g.lower, g.concepts, game, e.name);
    }
    assert hits == if SelfMatching(g.lower, e.name) then {g.nextId} else {};
  }
}
