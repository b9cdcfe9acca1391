/** The knowledge-graph services as they run: loops that change the stored tables. */
module GraphStore {
  import opened Common
  import opened KnowledgeGraph
  import opened Rows
  import opened GraphIntegration
  import opened GraphRemoval
  import opened Conflicts
  import opened GraphRuns
  import opened GraphContributions
  import LikePattern

  /** The tables of one database, with the repositories and services that work on them. */
  class Store {
    var concepts: map<Id, Concept>
    var sources: seq<Source>
    var associations: seq<Association>
    var associationSources: seq<AssociationSource>
    var nextId: Id
    const lower: Folding

    /** The tables as one value. */
    function State(): Graph
      reads this
    {
      Graph(concepts, sources, associations, associationSources, nextId, lower)
    }

    ghost predicate Valid()
      reads this
    {
      Sound(State())
    }

    constructor (folding: Folding)
      ensures State() == Empty(folding) && Valid()
    {
      concepts, sources, associations, associationSources, nextId, lower := map[], [], [], [], 0, folding;
      new;
      EmptyIsSound(folding);
    }

    method Restore(g: Graph)
      requires g.lower == lower
      modifies this
      ensures State() == g
    {
      concepts, sources, associations, associationSources, nextId :=
        g.concepts, g.sources, g.associations, g.associationSources, g.nextId;
    }

    // ------------------------------------------------------------- repositories

    method LookupName(game: GameId, name: string) returns (r: Result<Option<Id>>)
      ensures r == FindByName(lower, concepts, game, name)
    {
      if exists c :: c in concepts && concepts[c].game == game && IlikeTrips(lower, name, concepts[c].name) {
        return Failure(InvalidPattern);
      }
      var hits := set c | c in concepts && concepts[c].game == game
                          && LikePattern.IlikeMatches(lower, name, concepts[c].name);
      assert hits == Hits(lower, concepts, game, name);
      if hits == {} {
        return Success(None);
      }
      var c :| c in hits;
      r := if hits == {c} then Success(Some(c)) else Failure(MultipleMatches);
    }

    method InsertConcept(concept: Concept) returns (r: Result<Id>)
      modifies this
      ensures match CreateConcept(old(State()), concept)
              case Success(g) => r == Success(old(nextId)) && State() == g
              case Failure(e) => r == Failure(e) && State() == old(State())
    {
      if NameTaken(concepts, concept.game, concept.name) {
        return Failure(DuplicateName);
      }
      concepts := concepts[nextId := concept];
      r := Success(nextId);
      nextId := nextId + 1;
    }

    method InsertSource(c: Id, d: Document, chunk: ChunkId)
      modifies this
      ensures State() == CreateSource(old(State()), c, d, chunk)
    {
      sources := sources + [NewSource(State(), c, d, chunk)];
      nextId := nextId + 1;
    }

    method RemoveConcept(c: Id) returns (r: Result<()>)
      modifies this
      ensures match DeleteConcept(old(State()), c)
              case Success(g) => r == Success(()) && State() == g
              case Failure(e) => r == Failure(e) && State() == old(State())
    {
      if c !in concepts {
        return Success(());
      }
      if HasAlias(State(), c) {
        return Failure(StillReferenced);
      }
      concepts := concepts - {c};
      sources := Filter(NotOn(c), sources);
      associations := Filter(NotTouching(c), associations);
      associationSources := Filter(SupportedBy(associations), associationSources);
      r := Success(());
    }

    // -------------------------------------------------------------- integration

    method AddSource(c: Id, d: Document, chunk: ChunkId)
      modifies this
      ensures State() == AddSourceIfNew(old(State()), c, d, chunk)
    {
      if !HasSource(State(), c, chunk) {
        InsertSource(c, d, chunk);
      }
    }

    method IntegrateAliases(game: GameId, c: Id, e: Extracted) returns (r: Result<()>)
      modifies this
      ensures match AddAliases(old(State()), game, c, e, e.aliases)
              case Success(g) => r == Success(()) && State() == g
              case Failure(error) => r == Failure(error)
    {
      for i := 0 to |e.aliases|
        invariant AddAliases(old(State()), game, c, e, e.aliases) == AddAliases(State(), game, c, e, e.aliases[i..])
      {
        var name := e.aliases[i];
        assert e.aliases[i..][1..] == e.aliases[i + 1..];
        var existing := LookupName(game, name);
        if existing.Failure? {
          return Failure(existing.error);
        }
        if existing.value.None? {
          var created := InsertConcept(AliasOf(game, c, e, name));
          if created.Failure? {
            return Failure(created.error);
          }
        }
      }
      r := Success(());
    }

    method IntegrateSingleConcept(d: Document, e: Extracted) returns (r: Result<Id>)
      modifies this
      ensures match IntegrateConcept(old(State()), d, e)
              case Success(x) => r == Success(x.concept) && State() == x.graph
              case Failure(error) => r == Failure(error)
    {
      var existing := LookupName(d.id.game, e.name);
      if existing.Failure? {
        return Failure(existing.error);
      }
      if existing.value.Some? {
        assert existing.value.value in Hits(lower, concepts, d.id.game, e.name);
        var canonical := ResolveCanonical(State(), existing.value.value);
        AddSource(canonical, d, e.chunk);
        return Success(canonical);
      }
      var created := InsertConcept(Concept(d.id.game, e.name, e.semanticType, e.description, None));
      if created.Failure? {
        return created;
      }
      InsertSource(created.value, d, e.chunk);
      var aliased := IntegrateAliases(d.id.game, created.value, e);
      r := if aliased.Success? then created else Failure(aliased.error);
    }

    /** The loop over a document's concepts computes exactly `IntegrateConcepts`. */
    method IntegrateAllConcepts(d: Document, es: seq<Extracted>) returns (r: Result<seq<Id>>)
      modifies this
      ensures match IntegrateConcepts(old(State()), d, es)
              case Success(x) => r == Success(x.concepts) && State() == x.graph
              case Failure(error) => r == Failure(error)
    {
      hide IntegrateConcept, IntegrateConcepts, Prefixed;
      var integrated := [];
      PrefixedStart(IntegrateConcepts(State(), d, es));
      assert es[0..] == es;
      for i := 0 to |es|
        invariant IntegrateConcepts(old(State()), d, es) == Prefixed(integrated, IntegrateConcepts(State(), d, es[i..]))
      {
        ghost var g := State();
        var one := IntegrateSingleConcept(d, es[i]);
        PrefixedStep(g, d, es, i, integrated);
        if one.Failure? {
          return Failure(one.error);
        }
        integrated := integrated + [one.value];
      }
      PrefixedEnd(State(), d, integrated);
      assert es[|es|..] == [];
      r := Success(integrated);
    }

    method IntegrateSingleAssociation(d: Document, names: map<string, Id>, x: Discovered)
      modifies this
      ensures State() == IntegrateAssociation(old(State()), d, names, x)
    {
      var s, t := Fold(lower, x.sourceName), Fold(lower, x.targetName);
      if s !in names || t !in names {
        return;
      }
      var row := Wanted(State(), d, x, names[s], names[t]);
      var existing := FindAssociation(associations, row);
      var association := nextId;
      if existing.Some? {
        if HasAssociationSource(State(), existing.value, x.chunk) {
          return;
        }
        association := existing.value;
      } else {
        associations := associations + [row];
        nextId := nextId + 1;
      }
      associationSources := associationSources + [AssociationSource(nextId, association, d.id, x.chunk, d.expansion)];
      nextId := nextId + 1;
    }

    method IntegrateAllAssociations(d: Document, names: map<string, Id>, xs: seq<Discovered>)
      modifies this
      ensures State() == IntegrateAssociations(old(State()), d, names, xs)
    {
      hide IntegrateAssociation;
      for i := 0 to |xs|
        invariant IntegrateAssociations(State(), d, names, xs[i..]) == IntegrateAssociations(old(State()), d, names, xs)
      {
        assert xs[i..][1..] == xs[i + 1..];
        IntegrateSingleAssociation(d, names, xs[i]);
      }
    }

    // ---------------------------------------------------------------- conflicts

    method SetAuthoritative(c: Id, winner: Id)
      modifies this
      ensures State() == old(State()).(sources := UpdateAuthoritative(old(sources), c, winner))
    {
      for i := 0 to |sources|
        invariant |sources| == |old(sources)|
        invariant State() == old(State()).(sources := sources)
        invariant forall k :: 0 <= k < i ==> sources[k] == Flagged(old(sources)[k], c, winner)
        invariant forall k :: i <= k < |sources| ==> sources[k] == old(sources)[k]
      {
        if sources[i].concept == c {
          sources := sources[i := sources[i].(authoritative := sources[i].id == winner)];
        }
      }
      assert sources == UpdateAuthoritative(old(sources), c, winner);
    }

    method ResolveConflicts(c: Id, added: Source)
      modifies this
      ensures State() == old(State()).(sources := Resolve(old(sources), c, added))
    {
      var list := ListByConcept(sources, c);
      if |list| <= 1 {
        return;
      }
      var current := FirstAuthoritative(list);
      if current.None? {
        SetAuthoritative(c, added.id);
        return;
      }
      if current.value.id == added.id {
        return;
      }
      if Priority(added.documentType) > Priority(current.value.documentType) {
        SetAuthoritative(c, added.id);
      }
    }

    method ResolveAllConflicts(cs: seq<Id>)
      modifies this
      ensures State() == old(State()).(sources := ResolveAll(old(sources), cs))
    {
      hide Resolve;
      for i := 0 to |cs|
        invariant State() == old(State()).(sources := sources)
        invariant ResolveAll(sources, cs[i..]) == ResolveAll(old(sources), cs)
      {
        assert cs[i..][1..] == cs[i + 1..];
        var list := ListByConcept(sources, cs[i]);
        if |list| > 1 {
          ResolveConflicts(cs[i], Newest(list));
        }
      }
    }

    // ------------------------------------------------------------------ removal

    /** Deletes one by one the rows that a document contributed to a concept. */
    method DeleteSources(doc: DocumentId, c: Id)
      requires Pairwise(DistinctSources, sources)
      modifies this
      ensures State() == old(State()).(sources := Filter(NotTheirs(doc, c), old(sources)))
    {
      hide Filter;
      var doomed := Filter(Theirs(doc, c), sources);
      NoneDeleted(sources, doomed);
      for i := 0 to |doomed|
        invariant State() == old(State()).(sources := sources)
        invariant sources == Filter(NotListed(doomed[..i]), old(sources))
      {
        OneMoreDeleted(old(sources), doomed, i);
        sources := Filter(NotId(doomed[i].id), sources);
      }
      assert doomed[..|doomed|] == doomed;
      ListedAreTheirs(old(sources), doc, c);
      FilterAgree(NotListed(doomed), NotTheirs(doc, c), old(sources));
    }

    /** One round of the removal loop: delete the concept, or only this document's rows. */
    method RemoveFrom(doc: DocumentId, c: Id, removed: nat, updated: nat) returns (r: Result<(nat, nat)>)
      requires Pairwise(DistinctSources, sources)
      modifies this
      ensures match RemoveOne(Removal(old(State()), removed, updated), doc, c)
              case Success(x) =>
                r == Success((x.removed, x.updated)) && State() == x.graph && Pairwise(DistinctSources, sources)
              case Failure(error) => r == Failure(error)
    {
      hide OnlyFrom, Pairwise, DeleteConcept, Filter;
      if OnlyFrom(State(), doc, c) {
        ghost var before := State();
        var gone := RemoveConcept(c);
        if gone.Failure? {
          return Failure(gone.error);
        }
        DeleteKeepsDistinct(before, c);
        r := Success((removed + 1, updated));
      } else {
        PairwiseFilter(DistinctSources, NotTheirs(doc, c), sources);
        DeleteSources(doc, c);
        r := Success((removed, updated + 1));
      }
    }

    method RemoveContributions(doc: DocumentId) returns (r: Result<(nat, nat)>)
      requires Valid()
      modifies this
      ensures match RemoveDocument(old(State()), doc)
              case Success(x) => r == Success((x.removed, x.updated)) && State() == x.graph
              case Failure(error) => r == Failure(error)
    {
      assert Pairwise(DistinctSources, sources);
      hide Pairwise, Sound, Contributed, RemoveEach, RemoveOne;
      var removed, updated := 0, 0;
      var cs := Contributed(sources, doc);
      assert cs[0..] == cs;
      for i := 0 to |cs|
        invariant Pairwise(DistinctSources, sources)
        invariant RemoveEach(Removal(State(), removed, updated), doc, cs[i..]) == RemoveDocument(old(State()), doc)
      {
        RemoveEachNext(Removal(State(), removed, updated), doc, cs, i);
        var one := RemoveFrom(doc, cs[i], removed, updated);
        if one.Failure? {
          return Failure(one.error);
        }
        removed, updated := one.value.0, one.value.1;
      }
      RemoveEachDone(Removal(State(), removed, updated), doc, cs);
      r := Success((removed, updated));
    }

    // --------------------------------------------------------- whole operations

    /** Ingests one document, or fails and leaves the tables as they were. */
    method IngestDocument(p: Payload) returns (r: Result<()>)
      requires Valid()
      modifies this
      ensures Valid() && State() == Apply(old(State()), Ingesting(p))
      ensures if r.Success? then Ingest(old(State()), p) == Success(State())
              else Ingest(old(State()), p).Failure? && State() == old(State())
    {
      var before := State();
      r := Success(());
      ApplySound(before, Ingesting(p));
      hide Sound, RemoveDocument, IntegrateConcepts;
      if p.replacesVersion {
        var cleared := RemoveContributions(p.document.id);
        if cleared.Failure? {
          Restore(before);
          return Failure(cleared.error);
        }
      }
      if p.concepts == [] {
        return;
      }
      var integrated := IntegrateAllConcepts(p.document, p.concepts);
      if integrated.Failure? {
        Restore(before);
        return Failure(integrated.error);
      }
      var names := BuildConceptMap(State(), integrated.value);
      IntegrateAllAssociations(p.document, names, p.associations);
      ResolveAllConflicts(integrated.value);
    }

    /** Removes a document, or fails and leaves the tables as they were. */
    method RemoveDocumentFromGraph(doc: DocumentId) returns (r: Result<(nat, nat)>)
      requires Valid()
      modifies this
      ensures Valid() && State() == Apply(old(State()), Removing(doc))
      ensures r.Success? ==> r.value == (|SoleSourced(old(State()), doc)|, |Shared(old(State()), doc)|)
      ensures r.Success? <==> !Blocked(old(State()), SoleSourced(old(State()), doc))
      ensures if r.Success? then RemoveDocument(old(State()), doc).Success?
                                 && RemoveDocument(old(State()), doc).value.graph == State()
              else State() == old(State())
    {
      var before := State();
      ApplySound(before, Removing(doc));
      RemovalClosedForm(before, doc);
      hide Sound, RemoveDocument;
      r := RemoveContributions(doc);
      if r.Failure? {
        Restore(before);
      }
    }

    method ListSupports(doc: DocumentId) returns (supports: seq<Id>)
      ensures supports == SupportIds(State(), doc)
    {
      supports := [];
      var rows := Filter(SupportFrom(State(), doc), associationSources);
      for i := 0 to |rows|
        invariant |supports| == i && forall k :: 0 <= k < i ==> supports[k] == rows[k].id
      {
        supports := supports + [rows[i].id];
      }
    }

    method ListContributions(doc: DocumentId) returns (sole: seq<Id>, shared: seq<Id>)
      ensures AsSet(sole) == SoleSourced(State(), doc) && |sole| == |SoleSourced(State(), doc)|
      ensures AsSet(shared) == Shared(State(), doc) && |shared| == |Shared(State(), doc)|
    {
      hide OnlyFrom;
      var contributed := set s | s in sources && s.document == doc :: s.concept;
      var todo := contributed;
      sole, shared := [], [];
      while todo != {}
        invariant todo <= contributed
        invariant AsSet(sole) == set c | c in contributed - todo && OnlyFrom(State(), doc, c)
        invariant AsSet(shared) == set c | c in contributed - todo && !OnlyFrom(State(), doc, c)
        invariant |sole| == |AsSet(sole)| && |shared| == |AsSet(shared)|
        decreases todo
      {
        var c :| c in todo;
        todo := todo - {c};
        AppendToSet(sole, c);
        AppendToSet(shared, c);
        if OnlyFrom(State(), doc, c) {
          sole := sole + [c];
        } else {
          shared := shared + [c];
        }
      }
      assert AsSet(sole) == SoleSourced(State(), doc);
      assert AsSet(shared) == Shared(State(), doc);
    }

    /** The contribution report: concepts the document alone sources, those it shares, each once, and its
        association sources. */
    method DocumentContribution(doc: DocumentId) returns (sole: seq<Id>, shared: seq<Id>, supports: seq<Id>)
      ensures forall c :: c in sole <==> SoleFrom(State(), doc, c)
      ensures forall c :: c in shared <==> SharedBy(State(), doc, c)
      ensures |sole| == |AsSet(sole)| && |shared| == |AsSet(shared)|
      ensures forall id :: id in supports <==> exists s :: IsSupportFrom(State(), doc, s) && s.id == id
      ensures supports == SupportIds(State(), doc)
    {
      hide SoleSourced, Shared, SoleFrom, SharedBy, SupportIds, IsSupportFrom, OnlyFrom;
      sole, shared := ListContributions(doc);
      ReportIs(State(), doc, sole, shared);
      supports := ListSupports(doc);
      forall id ensures id in supports <==> exists s :: IsSupportFrom(State(), doc, s) && s.id == id {
        SupportIdsAre(State(), doc, id);
      }
    }
  }

  lemma RemoveEachNext(r: Removal, doc: DocumentId, cs: seq<Id>, i: nat)
    requires i < |cs|
    ensures RemoveEach(r, doc, cs[i..])
         == match RemoveOne(r, doc, cs[i])
            case Failure(error) => Failure(error)
            case Success(next) => RemoveEach(next, doc, cs[i + 1..])
  {
    hide RemoveOne;
    assert cs[i..][1..] == cs[i + 1..];
  }

  lemma RemoveEachDone(r: Removal, doc: DocumentId, cs: seq<Id>)
    ensures RemoveEach(r, doc, cs[|cs|..]) == Success(r)
  {
  }

  /** The outcome of a loop that already holds `ids`, given the outcome of its remainder. */
  ghost function Prefixed(ids: seq<Id>, rest: Result<IntegratedAll>): Result<IntegratedAll> {
    match rest
    case Success(x) => Success(IntegratedAll(x.graph, ids + x.concepts))
    case Failure(error) => Failure(error)
  }

  lemma PrefixedStart(r: Result<IntegratedAll>)
    ensures Prefixed([], r) == r
  {
    if r.Success? { assert [] + r.value.concepts == r.value.concepts; }
  }

  lemma PrefixedStep(g: Graph, d: Document, es: seq<Extracted>, i: nat, ids: seq<Id>)
    requires i < |es|
    ensures Prefixed(ids, IntegrateConcepts(g, d, es[i..]))
         == match IntegrateConcept(g, d, es[i])
            case Failure(error) => Failure(error)
            case Success(one) => Prefixed(ids + [one.concept], IntegrateConcepts(one.graph, d, es[i + 1..]))
  {
    hide IntegrateConcept;
    assert es[i..][1..] == es[i + 1..];
    var one := IntegrateConcept(g, d, es[i]);
    if one.Success? {
      var rest := IntegrateConcepts(one.value.graph, d, es[i + 1..]);
      if rest.Success? {
        assert ids + ([one.value.concept] + rest.value.concepts) == ids + [one.value.concept] + rest.value.concepts;
      }
    }
  }

  lemma PrefixedEnd(g: Graph, d: Document, ids: seq<Id>)
    ensures Prefixed(ids, IntegrateConcepts(g, d, [])) == Success(IntegratedAll(g, ids))
  {
    assert ids + [] == ids;
  }

  /** Association sources of the document whose association is of its game. */
  /** A stored association source of the document, whose association is one of the game. */
  ghost predicate IsSupportFrom(g: Graph, doc: DocumentId, s: AssociationSource) {
    && s in g.associationSources && s.document == doc
    && exists a :: a in g.associations && a.id == s.association && a.game == doc.game
  }

  lemma SupportFromIff(g: Graph, doc: DocumentId)
    ensures forall s :: s in g.associationSources && SupportFrom(g, doc)(s) <==> IsSupportFrom(g, doc, s)
    ensures forall s :: IsSupportFrom(g, doc, s) ==> s in g.associationSources
  {
    forall s | s in g.associationSources ensures SupportFrom(g, doc)(s) <==> IsSupportFrom(g, doc, s) {
      if IsSupportFrom(g, doc, s) {
        var a :| a in g.associations && a.id == s.association && a.game == doc.game;
        var i :| 0 <= i < |g.associations| && g.associations[i] == a;
      }
    }
  }

  function SupportFrom(g: Graph, doc: DocumentId): AssociationSource -> bool {
    (s: AssociationSource) =>
      s.document == doc
      && exists i :: 0 <= i < |g.associations| && g.associations[i].id == s.association
                     && g.associations[i].game == doc.game
  }

  function SupportIds(g: Graph, doc: DocumentId): seq<Id> {
    var rows := Filter(SupportFrom(g, doc), g.associationSources);
    seq(|rows|, i requires 0 <= i < |rows| => rows[i].id)
  }

  lemma SupportIdsAre(g: Graph, doc: DocumentId, id: Id)
    ensures id in SupportIds(g, doc) <==> exists s :: IsSupportFrom(g, doc, s) && s.id == id
  {
    hide SupportFrom, IsSupportFrom;
    SupportFromIff(g, doc);
    var rows, ids := Filter(SupportFrom(g, doc), g.associationSources), SupportIds(g, doc);
    assert |ids| == |rows| && forall i :: 0 <= i < |rows| ==> ids[i] == rows[i].id;
    if id in ids {
      var i :| 0 <= i < |ids| && ids[i] == id;
      assert rows[i] in rows && IsSupportFrom(g, doc, rows[i]);
    }
    if s :| IsSupportFrom(g, doc, s) && s.id == id {
      var i :| 0 <= i < |rows| && rows[i] == s;
      assert ids[i] == id;
    }
  }

  /** The document is one of several that source the concept. */
  ghost predicate SharedBy(g: Graph, doc: DocumentId, c: Id) {
    && (exists s :: s in g.sources && s.concept == c && s.document == doc)
    && (exists s :: s in g.sources && s.concept == c && s.document != doc)
  }

  lemma ReportIs(g: Graph, doc: DocumentId, sole: seq<Id>, shared: seq<Id>)
    requires AsSet(sole) == SoleSourced(g, doc) && AsSet(shared) == Shared(g, doc)
    ensures forall c :: c in sole <==> SoleFrom(g, doc, c)
    ensures forall c :: c in shared <==> SharedBy(g, doc, c)
  {
    forall c ensures c in sole <==> SoleFrom(g, doc, c) {
      SoleIff(g, doc, c);
      assert c in sole <==> c in AsSet(sole);
    }
    forall c ensures c in shared <==> SharedBy(g, doc, c) {
      assert c in shared <==> c in AsSet(shared);
    }
  }

  ghost function AsSet(cs: seq<Id>): set<Id> { set c | c in cs }

  lemma AppendToSet(cs: seq<Id>, c: Id)
    ensures AsSet(cs + [c]) == AsSet(cs) + {c}
    ensures c !in AsSet(cs) ==> |AsSet(cs + [c])| == |AsSet(cs)| + 1
  {
    assert AsSet(cs + [c]) == AsSet(cs) + {c};
  }

  function Theirs(doc: DocumentId, c: Id): Source -> bool {
    (s: Source) => s.document == doc && s.concept == c
  }

  function NotId(id: Id): Source -> bool { (s: Source) => s.id != id }

  function NotListed(rows: seq<Source>): Source -> bool {
    (s: Source) => forall i :: 0 <= i < |rows| ==> rows[i].id != s.id
  }

  lemma NoneDeleted(sources: seq<Source>, doomed: seq<Source>)
    ensures Filter(NotListed(doomed[..0]), sources) == sources
  {
    FilterAll(NotListed(doomed[..0]), sources);
  }

  lemma OneMoreDeleted(sources: seq<Source>, doomed: seq<Source>, i: nat)
    requires i < |doomed|
    ensures Filter(NotId(doomed[i].id), Filter(NotListed(doomed[..i]), sources))
         == Filter(NotListed(doomed[..i + 1]), sources)
  {
    forall s ensures NotListed(doomed[..i + 1])(s) == (NotListed(doomed[..i])(s) && NotId(doomed[i].id)(s)) {
      assert forall k :: 0 <= k < i ==> doomed[..i][k] == doomed[..i + 1][k];
      assert doomed[..i + 1][i] == doomed[i];
    }
    FilterTwice(NotListed(doomed[..i]), NotId(doomed[i].id), NotListed(doomed[..i + 1]), sources);
  }

  /** Deleting by identifier deletes exactly the rows that were listed. */
  lemma ListedAreTheirs(sources: seq<Source>, doc: DocumentId, c: Id)
    requires Pairwise(DistinctSources, sources)
    ensures forall s :: s in sources ==>
              NotListed(Filter(Theirs(doc, c), sources))(s) == NotTheirs(doc, c)(s)
  {
    var doomed := Filter(Theirs(doc, c), sources);
    forall s | s in sources ensures NotListed(doomed)(s) == NotTheirs(doc, c)(s) {
      if Theirs(doc, c)(s) {
        assert s in doomed;
        var i :| 0 <= i < |doomed| && doomed[i] == s;
      } else {
        forall i | 0 <= i < |doomed| ensures doomed[i].id != s.id {
          assert doomed[i] in doomed;
          var j :| 0 <= j < |sources| && sources[j] == doomed[i];
          var k :| 0 <= k < |sources| && sources[k] == s;
          assert j < k ==> DistinctSources(sources[j], sources[k]);
          assert k < j ==> DistinctSources(sources[k], sources[j]);
        }
      }
    }
  }
}
