/** What integrating, ingesting and removing leave in the tables, row by row. */
module GraphContributions {
  import opened Common
  import opened KnowledgeGraph
  import opened Rows
  import opened GraphIntegration
  import opened GraphRemoval
  import opened Conflicts
  import opened GraphRuns
  import LikePattern

  // ------------------------------------------------------------------ one mention

  /** Some row of the game matches the name as a pattern. */
  ghost predicate Matched(g: Graph, game: GameId, name: string) {
    exists k :: k in g.concepts && g.concepts[k].game == game
                && LikePattern.IlikeMatches(g.lower, name, g.concepts[k].name)
  }

  lemma MatchedIff(g: Graph, game: GameId, name: string)
    ensures Matched(g, game, name) <==> Hits(g.lower, g.concepts, game, name) != {}
  {
    if Matched(g, game, name) {
      var k :| k in g.concepts && g.concepts[k].game == game
               && LikePattern.IlikeMatches(g.lower, name, g.concepts[k].name);
      assert k in Hits(g.lower, g.concepts, game, name);
    }
  }

  /** Exactly what one mention of a concept does to the sources, and to the concept it names: a row
      that matches is reused, with its canonical concept; otherwise the concept is created.  The chunk
      is recorded once. */
  lemma MentionStored(g: Graph, d: Document, e: Extracted)
    requires Sound(g) && IntegrateConcept(g, d, e).Success?
    ensures var r := IntegrateConcept(g, d, e).value;
            if exists s :: s in g.sources && s.concept == r.concept && s.chunk == e.chunk
            then r.graph.sources == g.sources
            else exists id :: g.nextId <= id && r.graph.sources == g.sources
                   + [Source(id, r.concept, d.id, e.chunk, d.expansion, d.documentType, true, d.now)]
    ensures var r := IntegrateConcept(g, d, e).value;
            if Matched(g, d.id.game, e.name)
            then r.graph.concepts == g.concepts
                 && exists k :: k in g.concepts && g.concepts[k].game == d.id.game
                      && LikePattern.IlikeMatches(g.lower, e.name, g.concepts[k].name)
                      && (r.concept == k || g.concepts[k].canonical == Some(r.concept))
            else r.concept !in g.concepts && r.concept in r.graph.concepts
                 && r.graph.concepts[r.concept]
                    == Concept(d.id.game, e.name, e.semanticType, e.description, None)
  {
    hide AssociationsSound, FullySourced, Pairwise;
    var r := IntegrateConcept(g, d, e).value;
    match FindByName(g.lower, g.concepts, d.id.game, e.name).value
    case Some(k) =>
      assert k in Hits(g.lower, g.concepts, d.id.game, e.name);
      HasSourceIff(g, r.concept, e.chunk);
    case None =>
      MatchedIff(g, d.id.game, e.name);
      CreatedStays(g, d, e);
      CreateSourcedSound(g, d, e);
      AddAliasesSound(CreateSourced(g, d, e).value, d, g.nextId, e, e.aliases);
  }

  lemma HasSourceIff(g: Graph, c: Id, chunk: ChunkId)
    ensures HasSource(g, c, chunk) <==> exists s :: s in g.sources && s.concept == c && s.chunk == chunk
  {
    if s :| s in g.sources && s.concept == c && s.chunk == chunk {
      var i :| 0 <= i < |g.sources| && g.sources[i] == s;
    }
    if HasSource(g, c, chunk) {
      var i :| 0 <= i < |g.sources| && g.sources[i].concept == c && g.sources[i].chunk == chunk;
      assert g.sources[i] in g.sources;
    }
  }

  // ---------------------------------------------------------------------- aliases

  /** The row of an alias points to the concept. */
  ghost predicate IsAliasRow(row: Concept, game: GameId, c: Id, e: Extracted, a: string) {
    && row.game == game && row.name == a && row.canonical == Some(c)
    && row.semanticType == e.semanticType && row.description == "Alias for " + e.name
  }

  ghost predicate AliasStored(g: Graph, game: GameId, c: Id, e: Extracted, a: string) {
    exists k :: k in g.concepts && IsAliasRow(g.concepts[k], game, c, e, a)
  }

  ghost predicate IsRowOfSome(row: Concept, game: GameId, c: Id, e: Extracted, names: seq<string>) {
    exists a :: a in names && IsAliasRow(row, game, c, e, a)
  }

  /** Exactly what one alias does: nothing if some row matches it, else one row. */
  lemma OneAlias(g: Graph, d: Document, c: Id, e: Extracted, a: string)
    requires Sound(g) && IsCanonical(g, c) && g.concepts[c].game == d.id.game
    requires AddAlias(g, d.id.game, c, e, a).Success?
    ensures var g' := AddAlias(g, d.id.game, c, e, a).value;
            && Sound(g') && Grows(g, g', d) && IsCanonical(g', c)
            && if Matched(g, d.id.game, a) then g' == g
               else AliasStored(g', d.id.game, c, e, a) && g'.concepts.Keys == g.concepts.Keys + {g.nextId}
  {
    var game := d.id.game;
    match FindByName(g.lower, g.concepts, game, a).value
    case Some(k) => assert k in Hits(g.lower, g.concepts, game, a);
    case None =>
      MatchedIff(g, game, a);
      CreateAliasSound(g, d, c, e, a);
      var g' := AddAlias(g, game, c, e, a).value;
      assert IsAliasRow(g'.concepts[g.nextId], game, c, e, a);
  }

  lemma AliasStays(g: Graph, g': Graph, d: Document, c: Id, e: Extracted, a: string)
    requires Grows(g, g', d)
    ensures AliasStored(g, d.id.game, c, e, a) ==> AliasStored(g', d.id.game, c, e, a)
    ensures Matched(g, d.id.game, a) ==> Matched(g', d.id.game, a)
  {
    if AliasStored(g, d.id.game, c, e, a) {
      var k :| k in g.concepts && IsAliasRow(g.concepts[k], d.id.game, c, e, a);
      assert k in g'.concepts;
    }
    if Matched(g, d.id.game, a) {
      var k :| k in g.concepts && g.concepts[k].game == d.id.game
               && LikePattern.IlikeMatches(g.lower, a, g.concepts[k].name);
      assert k in g'.concepts;
    }
  }

  /** Every alias ends up with a row of its own or a row that it matches, and every row added is that
      of an alias. */
  lemma {:induction false} AliasesStored(g: Graph, d: Document, c: Id, e: Extracted, names: seq<string>)
    requires Sound(g) && IsCanonical(g, c) && g.concepts[c].game == d.id.game
    requires AddAliases(g, d.id.game, c, e, names).Success?
    ensures var g' := AddAliases(g, d.id.game, c, e, names).value;
            && (forall a :: a in names ==> Matched(g', d.id.game, a) || AliasStored(g', d.id.game, c, e, a))
            && (forall k :: k in g'.concepts && k !in g.concepts ==>
                  IsRowOfSome(g'.concepts[k], d.id.game, c, e, names))
    decreases |names|
  {
    hide Sound, IsCanonical, Matched, AliasStored, AddAlias;
    if names != [] {
      var a, rest := names[0], names[1..];
      var g1, g' := AddAlias(g, d.id.game, c, e, a).value, AddAliases(g, d.id.game, c, e, names).value;
      OneAlias(g, d, c, e, a);
      AddAliasesSound(g1, d, c, e, rest);
      AliasesStored(g1, d, c, e, rest);
      AliasStays(g1, g', d, c, e, a);
      forall k | k in g'.concepts && k !in g.concepts
        ensures IsRowOfSome(g'.concepts[k], d.id.game, c, e, names)
      {
        if k in g1.concepts {
          NewAliasRow(g, d, c, e, a, k);
        } else {
          var b :| b in rest && IsAliasRow(g'.concepts[k], d.id.game, c, e, b);
          assert b in names;
        }
      }
    }
  }

  lemma NewAliasRow(g: Graph, d: Document, c: Id, e: Extracted, a: string, k: Id)
    requires AddAlias(g, d.id.game, c, e, a).Success?
    requires k in AddAlias(g, d.id.game, c, e, a).value.concepts && k !in g.concepts
    ensures IsAliasRow(AddAlias(g, d.id.game, c, e, a).value.concepts[k], d.id.game, c, e, a)
  {
  }

  /** The name leads through a lookup to the concept exactly when it matches no row but its own. */
  ghost predicate OnlyItself(g: Graph, game: GameId, a: string) {
    forall k :: k in g.concepts && g.concepts[k].game == game ==>
      (LikePattern.IlikeMatches(g.lower, a, g.concepts[k].name) ==> g.concepts[k].name == a)
  }

  lemma StoredAliasLeadsIff(g: Graph, game: GameId, c: Id, e: Extracted, a: string)
    requires Sound(g) && SelfMatching(g.lower, a) && AliasStored(g, game, c, e, a)
    ensures Leads(g, game, a, c) <==> OnlyItself(g, game, a)
  {
    hide AssociationsSound, FullySourced, SourcesSound;
    var k :| k in g.concepts && IsAliasRow(g.concepts[k], game, c, e, a);
    var hits := Hits(g.lower, g.concepts, game, a);
    assert k in hits;
    MatchingRaisesNothing(g.lower, g.concepts, game, a, a);
    SeveralIff(hits, k);
    if OnlyItself(g, game, a) {
      assert hits == {k};
    } else {
      var other :| other in g.concepts && g.concepts[other].game == game
                   && LikePattern.IlikeMatches(g.lower, a, g.concepts[other].name) && g.concepts[other].name != a;
      assert other in hits && hits != {k};
    }
  }

  /** An alias that nothing matched, neither a row before nor an earlier alias of the concept, is
      stored. */
  lemma {:induction false} UnmatchedAliasStored(g: Graph, d: Document, c: Id, e: Extracted, names: seq<string>, i: nat)
    requires Sound(g) && IsCanonical(g, c) && g.concepts[c].game == d.id.game
    requires AddAliases(g, d.id.game, c, e, names).Success? && i < |names| && !Matched(g, d.id.game, names[i])
    requires forall j :: 0 <= j < i ==> !LikePattern.IlikeMatches(g.lower, names[i], names[j])
    ensures AliasStored(AddAliases(g, d.id.game, c, e, names).value, d.id.game, c, e, names[i])
    decreases |names|
  {
    hide Sound, IsCanonical, AliasStored, AddAlias;
    var g1 := AddAlias(g, d.id.game, c, e, names[0]).value;
    OneAlias(g, d, c, e, names[0]);
    AddAliasesSound(g1, d, c, e, names[1..]);
    if i == 0 {
      AliasStays(g1, AddAliases(g, d.id.game, c, e, names).value, d, c, e, names[0]);
    } else {
      forall k | k in g1.concepts && k !in g.concepts
        ensures !LikePattern.IlikeMatches(g.lower, names[i], g1.concepts[k].name)
      {
        NewAliasRow(g, d, c, e, names[0], k);
      }
      UnmatchedAliasStored(g1, d, c, e, names[1..], i - 1);
    }
  }

  /** A concept that is new, its `i`-th alias matching neither a row of the game, nor the concept's
      name, nor an earlier alias: the alias is stored, and if it matches itself it leads to the concept
      if and only if it matches no other row by then. */
  lemma NewAliasLeadsIff(g: Graph, d: Document, e: Extracted, i: nat)
    requires Sound(g) && IntegrateConcept(g, d, e).Success? && !Matched(g, d.id.game, e.name)
    requires i < |e.aliases| && !Matched(g, d.id.game, e.aliases[i])
    requires !LikePattern.IlikeMatches(g.lower, e.aliases[i], e.name)
    requires forall j :: 0 <= j < i ==> !LikePattern.IlikeMatches(g.lower, e.aliases[i], e.aliases[j])
    ensures var r, a := IntegrateConcept(g, d, e).value, e.aliases[i];
            && AliasStored(r.graph, d.id.game, r.concept, e, a)
            && (SelfMatching(g.lower, a) ==>
                  (Leads(r.graph, d.id.game, a, r.concept) <==> OnlyItself(r.graph, d.id.game, a)))
  {
    hide Sound, AliasStored, OnlyItself, Leads;
    var r := IntegrateConcept(g, d, e).value;
    IntegrateConceptSound(g, d, e);
    UnmatchedIsNew(g, d, e);
    var g1 := CreateSourced(g, d, e).value;
    CreateSourcedSound(g, d, e);
    assert !Matched(g1, d.id.game, e.aliases[i]);
    UnmatchedAliasStored(g1, d, g.nextId, e, e.aliases, i);
    if SelfMatching(g.lower, e.aliases[i]) {
      StoredAliasLeadsIff(r.graph, d.id.game, r.concept, e, e.aliases[i]);
    }
  }

  lemma UnmatchedIsNew(g: Graph, d: Document, e: Extracted)
    requires IntegrateConcept(g, d, e).Success? && !Matched(g, d.id.game, e.name)
    ensures FindByName(g.lower, g.concepts, d.id.game, e.name) == Success(None)
    ensures CreateSourced(g, d, e).Success?
    ensures var g1 := CreateSourced(g, d, e).value;
            && AddAliases(g1, d.id.game, g.nextId, e, e.aliases).Success?
            && IntegrateConcept(g, d, e)
               == Success(Integrated(AddAliases(g1, d.id.game, g.nextId, e, e.aliases).value, g.nextId))
  {
    hide AddAliases, CreateSourced;
    MatchedIff(g, d.id.game, e.name);
  }

  /** An alias without wildcard and backslash that no row of the game matched leads to the new concept,
      by its own row or by one of the same spelling, as long as names stay unique up to case. */
  lemma PlainAliasLeads(g: Graph, d: Document, e: Extracted, a: string)
    requires Sound(g) && IntegrateConcept(g, d, e).Success? && !Matched(g, d.id.game, e.name)
    requires UniqueUpToCase(IntegrateConcept(g, d, e).value.graph)
    requires a in e.aliases && LikePattern.IsPlain(a) && !Matched(g, d.id.game, a)
    ensures var r := IntegrateConcept(g, d, e).value; Leads(r.graph, d.id.game, a, r.concept)
  {
    hide Sound, UniqueUpToCase, IntegrateConcept, LikePattern.IlikeMatches, FindByName;
    var game, r := d.id.game, IntegrateConcept(g, d, e).value;
    AliasIsMatched(g, d, e, a);
    IntegrateConceptSound(g, d, e);
    LookupIsEqualityIffPlain(g.lower, a);
    var k :| k in r.graph.concepts && r.graph.concepts[k].game == game
             && LikePattern.IlikeMatches(g.lower, a, r.graph.concepts[k].name);
    NewRowLeads(g, d, e, k);
    FindSelected(r.graph, game, a, k);
  }

  lemma AliasIsMatched(g: Graph, d: Document, e: Extracted, a: string)
    requires Sound(g) && IntegrateConcept(g, d, e).Success? && !Matched(g, d.id.game, e.name)
    requires a in e.aliases && LikePattern.IsPlain(a)
    ensures Matched(IntegrateConcept(g, d, e).value.graph, d.id.game, a)
  {
    hide AssociationsSound, FullySourced, SourcesSound, IntegrateConcept, AddAliases, Matched, AliasStored;
    UnmatchedIsNew(g, d, e);
    CreateSourcedSound(g, d, e);
    var g1, r := CreateSourced(g, d, e).value, IntegrateConcept(g, d, e).value;
    AliasesStored(g1, d, g.nextId, e, e.aliases);
    if AliasStored(r.graph, d.id.game, r.concept, e, a) {
      StoredIsMatched(r.graph, d.id.game, r.concept, e, a);
    }
  }

  /** A concept that is new: each of its aliases has a row of its own or a row that it matches, and every
      row added beside the concept's is that of an alias. */
  lemma NewConceptStored(g: Graph, d: Document, e: Extracted)
    requires Sound(g) && IntegrateConcept(g, d, e).Success? && !Matched(g, d.id.game, e.name)
    ensures var r, game := IntegrateConcept(g, d, e).value, d.id.game;
            && (forall a :: a in e.aliases ==> Matched(r.graph, game, a) || AliasStored(r.graph, game, r.concept, e, a))
            && (forall k :: k in r.graph.concepts && k !in g.concepts && k != r.concept ==>
                  IsRowOfSome(r.graph.concepts[k], game, r.concept, e, e.aliases))
  {
    hide AssociationsSound, FullySourced, SourcesSound, IntegrateConcept, AddAliases, Matched, AliasStored;
    UnmatchedIsNew(g, d, e);
    CreateSourcedSound(g, d, e);
    AliasesStored(CreateSourced(g, d, e).value, d, g.nextId, e, e.aliases);
  }

  lemma StoredIsMatched(g: Graph, game: GameId, c: Id, e: Extracted, a: string)
    requires AliasStored(g, game, c, e, a) && LikePattern.IsPlain(a)
    ensures Matched(g, game, a)
  {
    LookupIsEqualityIffPlain(g.lower, a);
  }

  /** A row that a new concept brings is the concept or an alias of it. */
  lemma NewRowLeads(g: Graph, d: Document, e: Extracted, k: Id)
    requires Sound(g) && IntegrateConcept(g, d, e).Success? && !Matched(g, d.id.game, e.name)
    requires k in IntegrateConcept(g, d, e).value.graph.concepts
    ensures var r := IntegrateConcept(g, d, e).value;
            || (k in g.concepts && r.graph.concepts[k] == g.concepts[k])
            || (k == r.concept && IsCanonical(r.graph, k))
            || r.graph.concepts[k].canonical == Some(r.concept)
  {
    hide AssociationsSound, FullySourced, SourcesSound, IntegrateConcept, AddAliases;
    UnmatchedIsNew(g, d, e);
    CreateSourcedSound(g, d, e);
    var g1 := CreateSourced(g, d, e).value;
    AddAliasesSound(g1, d, g.nextId, e, e.aliases);
    AliasesStored(g1, d, g.nextId, e, e.aliases);
  }

  /** So a later mention under that alias is a further source of the concept, not a concept of its
      own. */
  lemma MentionByAliasJoins(g: Graph, d: Document, e: Extracted, c: Id)
    requires Sound(g) && Leads(g, d.id.game, e.name, c)
    ensures var r := IntegrateConcept(g, d, e);
            && r.Success? && r.value.concept == c && r.value.graph.concepts == g.concepts
            && exists s :: s in r.value.graph.sources && s.concept == c && s.chunk == e.chunk
  {
    hide Sound;
    var r := IntegrateConcept(g, d, e).value;
    IntegrateConceptSound(g, d, e);
    HasSourceIff(r.graph, c, e.chunk);
  }

  lemma UnmatchedAdds(g: Graph, game: GameId, c: Id, e: Extracted, a: string)
    requires !Matched(g, game, a) && '\\' !in a
    ensures AddAlias(g, game, c, e, a)
         == Success(g.(concepts := g.concepts[g.nextId := AliasOf(game, c, e, a)], nextId := g.nextId + 1))
  {
    MatchedIff(g, game, a);
    BackslashFreeIsSelfMatching(g.lower, a);
    MatchingRaisesNothing(g.lower, g.concepts, game, a, a);
  }

  lemma TwoMatchesLeadNowhere(g: Graph, game: GameId, a: string, c: Id, k: Id, l: Id)
    requires {k, l} <= Hits(g.lower, g.concepts, game, a) && k != l
    ensures !Leads(g, game, a, c)
  {
  }

  /** The failing input when an alias does match another row: of the aliases `x%` and `xy` both are
      stored, and the first leads nowhere, since it matches the second. */
  lemma WildcardAliasLeadsNowhere(lower: Folding)
    requires lower('x') != lower('v')
    ensures var d, e := Document(DocumentId(0, 0), "other", None, 0), Extracted("v", "", "", ["x%", "xy"], 0);
            var r := IntegrateConcept(Empty(lower), d, e);
            r.Success? && SelfMatching(lower, "x%") && !Leads(r.value.graph, 0, "x%", r.value.concept)
  {
    var d, e := Document(DocumentId(0, 0), "other", None, 0), Extracted("v", "", "", ["x%", "xy"], 0);
    var g, v := Empty(lower), Concept(0, "v", "", "", None);
    var x, y := AliasOf(0, 0, e, "x%"), AliasOf(0, 0, e, "xy");
    SmallMatches(lower);
    hide Fold, LikePattern.IlikeMatches, SelfMatching, AddAlias, Leads;
    MatchedIff(g, 0, "v");
    var g1 := CreateSourced(g, d, e).value;
    var g2 := g1.(concepts := map[0 := v, 2 := x], nextId := 3);
    var g3 := g1.(concepts := map[0 := v, 2 := x, 3 := y], nextId := 4);
    UnmatchedAdds(g1, 0, 0, e, "x%");
    assert AddAlias(g1, 0, 0, e, "x%") == Success(g2);
    UnmatchedAdds(g2, 0, 0, e, "xy");
    assert AddAlias(g2, 0, 0, e, "xy") == Success(g3);
    TwoAliases(g1, 0, 0, e, "x%", "xy");
    TwoMatchesLeadNowhere(g3, 0, "x%", 0, 2, 3);
  }

  lemma TwoAliases(g: Graph, game: GameId, c: Id, e: Extracted, a: string, b: string)
    requires AddAlias(g, game, c, e, a).Success? && AddAlias(AddAlias(g, game, c, e, a).value, game, c, e, b).Success?
    ensures AddAliases(g, game, c, e, [a, b]) == AddAlias(AddAlias(g, game, c, e, a).value, game, c, e, b)
  {
    hide AddAlias;
    var g1 := AddAlias(g, game, c, e, a).value;
    var g2 := AddAlias(g1, game, c, e, b).value;
    var rest := [a, b][1..];
    assert rest == [b] && AddAliases(g2, game, c, e, rest[1..]) == Success(g2);
    assert AddAliases(g1, game, c, e, rest) == Success(g2);
  }

  lemma SmallMatches(lower: Folding)
    requires lower('x') != lower('v')
    ensures SelfMatching(lower, "x%") && LikePattern.IlikeMatches(lower, "x%", "xy")
    ensures !LikePattern.IlikeMatches(lower, "x%", "v")
    ensures !LikePattern.IlikeMatches(lower, "xy", "v") && !LikePattern.IlikeMatches(lower, "xy", "x%")
    ensures FindByName(lower, map[], 0, "v") == Success(None)
  {
    BackslashFreeIsSelfMatching(lower, "x%");
    LookupIsEqualityIffPlain(lower, "xy");
    assert LikePattern.IsMeta('%') && !LikePattern.IsMeta(lower('x')) && !LikePattern.IsMeta(lower('y'));
    assert Fold(lower, "x%")[1] != Fold(lower, "xy")[1];
    assert Fold(lower, "x%")[1..] == "%";
    LikePattern.PercentMatchesAll(Fold(lower, "xy")[1..]);
  }

  // ----------------------------------------------------------------- associations

  /** An association from `s` to `t`, so labelled, that names the chunk as a source. */
  ghost predicate Linked(g: Graph, game: GameId, s: Id, t: Id, relationship: string, chunk: ChunkId) {
    exists a :: a in g.associations && a.game == game && a.source == s && a.target == t
                && a.relationship == relationship && SupportedByChunk(g, a.id, chunk)
  }

  ghost predicate SupportedByChunk(g: Graph, a: Id, chunk: ChunkId) {
    exists s :: s in g.associationSources && s.association == a && s.chunk == chunk
  }

  lemma HasAssociationSourceIff(g: Graph, a: Id, chunk: ChunkId)
    ensures HasAssociationSource(g, a, chunk) <==> SupportedByChunk(g, a, chunk)
  {
    if HasAssociationSource(g, a, chunk) {
      var i :| 0 <= i < |g.associationSources| && g.associationSources[i].association == a
               && g.associationSources[i].chunk == chunk;
      assert g.associationSources[i] in g.associationSources;
    }
    if s :| s in g.associationSources && s.association == a && s.chunk == chunk {
      var i :| 0 <= i < |g.associationSources| && g.associationSources[i] == s;
    }
  }

  /** The row links the concepts that the names of the discovered association stand for, in its
      direction and with its label. */
  ghost predicate IsLinkOf(a: Association, game: GameId, names: map<string, Id>, lower: Folding, x: Discovered) {
    var s, t := Fold(lower, x.sourceName), Fold(lower, x.targetName);
    && s in names && t in names && a.game == game && a.source == names[s] && a.target == names[t]
    && a.relationship == x.relationship
  }

  ghost predicate IsLinkOfSome(a: Association, game: GameId, names: map<string, Id>, lower: Folding,
                               xs: seq<Discovered>) {
    exists x :: x in xs && IsLinkOf(a, game, names, lower, x) && a.description == x.description
  }

  ghost predicate IsSupportOfSome(g: Graph, row: AssociationSource, d: Document, names: map<string, Id>,
                                  xs: seq<Discovered>) {
    exists x :: x in xs && IsSupportOf(g, row, d, names, x)
  }

  ghost predicate IsSupportOf(g: Graph, row: AssociationSource, d: Document, names: map<string, Id>, x: Discovered) {
    && row.document == d.id && row.expansion == d.expansion && row.chunk == x.chunk
    && exists a :: a in g.associations && a.id == row.association && IsLinkOf(a, d.id.game, names, g.lower, x)
  }

  /** Exactly what one discovered association does: when both names stand for concepts, the link is
      there afterwards with its source; all that is added is that link and that source. */
  lemma AssociationStored(g: Graph, d: Document, names: map<string, Id>, x: Discovered)
    ensures var g' := IntegrateAssociation(g, d, names, x);
            && Accumulates(g, g')
            && (var s, t := Fold(g.lower, x.sourceName), Fold(g.lower, x.targetName);
                if s in names && t in names then Linked(g', d.id.game, names[s], names[t], x.relationship, x.chunk)
                else g' == g)
            && (forall i :: |g.associations| <= i < |g'.associations| ==>
                  IsLinkOf(g'.associations[i], d.id.game, names, g.lower, x)
                  && g'.associations[i].description == x.description)
            && (forall i :: |g.associationSources| <= i < |g'.associationSources| ==>
                  IsSupportOf(g', g'.associationSources[i], d, names, x))
  {
    var s, t := Fold(g.lower, x.sourceName), Fold(g.lower, x.targetName);
    var g' := IntegrateAssociation(g, d, names, x);
    if s in names && t in names {
      var row := Association(g.nextId, d.id.game, names[s], names[t], x.relationship, x.description);
      match FindAssociation(g.associations, row)
      case Some(id) =>
        var a :| a in g.associations && SameKey(a, row) && a.id == id;
        HasAssociationSourceIff(g, id, x.chunk);
        if !HasAssociationSource(g, id, x.chunk) {
          assert g'.associationSources[|g.associationSources|].chunk == x.chunk;
        }
        assert a in g'.associations && SupportedByChunk(g', a.id, x.chunk);
      case None =>
        assert g'.associations[|g.associations|] == row;
        assert g'.associationSources[|g.associationSources|].chunk == x.chunk;
        assert row in g'.associations && SupportedByChunk(g', row.id, x.chunk);
    }
  }

  lemma LinkStays(g: Graph, g': Graph, game: GameId, s: Id, t: Id, relationship: string, chunk: ChunkId)
    requires Accumulates(g, g') && Linked(g, game, s, t, relationship, chunk)
    ensures Linked(g', game, s, t, relationship, chunk)
  {
    var a :| a in g.associations && a.game == game && a.source == s && a.target == t
             && a.relationship == relationship && SupportedByChunk(g, a.id, chunk);
    var row :| row in g.associationSources && row.association == a.id && row.chunk == chunk;
    assert row in g'.associationSources && a in g'.associations;
  }

  lemma SupportStays(g: Graph, g': Graph, row: AssociationSource, d: Document, names: map<string, Id>, x: Discovered)
    requires Accumulates(g, g') && IsSupportOf(g, row, d, names, x)
    ensures IsSupportOf(g', row, d, names, x)
  {
    var a :| a in g.associations && a.id == row.association && IsLinkOf(a, d.id.game, names, g.lower, x);
    assert a in g'.associations;
  }

  /** The same for a whole list: every association whose names are known is linked, and every row that
      is added belongs to some association of the list. */
  lemma {:induction false} AssociationsStored(g: Graph, d: Document, names: map<string, Id>, xs: seq<Discovered>)
    ensures var g' := IntegrateAssociations(g, d, names, xs);
            && Accumulates(g, g')
            && (forall x :: x in xs ==>
                  (var s, t := Fold(g.lower, x.sourceName), Fold(g.lower, x.targetName);
                   s in names && t in names ==>
                     Linked(g', d.id.game, names[s], names[t], x.relationship, x.chunk)))
            && (forall i :: |g.associations| <= i < |g'.associations| ==>
                  IsLinkOfSome(g'.associations[i], d.id.game, names, g.lower, xs))
            && (forall i :: |g.associationSources| <= i < |g'.associationSources| ==>
                  IsSupportOfSome(g', g'.associationSources[i], d, names, xs))
    decreases |xs|
  {
    hide IntegrateAssociation, Linked, IsLinkOf, IsSupportOf;
    if xs != [] {
      var x, rest := xs[0], xs[1..];
      var g1, g' := IntegrateAssociation(g, d, names, x), IntegrateAssociations(g, d, names, xs);
      AssociationStored(g, d, names, x);
      AssociationsStored(g1, d, names, rest);
      var s, t := Fold(g.lower, x.sourceName), Fold(g.lower, x.targetName);
      if s in names && t in names {
        LinkStays(g1, g', d.id.game, names[s], names[t], x.relationship, x.chunk);
      }
      forall i | |g.associations| <= i < |g'.associations|
        ensures IsLinkOfSome(g'.associations[i], d.id.game, names, g.lower, xs)
      {
        if i < |g1.associations| {
          assert g'.associations[i] == g1.associations[i] && x in xs;
        } else {
          assert IsLinkOfSome(g'.associations[i], d.id.game, names, g1.lower, rest);
          var y :| y in rest && IsLinkOf(g'.associations[i], d.id.game, names, g.lower, y)
                   && g'.associations[i].description == y.description;
          assert y in xs;
        }
      }
      forall i | |g.associationSources| <= i < |g'.associationSources|
        ensures IsSupportOfSome(g', g'.associationSources[i], d, names, xs)
      {
        if i < |g1.associationSources| {
          assert g'.associationSources[i] == g1.associationSources[i] && x in xs;
          SupportStays(g1, g', g'.associationSources[i], d, names, x);
        } else {
          assert IsSupportOfSome(g', g'.associationSources[i], d, names, rest);
          var y :| y in rest && IsSupportOf(g', g'.associationSources[i], d, names, y);
          assert y in xs;
        }
      }
    }
  }

  // ------------------------------------------------------------------- whole ingests

  /** The source was there before, its flag left out of account. */
  ghost predicate WasThere(s: Source, sources: seq<Source>) {
    exists t :: t in sources && t.(authoritative := s.authoritative) == s
  }

  /** The source stands for a mention by the document of the concept it was integrated into. */
  ghost predicate IsMention(s: Source, d: Document, es: seq<Extracted>, ids: seq<Id>) {
    && s.document == d.id && s.documentType == d.documentType && s.expansion == d.expansion
    && s.createdAt == d.now
    && exists i :: 0 <= i < |es| && i < |ids| && s.concept == ids[i] && s.chunk == es[i].chunk
  }

  lemma {:induction false} AddedAreMentions(g: Graph, d: Document, es: seq<Extracted>)
    requires Sound(g) && IntegrateConcepts(g, d, es).Success?
    ensures var r := IntegrateConcepts(g, d, es).value;
            && |g.sources| <= |r.graph.sources|
            && forall j :: |g.sources| <= j < |r.graph.sources| ==> IsMention(r.graph.sources[j], d, es, r.concepts)
    decreases |es|
  {
    hide Sound, IntegrateConcept, HasSource, IsCanonical;
    if es != [] {
      var first, r := IntegrateConcept(g, d, es[0]).value, IntegrateConcepts(g, d, es).value;
      var rest := IntegrateConcepts(first.graph, d, es[1..]).value;
      IntegrateConceptSound(g, d, es[0]);
      MentionStored(g, d, es[0]);
      IntegrateConceptsSound(first.graph, d, es[1..]);
      AddedAreMentions(first.graph, d, es[1..]);
      forall j | |g.sources| <= j < |r.graph.sources| ensures IsMention(r.graph.sources[j], d, es, r.concepts) {
        var s := r.graph.sources[j];
        if j < |first.graph.sources| {
          assert s == first.graph.sources[j] && s.concept == r.concepts[0] && s.chunk == es[0].chunk;
        } else {
          assert IsMention(s, d, es[1..], rest.concepts);
          var i :| 0 <= i < |es| - 1 && s.concept == rest.concepts[i] && s.chunk == es[1..][i].chunk;
          assert s.concept == r.concepts[i + 1] && s.chunk == es[i + 1].chunk;
        }
      }
    }
  }

  /** What an ingest leaves among the sources: each mention has one on its concept, and all that is
      not a mention was there before; of a version that is replaced nothing is left. */
  lemma IngestSources(g: Graph, p: Payload)
    requires Sound(g) && Ingest(g, p).Success? && p.concepts != []
    ensures var g', d, ids := Ingest(g, p).value, p.document, Returned(g, p);
            && |ids| == |p.concepts|
            && (forall i :: 0 <= i < |ids| ==> IsCanonical(g', ids[i]) && HasSource(g', ids[i], p.concepts[i].chunk))
            && (forall s :: s in g'.sources ==>
                  IsMention(s, d, p.concepts, ids)
                  || (WasThere(s, g.sources) && (p.replacesVersion ==> s.document != d.id)))
  {
    hide Sound, IntegrateConcepts, Finish, RemoveDocument, HasSource, IsMention, WasThere, Cleared;
    var cleared, d := Cleared(g, p).value, p.document;
    var r, g' := IntegrateConcepts(cleared, d, p.concepts).value, Ingest(g, p).value;
    ClearedSound(g, p);
    IntegrateConceptsSound(cleared, d, p.concepts);
    AddedAreMentions(cleared, d, p.concepts);
    FinishKeeps(r, p);
    forall i | 0 <= i < |r.concepts| ensures HasSource(g', r.concepts[i], p.concepts[i].chunk) {
      HasSourceThroughFlags(r.graph, g', r.concepts[i], p.concepts[i].chunk);
    }
    forall j | 0 <= j < |g'.sources|
      ensures IsMention(g'.sources[j], d, p.concepts, r.concepts)
           || (WasThere(g'.sources[j], g.sources) && (p.replacesVersion ==> g'.sources[j].document != d.id))
    {
      SourceOrigin(g, p, r, g', j);
    }
  }

  lemma SourceOrigin(g: Graph, p: Payload, r: IntegratedAll, g': Graph, j: nat)
    requires Sound(g) && Cleared(g, p).Success?
    requires var cleared := Cleared(g, p).value;
             && cleared.sources <= r.graph.sources
             && forall i :: |cleared.sources| <= i < |r.graph.sources| ==>
                  IsMention(r.graph.sources[i], p.document, p.concepts, r.concepts)
    requires SameButFlags(r.graph.sources, g'.sources) && j < |g'.sources|
    ensures IsMention(g'.sources[j], p.document, p.concepts, r.concepts)
         || (WasThere(g'.sources[j], g.sources) && (p.replacesVersion ==> g'.sources[j].document != p.document.id))
  {
    hide Sound, Cleared, IsMention;
    ClearedSources(g, p);
    var cleared, s := Cleared(g, p).value, g'.sources[j];
    if j < |cleared.sources| {
      var t := cleared.sources[j];
      assert r.graph.sources[j] == t && t in cleared.sources;
      var u :| u in g.sources && u.(authoritative := t.authoritative) == t;
      assert u.(authoritative := s.authoritative) == s;
    } else {
      MentionThroughFlags(r.graph.sources[j], s, p.document, p.concepts, r.concepts);
    }
  }

  lemma MentionThroughFlags(s: Source, t: Source, d: Document, es: seq<Extracted>, ids: seq<Id>)
    requires IsMention(s, d, es, ids) && t == s.(authoritative := t.authoritative)
    ensures IsMention(t, d, es, ids)
  {
    var i :| 0 <= i < |es| && i < |ids| && s.concept == ids[i] && s.chunk == es[i].chunk;
    assert t.concept == ids[i] && t.chunk == es[i].chunk;
  }

  lemma HasSourceThroughFlags(g: Graph, g': Graph, c: Id, chunk: ChunkId)
    requires HasSource(g, c, chunk) && SameButFlags(g.sources, g'.sources)
    ensures HasSource(g', c, chunk)
  {
    var i :| 0 <= i < |g.sources| && g.sources[i].concept == c && g.sources[i].chunk == chunk;
    assert g'.sources[i].concept == c && g'.sources[i].chunk == chunk;
  }

  lemma ClearedSources(g: Graph, p: Payload)
    requires Sound(g) && Cleared(g, p).Success?
    ensures forall s :: s in Cleared(g, p).value.sources ==>
              WasThere(s, g.sources) && (p.replacesVersion ==> s.document != p.document.id)
  {
    hide Sound, RemoveDocument;
    if p.replacesVersion {
      RemovalClosedForm(g, p.document.id);
    }
    forall s | s in Cleared(g, p).value.sources ensures WasThere(s, g.sources) {
      assert s in g.sources && s.(authoritative := s.authoritative) == s;
    }
  }

  /** What an ingest leaves among the associations: whatever the document says of two of its own
      concepts, under names that differ at most in case from the stored ones, is linked that way. */
  lemma IngestLinks(g: Graph, p: Payload, x: Discovered, i: nat, j: nat)
    requires Sound(g) && Ingest(g, p).Success? && p.concepts != [] && x in p.associations
    requires UniqueUpToCase(Ingest(g, p).value)
    requires |Returned(g, p)| == |p.concepts| && i < |p.concepts| && j < |p.concepts|
    requires var g', ids := Ingest(g, p).value, Returned(g, p);
             && ids[i] in g'.concepts && Fold(g.lower, g'.concepts[ids[i]].name) == Fold(g.lower, x.sourceName)
             && ids[j] in g'.concepts && Fold(g.lower, g'.concepts[ids[j]].name) == Fold(g.lower, x.targetName)
    ensures var ids := Returned(g, p);
            Linked(Ingest(g, p).value, p.document.id.game, ids[i], ids[j], x.relationship, x.chunk)
  {
    hide Sound, IntegrateConcepts, RemoveDocument, HasSource, Linked, IntegrateAssociations, ResolveAll;
    var cleared, d := Cleared(g, p).value, p.document;
    var r := IntegrateConcepts(cleared, d, p.concepts).value;
    ClearedSound(g, p);
    IntegrateConceptsSound(cleared, d, p.concepts);
    FinishKeeps(r, p);
    var names := BuildConceptMap(r.graph, r.concepts);
    var linked := IntegrateAssociations(r.graph, d, names, p.associations);
    AssociationsStored(r.graph, d, names, p.associations);
    NamedInMap(r.graph, d.id.game, r.concepts, i);
    NamedInMap(r.graph, d.id.game, r.concepts, j);
    LinkStays(linked, Ingest(g, p).value, d.id.game, r.concepts[i], r.concepts[j], x.relationship, x.chunk);
  }

  /** Where names are unique up to case, the map finds every concept by its name. */
  lemma NamedInMap(g: Graph, game: GameId, ids: seq<Id>, i: nat)
    requires UniqueUpToCase(g) && i < |ids|
    requires forall c :: c in ids ==> c in g.concepts && g.concepts[c].game == game
    ensures var m, name := BuildConceptMap(g, ids), Fold(g.lower, g.concepts[ids[i]].name);
            name in m && m[name] == ids[i]
  {
    var j := LastSpeltAlike(g, ids, i);
    LastOfSpellingIsFound(g, ids, j);
  }

  lemma {:induction false} LastSpeltAlike(g: Graph, ids: seq<Id>, i: nat) returns (j: nat)
    requires forall c :: c in ids ==> c in g.concepts
    requires i < |ids|
    ensures i <= j < |ids| && Fold(g.lower, g.concepts[ids[j]].name) == Fold(g.lower, g.concepts[ids[i]].name)
    ensures forall k :: j < k < |ids| ==>
              Fold(g.lower, g.concepts[ids[k]].name) != Fold(g.lower, g.concepts[ids[j]].name)
    decreases |ids| - i
  {
    if k :| i < k < |ids| && Fold(g.lower, g.concepts[ids[k]].name) == Fold(g.lower, g.concepts[ids[i]].name) {
      j := LastSpeltAlike(g, ids, k);
    } else {
      j := i;
    }
  }

  // ------------------------------------------------------------------------- removal

  /** No source of the concept is from another document, and some are from this one. */
  ghost predicate SoleFrom(g: Graph, doc: DocumentId, c: Id) {
    && (exists s :: s in g.sources && s.concept == c && s.document == doc)
    && (forall s :: s in g.sources && s.concept == c ==> s.document == doc)
  }

  /** A removal, row by row: it succeeds exactly when no alias points to a concept that this document
      alone sources; then exactly those concepts go, the document's sources, the associations that lose
      an end, and the sources of those. */
  lemma RemovalExactly(g: Graph, doc: DocumentId)
    requires Sound(g)
    ensures RemoveDocument(g, doc).Success?
       <==> !exists k, c :: k in g.concepts && g.concepts[k].canonical == Some(c) && SoleFrom(g, doc, c)
    ensures RemoveDocument(g, doc).Success? ==>
              var g' := RemoveDocument(g, doc).value.graph;
              && (forall c :: c in g'.concepts <==> c in g.concepts && !SoleFrom(g, doc, c))
              && (forall c :: c in g'.concepts ==> g'.concepts[c] == g.concepts[c])
              && (forall s :: s in g'.sources <==> s in g.sources && s.document != doc)
              && (forall a :: a in g'.associations <==>
                    a in g.associations && a.source in g'.concepts && a.target in g'.concepts)
              && (forall s :: s in g'.associationSources <==>
                    s in g.associationSources && exists a :: a in g'.associations && a.id == s.association)
  {
    hide RemoveDocument;
    RemovalClosedForm(g, doc);
    forall c ensures c in SoleSourced(g, doc) <==> SoleFrom(g, doc, c) {
      SoleIff(g, doc, c);
    }
    hide OnlyFrom, Contributed, SoleFrom;
    BlockedIff(g, doc);
    if RemoveDocument(g, doc).Success? {
      RemovedAssociationsAre(g, doc);
    }
  }

  lemma SoleIff(g: Graph, doc: DocumentId, c: Id)
    ensures c in SoleSourced(g, doc) <==> SoleFrom(g, doc, c)
  {
  }

  lemma BlockedIff(g: Graph, doc: DocumentId)
    ensures Blocked(g, SoleSourced(g, doc))
       <==> exists k, c :: k in g.concepts && g.concepts[k].canonical == Some(c) && SoleFrom(g, doc, c)
  {
    forall c ensures c in SoleSourced(g, doc) <==> SoleFrom(g, doc, c) {
      SoleIff(g, doc, c);
    }
    hide OnlyFrom, Contributed, SoleFrom;
    if k, c :| k in g.concepts && g.concepts[k].canonical == Some(c) && SoleFrom(g, doc, c) {
      assert HasAlias(g, c);
    }
    if Blocked(g, SoleSourced(g, doc)) {
      var c :| c in SoleSourced(g, doc) && HasAlias(g, c);
      var k :| k in g.concepts && g.concepts[k].canonical == Some(c);
    }
  }

  lemma RemovedAssociationsAre(g: Graph, doc: DocumentId)
    requires Sound(g)
    ensures var g' := Removed(g, doc);
            && (forall a :: a in g'.associations <==>
                  a in g.associations && a.source in g'.concepts && a.target in g'.concepts)
            && (forall s :: s in g'.associationSources <==>
                  s in g.associationSources && exists a :: a in g'.associations && a.id == s.association)
  {
    hide OnlyFrom, Contributed, Pairwise, SoleSourced, SupportedBy, FullySourced, SourcesSound;
    var g' := Removed(g, doc);
    assert forall a :: a in g.associations ==> IsCanonical(g, a.source) && IsCanonical(g, a.target);
    forall s ensures SupportedBy(g'.associations)(s) <==> exists a :: a in g'.associations && a.id == s.association {
      SupportedIff(g'.associations, s);
    }
  }

  lemma SupportedIff(rows: seq<Association>, s: AssociationSource)
    ensures SupportedBy(rows)(s) <==> exists a :: a in rows && a.id == s.association
  {
    if a :| a in rows && a.id == s.association {
      var i :| 0 <= i < |rows| && rows[i] == a;
    }
    if SupportedBy(rows)(s) {
      var i :| 0 <= i < |rows| && rows[i].id == s.association;
      assert rows[i] in rows;
    }
  }

  /** Rows keep their order through a removal. */
  lemma RemovalKeepsOrder(g: Graph, doc: DocumentId)
    requires Sound(g) && RemoveDocument(g, doc).Success?
    ensures var g' := RemoveDocument(g, doc).value.graph;
            && g'.sources == Filter((s: Source) => s.document != doc, g.sources)
            && g'.associations
               == Filter((a: Association) => a.source in g'.concepts && a.target in g'.concepts, g.associations)
  {
    hide RemoveDocument;
    RemovalClosedForm(g, doc);
    hide OnlyFrom, Contributed, Pairwise, FullySourced, SourcesSound;
    var g' := Removed(g, doc);
    FilterAgree(NotFrom(doc), (s: Source) => s.document != doc, g.sources);
    forall a | a in g.associations
      ensures NotIn(SoleSourced(g, doc))(a) == (a.source in g'.concepts && a.target in g'.concepts)
    {
      assert IsCanonical(g, a.source) && IsCanonical(g, a.target);
    }
    FilterAgree(NotIn(SoleSourced(g, doc)),
                (a: Association) => a.source in g'.concepts && a.target in g'.concepts, g.associations);
  }

  // ------------------------------------------------------------------- constraints

  /** The unique keys, spelt out: no two sources on one concept for one chunk, no two associations between
      the same ends with one label, no two sources of one association for one chunk, and no identifier
      twice. */
  lemma KeysHold(g: Graph, i: nat, j: nat)
    requires Sound(g) && i < j
    ensures j < |g.sources| ==>
              var s, t := g.sources[i], g.sources[j];
              s.id != t.id && (s.concept != t.concept || s.chunk != t.chunk)
    ensures j < |g.associations| ==>
              var a, b := g.associations[i], g.associations[j];
              && a.id != b.id
              && !(a.game == b.game && a.source == b.source && a.target == b.target && a.relationship == b.relationship)
    ensures j < |g.associationSources| ==>
              var s, t := g.associationSources[i], g.associationSources[j];
              s.id != t.id && (s.association != t.association || s.chunk != t.chunk)
  {
  }

  /** An insert is rejected exactly when it would repeat a name in a game. */
  lemma InsertAcceptedIff(g: Graph, concept: Concept)
    requires g.nextId !in g.concepts
    ensures CreateConcept(g, concept).Success?
       <==> forall c :: c in g.concepts && g.concepts[c].game == concept.game ==> g.concepts[c].name != concept.name
    ensures CreateConcept(g, concept).Success? ==>
              CreateConcept(g, concept).value.concepts == g.concepts[g.nextId := concept]
  {
  }
}
