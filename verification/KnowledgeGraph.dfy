/** The tables of a game's knowledge graph and the constraints between their rows. */
module KnowledgeGraph {
  import opened Common
  import opened Rows

  import LikePattern

  type Id = nat
  type GameId = nat
  type ChunkId = nat
  type ExpansionId = nat

  /** A document belongs to one game for good, so its identity names the game. */
  datatype DocumentId = DocumentId(game: GameId, number: nat)

  /** An alias points to its canonical concept; a canonical concept points nowhere. */
  datatype Concept = Concept(game: GameId, name: string, semanticType: string, description: string,
                             canonical: Option<Id>)

  datatype Source = Source(id: Id, concept: Id, document: DocumentId, chunk: ChunkId,
                           expansion: Option<ExpansionId>, documentType: string,
                           authoritative: bool, createdAt: int)

  datatype Association = Association(id: Id, game: GameId, source: Id, target: Id,
                                     relationship: string, description: Option<string>)

  datatype AssociationSource = AssociationSource(id: Id, association: Id, document: DocumentId,
                                                 chunk: ChunkId, expansion: Option<ExpansionId>)

  /** A case folding, character by character: it leaves the metacharacters of patterns alone, makes
      none, and folds once and for all. */
  ghost predicate IsFolding(lower: char -> char) {
    LikePattern.KeepsMeta(lower) && forall c :: lower(lower(c)) == lower(c)
  }

  type Folding = lower: char -> char | IsFolding(lower) witness (c: char) => c

  /** The tables.  Rows that are listed keep insertion order; `nextId` stands for the generator
      of fresh identifiers, and `lower` is the case folding in force. */
  datatype Graph = Graph(concepts: map<Id, Concept>, sources: seq<Source>,
                         associations: seq<Association>, associationSources: seq<AssociationSource>,
                         nextId: Id, lower: Folding)

  function Empty(lower: Folding): Graph { Graph(map[], [], [], [], 0, lower) }

  datatype Error = InvalidPattern | MultipleMatches | DuplicateName | StillReferenced

  datatype Result<+T> = Success(value: T) | Failure(error: Error) {
    predicate IsFailure() { Failure? }

    function PropagateFailure<U>(): Result<U>
      requires Failure?
    {
      Failure(error)
    }

    function Extract(): T
      requires Success?
    {
      value
    }
  }

  // ------------------------------------------------------------------- names

  /** Case-folded spelling of a name. */
  function Fold(lower: Folding, name: string): string { LikePattern.MapChars(lower, name) }

  /** The folding of ASCII letters is one. */
  function AsciiLower(c: char): char { if 'A' <= c <= 'Z' then c - 'A' + 'a' else c }

  lemma AsciiIsFolding()
    ensures IsFolding(AsciiLower)
  {
  }

  predicate Folded(lower: Folding, s: string) { forall i :: 0 <= i < |s| ==> lower(s[i]) == s[i] }

  lemma FoldIsFolded(lower: Folding, s: string)
    ensures Folded(lower, Fold(lower, s))
    ensures Folded(lower, s) ==> Fold(lower, s) == s
    ensures LikePattern.IsPlain(Fold(lower, s)) <==> LikePattern.IsPlain(s)
  {
    assert forall i :: 0 <= i < |s| ==> (LikePattern.IsMeta(Fold(lower, s)[i]) <==> LikePattern.IsMeta(s[i]));
  }

  lemma {:induction false} InstanceIsFolded(lower: Folding, pattern: string, filler: char)
    requires !LikePattern.Dangling(pattern) && Folded(lower, pattern) && lower(filler) == filler
    ensures Folded(lower, LikePattern.Instance(pattern, filler))
    decreases |pattern|
  {
    if pattern != "" {
      InstanceIsFolded(lower, if pattern[0] == '\\' then pattern[2..] else pattern[1..], filler);
    }
  }

  /** An unescaped lookup by `ilike(name)` is equality up to case if and only if the name holds no
      metacharacter. */
  lemma LookupIsEqualityIffPlain(lower: Folding, name: string)
    ensures (forall text :: LikePattern.IlikeMatches(lower, name, text) <==> Fold(lower, text) == Fold(lower, name))
       <==> LikePattern.IsPlain(name)
  {
    var pattern := Fold(lower, name);
    FoldIsFolded(lower, name);
    if LikePattern.IsPlain(name) {
      forall text ensures LikePattern.IlikeMatches(lower, name, text) <==> Fold(lower, text) == Fold(lower, name) {
        LikePattern.PlainMatchesOnlyItself(pattern, Fold(lower, text));
      }
    } else if LikePattern.Dangling(pattern) {
      LikePattern.DanglingMatchesNothing(pattern, pattern);
      assert !(LikePattern.IlikeMatches(lower, name, name) <==> Fold(lower, name) == Fold(lower, name));
    } else {
      var filler := lower('x');
      assert !LikePattern.IsMeta(filler);
      LikePattern.InstanceMatches(pattern, filler);
      InstanceIsFolded(lower, pattern, filler);
      var text := LikePattern.Instance(pattern, filler);
      FoldIsFolded(lower, text);
      assert !(LikePattern.IlikeMatches(lower, name, text) <==> Fold(lower, text) == Fold(lower, name));
    }
  }

  /** The rows that `name ILIKE :name` selects in a game. */
  ghost function Hits(lower: Folding, concepts: map<Id, Concept>, game: GameId, name: string): set<Id> {
    set c | c in concepts && concepts[c].game == game
            && LikePattern.IlikeMatches(lower, name, concepts[c].name)
  }

  lemma SeveralIff(hits: set<Id>, c: Id)
    requires c in hits
    ensures hits == {c} <==> |hits| == 1
  {
    if |hits| == 1 {
      assert |hits - {c}| == 0;
    }
  }

  predicate IlikeTrips(lower: Folding, name: string, text: string) {
    LikePattern.Trips(Fold(lower, name), Fold(lower, text))
  }

  /** Comparing the name with some row of the game is an error. */
  ghost predicate Raises(lower: Folding, concepts: map<Id, Concept>, game: GameId, name: string) {
    exists c :: c in concepts && concepts[c].game == game && IlikeTrips(lower, name, concepts[c].name)
  }

  /** A name that matches anything raises nowhere. */
  lemma MatchingRaisesNothing(lower: Folding, concepts: map<Id, Concept>, game: GameId, name: string, matched: string)
    requires LikePattern.IlikeMatches(lower, name, matched)
    ensures !Raises(lower, concepts, game, name)
  {
    forall c | c in concepts ensures !IlikeTrips(lower, name, concepts[c].name) {
      LikePattern.MatchingNeverTrips(Fold(lower, name), Fold(lower, matched), Fold(lower, concepts[c].name));
    }
  }

  /** `scalar_one_or_none`: at most one row, or an exception; an invalid pattern is one too. */
  ghost function FindByName(lower: Folding, concepts: map<Id, Concept>, game: GameId, name: string)
    : (r: Result<Option<Id>>)
    ensures r.Success? && r.value.Some? ==> Hits(lower, concepts, game, name) == {r.value.value}
    ensures r.Success? && r.value.None? ==> Hits(lower, concepts, game, name) == {}
    ensures r.Failure? <==> Raises(lower, concepts, game, name) || |Hits(lower, concepts, game, name)| > 1
    ensures r.Failure? ==> r.error == if Raises(lower, concepts, game, name) then InvalidPattern else MultipleMatches
  {
    var hits := Hits(lower, concepts, game, name);
    if Raises(lower, concepts, game, name) then Failure(InvalidPattern)
    else if hits == {} then Success(None)
    else
      var c :| c in hits;
      SeveralIff(hits, c);
      if hits == {c} then Success(Some(c)) else Failure(MultipleMatches)
  }

  /** The constraint `uq_concept_name_per_game` would reject the name. */
  predicate NameTaken(concepts: map<Id, Concept>, game: GameId, name: string) {
    exists c :: c in concepts && concepts[c].game == game && concepts[c].name == name
  }

  // --------------------------------------------------------------- constraints

  predicate DistinctSources(a: Source, b: Source) {
    a.id != b.id && !(a.concept == b.concept && a.chunk == b.chunk)
  }

  predicate SameKey(a: Association, b: Association) {
    a.game == b.game && a.source == b.source && a.target == b.target && a.relationship == b.relationship
  }

  predicate DistinctAssociations(a: Association, b: Association) {
    a.id != b.id && !SameKey(a, b)
  }

  predicate DistinctAssociationSources(a: AssociationSource, b: AssociationSource) {
    a.id != b.id && !(a.association == b.association && a.chunk == b.chunk)
  }

  ghost predicate IsCanonical(g: Graph, c: Id) { c in g.concepts && g.concepts[c].canonical.None? }

  /** Exact names are unique in a game, and an alias points one hop to a live canonical concept
      of its own game. */
  ghost predicate ConceptsSound(g: Graph) {
    && (forall c :: c in g.concepts ==> c < g.nextId)
    && (forall c, d :: c in g.concepts && d in g.concepts && c != d
                       && g.concepts[c].game == g.concepts[d].game
                       ==> g.concepts[c].name != g.concepts[d].name)
    && (forall c :: c in g.concepts && g.concepts[c].canonical.Some? ==>
          IsCanonical(g, g.concepts[c].canonical.value)
          && g.concepts[g.concepts[c].canonical.value].game == g.concepts[c].game)
  }

  /** Sources hang on canonical concepts of the document's game, one to a chunk. */
  ghost predicate SourcesSound(g: Graph) {
    && (forall s :: s in g.sources ==>
          s.id < g.nextId && IsCanonical(g, s.concept) && g.concepts[s.concept].game == s.document.game)
    && Pairwise(DistinctSources, g.sources)
  }

  ghost predicate Sourced(g: Graph, c: Id) { exists s :: s in g.sources && s.concept == c }

  /** Every canonical concept has a source. */
  ghost predicate FullySourced(g: Graph) {
    forall c :: IsCanonical(g, c) ==> Sourced(g, c)
  }

  /** No association dangles, leaves its game, or duplicates a key. */
  ghost predicate AssociationsSound(g: Graph) {
    && (forall a :: a in g.associations ==>
          && a.id < g.nextId && IsCanonical(g, a.source) && IsCanonical(g, a.target)
          && g.concepts[a.source].game == a.game && g.concepts[a.target].game == a.game)
    && Pairwise(DistinctAssociations, g.associations)
    && (forall s :: s in g.associationSources ==>
          s.id < g.nextId && exists a :: a in g.associations && a.id == s.association)
    && Pairwise(DistinctAssociationSources, g.associationSources)
  }

  ghost predicate Sound(g: Graph) {
    ConceptsSound(g) && SourcesSound(g) && FullySourced(g) && AssociationsSound(g)
  }

  /** Names differ even when case is ignored. */
  ghost predicate UniqueUpToCase(g: Graph) {
    forall c, d :: c in g.concepts && d in g.concepts && c != d
                   && g.concepts[c].game == g.concepts[d].game
                   ==> Fold(g.lower, g.concepts[c].name) != Fold(g.lower, g.concepts[d].name)
  }
}
