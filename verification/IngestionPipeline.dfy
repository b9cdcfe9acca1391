/** Processing one document version: stages over a shared context, chunk rows, failure and retry. */
module IngestionPipeline {
  import opened Common
  import opened Rows

  type DocumentId = nat
  type VersionId = nat

  /** A chunk as the chunking stage produces it. */
  datatype Chunk = Chunk(index: nat, content: string)

  /** A stored chunk; `(document, version, index)` is a unique key. */
  datatype Row = Row(document: DocumentId, version: VersionId, chunk: Chunk)

  datatype Status = Uploaded | Parsing | Processed | Error

  datatype Event =
    | StartedEvent(document: DocumentId)
    | StageEvent(document: DocumentId, stage: Stage)
    | CompletedEvent(document: DocumentId, count: nat)
    | ErrorEvent(document: DocumentId)

  // ------------------------------------------------------------------- stages

  datatype Stage = Validation | Extraction | StructureDetection | Chunking | Handoff

  const STAGES := [Validation, Extraction, StructureDetection, Chunking, Handoff]

  /** The fields that stages read and write; parser output is left abstract. */
  datatype Context = Context(filePath: string, format: string, fileSize: int,
                             parsed: Option<nat>, structured: Option<nat>, chunks: seq<Chunk>)

  /** What lies outside: the parser (absent for an unknown format, or failing), the chunking
      strategy, and whether the hand-off to the knowledge graph succeeds. */
  datatype World = World(parse: string -> Option<nat>, chunk: nat -> Option<seq<Chunk>>, accepts: bool)

  /** One stage; `None` when it raises. */
  function ExecuteStage(stage: Stage, c: Context, w: World): Option<Context> {
    match stage
    case Validation => if c.filePath == "" || c.format == "" || c.fileSize <= 0 then None else Some(c)
    case Extraction => (match w.parse(c.format) case None => None case Some(p) => Some(c.(parsed := Some(p))))
    case StructureDetection => if c.parsed.None? then None else Some(c.(structured := c.parsed))
    case Chunking =>
      if c.structured.None? then None
      else (match w.chunk(c.structured.value) case None => None case Some(cs) => Some(c.(chunks := cs)))
    case Handoff => if c.chunks == [] || !w.accepts then None else Some(c)
  }

  /** What one attempt asks of the database and of the event channel, in order of asking. */
  datatype Call =
    | Load | SetParsing | PublishStarted | FirstDelete
    | PublishStage(index: nat)
    | Insert | SetProcessed | SetVersion | PublishCompleted
    | LastDelete | SetError | PublishError

  /** One attempt: the context it loads, the world it meets, and the calls that are refused. */
  datatype Attempt = Attempt(context: Context, world: World, refused: Call -> bool)

  /** The stages from the `i`-th on: each is announced, then executed. */
  function RunStages(stages: seq<Stage>, i: nat, c: Context, a: Attempt): Option<Context>
    requires i <= |stages|
    decreases |stages| - i
  {
    if i == |stages| then Some(c)
    else if a.refused(PublishStage(i)) then None
    else match ExecuteStage(stages[i], c, a.world)
      case None => None
      case Some(c') => RunStages(stages, i + 1, c', a)
  }

  /** How many of those stages are announced: all of them, or those up to the one that raises. */
  function Announced(stages: seq<Stage>, i: nat, c: Context, a: Attempt): (n: nat)
    requires i <= |stages|
    ensures i + n <= |stages|
    decreases |stages| - i
  {
    if i == |stages| || a.refused(PublishStage(i)) then 0
    else match ExecuteStage(stages[i], c, a.world)
      case None => 1
      case Some(c') => 1 + Announced(stages, i + 1, c', a)
  }

  /** In the standard order the checks for a missing earlier result never fire: the stages
      succeed exactly when all are announced, the file is valid, a parser and the strategy accept
      it, some chunk comes out, and the hand-off succeeds. */
  lemma StandardOrder(a: Attempt)
    ensures var c, w := a.context, a.world;
            && (RunStages(STAGES, 0, c, a).Some?
                <==> && (forall i :: 0 <= i < |STAGES| ==> !a.refused(PublishStage(i)))
                     && c.filePath != "" && c.format != "" && c.fileSize > 0
                     && w.parse(c.format).Some?
                     && w.chunk(w.parse(c.format).value).Some?
                     && w.chunk(w.parse(c.format).value).value != [] && w.accepts)
            && (RunStages(STAGES, 0, c, a).Some?
                ==> RunStages(STAGES, 0, c, a).value.chunks == w.chunk(w.parse(c.format).value).value)
  {
    var c, w := a.context, a.world;
    StageStep(STAGES, 0, c, a);
    StageStep(STAGES, 1, c, a);
    if w.parse(c.format).Some? {
      var c1 := c.(parsed := w.parse(c.format));
      var c2 := c1.(structured := c1.parsed);
      StageStep(STAGES, 2, c1, a);
      StageStep(STAGES, 3, c2, a);
      if w.chunk(c2.structured.value).Some? {
        StageStep(STAGES, 4, c2.(chunks := w.chunk(c2.structured.value).value), a);
      }
    }
  }

  lemma StageStep(stages: seq<Stage>, i: nat, c: Context, a: Attempt)
    requires i < |stages|
    ensures RunStages(stages, i, c, a)
         == if a.refused(PublishStage(i)) then None
            else match ExecuteStage(stages[i], c, a.world)
                 case None => None
                 case Some(c') => if i + 1 == |stages| then Some(c') else RunStages(stages, i + 1, c', a)
  {
  }

  // ----------------------------------------------------------------- database

  /** Chunks of one version have distinct indices. */
  predicate DistinctIndices(chunks: seq<Chunk>) {
    forall i, j :: 0 <= i < j < |chunks| ==> chunks[i].index != chunks[j].index
  }

  function RowsOf(document: DocumentId, version: VersionId, chunks: seq<Chunk>): (r: seq<Row>)
    ensures |r| == |chunks| && forall i :: 0 <= i < |r| ==> r[i] == Row(document, version, chunks[i])
  {
    seq(|chunks|, i requires 0 <= i < |chunks| => Row(document, version, chunks[i]))
  }

  function IsOf(document: DocumentId, version: VersionId): Row -> bool {
    (r: Row) => r.document == document && r.version == version
  }

  function IsNotOf(document: DocumentId, version: VersionId): Row -> bool {
    (r: Row) => !(r.document == document && r.version == version)
  }

  /** Rows of one version, and all the other rows. */
  function Mine(rows: seq<Row>, document: DocumentId, version: VersionId): (r: seq<Row>)
    ensures forall x :: x in r <==> x in rows && x.document == document && x.version == version
  {
    Filter(IsOf(document, version), rows)
  }

  function Others(rows: seq<Row>, document: DocumentId, version: VersionId): (r: seq<Row>)
    ensures forall x :: x in r <==> x in rows && (x.document != document || x.version != version)
  {
    Filter(IsNotOf(document, version), rows)
  }

  lemma PartsConcat(a: seq<Row>, b: seq<Row>, document: DocumentId, version: VersionId)
    ensures Mine(a + b, document, version) == Mine(a, document, version) + Mine(b, document, version)
    ensures Others(a + b, document, version) == Others(a, document, version) + Others(b, document, version)
  {
    hide Filter;
    FilterConcat(IsOf(document, version), a, b);
    FilterConcat(IsNotOf(document, version), a, b);
  }

  lemma PartsOfOthers(rows: seq<Row>, document: DocumentId, version: VersionId)
    ensures Mine(Others(rows, document, version), document, version) == []
    ensures Others(Others(rows, document, version), document, version) == Others(rows, document, version)
  {
    hide Filter;
    var others := Others(rows, document, version);
    FilterNone(IsOf(document, version), others);
    FilterAll(IsNotOf(document, version), others);
  }

  lemma PartsOfOwn(document: DocumentId, version: VersionId, chunks: seq<Chunk>)
    ensures Mine(RowsOf(document, version, chunks), document, version) == RowsOf(document, version, chunks)
    ensures Others(RowsOf(document, version, chunks), document, version) == []
  {
    hide Filter;
    var own := RowsOf(document, version, chunks);
    FilterAll(IsOf(document, version), own);
    FilterNone(IsNotOf(document, version), own);
  }

  // ------------------------------------------------------- what becomes of an attempt

  /** The protected block is entered; what goes wrong before it reaches no handler. */
  predicate Entered(a: Attempt) {
    !a.refused(Load) && !a.refused(SetParsing) && !a.refused(PublishStarted) && !a.refused(FirstDelete)
  }

  /** The chunks to be stored, if the stages get that far. */
  function Produced(stages: seq<Stage>, a: Attempt): Option<seq<Chunk>> {
    match RunStages(stages, 0, a.context, a)
    case None => None
    case Some(c) => Some(c.chunks)
  }

  /** The commit of the chunk rows is rejected, by the unique key or otherwise. */
  predicate Rejected(a: Attempt, chunks: seq<Chunk>) { a.refused(Insert) || !DistinctIndices(chunks) }

  predicate Stored(stages: seq<Stage>, a: Attempt) {
    Entered(a) && Produced(stages, a).Some? && !Rejected(a, Produced(stages, a).value)
  }

  predicate Succeeds(stages: seq<Stage>, a: Attempt) {
    Stored(stages, a) && !a.refused(SetProcessed) && !a.refused(SetVersion) && !a.refused(PublishCompleted)
  }

  /** A statement or commit was rejected inside the protected block.  Nobody rolls back, so the
      session serves no further statement. */
  predicate SessionLost(stages: seq<Stage>, a: Attempt) {
    && Entered(a) && Produced(stages, a).Some?
    && (Rejected(a, Produced(stages, a).value) || a.refused(SetProcessed) || a.refused(SetVersion))
  }

  lemma SuccessNeedsEntry(stages: seq<Stage>, a: Attempt)
    ensures Succeeds(stages, a) ==> Entered(a)
  {
    hide RunStages, DistinctIndices;
  }

  predicate CleansUp(stages: seq<Stage>, a: Attempt) { !SessionLost(stages, a) && !a.refused(LastDelete) }

  predicate MarksError(stages: seq<Stage>, a: Attempt) { CleansUp(stages, a) && !a.refused(SetError) }

  /** The chunks of the version that an attempt leaves behind once it entered the block. */
  function Left(stages: seq<Stage>, a: Attempt): seq<Chunk> {
    if Stored(stages, a) && (Succeeds(stages, a) || !CleansUp(stages, a))
    then Produced(stages, a).value else []
  }

  lemma SuccessLeavesAll(stages: seq<Stage>, a: Attempt)
    requires Succeeds(stages, a)
    ensures Entered(a) && Produced(stages, a).Some?
    ensures Left(stages, a) == Produced(stages, a).value && DistinctIndices(Left(stages, a))
  {
    hide RunStages;
  }

  lemma NoRows(document: DocumentId, version: VersionId)
    ensures RowsOf(document, version, []) == []
  {
  }

  /** The status it leaves, given the one before. */
  function StatusAfter(stages: seq<Stage>, a: Attempt, before: Option<Status>): Option<Status> {
    if a.refused(Load) || a.refused(SetParsing) then before
    else if Entered(a) && !Succeeds(stages, a) && MarksError(stages, a) then Some(Error)
    else if Stored(stages, a) && !a.refused(SetProcessed) then Some(Processed)
    else Some(Parsing)
  }

  function StageEvents(document: DocumentId, stages: seq<Stage>, n: nat): (r: seq<Event>)
    requires n <= |stages|
    ensures |r| == n && forall i :: 0 <= i < n ==> r[i] == StageEvent(document, stages[i])
  {
    seq(n, i requires 0 <= i < n => StageEvent(document, stages[i]))
  }

  function Ending(document: DocumentId, stages: seq<Stage>, a: Attempt): seq<Event> {
    if Succeeds(stages, a) then [CompletedEvent(document, |Produced(stages, a).value|)]
    else if MarksError(stages, a) && !a.refused(PublishError) then [ErrorEvent(document)]
    else []
  }

  /** What an attempt publishes. */
  function Published(document: DocumentId, stages: seq<Stage>, a: Attempt): seq<Event> {
    if a.refused(Load) || a.refused(SetParsing) || a.refused(PublishStarted) then []
    else if a.refused(FirstDelete) then [StartedEvent(document)]
    else [StartedEvent(document)]
         + StageEvents(document, stages, Announced(stages, 0, a.context, a)) + Ending(document, stages, a)
  }

  predicate IsTerminal(e: Event) { e.CompletedEvent? || e.ErrorEvent? }

  /** The calls of an attempt, but for those of its failure handler. */
  predicate Needed(call: Call) {
    && call != LastDelete && call != SetError && call != PublishError
    && (call.PublishStage? ==> call.index < 5)
  }

  ghost predicate Fit(a: Attempt) {
    && (forall call :: Needed(call) ==> !a.refused(call))
    && a.context.filePath != "" && a.context.format != "" && a.context.fileSize > 0
    && a.world.parse(a.context.format).Some?
    && a.world.chunk(a.world.parse(a.context.format).value).Some?
    && FitChunks(a.world.chunk(a.world.parse(a.context.format).value).value)
    && a.world.accepts
  }

  ghost predicate FitChunks(chunks: seq<Chunk>) {
    chunks != [] && forall i, j :: 0 <= i < j < |chunks| ==> chunks[i].index != chunks[j].index
  }

  /** Exactly when an attempt in the standard order succeeds: no call is refused, the file is valid and
      can be parsed and cut into chunks with distinct indices, and the hand-off goes through. */
  lemma SucceedsIff(a: Attempt)
    ensures Succeeds(STAGES, a) <==> Fit(a)
  {
    StandardOrder(a);
    hide RunStages, ExecuteStage;
    if Succeeds(STAGES, a) {
      assert forall i :: 0 <= i < 5 ==> !a.refused(PublishStage(i));
      assert Fit(a);
    }
    if Fit(a) {
      assert forall i :: 0 <= i < 5 ==> !a.refused(PublishStage(i));
    }
  }

  /** What a success leaves and tells: the chunks as cut, the status PROCESSED, and the events of the
      start, the five stages in order, and the completion with the number of chunks. */
  lemma SuccessTells(document: DocumentId, a: Attempt, before: Option<Status>)
    requires Succeeds(STAGES, a)
    ensures Left(STAGES, a) == a.world.chunk(a.world.parse(a.context.format).value).value
    ensures StatusAfter(STAGES, a, before) == Some(Processed)
    ensures Published(document, STAGES, a)
         == [StartedEvent(document), StageEvent(document, Validation), StageEvent(document, Extraction),
             StageEvent(document, StructureDetection), StageEvent(document, Chunking),
             StageEvent(document, Handoff), CompletedEvent(document, |Left(STAGES, a)|)]
  {
    StandardOrder(a);
    AllAnnounced(STAGES, 0, a.context, a);
    hide RunStages, ExecuteStage, Announced, DistinctIndices;
    assert Published(document, STAGES, a)
        == [StartedEvent(document)] + StageEvents(document, STAGES, 5) + Ending(document, STAGES, a);
  }

  lemma {:induction false} AllAnnounced(stages: seq<Stage>, i: nat, c: Context, a: Attempt)
    requires i <= |stages| && RunStages(stages, i, c, a).Some?
    ensures i + Announced(stages, i, c, a) == |stages|
    decreases |stages| - i
  {
    hide ExecuteStage;
    if i < |stages| {
      AllAnnounced(stages, i + 1, ExecuteStage(stages[i], c, a.world).value, a);
    }
  }

  /** How far the stages of the standard order get, when all can be announced: the first that raises is the
      last one announced. */
  lemma AnnouncedInOrder(a: Attempt)
    requires forall i :: 0 <= i < 5 ==> !a.refused(PublishStage(i))
    ensures var c, w := a.context, a.world;
            Announced(STAGES, 0, c, a)
            == if c.filePath == "" || c.format == "" || c.fileSize <= 0 then 1
               else if w.parse(c.format).None? then 2
               else if w.chunk(w.parse(c.format).value).None? then 4
               else 5
  {
    var c, w := a.context, a.world;
    AnnouncedStep(STAGES, 0, c, a);
    AnnouncedStep(STAGES, 1, c, a);
    if w.parse(c.format).Some? {
      var c1 := c.(parsed := w.parse(c.format));
      var c2 := c1.(structured := c1.parsed);
      AnnouncedStep(STAGES, 2, c1, a);
      AnnouncedStep(STAGES, 3, c2, a);
      if w.chunk(c2.structured.value).Some? {
        AnnouncedStep(STAGES, 4, c2.(chunks := w.chunk(c2.structured.value).value), a);
      }
    }
  }

  lemma AnnouncedStep(stages: seq<Stage>, i: nat, c: Context, a: Attempt)
    requires i < |stages|
    ensures Announced(stages, i, c, a)
         == if a.refused(PublishStage(i)) then 0
            else match ExecuteStage(stages[i], c, a.world)
                 case None => 1
                 case Some(c') => if i + 1 == |stages| then 1 else 1 + Announced(stages, i + 1, c', a)
  {
  }

  /** The status an attempt leaves, case by case. */
  lemma StatusCases(stages: seq<Stage>, a: Attempt, before: Option<Status>)
    ensures var after := StatusAfter(stages, a, before);
            && (a.refused(Load) || a.refused(SetParsing) ==> after == before)
            && (!a.refused(Load) && !a.refused(SetParsing) && !Entered(a) ==> after == Some(Parsing))
            && (Entered(a) && !SessionLost(stages, a) && !Succeeds(stages, a) ==>
                  (!a.refused(LastDelete) && !a.refused(SetError) ==> after == Some(Error)))
            && (Entered(a) && SessionLost(stages, a) ==>
                  after == Some(if Stored(stages, a) && !a.refused(SetProcessed) then Processed else Parsing))
  {
    hide RunStages, DistinctIndices;
  }

  /** A failed attempt ends with the status ERROR and an error event if and only if it entered the
      block, its session still serves statements, and the handler's own three calls go through. */
  lemma EndsInErrorIff(document: DocumentId, stages: seq<Stage>, a: Attempt, before: Option<Status>)
    requires !Succeeds(stages, a)
    ensures StatusAfter(stages, a, before) == Some(Error) && ErrorEvent(document) in Published(document, stages, a)
       <==> && Entered(a) && !SessionLost(stages, a)
            && !a.refused(LastDelete) && !a.refused(SetError) && !a.refused(PublishError)
  {
    hide RunStages, Announced, DistinctIndices;
    var n := Announced(stages, 0, a.context, a);
    assert ErrorEvent(document) !in StageEvents(document, stages, n);
    if Entered(a) {
      assert Published(document, stages, a)
          == [StartedEvent(document)] + StageEvents(document, stages, n) + Ending(document, stages, a);
    }
  }

  /** The named failing input: chunks with equal indices, everything else in order.  The rejected
      commit loses the session, so the document stays in PARSING without any terminal event. */
  lemma RejectedCommitIsStuck(document: DocumentId, stages: seq<Stage>, a: Attempt, before: Option<Status>)
    requires Entered(a) && Produced(stages, a).Some? && !DistinctIndices(Produced(stages, a).value)
    ensures !Succeeds(stages, a) && Left(stages, a) == []
    ensures StatusAfter(stages, a, before) == Some(Parsing)
    ensures forall e :: e in Published(document, stages, a) ==> !IsTerminal(e)
  {
    hide RunStages, Announced;
    assert Rejected(a, Produced(stages, a).value);
    var n := Announced(stages, 0, a.context, a);
    assert Published(document, stages, a) == [StartedEvent(document)] + StageEvents(document, stages, n) + [];
  }

  /** Chunks outlive a failed attempt if and only if they were stored and then a later statement was
      refused: the next one, or the handler's delete. */
  lemma LeftBehindIff(stages: seq<Stage>, a: Attempt)
    requires !Succeeds(stages, a) && Produced(stages, a) != Some([])
    ensures Left(stages, a) != []
       <==> Stored(stages, a) && (a.refused(SetProcessed) || a.refused(SetVersion) || a.refused(LastDelete))
  {
    hide RunStages, DistinctIndices;
  }

  /** Events come in order: started, stages, then at most one terminal event, at the end. */
  lemma AtMostOneTerminal(document: DocumentId, stages: seq<Stage>, a: Attempt, i: nat)
    requires i < |Published(document, stages, a)|
    ensures var events := Published(document, stages, a);
            && (events[i].StartedEvent? <==> i == 0)
            && (IsTerminal(events[i]) ==> i == |events| - 1)
            && (0 < i && !IsTerminal(events[i]) ==> i <= |stages| && events[i] == StageEvent(document, stages[i - 1]))
  {
    hide RunStages, Announced, Succeeds, MarksError;
  }

  // ---------------------------------------------------------------------- the service

  function StatusOf(status: map<DocumentId, Status>, document: DocumentId): Option<Status> {
    if document in status then Some(status[document]) else None
  }

  ghost predicate SameElsewhere(before: map<DocumentId, Status>, after: map<DocumentId, Status>, document: DocumentId) {
    forall d :: d != document ==> StatusOf(after, d) == StatusOf(before, d)
  }

  /** The database, the event channel, and the session of the attempt that is running. */
  class Database {
    var rows: seq<Row>
    var status: map<DocumentId, Status>
    var processed: set<VersionId>
    var events: seq<Event>
    var usable: bool

    constructor ()
      ensures rows == [] && status == map[] && processed == {} && events == []
    {
      rows, status, processed, events, usable := [], map[], {}, [], true;
    }

    /** A statement goes through while the session is usable; a rejected one ends that. */
    method Ask(refused: bool) returns (ok: bool)
      modifies this`usable
      ensures ok == usable == (old(usable) && !refused)
    {
      usable := usable && !refused;
      ok := usable;
    }

    method UpdateStatus(document: DocumentId, s: Status, refused: bool) returns (ok: bool)
      modifies this`usable, this`status
      ensures ok == usable == (old(usable) && !refused)
      ensures status == if ok then old(status)[document := s] else old(status)
    {
      ok := Ask(refused);
      if ok {
        status := status[document := s];
      }
    }

    method UpdateVersion(version: VersionId, refused: bool) returns (ok: bool)
      modifies this`usable, this`processed
      ensures ok == usable == (old(usable) && !refused)
      ensures processed == if ok then old(processed) + {version} else old(processed)
    {
      ok := Ask(refused);
      if ok {
        processed := processed + {version};
      }
    }

    /** After a cleanup that goes through no row of the version remains; every other row stays. */
    method CleanupChunks(document: DocumentId, version: VersionId, refused: bool) returns (ok: bool)
      modifies this`usable, this`rows
      ensures ok == usable == (old(usable) && !refused)
      ensures ok ==> Mine(rows, document, version) == []
      ensures Others(rows, document, version) == Others(old(rows), document, version)
      ensures !ok ==> rows == old(rows)
    {
      ok := Ask(refused);
      if ok {
        PartsOfOthers(rows, document, version);
        rows := Others(rows, document, version);
      }
    }

    /** Rows become visible together, at the commit; a rejected one takes all with it, and the
        session too. */
    method PersistChunks(document: DocumentId, version: VersionId, chunks: seq<Chunk>, a: Attempt)
      returns (count: Option<nat>)
      requires usable
      modifies this`usable, this`rows
      ensures count == if Rejected(a, chunks) then None else Some(|chunks|)
      ensures usable == !Rejected(a, chunks)
      ensures rows == if Rejected(a, chunks) then old(rows) else old(rows) + RowsOf(document, version, chunks)
    {
      var pending := rows;
      for i := 0 to |chunks|
        invariant pending == rows + RowsOf(document, version, chunks[..i])
      {
        pending := pending + [Row(document, version, chunks[i])];
      }
      assert chunks[..|chunks|] == chunks;
      var ok := Ask(a.refused(Insert) || !DistinctIndices(chunks));
      if !ok {
        return None;
      }
      rows := pending;
      count := Some(|chunks|);
    }

    method Publish(e: Event, refused: bool) returns (ok: bool)
      modifies this`events
      ensures ok == !refused && events == if ok then old(events) + [e] else old(events)
    {
      if !refused {
        events := events + [e];
      }
      ok := !refused;
    }

    /** The stage loop: an event for each stage that starts, nothing else changed. */
    method RunAllStages(document: DocumentId, stages: seq<Stage>, a: Attempt) returns (context: Option<Context>)
      modifies this`events
      ensures context == RunStages(stages, 0, a.context, a)
      ensures events == old(events) + StageEvents(document, stages, Announced(stages, 0, a.context, a))
    {
      hide ExecuteStage;
      context := Some(a.context);
      var n := 0;
      while n < |stages|
        invariant n <= |stages| && context.Some?
        invariant events == old(events) + StageEvents(document, stages, n)
        invariant RunStages(stages, 0, a.context, a) == RunStages(stages, n, context.value, a)
        invariant Announced(stages, 0, a.context, a) == n + Announced(stages, n, context.value, a)
      {
        var told := Publish(StageEvent(document, stages[n]), a.refused(PublishStage(n)));
        if !told {
          return None;
        }
        context := ExecuteStage(stages[n], context.value, a.world);
        n := n + 1;
        if context.None? {
          return;
        }
      }
    }

    /** What follows the stages inside the protected block. */
    method Conclude(document: DocumentId, version: VersionId, chunks: seq<Chunk>, a: Attempt) returns (ok: bool)
      requires usable && Mine(rows, document, version) == []
      modifies this
      ensures ok == (!Rejected(a, chunks) && !a.refused(SetProcessed) && !a.refused(SetVersion)
                     && !a.refused(PublishCompleted))
      ensures usable == (!Rejected(a, chunks) && !a.refused(SetProcessed) && !a.refused(SetVersion))
      ensures Others(rows, document, version) == Others(old(rows), document, version)
      ensures Mine(rows, document, version) == if Rejected(a, chunks) then [] else RowsOf(document, version, chunks)
      ensures status == if Rejected(a, chunks) || a.refused(SetProcessed) then old(status)
                        else old(status)[document := Processed]
      ensures processed == if usable then old(processed) + {version} else old(processed)
      ensures events == if ok then old(events) + [CompletedEvent(document, |chunks|)] else old(events)
    {
      hide DistinctIndices, Filter, Mine, Others;
      PartsOfOwn(document, version, chunks);
      PartsConcat(rows, RowsOf(document, version, chunks), document, version);
      var count := PersistChunks(document, version, chunks, a);
      if count.None? {
        return false;
      }
      ok := UpdateStatus(document, Processed, a.refused(SetProcessed));
      if !ok {
        return;
      }
      ok := UpdateVersion(version, a.refused(SetVersion));
      if !ok {
        return;
      }
      ok := Publish(CompletedEvent(document, count.value), a.refused(PublishCompleted));
    }

    /** `process`, in a new session.  Whatever is refused, the rows of other versions stay; the rows
        of this one, the status and the events are those the attempt decides. */
    method Process(document: DocumentId, version: VersionId, stages: seq<Stage>, a: Attempt)
      returns (ok: bool)
      modifies this
      ensures ok == Succeeds(stages, a)
      ensures Others(rows, document, version) == Others(old(rows), document, version)
      ensures Entered(a) ==> Mine(rows, document, version) == RowsOf(document, version, Left(stages, a))
      ensures !Entered(a) ==> rows == old(rows)
      ensures StatusOf(status, document) == StatusAfter(stages, a, StatusOf(old(status), document))
      ensures SameElsewhere(old(status), status, document)
      ensures events == old(events) + Published(document, stages, a)
      ensures ok ==> version in processed
    {
      hide RunStages, Announced, Mine, Others, Filter, DistinctIndices, Succeeds, Left, Ending, StageEvents;
      SuccessNeedsEntry(stages, a);
      usable := true;
      if a.refused(Load) {
        return false;
      }
      ok := UpdateStatus(document, Parsing, a.refused(SetParsing));
      if !ok {
        return;
      }
      ok := Publish(StartedEvent(document), a.refused(PublishStarted));
      if !ok {
        return;
      }
      ok := CleanupChunks(document, version, a.refused(FirstDelete));
      if !ok {
        return;
      }
      ok := RunProtected(document, version, stages, a);
    }

    /** The protected block and its handler, entered with no rows of the version. */
    method RunProtected(document: DocumentId, version: VersionId, stages: seq<Stage>, a: Attempt)
      returns (ok: bool)
      requires Entered(a) && usable && Mine(rows, document, version) == [] && document in status
      modifies this
      ensures ok == Succeeds(stages, a)
      ensures Others(rows, document, version) == Others(old(rows), document, version)
      ensures Mine(rows, document, version) == RowsOf(document, version, Left(stages, a))
      ensures status == if !ok && MarksError(stages, a) then old(status)[document := Error]
                        else if Stored(stages, a) && !a.refused(SetProcessed) then old(status)[document := Processed]
                        else old(status)
      ensures events == old(events) + StageEvents(document, stages, Announced(stages, 0, a.context, a))
                        + Ending(document, stages, a)
      ensures ok ==> version in processed
    {
      hide RunStages, Announced, Mine, Others, Filter, DistinctIndices, StageEvents;
      NoRows(document, version);
      var context := RunAllStages(document, stages, a);
      ok := false;
      if context.Some? {
        ok := Conclude(document, version, context.value.chunks, a);
      }
      if !ok {
        HandleFailure(document, version, a);
      }
    }

    /** The handler removes partial rows, marks the error and announces it.  Its own failures are
        swallowed, the refusal of a lost session among them. */
    method HandleFailure(document: DocumentId, version: VersionId, a: Attempt)
      modifies this
      ensures Others(rows, document, version) == Others(old(rows), document, version)
      ensures if old(usable) && !a.refused(LastDelete) then Mine(rows, document, version) == [] else rows == old(rows)
      ensures var marked := old(usable) && !a.refused(LastDelete) && !a.refused(SetError);
              && status == (if marked then old(status)[document := Error] else old(status))
              && events == (if marked && !a.refused(PublishError) then old(events) + [ErrorEvent(document)]
                            else old(events))
      ensures processed == old(processed)
    {
      var ok := CleanupChunks(document, version, a.refused(LastDelete));
      if !ok {
        return;
      }
      ok := UpdateStatus(document, Error, a.refused(SetError));
      if !ok {
        return;
      }
      ok := Publish(ErrorEvent(document), a.refused(PublishError));
    }

    /** Attempts until one succeeds, each in its own session: however the failed ones ended, and
        whatever rows they left, the rows of the version are exactly those of the attempt that
        succeeded. */
    method Retry(document: DocumentId, version: VersionId, stages: seq<Stage>, attempts: seq<Attempt>)
      returns (winner: Option<nat>)
      modifies this
      ensures Others(rows, document, version) == Others(old(rows), document, version)
      ensures match winner
              case Some(k) =>
                && k < |attempts| && Succeeds(stages, attempts[k])
                && (forall i :: 0 <= i < k ==> !Succeeds(stages, attempts[i]))
                && var chunks := Produced(stages, attempts[k]).value;
                   DistinctIndices(chunks) && Mine(rows, document, version) == RowsOf(document, version, chunks)
              case None =>
                && (forall i :: 0 <= i < |attempts| ==> !Succeeds(stages, attempts[i]))
                && (attempts != [] && Entered(Last(attempts)) ==>
                      Mine(rows, document, version) == RowsOf(document, version, Left(stages, Last(attempts))))
    {
      hide Produced, Published, Mine, Others, Filter, Succeeds, Left, StatusAfter, Entered, DistinctIndices;
      for k := 0 to |attempts|
        invariant Others(rows, document, version) == Others(old(rows), document, version)
        invariant forall i :: 0 <= i < k ==> !Succeeds(stages, attempts[i])
        invariant k > 0 && Entered(attempts[k - 1]) ==>
                    Mine(rows, document, version) == RowsOf(document, version, Left(stages, attempts[k - 1]))
      {
        var ok := Process(document, version, stages, attempts[k]);
        if ok {
          SuccessLeavesAll(stages, attempts[k]);
          return Some(k);
        }
      }
      winner := None;
    }
  }
}
