/** The query pipeline, run while players may cancel the message being answered. */
module QueryPipeline {
  import opened Common
  import opened Rows

  datatype Event =
    | Started
    | Step(title: string)
    | Output(payload: string)
    | Token(text: string)
    | Citation(index: nat, document: string, section: string, excerpt: string)
    | Confidence(score: real, caption: string)
    | Completed
    | Cancelled
    | Failed(code: string)

  predicate IsTerminal(e: Event) { e.Completed? || e.Cancelled? || e.Failed? }

  /** A retrieval result; its source may lack a document name or a section. */
  datatype Retrieved = Retrieved(document: Option<string>, section: Option<string>, content: string)

  /** What a stage does when it runs: the events it yields (none of them terminal), whether it
      then raises, and the retrieval results that the context holds by then. */
  datatype Stage = Stage(outputs: seq<string>, raises: bool, results: seq<Retrieved>)

  const TITLES := [
    "Preparing context", "Analysing question", "Generating clarification", "Retrieving knowledge",
    "Synthesising answer", "Assembling citations", "Scoring confidence"
  ]

  const SYNTHESIS: nat := 4

  function TitleOf(i: nat): string { if i < |TITLES| then TITLES[i] else "Stage " + Decimal(i + 1) }

  lemma SynthesisIsFifth()
    ensures forall i :: TitleOf(i) == "Synthesising answer" <==> i == 4
    ensures SYNTHESIS == 4
  {
    assert forall i :: i >= |TITLES| ==> TitleOf(i)[1] == 't';
    assert TITLES[4] == "Synthesising answer";
    assert TITLES[0][0] == 'P' && TITLES[1][0] == 'A' && TITLES[2][0] == 'G' && TITLES[3][0] == 'R';
    assert TITLES[5][0] == 'A' && TITLES[6][1] == 'c';
  }

  // -------------------------------------------------------------- expected stream

  function Outputs(payloads: seq<string>): (r: seq<Event>)
    ensures |r| == |payloads| && forall i :: 0 <= i < |r| ==> r[i] == Output(payloads[i])
  {
    seq(|payloads|, i requires 0 <= i < |payloads| => Output(payloads[i]))
  }

  function Or(name: Option<string>, default: string): string {
    if name.Some? then name.value else default
  }

  /** The first 200 characters. */
  function Cut(content: string): string { if |content| <= 200 then content else content[..200] }

  /** The results a partial answer draws on. */
  function Top(results: seq<Retrieved>): seq<Retrieved> {
    if |results| <= 5 then results else results[..5]
  }

  function CitationOf(i: nat, r: Retrieved): Event {
    Citation(i, Or(r.document, "Unknown"), Or(r.section, ""), Cut(r.content))
  }

  function Citations(results: seq<Retrieved>): (r: seq<Event>)
    ensures |r| == |results| && forall i :: 0 <= i < |r| ==> r[i] == CitationOf(i + 1, results[i])
  {
    seq(|results|, i requires 0 <= i < |results| => CitationOf(i + 1, results[i]))
  }

  const PARTIAL_INTRO := "I encountered an issue generating a complete answer, "
                         + "but here are the relevant sources I found:\n\n"

  function ResultLine(i: nat, r: Retrieved): string {
    "[" + Decimal(i) + "] " + Or(r.document, "Unknown source") + ": " + Cut(r.content) + "\n\n"
  }

  function PartialText(results: seq<Retrieved>): string {
    if results == [] then PARTIAL_INTRO
    else PartialText(results[..|results| - 1]) + ResultLine(|results|, Last(results))
  }

  function PartialAnswer(results: seq<Retrieved>): seq<Event> {
    [Step("Partial answer (synthesis failed)"), Token(PartialText(Top(results)))]
    + Citations(Top(results)) + [Confidence(0.0, "Partial answer"), Completed]
  }

  method BuildPartialText(top: seq<Retrieved>) returns (text: string)
    ensures text == PartialText(top)
  {
    hide ResultLine;
    text := PARTIAL_INTRO;
    for i := 0 to |top|
      invariant text == PartialText(top[..i])
    {
      assert top[..i + 1][..i] == top[..i];
      text := text + ResultLine(i + 1, top[i]);
    }
    assert top[..|top|] == top;
  }

  lemma PartialPieces(before: seq<Event>, results: seq<Retrieved>)
    ensures before + [Step("Partial answer (synthesis failed)")] + [Token(PartialText(Top(results)))]
            + Citations(Top(results)) + [Confidence(0.0, "Partial answer")] + [Completed]
         == before + PartialAnswer(results)
  {
    hide PartialText, Citations, Top;
  }

  /** The end of the stream after stage `i` raised. */
  function AfterFailure(i: nat, stage: Stage): seq<Event> {
    if i >= SYNTHESIS && stage.results != [] then PartialAnswer(stage.results) else [Failed("SERVICE_UNAVAILABLE")]
  }

  /** The stream from stage `i` on, if the check before stage `stop` is the first to see a
      cancellation. */
  function Stream(stages: seq<Stage>, i: nat, stop: nat): seq<Event>
    requires i <= |stages|
    decreases |stages| - i
  {
    if i == |stages| then [Completed]
    else if i == stop then [Cancelled]
    else [Step(TitleOf(i))] + Outputs(stages[i].outputs)
         + if stages[i].raises then AfterFailure(i, stages[i]) else Stream(stages, i + 1, stop)
  }

  function FullStream(stages: seq<Stage>, allowed: bool, stop: nat): seq<Event> {
    [Started] + if allowed then Stream(stages, 0, stop) else [Failed("GUARDRAIL_EXCEEDED")]
  }

  /** The events of stage `i` when it runs. */
  function StageEvents(stages: seq<Stage>, i: nat): seq<Event>
    requires i < |stages|
  {
    [Step(TitleOf(i))] + Outputs(stages[i].outputs)
  }

  /** The events of the first `i` stages. */
  function Head(stages: seq<Stage>, i: nat): seq<Event>
    requires i <= |stages|
  {
    if i == 0 then [] else Head(stages, i - 1) + StageEvents(stages, i - 1)
  }

  lemma {:induction false} StreamFromHead(stages: seq<Stage>, i: nat, stop: nat)
    requires i <= |stages| && i <= stop && forall k :: 0 <= k < i ==> !stages[k].raises
    ensures Stream(stages, 0, stop) == Head(stages, i) + Stream(stages, i, stop)
  {
    hide StageEvents, AfterFailure, Stream;
    if i > 0 {
      StreamFromHead(stages, i - 1, stop);
      StreamAt(stages, i - 1, stop);
    } else {
      assert [] + Stream(stages, 0, stop) == Stream(stages, 0, stop);
    }
  }

  lemma StreamAt(stages: seq<Stage>, i: nat, stop: nat)
    requires i <= |stages|
    ensures Stream(stages, i, stop)
         == if i == |stages| then [Completed] else if i == stop then [Cancelled]
            else StageEvents(stages, i)
                 + if stages[i].raises then AfterFailure(i, stages[i]) else Stream(stages, i + 1, stop)
  {
    hide TitleOf, Outputs, AfterFailure;
  }

  lemma HeadNext(stages: seq<Stage>, i: nat)
    ensures Head(stages, 0) == []
    ensures i < |stages| ==> Head(stages, i + 1) == Head(stages, i) + StageEvents(stages, i)
  {
    hide StageEvents;
  }

  /** One terminal event, and it is the last. */
  predicate TerminatesOnce(events: seq<Event>) {
    events != [] && IsTerminal(Last(events)) && forall i :: 0 <= i < |events| - 1 ==> !IsTerminal(events[i])
  }

  lemma TerminalSuffix(a: seq<Event>, b: seq<Event>)
    requires TerminatesOnce(b) && forall i :: 0 <= i < |a| ==> !IsTerminal(a[i])
    ensures TerminatesOnce(a + b)
  {
  }

  lemma AfterFailureTerminatesOnce(i: nat, stage: Stage)
    ensures TerminatesOnce(AfterFailure(i, stage))
  {
    hide PartialText;
  }

  lemma StageEventsGoOn(stages: seq<Stage>, i: nat)
    requires i < |stages|
    ensures forall k :: 0 <= k < |StageEvents(stages, i)| ==> !IsTerminal(StageEvents(stages, i)[k])
  {
    hide TitleOf;
  }

  lemma {:induction false} StreamTerminatesOnce(stages: seq<Stage>, i: nat, stop: nat)
    requires i <= |stages|
    ensures TerminatesOnce(Stream(stages, i, stop))
    decreases |stages| - i
  {
    hide Stream, AfterFailure, StageEvents;
    StreamAt(stages, i, stop);
    if i < |stages| && i != stop {
      StageEventsGoOn(stages, i);
      if stages[i].raises {
        AfterFailureTerminatesOnce(i, stages[i]);
        TerminalSuffix(StageEvents(stages, i), AfterFailure(i, stages[i]));
      } else {
        StreamTerminatesOnce(stages, i + 1, stop);
        TerminalSuffix(StageEvents(stages, i), Stream(stages, i + 1, stop));
      }
    }
  }

  /** Every stream is started first and ends with its only terminal event. */
  lemma FullStreamTerminatesOnce(stages: seq<Stage>, allowed: bool, stop: nat)
    ensures TerminatesOnce(FullStream(stages, allowed, stop)) && FullStream(stages, allowed, stop)[0] == Started
  {
    hide Stream;
    if allowed {
      StreamTerminatesOnce(stages, 0, stop);
      TerminalSuffix([Started], Stream(stages, 0, stop));
    }
  }

  /** The stages before `i` ran to their end. */
  ghost predicate NoneRaised(stages: seq<Stage>, i: nat)
    requires i <= |stages|
  {
    forall k :: 0 <= k < i ==> !stages[k].raises
  }

  function Sent(stages: seq<Stage>, i: nat): seq<Event>
    requires i <= |stages|
  {
    [Started] + Head(stages, i)
  }

  lemma NoneRaisedNext(stages: seq<Stage>, i: nat)
    ensures NoneRaised(stages, 0)
    ensures i < |stages| && NoneRaised(stages, i) && !stages[i].raises ==> NoneRaised(stages, i + 1)
  {
  }

  lemma FinishFrom(stages: seq<Stage>, i: nat, stop: nat)
    requires i <= |stages| && i <= stop && NoneRaised(stages, i)
    ensures Sent(stages, i) + Stream(stages, i, stop) == FullStream(stages, true, stop)
  {
    hide Stream, Head;
    StreamFromHead(stages, i, stop);
  }

  lemma FinishCancelled(stages: seq<Stage>, i: nat)
    requires i < |stages| && NoneRaised(stages, i)
    ensures Sent(stages, i) + [Cancelled] == FullStream(stages, true, i)
  {
    hide FullStream, Sent, Stream;
    FinishFrom(stages, i, i);
    StreamAt(stages, i, i);
  }

  lemma FinishRaised(stages: seq<Stage>, i: nat)
    requires i < |stages| && NoneRaised(stages, i) && stages[i].raises
    ensures Sent(stages, i) + StageEvents(stages, i) + AfterFailure(i, stages[i]) == FullStream(stages, true, |stages|)
  {
    hide FullStream, Sent, Stream, StageEvents, AfterFailure;
    FinishFrom(stages, i, |stages|);
    StreamAt(stages, i, |stages|);
  }

  lemma FinishCompleted(stages: seq<Stage>)
    requires NoneRaised(stages, |stages|)
    ensures Sent(stages, |stages|) + [Completed] == FullStream(stages, true, |stages|)
  {
    hide FullStream, Sent, Stream;
    FinishFrom(stages, |stages|, |stages|);
    StreamAt(stages, |stages|, |stages|);
  }

  lemma SentNext(stages: seq<Stage>, i: nat)
    ensures Sent(stages, 0) == [Started]
    ensures i < |stages| ==> Sent(stages, i + 1) == Sent(stages, i) + StageEvents(stages, i)
  {
    hide StageEvents, Head;
    HeadNext(stages, i);
  }

  /** How many stages run from the `i`-th on: all before `stop`, or up to the one that raises. */
  function StagesRun(stages: seq<Stage>, i: nat, stop: nat): nat
    requires i <= |stages|
    decreases |stages| - i
  {
    if i == |stages| || i == stop then 0
    else if stages[i].raises then 1
    else 1 + StagesRun(stages, i + 1, stop)
  }

  /** The numbers below `n`. */
  function UpTo(n: nat): seq<nat> { if n == 0 then [] else UpTo(n - 1) + [n - 1] }

  lemma UpToNext(n: nat)
    ensures UpTo(0) == [] && UpTo(n) + [n] == UpTo(n + 1)
  {
  }

  lemma {:induction false} RunFrom(stages: seq<Stage>, i: nat, stop: nat)
    requires i <= |stages| && i <= stop && NoneRaised(stages, i)
    ensures StagesRun(stages, 0, stop) == i + StagesRun(stages, i, stop)
  {
    if i > 0 {
      RunFrom(stages, i - 1, stop);
    }
  }

  lemma RunCount(stages: seq<Stage>, i: nat, stop: nat)
    requires i <= |stages| && i <= stop && NoneRaised(stages, i)
    ensures i == |stages| || i == stop ==> StagesRun(stages, 0, stop) == i
    ensures i < |stages| && i < stop && stages[i].raises ==> StagesRun(stages, 0, stop) == i + 1
  {
    RunFrom(stages, i, stop);
  }

  // ------------------------------------------------------- how the stream ends

  /** Stage `i` is the first to raise, and it was reached. */
  ghost predicate FailsAt(stages: seq<Stage>, i: nat, stop: nat) {
    i < |stages| && i < stop && stages[i].raises && forall k :: 0 <= k < i ==> !stages[k].raises
  }

  /** The failure comes once the synthesis was due, with retrieval results in hand. */
  ghost predicate CanAnswer(stages: seq<Stage>, i: nat) {
    i < |stages| && i >= 4 && stages[i].results != []
  }

  /** A failure that can be answered leaves its results as the answer, with a score of zero. */
  ghost predicate AnswersFailure(stages: seq<Stage>, stop: nat, text: string, score: Option<real>) {
    forall i: nat :: FailsAt(stages, i, stop) && CanAnswer(stages, i) ==>
      IsPartialText(text, stages[i].results) && score == Some(0.0)
  }

  ghost predicate NoAnswer(stages: seq<Stage>, stop: nat) {
    forall i: nat :: FailsAt(stages, i, stop) ==> !CanAnswer(stages, i)
  }

  lemma NoFailure(stages: seq<Stage>, i: nat, stop: nat, text: string, score: Option<real>)
    requires i <= |stages| && (i == |stages| || i == stop) && NoneRaised(stages, i)
    ensures AnswersFailure(stages, stop, text, score)
  {
    hide IsPartialText;
  }

  lemma FirstFailure(stages: seq<Stage>, i: nat, text: string, score: Option<real>)
    requires i < |stages| && NoneRaised(stages, i) && stages[i].raises
    requires CanAnswer(stages, i) ==> IsPartialText(text, stages[i].results) && score == Some(0.0)
    ensures AnswersFailure(stages, |stages|, text, score)
    ensures NoAnswer(stages, |stages|) ==> !CanAnswer(stages, i)
  {
    hide IsPartialText;
    assert FailsAt(stages, i, |stages|);
    forall k: nat | FailsAt(stages, k, |stages|) ensures k == i {}
  }

  /** The beginning of a content, 200 characters at most. */
  ghost predicate IsExcerpt(excerpt: string, content: string) {
    excerpt <= content && (|excerpt| == 200 || (|content| <= 200 && excerpt == content))
  }

  ghost predicate IsCitation(e: Event, index: nat, r: Retrieved) {
    && e.Citation? && e.index == index && IsExcerpt(e.excerpt, r.content)
    && (match r.document case Some(name) => e.document == name case None => e.document == "Unknown")
    && (match r.section case Some(section) => e.section == section case None => e.section == "")
  }

  /** The results cited: all of them, but five at most. */
  ghost predicate CitesTop(events: seq<Event>, results: seq<Retrieved>) {
    var cited := Filter((e: Event) => e.Citation?, events);
    && |cited| == (if |results| < 5 then |results| else 5)
    && forall k :: 0 <= k < |cited| ==> IsCitation(cited[k], k + 1, results[k])
  }

  function Concatenated(lines: seq<string>): string {
    if lines == [] then "" else Concatenated(lines[..|lines| - 1]) + Last(lines)
  }

  ghost predicate IsResultLine(line: string, index: nat, r: Retrieved) {
    exists name, excerpt ::
      && IsExcerpt(excerpt, r.content)
      && (match r.document case Some(given) => name == given case None => name == "Unknown source")
      && line == "[" + Decimal(index) + "] " + name + ": " + excerpt + "\n\n"
  }

  /** The text of a partial answer: the introduction, then a line for each of the results cited. */
  ghost predicate IsPartialText(text: string, results: seq<Retrieved>) {
    exists lines: seq<string> ::
      && |lines| == (if |results| < 5 then |results| else 5)
      && (forall k :: 0 <= k < |lines| ==> IsResultLine(lines[k], k + 1, results[k]))
      && text == PARTIAL_INTRO + Concatenated(lines)
  }

  lemma {:induction false} PartialLines(top: seq<Retrieved>) returns (lines: seq<string>)
    ensures |lines| == |top| && PartialText(top) == PARTIAL_INTRO + Concatenated(lines)
    ensures forall k :: 0 <= k < |lines| ==> IsResultLine(lines[k], k + 1, top[k])
  {
    hide IsResultLine, ResultLine;
    if top == [] {
      lines := [];
      assert PARTIAL_INTRO + "" == PARTIAL_INTRO;
    } else {
      var n := |top| - 1;
      var before := PartialLines(top[..n]);
      var line := ResultLine(n + 1, Last(top));
      assert IsResultLine(line, n + 1, Last(top)) by { ResultLineIs(n + 1, Last(top)); }
      lines := before + [line];
      assert lines[..n] == before;
      assert (PARTIAL_INTRO + Concatenated(before)) + line == PARTIAL_INTRO + (Concatenated(before) + line);
    }
  }

  lemma ResultLineIs(index: nat, r: Retrieved)
    ensures IsResultLine(ResultLine(index, r), index, r)
  {
    hide Decimal;
    assert IsExcerpt(Cut(r.content), r.content);
  }

  lemma PartialTextIs(results: seq<Retrieved>)
    ensures IsPartialText(PartialText(Top(results)), results)
  {
    hide PartialText, IsResultLine, Concatenated;
    var lines := PartialLines(Top(results));
  }

  /** The stream when stage `i` raises: the events up to and including the stage's own, then what
      follows the failure. */
  lemma {:induction false} StreamOnFailure(stages: seq<Stage>, i: nat, stop: nat)
    requires FailsAt(stages, i, stop)
    ensures FullStream(stages, true, stop) == [Started] + Head(stages, i + 1) + AfterFailure(i, stages[i])
  {
    hide Stream, AfterFailure, StageEvents;
    StreamFromHead(stages, i, stop);
    StreamAt(stages, i, stop);
    HeadNext(stages, i);
  }

  /** What the stages themselves send. */
  ghost predicate OnlyStageEvents(events: seq<Event>) {
    forall e :: e in events ==> e.Started? || e.Step? || e.Output?
  }

  lemma {:induction false} HeadIsOfStages(stages: seq<Stage>, i: nat)
    requires i <= |stages|
    ensures OnlyStageEvents([Started] + Head(stages, i))
  {
    hide TitleOf;
    if i > 0 {
      HeadIsOfStages(stages, i - 1);
      assert [Started] + Head(stages, i) == ([Started] + Head(stages, i - 1)) + StageEvents(stages, i - 1);
    }
  }

  /** When a stage raises: with results in hand and the synthesis due, the player gets them as a
      partial answer, cited, with confidence zero, and the stream completes without an error;
      otherwise it ends in an error and holds no answer. */
  lemma FailureEnds(stages: seq<Stage>, i: nat, stop: nat)
    requires FailsAt(stages, i, stop)
    ensures var events := FullStream(stages, true, stop);
            if CanAnswer(stages, i) then
              && Last(events) == Completed && (forall e :: e in events ==> !e.Failed? && !e.Cancelled?)
              && CitesTop(events, stages[i].results)
              && Confidence(0.0, "Partial answer") in events
              && exists text :: IsPartialText(text, stages[i].results)
                                && Filter((e: Event) => e.Token?, events) == [Token(text)]
            else
              && Last(events) == Failed("SERVICE_UNAVAILABLE")
              && forall e :: e in events ==> !e.Completed? && !e.Cancelled? && !e.Token? && !e.Citation?
  {
    hide FullStream, Head, AfterFailure, CitesTop, IsPartialText, Filter, PartialText, PartialAnswer, OnlyStageEvents;
    StreamOnFailure(stages, i, stop);
    HeadIsOfStages(stages, i + 1);
    var before := [Started] + Head(stages, i + 1);
    if CanAnswer(stages, i) {
      AfterIsPartial(i, stages[i]);
      PartialAfter(before, stages[i].results);
    } else {
      AfterIsError(i, stages[i]);
      ErrorAfter(before);
    }
  }

  lemma PartialAfter(before: seq<Event>, results: seq<Retrieved>)
    requires OnlyStageEvents(before)
    ensures var events := before + PartialAnswer(results);
            && events != [] && Last(events) == Completed && (forall e :: e in events ==> !e.Failed? && !e.Cancelled?)
            && CitesTop(events, results) && Confidence(0.0, "Partial answer") in events
            && IsPartialText(PartialText(Top(results)), results)
            && Filter((e: Event) => e.Token?, events) == [Token(PartialText(Top(results)))]
  {
    hide PartialText, IsPartialText, PartialAnswer, Filter, OnlyStageEvents;
    OfStagesIsPlain(before);
    PartialAnswerIs(results);
    var after := PartialAnswer(results);
    FilterConcat((e: Event) => e.Citation?, before, after);
    FilterConcat((e: Event) => e.Token?, before, after);
    assert [] + Filter((e: Event) => e.Citation?, after) == Filter((e: Event) => e.Citation?, after);
  }

  lemma ErrorAfter(before: seq<Event>)
    requires OnlyStageEvents(before)
    ensures var events := before + [Failed("SERVICE_UNAVAILABLE")];
            Last(events) == Failed("SERVICE_UNAVAILABLE")
            && forall e :: e in events ==> !e.Completed? && !e.Cancelled? && !e.Token? && !e.Citation?
  {
  }

  lemma OfStagesIsPlain(events: seq<Event>)
    requires OnlyStageEvents(events)
    ensures Filter((e: Event) => e.Citation?, events) == [] && Filter((e: Event) => e.Token?, events) == []
    ensures forall e :: e in events ==> e.Started? || e.Step? || e.Output?
  {
    FilterNone((e: Event) => e.Citation?, events);
    FilterNone((e: Event) => e.Token?, events);
  }

  lemma AfterIsPartial(i: nat, stage: Stage)
    requires i >= 4 && stage.results != []
    ensures AfterFailure(i, stage) == PartialAnswer(stage.results)
  {
    hide PartialAnswer;
  }

  lemma AfterIsError(i: nat, stage: Stage)
    requires i < 4 || stage.results == []
    ensures AfterFailure(i, stage) == [Failed("SERVICE_UNAVAILABLE")]
  {
  }

  lemma PartialAnswerIs(results: seq<Retrieved>)
    ensures var events := PartialAnswer(results);
            && events != [] && Last(events) == Completed
            && (forall e :: e in events ==> !e.Failed? && !e.Cancelled?)
            && CitesTop(events, results) && Confidence(0.0, "Partial answer") in events
            && IsPartialText(PartialText(Top(results)), results)
            && Filter((e: Event) => e.Token?, events) == [Token(PartialText(Top(results)))]
  {
    hide PartialText, IsPartialText, Filter, CitesTop, Citations;
    PartialTextIs(results);
    var first := [Step("Partial answer (synthesis failed)"), Token(PartialText(Top(results)))];
    var cited, end := Citations(Top(results)), [Confidence(0.0, "Partial answer"), Completed];
    assert PartialAnswer(results) == first + cited + end;
    assert end[0] in PartialAnswer(results);
    CitationsAmong(results, first, end);
    TokensAmong(first[0], first[1], cited, end);
  }

  lemma CitationsAre(results: seq<Retrieved>)
    ensures var cited := Citations(Top(results));
            && |cited| == (if |results| < 5 then |results| else 5)
            && (forall e :: e in cited ==> e.Citation?)
            && forall k :: 0 <= k < |cited| ==> IsCitation(cited[k], k + 1, results[k])
  {
    hide IsCitation;
    var cited := Citations(Top(results));
    forall k | 0 <= k < |cited| ensures IsCitation(cited[k], k + 1, results[k]) {
      CitationIs(k + 1, results[k]);
    }
  }

  lemma CitationIs(index: nat, r: Retrieved)
    ensures IsCitation(CitationOf(index, r), index, r)
  {
    assert IsExcerpt(Cut(r.content), r.content);
  }

  lemma CitationsAmong(results: seq<Retrieved>, first: seq<Event>, end: seq<Event>)
    requires forall e :: e in first || e in end ==> !e.Citation?
    ensures CitesTop(first + Citations(Top(results)) + end, results)
    ensures forall e :: e in Citations(Top(results)) ==> e.Citation?
  {
    CitationsAre(results);
    hide IsCitation, Citations, Top;
    FilterMiddle((e: Event) => e.Citation?, first, Citations(Top(results)), end);
  }

  lemma TokensAmong(step: Event, token: Event, cited: seq<Event>, end: seq<Event>)
    requires step.Step? && token.Token? && forall e :: e in cited || e in end ==> !e.Token?
    ensures Filter((e: Event) => e.Token?, [step, token] + cited + end) == [token]
  {
    FilterMiddle((e: Event) => e.Token?, [step], [token], cited + end);
    assert [step, token] + cited + end == [step] + [token] + (cited + end);
  }

  /** Without a failure: an error when the guardrail forbids the query, a cancellation when a check saw
      one, and completion otherwise. */
  lemma OtherEnds(stages: seq<Stage>, stop: nat)
    ensures FullStream(stages, false, stop) == [Started, Failed("GUARDRAIL_EXCEEDED")]
    ensures stop < |stages| && NoneRaised(stages, stop) ==>
              FullStream(stages, true, stop) == [Started] + Head(stages, stop) + [Cancelled]
    ensures stop >= |stages| && NoneRaised(stages, |stages|) ==>
              FullStream(stages, true, stop) == [Started] + Head(stages, |stages|) + [Completed]
  {
    hide Stream, Head;
    assert FullStream(stages, false, stop) == [Started] + [Failed("GUARDRAIL_EXCEEDED")];
    if stop < |stages| && NoneRaised(stages, stop) {
      StreamFromHead(stages, stop, stop);
      StreamAt(stages, stop, stop);
    }
    if stop >= |stages| && NoneRaised(stages, |stages|) {
      StreamFromHead(stages, |stages|, stop);
      StreamAt(stages, |stages|, stop);
    }
  }

  // ---------------------------------------------------------- what stages send

  /** The titles announced and the outputs forwarded by a stream, in order. */
  datatype Sending = Title(title: string) | Payload(payload: string)

  function SendingOf(e: Event): seq<Sending> {
    match e
    case Step(title) => [Title(title)]
    case Output(payload) => [Payload(payload)]
    case _ => []
  }

  function Sendings(events: seq<Event>): seq<Sending> {
    if events == [] then [] else Sendings(events[..|events| - 1]) + SendingOf(Last(events))
  }

  /** What stage `i` should send: its title, then its outputs. */
  ghost predicate IsSendingOf(sent: seq<Sending>, i: nat, stage: Stage) {
    && |sent| == 1 + |stage.outputs| && sent[0] == Title(TitleOf(i))
    && forall k :: 0 <= k < |stage.outputs| ==> sent[k + 1] == Payload(stage.outputs[k])
  }

  lemma {:induction false} SendingsConcat(a: seq<Event>, b: seq<Event>)
    ensures Sendings(a + b) == Sendings(a) + Sendings(b)
    decreases |b|
  {
    hide SendingOf;
    if b == [] {
      assert a + b == a;
    } else {
      var n := |b| - 1;
      assert (a + b)[..|a| + n] == a + b[..n];
      SendingsConcat(a, b[..n]);
    }
  }

  lemma {:induction false} SendingsOfOutputs(payloads: seq<string>)
    ensures |Sendings(Outputs(payloads))| == |payloads|
    ensures forall k :: 0 <= k < |payloads| ==> Sendings(Outputs(payloads))[k] == Payload(payloads[k])
  {
    if payloads != [] {
      var n := |payloads| - 1;
      assert Outputs(payloads)[..n] == Outputs(payloads[..n]);
      SendingsOfOutputs(payloads[..n]);
    }
  }

  /** The events of the first `i` stages announce each and forward all it yields, in order. */
  lemma {:induction false} HeadForwards(stages: seq<Stage>, i: nat) returns (parts: seq<seq<Sending>>)
    requires i <= |stages|
    ensures |parts| == i && Sendings([Started] + Head(stages, i)) == Flat(parts)
    ensures forall k :: 0 <= k < i ==> IsSendingOf(parts[k], k, stages[k])
  {
    hide TitleOf, IsSendingOf, StageEvents, Sendings;
    if i == 0 {
      parts := [];
      StartSendsNothing();
      assert [Started] + Head(stages, 0) == [Started];
    } else {
      var before := HeadForwards(stages, i - 1);
      StageForwards(stages, i - 1);
      var head, own := [Started] + Head(stages, i - 1), StageEvents(stages, i - 1);
      SendingsConcat(head, own);
      assert [Started] + Head(stages, i) == head + own;
      parts := before + [Sendings(own)];
      assert parts[..i - 1] == before;
    }
  }

  lemma StartSendsNothing()
    ensures Sendings([Started]) == []
  {
    assert Sendings([Started][..0]) == [];
  }

  lemma StepSends(title: string)
    ensures Sendings([Step(title)]) == [Title(title)]
  {
    assert [Step(title)][..0] == [];
  }

  lemma StageForwards(stages: seq<Stage>, i: nat)
    requires i < |stages|
    ensures IsSendingOf(Sendings(StageEvents(stages, i)), i, stages[i])
  {
    hide TitleOf;
    var step := [Step(TitleOf(i))];
    SendingsConcat(step, Outputs(stages[i].outputs));
    SendingsOfOutputs(stages[i].outputs);
    StepSends(TitleOf(i));
    hide Sendings, Outputs;
  }

  function Flat(parts: seq<seq<Sending>>): seq<Sending> {
    if parts == [] then [] else Flat(parts[..|parts| - 1]) + Last(parts)
  }

  /** How many stages run, by what stopped them. */
  lemma {:induction false} StagesRunMeans(stages: seq<Stage>, i: nat, stop: nat)
    requires i <= |stages| && i <= stop
    ensures var n := i + StagesRun(stages, i, stop);
            && i <= n <= |stages| && n <= stop
            && (forall k :: i <= k < n - 1 ==> !stages[k].raises)
            && (n == |stages| || n == stop || (i < n && stages[n - 1].raises))
    decreases |stages| - i
  {
    if i < |stages| && i != stop && !stages[i].raises {
      StagesRunMeans(stages, i + 1, stop);
    }
  }

  // ------------------------------------------------------------------- the log

  /** Everything that happens, by whomever, in the order in which it happens. */
  datatype Entry =
    | Emitted(event: Event)
    | StageStarted(index: nat)
    | Checked(cancelled: bool)
    | CancelTried(success: bool)
    | Scored

  function Emissions(log: seq<Entry>): seq<Event> {
    if log == [] then []
    else Emissions(log[..|log| - 1]) + if Last(log).Emitted? then [Last(log).event] else []
  }

  /** The stages that started, in order. */
  function Starts(log: seq<Entry>): seq<nat> {
    if log == [] then []
    else Starts(log[..|log| - 1]) + if Last(log).StageStarted? then [Last(log).index] else []
  }

  lemma LogAppend(log: seq<Entry>, e: Entry)
    ensures Emissions(log + [e]) == Emissions(log) + if e.Emitted? then [e.event] else []
    ensures Starts(log + [e]) == Starts(log) + if e.StageStarted? then [e.index] else []
  {
    assert (log + [e])[..|log|] == log;
  }

  /** After a cancel request succeeds, no other does, and no check lets a stage pass. */
  ghost predicate CancelIsFinal(log: seq<Entry>) {
    forall i, j :: 0 <= i < j < |log| && log[i] == CancelTried(true) ==>
      log[j] != CancelTried(true) && log[j] != Checked(false)
  }

  /** The check at `k` found no cancellation, and no stage starts between it and `j`. */
  ghost predicate Clears(log: seq<Entry>, k: int, j: int) {
    0 <= k < j <= |log| && log[k] == Checked(false) && forall m :: k < m < j ==> !log[m].StageStarted?
  }

  /** A check found no cancellation since the last stage start. */
  ghost predicate Cleared(log: seq<Entry>) { exists k :: Clears(log, k, |log|) }

  ghost predicate StartCleared(log: seq<Entry>, j: int) { exists k :: Clears(log, k, j) }

  /** Every stage start has a check of its own that let it pass. */
  ghost predicate StartsCleared(log: seq<Entry>) {
    forall j :: 0 <= j < |log| && log[j].StageStarted? ==> StartCleared(log, j)
  }

  ghost predicate Disciplined(log: seq<Entry>, cancelled: bool) {
    && CancelIsFinal(log) && StartsCleared(log)
    && (CancelTried(true) in log ==> cancelled)
  }

  /** Exactly which stages start after a request succeeded: those whose check had passed before the
      request did. */
  lemma LateStartIff(log: seq<Entry>, cancelled: bool, i: nat, j: nat)
    requires Disciplined(log, cancelled) && i < |log| && j < |log|
    requires log[i] == CancelTried(true) && log[j].StageStarted?
    ensures i < j <==> exists k :: Clears(log, k, j) && k < i < j
    ensures i < j ==> forall k :: Clears(log, k, j) ==> k < i
  {
    assert StartCleared(log, j);
    var k :| Clears(log, k, j);
    assert i < j ==> k < i;
  }

  /** Once a request has succeeded at most one more stage starts: the one whose check had
      already passed. */
  lemma AtMostOneStageAfterCancel(log: seq<Entry>, cancelled: bool, i: nat, j: nat, k: nat)
    requires Disciplined(log, cancelled) && i < j < |log| && i < k < |log|
    requires log[i] == CancelTried(true) && log[j].StageStarted? && log[k].StageStarted?
    ensures j == k && exists c :: Clears(log, c, j) && c < i
  {
    LateStartIff(log, cancelled, i, j);
    LateStartIff(log, cancelled, i, k);
  }

  /** Such a start does happen: the request lands while the stage is being announced. */
  lemma OneLateStart(title: string)
    ensures var log := [Checked(false), Emitted(Step(title)), CancelTried(true), StageStarted(0)];
            Disciplined(log, true) && Clears(log, 0, 3)
  {
    var log := [Checked(false), Emitted(Step(title)), CancelTried(true), StageStarted(0)];
    assert Clears(log, 0, 3);
    assert StartCleared(log, 3);
  }

  lemma ClearsStays(log: seq<Entry>, e: Entry, k: int, j: int)
    requires Clears(log, k, j)
    ensures Clears(log + [e], k, j)
  {
  }

  lemma StartsStay(log: seq<Entry>, e: Entry)
    requires StartsCleared(log) && (e.StageStarted? ==> Cleared(log))
    ensures StartsCleared(log + [e])
  {
    hide Clears;
    var next := log + [e];
    forall j | 0 <= j < |next| && next[j].StageStarted? ensures StartCleared(next, j) {
      assert StartCleared(log, j) by {
        if j < |log| { assert log[j].StageStarted?; }
      }
      var k :| Clears(log, k, j);
      ClearsStays(log, e, k, j);
    }
  }

  lemma ClearedStays(log: seq<Entry>, e: Entry)
    requires !e.StageStarted?
    ensures Cleared(log) ==> Cleared(log + [e])
  {
    if Cleared(log) {
      var k :| Clears(log, k, |log|);
      assert Clears(log + [e], k, |log + [e]|);
    }
  }

  lemma AppendOther(log: seq<Entry>, e: Entry, cancelled: bool)
    requires Disciplined(log, cancelled)
    requires e.Emitted? || e.Scored? || e == CancelTried(false) || e == Checked(true)
    ensures Disciplined(log + [e], cancelled)
    ensures Cleared(log) ==> Cleared(log + [e])
  {
    hide Cleared, StartsCleared;
    StartsStay(log, e);
    ClearedStays(log, e);
  }

  lemma AppendCheck(log: seq<Entry>, cancelled: bool)
    requires Disciplined(log, cancelled) && !cancelled
    ensures Disciplined(log + [Checked(false)], cancelled) && Cleared(log + [Checked(false)])
  {
    hide StartsCleared;
    StartsStay(log, Checked(false));
    assert Clears(log + [Checked(false)], |log|, |log| + 1);
  }

  lemma AppendCancel(log: seq<Entry>)
    requires Disciplined(log, false)
    ensures Disciplined(log + [CancelTried(true)], true)
    ensures Cleared(log) ==> Cleared(log + [CancelTried(true)])
  {
    hide Cleared, StartsCleared;
    StartsStay(log, CancelTried(true));
    ClearedStays(log, CancelTried(true));
  }

  lemma AppendStart(log: seq<Entry>, cancelled: bool, i: nat)
    requires Disciplined(log, cancelled) && Cleared(log)
    ensures Disciplined(log + [StageStarted(i)], cancelled)
  {
    hide Cleared, StartsCleared;
    StartsStay(log, StageStarted(i));
  }

  // ---------------------------------------------------------------- execution

  /** A message being answered, with the answer its context holds.  Cancel requests and score
      writes come from outside, each as one transaction, whenever the pipeline waits. */
  class Query {
    var cancelledAt: Option<int>
    var confidence: Option<real>
    var answerText: string
    var answerScore: Option<real>
    var log: seq<Entry>

    ghost predicate Valid()
      reads this
    {
      Disciplined(log, cancelledAt.Some?)
    }

    /** What others may do between two steps of the pipeline. */
    twostate predicate Interleaved()
      reads this
    {
      && Emissions(log) == old(Emissions(log)) && Starts(log) == old(Starts(log))
      && (old(cancelledAt).Some? ==> cancelledAt == old(cancelledAt))
      && (old(Cleared(log)) ==> Cleared(log))
      && answerText == old(answerText) && answerScore == old(answerScore)
    }

    constructor ()
      ensures Valid() && log == [] && cancelledAt == None
    {
      cancelledAt, confidence, answerText, answerScore, log := None, None, "", None, [];
    }

    /** `cancel_message` once session and message are found. */
    method CancelMessage(now: int) returns (success: bool)
      requires Valid()
      modifies this
      ensures Valid() && Interleaved()
      ensures success <==> old(cancelledAt).None? && old(confidence).None?
      ensures cancelledAt == if success then Some(now) else old(cancelledAt)
      ensures log == old(log) + [CancelTried(success)] && confidence == old(confidence)
    {
      hide Emissions, Starts, Disciplined, Cleared;
      LogAppend(log, CancelTried(true));
      LogAppend(log, CancelTried(false));
      if cancelledAt.Some? || confidence.Some? {
        AppendOther(log, CancelTried(false), cancelledAt.Some?);
        log := log + [CancelTried(false)];
        return false;
      }
      AppendCancel(log);
      cancelledAt := Some(now);
      log := log + [CancelTried(true)];
      return true;
    }

    /** Any number of requests, and writes of a score, in any order. */
    method OthersAct()
      requires Valid()
      modifies this
      ensures Valid() && Interleaved()
    {
      hide Emissions, Starts, Disciplined, Cleared;
      var turns: nat :| true;
      for t := 0 to turns
        invariant Valid() && Interleaved()
      {
        if * {
          var now: int := *;
          var _ := CancelMessage(now);
        } else {
          LogAppend(log, Scored);
          AppendOther(log, Scored, cancelledAt.Some?);
          confidence := *;
          log := log + [Scored];
        }
      }
    }

    /** Yielding an event hands control to others. */
    method Yield(e: Event)
      requires Valid()
      modifies this
      ensures Valid() && Emissions(log) == old(Emissions(log)) + [e] && Starts(log) == old(Starts(log))
      ensures answerText == old(answerText) && answerScore == old(answerScore)
      ensures old(cancelledAt).Some? ==> cancelledAt == old(cancelledAt)
      ensures old(Cleared(log)) ==> Cleared(log)
    {
      LogAppend(log, Emitted(e));
      AppendOther(log, Emitted(e), cancelledAt.Some?);
      log := log + [Emitted(e)];
      OthersAct();
    }

    method YieldAll(events: seq<Event>)
      requires Valid()
      modifies this
      ensures Valid() && Emissions(log) == old(Emissions(log)) + events && Starts(log) == old(Starts(log))
      ensures answerText == old(answerText) && answerScore == old(answerScore)
      ensures old(cancelledAt).Some? ==> cancelledAt == old(cancelledAt)
    {
      for i := 0 to |events|
        invariant Valid() && Emissions(log) == old(Emissions(log)) + events[..i] && Starts(log) == old(Starts(log))
        invariant answerText == old(answerText) && answerScore == old(answerScore)
        invariant old(cancelledAt).Some? ==> cancelledAt == old(cancelledAt)
      {
        assert events[..i + 1] == events[..i] + [events[i]];
        Yield(events[i]);
      }
      assert events[..|events|] == events;
    }

    method CheckCancelled() returns (cancelled: bool)
      requires Valid()
      modifies this
      ensures Valid() && Emissions(log) == old(Emissions(log)) && Starts(log) == old(Starts(log))
      ensures answerText == old(answerText) && answerScore == old(answerScore)
      ensures cancelled == old(cancelledAt).Some?
      ensures old(cancelledAt).Some? ==> cancelledAt == old(cancelledAt)
      ensures !cancelled ==> Cleared(log)
    {
      cancelled := cancelledAt.Some?;
      LogAppend(log, Checked(cancelled));
      if cancelled {
        AppendOther(log, Checked(true), true);
      } else {
        AppendCheck(log, false);
      }
      log := log + [Checked(cancelled)];
      OthersAct();
    }

    /** Builds the answer text from the top results, stores it with a score of zero, and tells the
        client. */
    method EmitPartialAnswer(results: seq<Retrieved>)
      requires Valid()
      modifies this
      ensures Valid() && Emissions(log) == old(Emissions(log)) + PartialAnswer(results)
      ensures Starts(log) == old(Starts(log))
      ensures answerText == PartialText(Top(results)) && answerScore == Some(0.0)
      ensures old(cancelledAt).Some? ==> cancelledAt == old(cancelledAt)
    {
      ghost var before := Emissions(log);
      hide Emissions, Starts, Disciplined, Cleared, PartialAnswer, PartialText, Citations, Top;
      var top := Top(results);
      var text := BuildPartialText(top);
      answerText, answerScore := text, Some(0.0);
      Yield(Step("Partial answer (synthesis failed)"));
      Yield(Token(text));
      YieldAll(Citations(top));
      Yield(Confidence(0.0, "Partial answer"));
      Yield(Completed);
      PartialPieces(before, results);
    }

    method RunStage(stages: seq<Stage>, i: nat)
      requires Valid() && Cleared(log) && i < |stages|
      modifies this
      ensures Valid() && Emissions(log) == old(Emissions(log)) + StageEvents(stages, i)
      ensures Starts(log) == old(Starts(log)) + [i]
      ensures answerText == old(answerText) && answerScore == old(answerScore)
      ensures old(cancelledAt).Some? ==> cancelledAt == old(cancelledAt)
    {
      hide Emissions, Starts, Disciplined, Cleared;
      Yield(Step(TitleOf(i)));
      AppendStart(log, cancelledAt.Some?, i);
      LogAppend(log, StageStarted(i));
      log := log + [StageStarted(i)];
      YieldAll(Outputs(stages[i].outputs));
    }

    method EmitFailure(stages: seq<Stage>, i: nat)
      requires Valid() && i < |stages|
      modifies this
      ensures Valid() && Emissions(log) == old(Emissions(log)) + AfterFailure(i, stages[i])
      ensures Starts(log) == old(Starts(log))
      ensures if CanAnswer(stages, i)
              then IsPartialText(answerText, stages[i].results) && answerScore == Some(0.0)
              else answerText == old(answerText) && answerScore == old(answerScore)
      ensures old(cancelledAt).Some? ==> cancelledAt == old(cancelledAt)
    {
      hide Emissions, Starts, Disciplined, IsPartialText, PartialText;
      var stage := stages[i];
      PartialTextIs(stage.results);
      if i >= SYNTHESIS && stage.results != [] {
        EmitPartialAnswer(stage.results);
      } else {
        Yield(Failed("SERVICE_UNAVAILABLE"));
      }
    }

    /** Whatever the stages do and however requests interleave, the stream is the expected one
        for the stage before which a check first saw the cancellation; a cancellation is never
        undone, and the log stays disciplined. */
    method Execute(stages: seq<Stage>, allowed: bool) returns (stop: nat)
      requires Valid() && log == []
      modifies this
      ensures Valid()
      ensures Emissions(log) == FullStream(stages, allowed, stop)
      ensures Starts(log) == UpTo(if allowed then StagesRun(stages, 0, stop) else 0)
      ensures old(cancelledAt).Some? ==> cancelledAt == old(cancelledAt)
      ensures allowed ==> AnswersFailure(stages, stop, answerText, answerScore)
      ensures !allowed || NoAnswer(stages, stop) ==> answerText == old(answerText) && answerScore == old(answerScore)
      ensures stop < |stages| ==> cancelledAt.Some?
      ensures old(cancelledAt).Some? && stages != [] && allowed ==> stop == 0
    {
      assert Emissions(log) == [] && [] + [Started] == [Started] && Starts(log) == UpTo(0);
      assert FullStream(stages, false, |stages|) == [Started] + [Failed("GUARDRAIL_EXCEEDED")];
      hide Disciplined, Cleared, StageEvents, AfterFailure, Emissions, Starts, Sent, FullStream,
           StagesRun, UpTo, IsPartialText, AnswersFailure, NoAnswer, NoneRaised, CanAnswer, TitleOf;
      NoneRaisedNext(stages, 0);
      stop := |stages|;
      Yield(Started);
      if !allowed {
        Yield(Failed("GUARDRAIL_EXCEEDED"));
        return;
      }
      SentNext(stages, 0);
      for i := 0 to |stages|
        invariant Valid() && Emissions(log) == Sent(stages, i) && NoneRaised(stages, i)
        invariant Starts(log) == UpTo(i)
        invariant answerText == old(answerText) && answerScore == old(answerScore)
        invariant i > 0 ==> old(cancelledAt).None?
        invariant old(cancelledAt).Some? ==> cancelledAt == old(cancelledAt)
      {
        var cancelled := CheckCancelled();
        if cancelled {
          stop := i;
          FinishCancelled(stages, i);
          RunCount(stages, i, i);
          Yield(Cancelled);
          NoFailure(stages, i, i, answerText, answerScore);
          return;
        }
        RunStage(stages, i);
        UpToNext(i);
        SentNext(stages, i);
        if stages[i].raises {
          FinishRaised(stages, i);
          RunCount(stages, i, |stages|);
          EmitFailure(stages, i);
          FirstFailure(stages, i, answerText, answerScore);
          return;
        }
        NoneRaisedNext(stages, i);
      }
      FinishCompleted(stages);
      RunCount(stages, |stages|, |stages|);
      Yield(Completed);
      NoFailure(stages, |stages|, |stages|, answerText, answerScore);
    }
  }
}
