/** Numbers assigned by reading a maximum and inserting its successor later, under a uniqueness
    constraint: message sequences and document versions. */
module Numbering {
  import opened Common

  type Client = nat

  // ----------------------------------------------------------------- messages

  /** `coalesce(max(sequence), 0)`. */
  function MaxOf(rows: seq<nat>): (m: nat)
    ensures forall i :: 0 <= i < |rows| ==> rows[i] <= m
    ensures m == 0 || m in rows
  {
    if rows == [] then 0
    else
      var rest := MaxOf(rows[1..]);
      if rows[0] > rest then rows[0] else rest
  }

  /** The committed sequence numbers of one session, in order of commit, and the number that each
      submission in progress has read. */
  datatype Numbers = Numbers(rows: seq<nat>, pending: map<Client, nat>)

  /** A clarification takes the number after its question, without reading the maximum. */
  datatype Action =
    | Read(client: Client)
    | Reply(client: Client, question: nat)
    | Insert(client: Client)
    | Abandon(client: Client)

  /** The unique key lets the insert of this client through. */
  predicate Admits(s: Numbers, c: Client) { c in s.pending && s.pending[c] !in s.rows }

  function Step(s: Numbers, a: Action): Numbers {
    match a
    case Read(c) => s.(pending := s.pending[c := MaxOf(s.rows) + 1])
    case Reply(c, question) =>
      if question in s.rows then s.(pending := s.pending[c := question + 1]) else s
    case Insert(c) =>
      Numbers(if Admits(s, c) then s.rows + [s.pending[c]] else s.rows, s.pending - {c})
    case Abandon(c) => s.(pending := s.pending - {c})
  }

  function Run(s: Numbers, schedule: seq<Action>): Numbers
    decreases |schedule|
  {
    if schedule == [] then s else Run(Step(s, schedule[0]), schedule[1..])
  }

  /** How many inserts of the schedule are let through. */
  function Accepted(s: Numbers, schedule: seq<Action>): nat
    decreases |schedule|
  {
    if schedule == [] then 0
    else (if schedule[0].Insert? && Admits(s, schedule[0].client) then 1 else 0)
         + Accepted(Step(s, schedule[0]), schedule[1..])
  }

  /** The numbers are 1, 2, ..., n, in that order; nobody holds one beyond n + 1. */
  ghost predicate Contiguous(s: Numbers) {
    && (forall i :: 0 <= i < |s.rows| ==> s.rows[i] == i + 1)
    && (forall c :: c in s.pending ==> 1 <= s.pending[c] <= |s.rows| + 1)
  }

  lemma MaxIsLength(s: Numbers)
    requires Contiguous(s)
    ensures MaxOf(s.rows) == |s.rows|
  {
    assert s.rows != [] ==> s.rows[|s.rows| - 1] == |s.rows|;
  }

  /** Of the submissions that hold the same number, the unique key lets only the first through:
      an insert succeeds exactly when its number is still the next one. */
  lemma OneWinnerPerNumber(s: Numbers, c: Client)
    requires Contiguous(s) && c in s.pending
    ensures Admits(s, c) <==> s.pending[c] == |s.rows| + 1
  {
    var number := s.pending[c];
    if number <= |s.rows| {
      assert s.rows[number - 1] == number;
    }
  }

  /** A reader gets the number after the last one, and if it inserts at once it is let through: its number
      is the new last one, and nobody else's number changes. */
  lemma ReadThenInsert(s: Numbers, c: Client)
    requires Contiguous(s)
    ensures var read := Step(s, Read(c));
            && read.rows == s.rows && c in read.pending && read.pending[c] == |s.rows| + 1
            && Admits(read, c)
            && var done := Step(read, Insert(c));
               done.rows == s.rows + [|s.rows| + 1] && done.pending == s.pending - {c}
  {
    MaxIsLength(s);
    OneWinnerPerNumber(Step(s, Read(c)), c);
  }

  /** Nothing a client does changes what another one holds; an insert, let through or not, and giving up
      both end the submission; and only an insert adds a number. */
  lemma OthersKeepTheirNumbers(s: Numbers, a: Action, other: Client)
    requires other != a.client
    ensures other in Step(s, a).pending <==> other in s.pending
    ensures other in s.pending ==> Step(s, a).pending[other] == s.pending[other]
    ensures a.Insert? || a.Abandon? ==> a.client !in Step(s, a).pending
    ensures !a.Insert? ==> Step(s, a).rows == s.rows
  {
  }

  /** A clarification is accepted if and only if its question is still the latest message. */
  lemma ReplyNeedsLatest(s: Numbers, c: Client, question: nat)
    requires Contiguous(s) && question in s.rows
    ensures Admits(Step(s, Reply(c, question)), c) <==> question == |s.rows|
  {
    StepKeepsContiguous(s, Reply(c, question));
    OneWinnerPerNumber(Step(s, Reply(c, question)), c);
  }

  lemma StepKeepsContiguous(s: Numbers, a: Action)
    requires Contiguous(s)
    ensures Contiguous(Step(s, a)) && s.rows <= Step(s, a).rows
    ensures |Step(s, a).rows| == |s.rows| + if a.Insert? && Admits(s, a.client) then 1 else 0
  {
    MaxIsLength(s);
    if a.Insert? && a.client in s.pending {
      OneWinnerPerNumber(s, a.client);
    }
  }

  /** Any interleaving of readers, inserters and submissions that give up leaves exactly the
      numbers 1 to n; none is ever lost, reused or skipped, and n counts the inserts let through. */
  lemma {:induction false} RunKeepsContiguous(s: Numbers, schedule: seq<Action>)
    requires Contiguous(s)
    ensures Contiguous(Run(s, schedule)) && s.rows <= Run(s, schedule).rows
    ensures |Run(s, schedule).rows| == |s.rows| + Accepted(s, schedule)
    decreases |schedule|
  {
    if schedule != [] {
      StepKeepsContiguous(s, schedule[0]);
      RunKeepsContiguous(Step(s, schedule[0]), schedule[1..]);
    }
  }

  /** The messages of one session. */
  class Session {
    var rows: seq<nat>
    var pending: map<Client, nat>

    function State(): Numbers
      reads this
    {
      Numbers(rows, pending)
    }

    constructor ()
      ensures State() == Numbers([], map[]) && Contiguous(State())
    {
      rows, pending := [], map[];
    }

    /** `get_next_sequence`. */
    method GetNextSequence(c: Client) returns (next: nat)
      modifies this
      ensures State() == Step(old(State()), Read(c)) && next == pending[c]
    {
      next := MaxOf(rows) + 1;
      pending := pending[c := next];
    }

    /** The number a clarification stage takes for its message. */
    method HoldSuccessor(c: Client, question: nat)
      modifies this
      ensures State() == Step(old(State()), Reply(c, question))
    {
      if question in rows {
        pending := pending[c := question + 1];
      }
    }

    /** The insert, committed or rejected by the unique key; either way the submission is over. */
    method CreateMessage(c: Client) returns (created: bool)
      modifies this
      ensures State() == Step(old(State()), Insert(c)) && created == Admits(old(State()), c)
    {
      created := c in pending && pending[c] !in rows;
      if created {
        rows := rows + [pending[c]];
      }
      pending := pending - {c};
    }

    method Rollback(c: Client)
      modifies this
      ensures State() == Step(old(State()), Abandon(c))
    {
      pending := pending - {c};
    }

    method RunAll(schedule: seq<Action>) returns (created: nat)
      modifies this
      ensures State() == Run(old(State()), schedule) && created == Accepted(old(State()), schedule)
    {
      created := 0;
      for i := 0 to |schedule|
        invariant Run(State(), schedule[i..]) == Run(old(State()), schedule)
        invariant created + Accepted(State(), schedule[i..]) == Accepted(old(State()), schedule)
      {
        hide Step;
        assert schedule[i..][1..] == schedule[i + 1..];
        match schedule[i]
        case Read(c) =>
          var _ := GetNextSequence(c);
        case Reply(c, question) =>
          HoldSuccessor(c, question);
        case Insert(c) =>
          var ok := CreateMessage(c);
          created := created + if ok then 1 else 0;
        case Abandon(c) =>
          Rollback(c);
      }
    }
  }

  // -------------------------------------------------------- document versions

  datatype File = File(path: string, size: nat)

  datatype Version = Version(number: nat, file: File, active: bool)

  datatype Status = Uploaded | Parsing | Processed | Error

  /** An upload that has read the document: the version number it saw, and its file. */
  datatype Upload = Upload(seen: nat, file: File)

  /** One document with its versions, and the uploads in progress. */
  datatype Versioned = Versioned(currentVersion: nat, file: File, status: Status,
                                 versions: seq<Version>, uploads: map<Client, Upload>)

  datatype Phase = Begin(client: Client, file: File) | Finish(client: Client) | Process(status: Status)

  function Deactivated(versions: seq<Version>): (r: seq<Version>)
    ensures |r| == |versions| && forall i :: 0 <= i < |r| ==> r[i] == versions[i].(active := false)
  {
    seq(|versions|, i requires 0 <= i < |versions| => versions[i].(active := false))
  }

  predicate NumberTaken(versions: seq<Version>, number: nat) {
    exists i :: 0 <= i < |versions| && versions[i].number == number
  }

  predicate Accepts(d: Versioned, c: Client) {
    c in d.uploads && !NumberTaken(d.versions, d.uploads[c].seen + 1)
  }

  /** The read at the start of `upload_version`; its writes (deactivate, insert, update) as one
      transaction that the unique key on the version number may reject; and processing, which
      changes the status. */
  function Advance(d: Versioned, p: Phase): Versioned {
    match p
    case Begin(c, f) => d.(uploads := d.uploads[c := Upload(d.currentVersion, f)])
    case Finish(c) =>
      if Accepts(d, c) then
        var u := d.uploads[c];
        Versioned(u.seen + 1, u.file, Uploaded,
                  Deactivated(d.versions) + [Version(u.seen + 1, u.file, true)], d.uploads - {c})
      else d.(uploads := d.uploads - {c})
    case Process(status) => d.(status := status)
  }

  function AdvanceAll(d: Versioned, schedule: seq<Phase>): Versioned
    decreases |schedule|
  {
    if schedule == [] then d else AdvanceAll(Advance(d, schedule[0]), schedule[1..])
  }

  /** Versions are numbered 1 to `currentVersion`; exactly the last is active, and the document
      shows its file. */
  ghost predicate InStep(d: Versioned) {
    && d.currentVersion == |d.versions| >= 1
    && (forall i :: 0 <= i < |d.versions| ==> d.versions[i].number == i + 1)
    && (forall i :: 0 <= i < |d.versions| ==> (d.versions[i].active <==> i == |d.versions| - 1))
    && Last(d.versions).file == d.file
    && (forall c :: c in d.uploads ==> 1 <= d.uploads[c].seen <= d.currentVersion)
  }

  /** The stored files never change, whatever becomes of the flags. */
  ghost predicate FilesStay(before: seq<Version>, after: seq<Version>) {
    |before| <= |after| && forall i :: 0 <= i < |before| ==> after[i] == before[i].(active := after[i].active)
  }

  /** An upload is accepted exactly when no other was since it read the document. */
  lemma AcceptedIffUnchanged(d: Versioned, c: Client)
    requires InStep(d) && c in d.uploads
    ensures Accepts(d, c) <==> d.uploads[c].seen == d.currentVersion
  {
    var number := d.uploads[c].seen + 1;
    if number <= |d.versions| {
      assert d.versions[number - 1].number == number;
    }
  }

  /** An upload that nobody comes between becomes the next version, active, and puts the document back
      to the start of processing. */
  lemma UploadBecomesNext(d: Versioned, c: Client, f: File)
    requires InStep(d)
    ensures var begun := Advance(d, Begin(c, f));
            var done := Advance(begun, Finish(c));
            && Accepts(begun, c)
            && done.currentVersion == d.currentVersion + 1 && done.file == f && done.status == Uploaded
            && |done.versions| == |d.versions| + 1 && Last(done.versions) == Version(d.currentVersion + 1, f, true)
            && done.uploads == d.uploads - {c}
  {
    var begun := Advance(d, Begin(c, f));
    AdvanceKeepsInStep(d, Begin(c, f));
    AcceptedIffUnchanged(begun, c);
  }

  /** One that is rejected changes nothing but that it is over. */
  lemma RejectedUploadIsOver(d: Versioned, c: Client)
    requires InStep(d) && (c in d.uploads ==> d.uploads[c].seen != d.currentVersion)
    ensures Advance(d, Finish(c)) == d.(uploads := d.uploads - {c})
  {
    if c in d.uploads {
      AcceptedIffUnchanged(d, c);
    }
  }

  lemma AdvanceKeepsInStep(d: Versioned, p: Phase)
    requires InStep(d)
    ensures InStep(Advance(d, p)) && FilesStay(d.versions, Advance(d, p).versions)
  {
    if p.Finish? && p.client in d.uploads {
      AcceptedIffUnchanged(d, p.client);
    }
  }

  /** Every interleaving of uploads and processing keeps numbering, activity and file in step,
      and keeps every file ever stored. */
  lemma {:induction false} UploadsStayInStep(d: Versioned, schedule: seq<Phase>)
    requires InStep(d)
    ensures InStep(AdvanceAll(d, schedule)) && FilesStay(d.versions, AdvanceAll(d, schedule).versions)
    decreases |schedule|
  {
    if schedule != [] {
      var next := Advance(d, schedule[0]);
      AdvanceKeepsInStep(d, schedule[0]);
      UploadsStayInStep(next, schedule[1..]);
      var last := AdvanceAll(next, schedule[1..]);
      forall i | 0 <= i < |d.versions| ensures last.versions[i] == d.versions[i].(active := last.versions[i].active) {
        assert next.versions[i] == d.versions[i].(active := next.versions[i].active);
      }
    }
  }

  class Document {
    var currentVersion: nat
    var file: File
    var status: Status
    var versions: seq<Version>
    var uploads: map<Client, Upload>

    function State(): Versioned
      reads this
    {
      Versioned(currentVersion, file, status, versions, uploads)
    }

    /** `upload`. */
    constructor (f: File)
      ensures State() == Versioned(1, f, Uploaded, [Version(1, f, true)], map[]) && InStep(State())
    {
      currentVersion, file, status, uploads := 1, f, Uploaded, map[];
      versions := [Version(1, f, true)];
    }

    method BeginUpload(c: Client, f: File)
      modifies this
      ensures State() == Advance(old(State()), Begin(c, f))
    {
      uploads := uploads[c := Upload(currentVersion, f)];
    }

    method FinishUpload(c: Client) returns (ok: bool)
      modifies this
      ensures State() == Advance(old(State()), Finish(c)) && ok == Accepts(old(State()), c)
    {
      if c !in uploads {
        uploads := uploads - {c};
        return false;
      }
      var upload := uploads[c];
      uploads := uploads - {c};
      var number := upload.seen + 1;
      if NumberTaken(versions, number) {
        return false;
      }
      versions := Deactivated(versions);
      versions := versions + [Version(number, upload.file, true)];
      currentVersion, file, status := number, upload.file, Uploaded;
      return true;
    }

    /** `get_active_version`: exactly one is active, and it is the current one. */
    method ActiveVersion() returns (v: Version)
      requires InStep(State())
      ensures v in versions && v.active && v.number == currentVersion && v.file == file
      ensures forall w :: w in versions && w.active ==> w == v
    {
      var i := 0;
      while !versions[i].active
        invariant 0 <= i < |versions|
        decreases |versions| - i
      {
        i := i + 1;
      }
      v := versions[i];
    }

    method RunUploads(schedule: seq<Phase>)
      modifies this
      ensures State() == AdvanceAll(old(State()), schedule)
    {
      for i := 0 to |schedule|
        invariant AdvanceAll(State(), schedule[i..]) == AdvanceAll(old(State()), schedule)
      {
        hide Advance;
        assert schedule[i..][1..] == schedule[i + 1..];
        match schedule[i]
        case Begin(c, f) =>
          BeginUpload(c, f);
        case Finish(c) =>
          var _ := FinishUpload(c);
        case Process(s) =>
          SetStatus(s);
      }
    }

    method SetStatus(s: Status)
      modifies this
      ensures State() == Advance(old(State()), Process(s)) && status == s && versions == old(versions)
    {
      status := s;
    }
  }
}
