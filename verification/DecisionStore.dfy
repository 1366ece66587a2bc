/** The file that holds the recovery decision: src/cluster/cold-bootstrap/decision-store.mjs. */
module DecisionStore {
  import opened Options
  import opened Evidence
  import opened RecoveryEpoch

  /** What the file may hold: an epoch record, a refused plan, or the startup decision that
      src/runtime/recovery-decision.mjs writes to the same path. */
  datatype Document =
    | Planned(record: EpochRecord)
    | RefusedPlan(code: Option<Code>)
    | StartupDecision(epoch: Option<EpochId>)

  function EpochOf(document: Option<Document>): Option<EpochId> {
    match document
    case Some(Planned(record)) => Some(record.epoch)
    case Some(StartupDecision(epoch)) => epoch
    case _ => None
  }

  datatype Written = Stored | Conflict | Failed

  /** `io` tells whether the file system accepts the temporary file and its rename. */
  function WriteStep(file: Option<Document>, value: Document, expected: Option<EpochId>, io: bool)
    : (Option<Document>, Written)
  {
    if expected.Some? && EpochOf(file) != expected then (file, Conflict)
    else if io then (Some(value), Stored)
    else (file, Failed)
  }

  class Store {
    var file: Option<Document>

    constructor (initial: Option<Document>)
      ensures file == initial
    {
      file := initial;
    }

    method Read() returns (document: Option<Document>)
      ensures document == file
    {
      document := file;
    }

    method Write(value: Document, expected: Option<EpochId>, io: bool) returns (written: Written)
      modifies this
      ensures (file, written) == WriteStep(old(file), value, expected, io)
    {
      var existing := Read();
      if expected.Some? && EpochOf(existing) != expected {
        return Conflict;
      }
      if !io {
        return Failed;
      }
      file := Some(value);
      written := Stored;
    }
  }
}

/** The chain of writes of one store object: every operation, its promise and the tail promise that the next
    operation is chained to. Callers submit and promises settle in any order the chain admits. */
module StoreRuns {
  import opened Options
  import opened RecoveryEpoch
  import opened DecisionStore

  datatype Request = Request(value: Document, expected: Option<EpochId>)

  /** `Skipped`: the promise the operation is chained to rejected, so its body never ran. */
  datatype Progress = Waiting | Reading(existing: Option<Document>) | Settled(written: Written, io: bool) | Skipped

  /** A tail promise: the resolved one the store starts with, or the one derived from an operation. */
  datatype Tail = Resolved | Derived(from: nat)

  datatype Operation = Operation(request: Request, after: Tail, progress: Progress)

  /** `tail` is the variable `writes`. */
  datatype State = State(file: Option<Document>, operations: seq<Operation>, tail: Tail)

  datatype Event =
    | Submit(request: Request)     // a caller chains an operation to the tail, which moves on to it
    | Begin(n: nat)                // operation n starts, if the promise it is chained to allows it
    | Finish(n: nat, io: bool)     // operation n compares what it read, then renames its temporary file or fails

  datatype Settlement = Unsettled | Fulfils | Rejects

  function PromiseOf(progress: Progress): Settlement {
    match progress
    case Waiting => Unsettled
    case Reading(_) => Unsettled
    case Settled(written, _) => if written == Stored then Fulfils else Rejects
    case Skipped => Rejects
  }

  /** `catching` tells whether the tail is derived by a catch that swallows the rejection, as in the source, or is the
      operation's own promise. */
  function TailPromise(operations: seq<Operation>, tail: Tail, catching: bool): Settlement {
    if tail.Resolved? then Fulfils
    else if tail.from >= |operations| then Unsettled
    else
      var promise := PromiseOf(operations[tail.from].progress);
      if catching && promise == Rejects then Fulfils else promise
  }

  function FinishWith(request: Request, existing: Option<Document>, io: bool): Written {
    if request.expected.Some? && EpochOf(existing) != request.expected then Conflict
    else if io then Stored
    else Failed
  }

  function Initial(file: Option<Document>): State {
    State(file, [], Resolved)
  }

  function Advance(s: State, n: nat, progress: Progress): State
    requires n < |s.operations|
  {
    s.(operations := s.operations[n := s.operations[n].(progress := progress)])
  }

  function Next(s: State, event: Event, catching: bool): State {
    match event
    case Submit(request) =>
      s.(operations := s.operations + [Operation(request, s.tail, Waiting)], tail := Derived(|s.operations|))
    case Begin(n) =>
      if n >= |s.operations| || !s.operations[n].progress.Waiting? then s
      else
        var promise := TailPromise(s.operations, s.operations[n].after, catching);
        if promise == Fulfils then Advance(s, n, Reading(s.file))
        else if promise == Rejects then Advance(s, n, Skipped)
        else s
    case Finish(n, io) =>
      if n >= |s.operations| || !s.operations[n].progress.Reading? then s
      else
        var written := FinishWith(s.operations[n].request, s.operations[n].progress.existing, io);
        var t := Advance(s, n, Settled(written, io));
        if written == Stored then t.(file := Some(s.operations[n].request.value)) else t
  }

  function Run(s: State, events: seq<Event>, catching: bool): State {
    if events == [] then s else Next(Run(s, events[..|events| - 1], catching), events[|events| - 1], catching)
  }

  /** The store object with its chain. */
  class ChainedStore {
    var file: Option<Document>
    var operations: seq<Operation>
    var tail: Tail

    constructor (initial: Option<Document>)
      ensures View() == Initial(initial)
    {
      file, operations, tail := initial, [], Resolved;
    }

    function View(): State
      reads this
    {
      State(file, operations, tail)
    }

    method Write(request: Request)
      modifies this
      ensures View() == Next(old(View()), Submit(request), true)
    {
      var operation := |operations|;
      operations := operations + [Operation(request, tail, Waiting)];
      tail := Derived(operation);
    }

    /** The tail catches, so it never rejects and no operation is skipped. */
    method Start(n: nat)
      modifies this
      ensures View() == Next(old(View()), Begin(n), true)
    {
      if n < |operations| && operations[n].progress.Waiting? {
        if TailPromise(operations, operations[n].after, true) == Fulfils {
          operations := operations[n := operations[n].(progress := Reading(file))];
        }
      }
    }

    method Complete(n: nat, io: bool)
      modifies this
      ensures View() == Next(old(View()), Finish(n, io), true)
    {
      if n < |operations| && operations[n].progress.Reading? {
        var request := operations[n].request;
        var written := FinishWith(request, operations[n].progress.existing, io);
        operations := operations[n := operations[n].(progress := Settled(written, io))];
        if written == Stored {
          file := Some(request.value);
        }
      }
    }
  }

  // ----- the chain -----

  /** Every operation hangs on the one submitted before it. */
  ghost predicate Chained(s: State) {
    && s.tail == (if s.operations == [] then Resolved else Derived(|s.operations| - 1))
    && forall k :: 0 <= k < |s.operations| ==> s.operations[k].after == if k == 0 then Resolved else Derived(k - 1)
  }

  lemma StepChained(s: State, event: Event, catching: bool)
    requires Chained(s)
    ensures Chained(Next(s, event, catching))
  {
  }

  /** What follows from the chain when the tail catches: an operation has left the queue only if all before it have
      settled, and none is skipped. */
  ghost predicate InOrder(operations: seq<Operation>) {
    && (forall k :: 0 <= k < |operations| ==> !operations[k].progress.Skipped?)
    && forall i, j :: 0 <= i < j < |operations| && !operations[j].progress.Waiting? ==> operations[i].progress.Settled?
  }

  lemma StepInOrder(s: State, event: Event)
    requires Chained(s) && InOrder(s.operations)
    ensures InOrder(Next(s, event, true).operations)
  {
    if event.Begin? && event.n < |s.operations| && s.operations[event.n].progress.Waiting? {
      assert s.operations[event.n].after == if event.n == 0 then Resolved else Derived(event.n - 1);
    }
  }

  // ----- one write at a time -----

  /** The file after the settled operations, run whole one after another. */
  function Serial(file: Option<Document>, operations: seq<Operation>): Option<Document> {
    if operations == [] then file
    else
      var before, last := Serial(file, operations[..|operations| - 1]), operations[|operations| - 1];
      if last.progress.Settled? then WriteStep(before, last.request.value, last.request.expected, last.progress.io).0
        else before
  }

  /** An operation saw the file of its turn and was answered for it. */
  ghost predicate Answered(file: Option<Document>, operations: seq<Operation>, k: nat)
    requires k < |operations|
  {
    var before, op := Serial(file, operations[..k]), operations[k];
    && (op.progress.Reading? ==> op.progress.existing == before)
    && (op.progress.Settled? ==>
        op.progress.written == WriteStep(before, op.request.value, op.request.expected, op.progress.io).1)
  }

  ghost predicate Linear(file: Option<Document>, s: State) {
    && Chained(s) && InOrder(s.operations) && s.file == Serial(file, s.operations)
    && forall k :: 0 <= k < |s.operations| ==> Answered(file, s.operations, k)
  }

  lemma {:induction false} SerialStops(file: Option<Document>, operations: seq<Operation>, n: nat)
    requires n <= |operations| && forall k :: n <= k < |operations| ==> !operations[k].progress.Settled?
    ensures Serial(file, operations) == Serial(file, operations[..n])
  {
    if n == |operations| {
      assert operations[..n] == operations;
    } else {
      var front := operations[..|operations| - 1];
      SerialStops(file, front, n);
      assert front[..n] == operations[..n];
    }
  }

  /** Prefixes that end before an operation do not see it advance. */
  lemma AnsweredBefore(file: Option<Document>, a: seq<Operation>, b: seq<Operation>, k: nat)
    requires k < |a| && k < |b| && a[..k + 1] == b[..k + 1]
    ensures Answered(file, a, k) <==> Answered(file, b, k)
  {
    assert a[..k] == a[..k + 1][..k] == b[..k];
    assert a[k] == a[..k + 1][k] == b[k];
  }

  lemma SubmitLinear(file: Option<Document>, s: State, request: Request)
    requires Linear(file, s)
    ensures Linear(file, Next(s, Submit(request), true))
  {
    var t := Next(s, Submit(request), true);
    assert t.operations[..|s.operations|] == s.operations;
    StepInOrder(s, Submit(request));
    forall k | 0 <= k < |t.operations| ensures Answered(file, t.operations, k) {
      if k < |s.operations| {
        AnsweredBefore(file, s.operations, t.operations, k);
      }
    }
  }

  /** Behind an operation that has not settled, nothing has started. */
  lemma RestWaits(operations: seq<Operation>, n: nat)
    requires InOrder(operations) && n < |operations| && !operations[n].progress.Settled?
    ensures forall k :: n < k < |operations| ==> operations[k].progress.Waiting?
  {
  }

  /** Advancing operation `n`, behind which everything waits, to an answer that fits the file of its turn. */
  lemma AdvanceLinear(file: Option<Document>, operations: seq<Operation>, n: nat, op: Operation)
    requires n < |operations| && forall k :: n < k < |operations| ==> operations[k].progress.Waiting?
    requires forall k :: 0 <= k < |operations| ==> Answered(file, operations, k)
    requires var before := Serial(file, operations[..n]);
      && (op.progress.Reading? ==> op.progress.existing == before)
      && (op.progress.Settled? ==>
          op.progress.written == WriteStep(before, op.request.value, op.request.expected, op.progress.io).1)
    ensures var after, before := operations[n := op], Serial(file, operations[..n]);
      && (forall k :: 0 <= k < |after| ==> Answered(file, after, k))
      && Serial(file, after)
         == if op.progress.Settled? then WriteStep(before, op.request.value, op.request.expected, op.progress.io).0
            else before
  {
    var after := operations[n := op];
    assert after[..n] == operations[..n];
    forall k | 0 <= k < |after| ensures Answered(file, after, k) {
      if k < n {
        assert after[..k + 1] == operations[..k + 1];
        AnsweredBefore(file, operations, after, k);
      }
    }
    SerialStops(file, after, n + 1);
    assert after[..n + 1][..n] == after[..n] && after[..n + 1][n] == op;
  }

  lemma StepLinear(file: Option<Document>, s: State, event: Event)
    requires Linear(file, s)
    ensures Linear(file, Next(s, event, true))
  {
    StepChained(s, event, true);
    StepInOrder(s, event);
    match event
    case Submit(request) => SubmitLinear(file, s, request);
    case Begin(n) =>
      if Next(s, event, true) != s {
        RestWaits(s.operations, n);
        SerialStops(file, s.operations, n);
        AdvanceLinear(file, s.operations, n, s.operations[n].(progress := Reading(s.file)));
      }
    case Finish(n, io) =>
      if n < |s.operations| && s.operations[n].progress.Reading? {
        var op := s.operations[n];
        RestWaits(s.operations, n);
        SerialStops(file, s.operations, n);
        assert Answered(file, s.operations, n);
        AdvanceLinear(file, s.operations, n,
                      op.(progress := Settled(FinishWith(op.request, op.progress.existing, io), io)));
      }
  }

  /** However submissions, starts and ends interleave, the chain makes the writes take effect whole, one at a time, in
      call order, and answers each for the file of its turn. */
  lemma {:induction false} WritesAreSerial(file: Option<Document>, events: seq<Event>)
    ensures Linear(file, Run(Initial(file), events, true))
  {
    if events != [] {
      WritesAreSerial(file, events[..|events| - 1]);
      StepLinear(file, Run(Initial(file), events[..|events| - 1], true), events[|events| - 1]);
    }
  }

  /** Mutual exclusion and call order: in every run an operation runs alone, and only when all called before it
      have settled. */
  lemma OneAtATime(file: Option<Document>, events: seq<Event>, i: nat, j: nat)
    requires var s := Run(Initial(file), events, true); i < |s.operations| && j < |s.operations| && i != j
    ensures var s := Run(Initial(file), events, true);
      && !(s.operations[i].progress.Reading? && s.operations[j].progress.Reading?)
      && (i < j && !s.operations[j].progress.Waiting? ==> s.operations[i].progress.Settled?)
  {
    WritesAreSerial(file, events);
  }

  /** In every run a conditional write was stored only over its own epoch, and a write that was not
      stored left the file as it was for the next one. */
  lemma ConditionalWrites(file: Option<Document>, events: seq<Event>, k: nat)
    requires var s := Run(Initial(file), events, true); k < |s.operations| && s.operations[k].progress.Settled?
    ensures var operations := Run(Initial(file), events, true).operations;
      var before, after := Serial(file, operations[..k]), Serial(file, operations[..k + 1]);
      var request, written := operations[k].request, operations[k].progress.written;
      && (written == Stored ==>
          after == Some(request.value) && (request.expected.Some? ==> EpochOf(before) == request.expected))
      && (written != Stored ==> after == before)
      && (written == Conflict <==> request.expected.Some? && EpochOf(before) != request.expected)
  {
    WritesAreSerial(file, events);
    TurnExact(file, Run(Initial(file), events, true).operations, k);
  }

  /** What the answer of a settled operation says about the file before and after its turn. */
  lemma TurnExact(file: Option<Document>, operations: seq<Operation>, k: nat)
    requires k < |operations| && operations[k].progress.Settled? && Answered(file, operations, k)
    ensures var before, after := Serial(file, operations[..k]), Serial(file, operations[..k + 1]);
      var request, written := operations[k].request, operations[k].progress.written;
      && (written == Stored ==>
          after == Some(request.value) && (request.expected.Some? ==> EpochOf(before) == request.expected))
      && (written != Stored ==> after == before)
      && (written == Conflict <==> request.expected.Some? && EpochOf(before) != request.expected)
  {
    var prefix := operations[..k + 1];
    assert prefix[..k] == operations[..k] && prefix[k] == operations[k];
  }

  // ----- what the catch is for -----

  /** Each of the first `n` operations is started and finished in turn, with any outcome of the file system. */
  function Drain(n: nat, outcomes: nat -> bool): seq<Event> {
    if n == 0 then [] else Drain(n - 1, outcomes) + [Begin(n - 1), Finish(n - 1, outcomes(n - 1))]
  }

  lemma RunTwo(s: State, events: seq<Event>, a: Event, b: Event, catching: bool)
    ensures Run(s, events + [a, b], catching) == Next(Next(Run(s, events, catching), a, catching), b, catching)
  {
    var all := events + [a, b];
    assert all[..|all| - 1] == events + [a];
    assert (events + [a])[..|events|] == events;
  }

  /** Once all before it have settled, an operation settles by starting and finishing. */
  lemma TurnSettles(s: State, n: nat, io: bool)
    requires Chained(s) && InOrder(s.operations) && n < |s.operations|
    requires n > 0 ==> s.operations[n - 1].progress.Settled?
    ensures var t := Next(Next(s, Begin(n), true), Finish(n, io), true);
      && |t.operations| == |s.operations| && t.operations[n].progress.Settled?
      && t.operations[n].request == s.operations[n].request
      && (forall k :: 0 <= k < |s.operations| && k != n ==> t.operations[k] == s.operations[k])
      && Chained(t) && InOrder(t.operations)
  {
    var middle := Next(s, Begin(n), true);
    StepChained(s, Begin(n), true);
    StepInOrder(s, Begin(n));
    StepChained(middle, Finish(n, io), true);
    StepInOrder(middle, Finish(n, io));
    assert s.operations[n].after == if n == 0 then Resolved else Derived(n - 1);
  }

  ghost predicate SettledBelow(s: State, n: nat) {
    n <= |s.operations| && forall k :: 0 <= k < n ==> s.operations[k].progress.Settled?
  }

  ghost predicate SameRequests(s: State, t: State) {
    && |s.operations| == |t.operations|
    && forall k :: 0 <= k < |s.operations| ==> t.operations[k].request == s.operations[k].request
  }

  /** A turn at the end of a run that settled all before it. */
  lemma TurnRuns(s: State, events: seq<Event>, n: nat, io: bool)
    requires var t := Run(s, events, true);
      Chained(t) && InOrder(t.operations) && n < |t.operations| && SettledBelow(t, n) && SameRequests(s, t)
    ensures var t := Run(s, events + [Begin(n), Finish(n, io)], true);
      Chained(t) && InOrder(t.operations) && SettledBelow(t, n + 1) && SameRequests(s, t)
  {
    RunTwo(s, events, Begin(n), Finish(n, io), true);
    TurnSettles(Run(s, events, true), n, io);
  }

  lemma {:induction false} DrainSettles(s: State, n: nat, outcomes: nat -> bool)
    requires Chained(s) && InOrder(s.operations) && n <= |s.operations|
    ensures var t := Run(s, Drain(n, outcomes), true);
      && Chained(t) && InOrder(t.operations) && |t.operations| == |s.operations|
      && SettledBelow(t, n) && SameRequests(s, t)
  {
    if n > 0 {
      DrainSettles(s, n - 1, outcomes);
      TurnRuns(s, Drain(n - 1, outcomes), n - 1, outcomes(n - 1));
    }
  }

  lemma RunConcat(s: State, events: seq<Event>, more: seq<Event>, catching: bool)
    ensures Run(s, events + more, catching) == Run(Run(s, events, catching), more, catching)
  {
    if more == [] {
      assert events + more == events;
    } else {
      var all := events + more;
      assert all[..|all| - 1] == events + more[..|more| - 1] && all[|all| - 1] == more[|more| - 1];
      RunConcat(s, events, more[..|more| - 1], catching);
    }
  }

  /** A failure does not stop later writes: from every reachable state any waiting write settles by running the
      operations before it and then itself, whatever the outcomes of all of them. */
  lemma FailureDoesNotBlock(file: Option<Document>, events: seq<Event>, n: nat, outcomes: nat -> bool)
    requires n < |Run(Initial(file), events, true).operations|
    ensures var t := Run(Initial(file), events + Drain(n + 1, outcomes), true);
      n < |t.operations| && t.operations[n].progress.Settled?
      && t.operations[n].request == Run(Initial(file), events, true).operations[n].request
  {
    var s := Run(Initial(file), events, true);
    WritesAreSerial(file, events);
    DrainSettles(s, n + 1, outcomes);
    RunConcat(Initial(file), events, Drain(n + 1, outcomes), true);
  }

  /** Without the catch one failure stops every later write: the operation behind a rejected one never runs. */
  lemma {:induction false} RejectionSticks(s: State, events: seq<Event>, k: nat)
    requires k + 1 < |s.operations| && s.operations[k + 1].after == Derived(k)
    requires PromiseOf(s.operations[k].progress) == Rejects
    requires s.operations[k + 1].progress.Waiting? || s.operations[k + 1].progress.Skipped?
    ensures var t := Run(s, events, false);
      && k + 1 < |t.operations| && t.operations[k + 1].after == Derived(k)
      && t.operations[k] == s.operations[k]
      && (t.operations[k + 1].progress.Waiting? || t.operations[k + 1].progress.Skipped?)
  {
    if events != [] {
      RejectionSticks(s, events[..|events| - 1], k);
    }
  }

  /** The run that shows it: two writes, the first fails, and the second settles in no continuation. */
  lemma WithoutCatchBlocked(file: Option<Document>, first: Request, second: Request, more: seq<Event>)
    requires first.expected.None?
    ensures var events := [Submit(first), Submit(second), Begin(0), Finish(0, false)];
      var t := Run(Initial(file), events + more, false);
      1 < |t.operations| && !t.operations[1].progress.Settled?
  {
    var events := [Submit(first), Submit(second), Begin(0), Finish(0, false)];
    RunTwo(Initial(file), [], Submit(first), Submit(second), false);
    RunTwo(Initial(file), [Submit(first), Submit(second)], Begin(0), Finish(0, false), false);
    assert [] + [Submit(first), Submit(second)] == [Submit(first), Submit(second)];
    assert [Submit(first), Submit(second)] + [Begin(0), Finish(0, false)] == events;
    RunConcat(Initial(file), events, more, false);
    RejectionSticks(Run(Initial(file), events, false), more, 0);
  }
}
