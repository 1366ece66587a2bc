/** The startup evidence reader and its one recovery scan: src/cluster/cold-bootstrap/startup-local-evidence.mjs.
    The code between two awaits is one step; steps of concurrent readers interleave freely. */
module LocalEvidence {
  import opened Options

  datatype Position = Position(uuid: string, seqno: int)

  /** The promise in `recoveryInFlight`: its handlers run one after another once the runner has settled. */
  datatype Flight =
    | Idle
    | Running
    | Settled(outcome: Option<Position>)   // the runner has returned a position or failed
    | Handled(outcome: Option<Position>)   // the outcome is recorded, `finally` has not run yet

  datatype Result =
    | Saved(reader: nat, generation: nat)
    | Recovered(reader: nat, position: Position, generation: nat)
    | Throws(reader: nat)

  datatype State = State(
    recovered: Option<Position>, failed: bool, flight: Flight, generation: nat,
    reading: set<nat>, waiting: set<nat>, due: map<nat, Option<Position>>, starts: nat, results: seq<Result>)

  datatype Event =
    | Enter(reader: nat)                                // a call starts and awaits the state file
    | Observe(reader: nat, seqno: int, active: bool)    // the state file is read
    | RunnerSettles(outcome: Option<Position>)
    | RecordOutcome                                     // `then` or `catch`
    | ClearFlight                                       // `finally`
    | Resume(reader: nat)                               // a reader that awaited the scan goes on

  const INITIAL := State(None, false, Idle, 0, {}, {}, map[], 0, [])

  function Next(s: State, event: Event): State {
    match event
    case Enter(reader) => s.(generation := s.generation + 1, reading := s.reading + {reader})
    case Observe(reader, seqno, active) =>
      if reader !in s.reading then s
      else
        var s1 := s.(reading := s.reading - {reader});
        if seqno >= 0 || active then s1.(results := s1.results + [Saved(reader, s1.generation)])
        else if s1.failed then s1.(results := s1.results + [Throws(reader)])
        else if s1.recovered.Some?
          then s1.(results := s1.results + [Recovered(reader, s1.recovered.value, s1.generation)])
        else if s1.flight.Idle? then s1.(flight := Running, starts := s1.starts + 1, waiting := s1.waiting + {reader})
        else s1.(waiting := s1.waiting + {reader})
    case RunnerSettles(outcome) => if s.flight.Running? then s.(flight := Settled(outcome)) else s
    case RecordOutcome =>
      if !s.flight.Settled? then s
      else if s.flight.outcome.Some? then s.(recovered := s.flight.outcome, flight := Handled(s.flight.outcome))
      else s.(failed := true, flight := Handled(None))
    case ClearFlight =>
      if !s.flight.Handled? then s
      else s.(flight := Idle, waiting := {}, due := s.due + map reader | reader in s.waiting :: s.flight.outcome)
    case Resume(reader) =>
      if reader !in s.due then s
      else
        var s1 := s.(due := s.due - {reader});
        match s.due[reader]
        case Some(position) => s1.(results := s1.results + [Recovered(reader, position, s1.generation)])
        case None => s1.(results := s1.results + [Throws(reader)])
  }

  function Run(events: seq<Event>): State {
    if events == [] then INITIAL else Next(Run(events[..|events| - 1]), events[|events| - 1])
  }

  class StartupLocalEvidence {
    var recovered: Option<Position>
    var failed: bool
    var flight: Flight
    var generation: nat
    var reading: set<nat>
    var waiting: set<nat>
    var due: map<nat, Option<Position>>
    var starts: nat
    var results: seq<Result>

    constructor ()
      ensures View() == INITIAL
    {
      recovered, failed, flight, generation := None, false, Idle, 0;
      reading, waiting, due, starts, results := {}, {}, map[], 0, [];
    }

    function View(): State
      reads this
    {
      State(recovered, failed, flight, generation, reading, waiting, due, starts, results)
    }

    method EnterReader(reader: nat)
      modifies this
      ensures View() == Next(old(View()), Enter(reader))
    {
      generation := generation + 1;
      reading := reading + {reader};
    }

    method ObserveState(reader: nat, seqno: int, active: bool)
      modifies this
      ensures View() == Next(old(View()), Observe(reader, seqno, active))
    {
      if reader !in reading {
        return;
      }
      reading := reading - {reader};
      if seqno >= 0 || active {
        results := results + [Saved(reader, generation)];
        return;
      }
      if failed {
        results := results + [Throws(reader)];
        return;
      }
      if recovered.None? {
        if flight.Idle? {
          flight := Running;
          starts := starts + 1;
        }
        waiting := waiting + {reader};
        return;
      }
      results := results + [Recovered(reader, recovered.value, generation)];
    }

    method SettleRunner(outcome: Option<Position>)
      modifies this
      ensures View() == Next(old(View()), RunnerSettles(outcome))
    {
      if flight.Running? {
        flight := Settled(outcome);
      }
    }

    method Record()
      modifies this
      ensures View() == Next(old(View()), RecordOutcome)
    {
      if flight.Settled? {
        if flight.outcome.Some? {
          recovered := flight.outcome;
        } else {
          failed := true;
        }
        flight := Handled(flight.outcome);
      }
    }

    method Clear()
      modifies this
      ensures View() == Next(old(View()), ClearFlight)
    {
      if flight.Handled? {
        due := due + map reader | reader in waiting :: flight.outcome;
        waiting := {};
        flight := Idle;
      }
    }

    method ResumeReader(reader: nat)
      modifies this
      ensures View() == Next(old(View()), Resume(reader))
    {
      if reader in due {
        var outcome := due[reader];
        due := due - {reader};
        results := results + [if outcome.Some? then Recovered(reader, outcome.value, generation) else Throws(reader)];
      }
    }
  }

  // ----- one reader -----

  /** What a reader gets that has read the state file: saved evidence without a scan when the file has a seqno or the
      server runs; else the recorded failure, the recovered position, or a wait for the scan, which it starts when none
      is under way. */
  lemma ObserveExact(s: State, reader: nat, seqno: int, active: bool)
    requires reader in s.reading
    ensures var t := Next(s, Observe(reader, seqno, active));
      var waits := seqno < 0 && !active && !s.failed && s.recovered == None;
      && t.reading == s.reading - {reader} && t.recovered == s.recovered && t.failed == s.failed && t.due == s.due
      && t.generation == s.generation
      && (seqno >= 0 || active <==> t.results == s.results + [Saved(reader, s.generation)])
      && (seqno < 0 && !active && s.failed <==> t.results == s.results + [Throws(reader)])
      && (seqno < 0 && !active && !s.failed && s.recovered.Some? ==>
           t.results == s.results + [Recovered(reader, s.recovered.value, s.generation)])
      && (if waits then t.results == s.results && t.waiting == s.waiting + {reader} else t.waiting == s.waiting)
      && (t.starts == s.starts + 1 <==> waits && s.flight == Idle)
      && (if waits && s.flight == Idle then t.flight == Running else t.flight == s.flight && t.starts == s.starts)
  {
    var t := Next(s, Observe(reader, seqno, active));
    assert |t.results| > |s.results| ==> t.results[|s.results|] == t.results[|t.results| - 1];
    assert (s.results + [Saved(reader, s.generation)])[|s.results|] == Saved(reader, s.generation);
    assert (s.results + [Throws(reader)])[|s.results|] == Throws(reader);
  }

  // ----- runs -----

  ghost predicate Told(s: State, outcome: Option<Position>) {
    match outcome
    case Some(position) => s.recovered == Some(position)
    case None => s.failed
  }

  ghost predicate Honest(s: State, result: Result) {
    match result
    case Saved(_, generation) => generation >= 1
    case Recovered(_, position, generation) => s.recovered == Some(position) && generation >= 1
    case Throws(_) => s.failed
  }

  ghost predicate Consistent(s: State) {
    && !(s.failed && s.recovered.Some?)
    && s.starts <= 1
    && (s.starts == 0 <==> s.flight.Idle? && s.recovered.None? && !s.failed)
    && (s.flight.Running? || s.flight.Settled? ==> s.recovered.None? && !s.failed)
    && (s.flight.Handled? ==> Told(s, s.flight.outcome))
    && (s.waiting != {} ==> !s.flight.Idle?)
    && (forall reader :: reader in s.due ==> Told(s, s.due[reader]))
    && (forall k :: 0 <= k < |s.results| ==> Honest(s, s.results[k]))
    && (s.reading != {} || s.waiting != {} || s.due != map[] ==> s.generation >= 1)
  }

  lemma StepConsistent(s: State, event: Event)
    requires Consistent(s)
    ensures var t := Next(s, event);
      && Consistent(t)
      && (s.failed ==> t.failed)
      && (s.recovered.Some? ==> t.recovered == s.recovered)
      && s.starts <= t.starts
  {
    var t := Next(s, event);
    match event
    case Enter(reader) =>
    case Observe(reader, seqno, active) =>
      if reader in s.reading {
        assert s.generation >= 1;
      }
    case RunnerSettles(outcome) =>
    case RecordOutcome =>
    case ClearFlight =>
    case Resume(reader) =>
      if reader in s.due {
        assert Told(s, s.due[reader]);
        assert s.due != map[];
      }
  }

  /** Whatever the interleaving: the scan is started at most once, it never both fails and succeeds, every
      piece of evidence that used it carries the one position it returned, and readers throw only on its failure. */
  lemma {:induction false} ScanRunsOnce(events: seq<Event>)
    ensures Consistent(Run(events))
  {
    if events != [] {
      ScanRunsOnce(events[..|events| - 1]);
      StepConsistent(Run(events[..|events| - 1]), events[|events| - 1]);
    }
  }

  /** What a later state still remembers of an earlier one. */
  ghost predicate Remembers(s: State, t: State) {
    && (s.failed ==> t.failed)
    && (s.recovered.Some? ==> t.recovered == s.recovered)
    && s.starts <= t.starts <= 1
  }

  lemma RunLast(events: seq<Event>, event: Event)
    ensures Run(events + [event]) == Next(Run(events), event)
    ensures Consistent(Run(events)) && Remembers(Run(events), Run(events + [event]))
  {
    assert (events + [event])[..|events|] == events;
    ScanRunsOnce(events);
    StepConsistent(Run(events), event);
  }

  lemma {:induction false} OutcomePermanent(events: seq<Event>, more: seq<Event>)
    ensures Remembers(Run(events), Run(events + more))
  {
    if more == [] {
      assert events + more == events;
      ScanRunsOnce(events);
    } else {
      var front, last := more[..|more| - 1], more[|more| - 1];
      assert events + more == (events + front) + [last];
      OutcomePermanent(events, front);
      RunLast(events + front, last);
    }
  }

  /** A failure is permanent: after it nothing is ever recovered and no further scan starts. */
  lemma FailureIsPermanent(events: seq<Event>, more: seq<Event>, k: nat)
    requires Run(events).failed && k < |Run(events + more).results|
    ensures !Run(events + more).results[k].Recovered?
    ensures Run(events + more).starts == Run(events).starts == 1
  {
    OutcomePermanent(events, more);
    ScanRunsOnce(events);
    ScanRunsOnce(events + more);
    assert Honest(Run(events + more), Run(events + more).results[k]);
  }

  /** Two readers that used the scan report the same recovered uuid and seqno. */
  lemma SamePosition(events: seq<Event>, i: nat, j: nat)
    requires i < |Run(events).results| && j < |Run(events).results|
    requires Run(events).results[i].Recovered? && Run(events).results[j].Recovered?
    ensures Run(events).results[i].position == Run(events).results[j].position
  {
    ScanRunsOnce(events);
    assert Honest(Run(events), Run(events).results[i]) && Honest(Run(events), Run(events).results[j]);
  }
}
