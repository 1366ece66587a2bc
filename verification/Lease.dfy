/** The lease file of one supervisor: src/cluster/cold-bootstrap/lease.mjs. */
module Lease {
  import opened Options
  import opened RecoveryEpoch
  import Names

  /** `claimedAt` is `None` when the stored text is not a date. */
  datatype LeaseFile = Absent | Unreadable | Held(epoch: EpochId, winner: string, claimedAt: Option<int>)

  /** The clock of the supervisor during one claim: `reading` is `now()`, `stamp` the date written. */
  datatype Claim = Claim(epoch: Option<EpochId>, winner: string, reading: int, stamp: int)

  datatype Grant = Granted(existing: bool) | HeldByOther | MalformedClaim

  predicate Expired(file: LeaseFile, reading: int, staleAfter: int)
    requires file.Held?
  {
    staleAfter >= 0 && file.claimedAt.Some? && reading - file.claimedAt.value > staleAfter
  }

  /** One atomic claim: create the file, recognise one's own, or take over one that has gone stale. */
  function ClaimStep(file: LeaseFile, claim: Claim, staleAfter: int): (LeaseFile, Grant) {
    if claim.epoch.None? || !Names.HasValidLabels(claim.winner) then (file, MalformedClaim)
    else
      var mine := Held(claim.epoch.value, claim.winner, Some(claim.stamp));
      match file
      case Absent => (mine, Granted(false))
      case Unreadable => (file, HeldByOther)
      case Held(epoch, winner, _) =>
        if epoch == claim.epoch.value && winner == claim.winner then (file, Granted(true))
        else if Expired(file, claim.reading, staleAfter) then (mine, Granted(false))
        else (file, HeldByOther)
  }

  class RecoveryLease {
    const staleAfter: int
    var file: LeaseFile

    constructor (staleAfter: int, file: LeaseFile)
      ensures this.staleAfter == staleAfter && this.file == file
    {
      this.staleAfter := staleAfter;
      this.file := file;
    }

    /** Exclusive creation: fails when the file exists. */
    method Create(value: LeaseFile) returns (created: bool)
      requires value.Held?
      modifies this
      ensures created == old(file).Absent? && file == if created then value else old(file)
    {
      created := file.Absent?;
      if created {
        file := value;
      }
    }

    method Unlink()
      modifies this
      ensures file == Absent
    {
      file := Absent;
    }

    method ClaimLease(claim: Claim) returns (grant: Grant)
      modifies this
      ensures (file, grant) == ClaimStep(old(file), claim, staleAfter)
      decreases if file.Absent? then 0 else 1
    {
      if claim.epoch.None? || !Names.HasValidLabels(claim.winner) {
        return MalformedClaim;
      }
      var value := Held(claim.epoch.value, claim.winner, Some(claim.stamp));
      var created := Create(value);
      if created {
        return Granted(false);
      }
      if file.Held? {
        if file.epoch == claim.epoch.value && file.winner == claim.winner {
          return Granted(true);
        }
        if Expired(file, claim.reading, staleAfter) {
          Unlink();
          grant := ClaimLease(claim);
          return;
        }
      }
      grant := HeldByOther;
    }
  }

  // ----- what one claim decides -----

  /** The lease is granted exactly when the file ends up holding it. */
  lemma GrantedExact(file: LeaseFile, claim: Claim, staleAfter: int)
    ensures var (after, grant) := ClaimStep(file, claim, staleAfter);
      var named := claim.epoch.Some? && Names.HasValidLabels(claim.winner);
      && (grant.Granted? <==>
           named && after.Held? && after.epoch == claim.epoch.value && after.winner == claim.winner)
      && (grant == MalformedClaim <==> !named)
      && (grant == Granted(true) <==>
           named && file.Held? && file.epoch == claim.epoch.value && file.winner == claim.winner)
      && (grant == Granted(false) <==>
           && named
           && (file == Absent
               || (&& file.Held? && (file.epoch != claim.epoch.value || file.winner != claim.winner)
                   && file.claimedAt.Some? && 0 <= staleAfter < claim.reading - file.claimedAt.value)))
      && after == if grant == Granted(false) then Held(claim.epoch.value, claim.winner, Some(claim.stamp)) else file
  {
  }
}

/** All supervisors' lease files over whole runs of claims. */
module LeaseRuns {
  import opened Options
  import opened RecoveryEpoch
  import opened Lease
  import Majority
  import Names

  datatype Pair = Pair(epoch: EpochId, winner: string)

  /** A claim sent to the lease of supervisor `member`. */
  datatype Event = Event(member: string, claim: Claim)

  /** The lease files, and for each the fresh claims it has recorded, oldest first. */
  datatype State = State(files: map<string, LeaseFile>, history: map<string, seq<(Pair, int)>>)

  /** A grant as the claimant sees it, with the time of the fresh claim that backs it. */
  datatype Vote = Vote(member: string, pair: Pair, claimedAt: int)

  function FileOf(s: State, member: string): LeaseFile {
    if member in s.files then s.files[member] else Absent
  }

  function HistoryOf(s: State, member: string): seq<(Pair, int)> {
    if member in s.history then s.history[member] else []
  }

  const EMPTY := State(map[], map[])

  function Next(s: State, event: Event, staleAfter: int): State {
    var (file, grant) := ClaimStep(FileOf(s, event.member), event.claim, staleAfter);
    var history := HistoryOf(s, event.member);
    State(s.files[event.member := file],
          s.history[event.member :=
            if grant == Granted(false) && file.Held? then history + [(Pair(file.epoch, file.winner), event.claim.stamp)] else history])
  }

  function Run(s: State, events: seq<Event>, staleAfter: int): State {
    if events == [] then s else Next(Run(s, events[..|events| - 1], staleAfter), events[|events| - 1], staleAfter)
  }

  /** The votes handed out along a run. */
  function Votes(s: State, events: seq<Event>, staleAfter: int): set<Vote> {
    if events == [] then {}
    else
      var front, last := events[..|events| - 1], events[|events| - 1];
      var before := FileOf(Run(s, front, staleAfter), last.member);
      var (file, grant) := ClaimStep(before, last.claim, staleAfter);
      Votes(s, front, staleAfter) +
      if grant.Granted? && file.Held? && file.claimedAt.Some?
        then {Vote(last.member, Pair(file.epoch, file.winner), file.claimedAt.value)} else {}
  }

  /** A clock does not run backwards within one claim. */
  predicate Forward(events: seq<Event>) {
    forall e <- events :: e.claim.reading <= e.claim.stamp
  }

  /** Along the history of one register, each fresh claim comes more than `staleAfter` after the one before. */
  ghost predicate Spaced(history: seq<(Pair, int)>, staleAfter: int) {
    && (staleAfter < 0 ==> |history| <= 1)
    && forall i, j :: 0 <= i < j < |history| ==> history[j].1 - history[i].1 > staleAfter
  }

  /** The register holds the last fresh claim of its history. */
  ghost predicate Backed(s: State, member: string) {
    var file, history := FileOf(s, member), HistoryOf(s, member);
    if history == [] then file == Absent
    else file == Held(history[|history| - 1].0.epoch, history[|history| - 1].0.winner, Some(history[|history| - 1].1))
  }

  ghost predicate Sound(s: State, staleAfter: int) {
    forall m :: Backed(s, m) && Spaced(HistoryOf(s, m), staleAfter)
  }

  lemma StepSound(s: State, event: Event, staleAfter: int)
    requires Sound(s, staleAfter) && event.claim.reading <= event.claim.stamp
    ensures Sound(Next(s, event, staleAfter), staleAfter)
    ensures forall m :: HistoryOf(s, m) <= HistoryOf(Next(s, event, staleAfter), m)
  {
    var t := Next(s, event, staleAfter);
    forall m ensures Backed(t, m) && Spaced(HistoryOf(t, m), staleAfter) && HistoryOf(s, m) <= HistoryOf(t, m) {
      assert Backed(s, m) && Spaced(HistoryOf(s, m), staleAfter);
      if m == event.member {
        var old', new' := HistoryOf(s, m), HistoryOf(t, m);
        if |new'| > |old'| {
          forall i, j | 0 <= i < j < |new'| ensures new'[j].1 - new'[i].1 > staleAfter {
            if j == |old'| {
              var last := |old'| - 1;
              assert i < last ==> old'[last].1 - old'[i].1 > staleAfter;
            }
          }
        }
      }
    }
  }

  lemma {:induction false} RunSound(s: State, events: seq<Event>, staleAfter: int)
    requires Sound(s, staleAfter) && Forward(events)
    ensures Sound(Run(s, events, staleAfter), staleAfter)
  {
    if events != [] {
      RunSound(s, events[..|events| - 1], staleAfter);
      StepSound(Run(s, events[..|events| - 1], staleAfter), events[|events| - 1], staleAfter);
    }
  }

  /** Every vote is backed by a fresh claim in the history of its register. */
  lemma {:induction false} VotesBacked(s: State, events: seq<Event>, staleAfter: int, vote: Vote)
    requires Sound(s, staleAfter) && Forward(events) && vote in Votes(s, events, staleAfter)
    ensures (vote.pair, vote.claimedAt) in HistoryOf(Run(s, events, staleAfter), vote.member)
  {
    var front, last := events[..|events| - 1], events[|events| - 1];
    RunSound(s, front, staleAfter);
    RunSound(s, events, staleAfter);
    StepSound(Run(s, front, staleAfter), last, staleAfter);
    if vote in Votes(s, front, staleAfter) {
      VotesBacked(s, front, staleAfter, vote);
    } else {
      assert Backed(Run(s, events, staleAfter), vote.member);
      var history := HistoryOf(Run(s, events, staleAfter), vote.member);
      assert history[|history| - 1] in history;
    }
  }

  /** One register never votes for two pairs within the stale period of each other. */
  lemma RegisterExclusive(s: State, events: seq<Event>, staleAfter: int, a: Vote, b: Vote)
    requires Sound(s, staleAfter) && Forward(events)
    requires a in Votes(s, events, staleAfter) && b in Votes(s, events, staleAfter)
    requires a.member == b.member
    requires staleAfter < 0 || -staleAfter <= a.claimedAt - b.claimedAt <= staleAfter
    ensures a.pair == b.pair && a.claimedAt == b.claimedAt
  {
    RunSound(s, events, staleAfter);
    VotesBacked(s, events, staleAfter, a);
    VotesBacked(s, events, staleAfter, b);
    var history := HistoryOf(Run(s, events, staleAfter), a.member);
    assert Spaced(history, staleAfter);
  }

  /** `voters` is backed by votes for `pair` whose fresh claims lie in the window. */
  ghost predicate WonBy(votes: set<Vote>, voters: set<string>, pair: Pair, from: int, to: int) {
    forall m :: m in voters ==> exists v :: v in votes && v.member == m && v.pair == pair && from <= v.claimedAt <= to
  }

  /** Lease exclusivity. Over any run of claims to the lease files of the members, two majorities whose
      fresh claims all lie within one stale period are for the same epoch and the same winner. With a
      negative `staleAfter` leases are never taken over and the window does not matter. */
  lemma MajorityExclusive(s: State, events: seq<Event>, staleAfter: int, members: set<string>,
                          first: set<string>, p: Pair, second: set<string>, q: Pair, from: int, to: int)
    requires Sound(s, staleAfter) && Forward(events) && first <= members && second <= members
    requires |first| >= Majority.Required(|members|) && |second| >= Majority.Required(|members|)
    requires WonBy(Votes(s, events, staleAfter), first, p, from, to)
    requires WonBy(Votes(s, events, staleAfter), second, q, from, to)
    requires staleAfter < 0 || to - from <= staleAfter
    ensures p == q
  {
    Majority.MajoritiesMeet(first, second, members);
    var m :| m in first && m in second;
    var v :| v in Votes(s, events, staleAfter) && v.member == m && v.pair == p && from <= v.claimedAt <= to;
    var w :| w in Votes(s, events, staleAfter) && w.member == m && w.pair == q && from <= w.claimedAt <= to;
    RegisterExclusive(s, events, staleAfter, v, w);
  }

  lemma EmptySound(staleAfter: int)
    ensures Sound(EMPTY, staleAfter)
  {
  }

  /** The window is needed: one millisecond past it, the same register backs a different pair. */
  lemma TakeoverPastWindow(p: EpochId, a: string, q: EpochId, b: string, member: string, staleAfter: nat)
    requires Names.HasValidLabels(a) && Names.HasValidLabels(b) && (p != q || a != b)
    ensures var events :=
      [Event(member, Claim(Some(p), a, 0, 0)), Event(member, Claim(Some(q), b, staleAfter + 1, staleAfter + 1))];
      Votes(EMPTY, events, staleAfter) == {Vote(member, Pair(p, a), 0), Vote(member, Pair(q, b), staleAfter + 1)}
  {
    var first, second :=
      Event(member, Claim(Some(p), a, 0, 0)), Event(member, Claim(Some(q), b, staleAfter + 1, staleAfter + 1));
    var events := [first, second];
    assert events[..1] == [first] && [first][..0] == [];
    assert Run(EMPTY, [], staleAfter) == EMPTY && Votes(EMPTY, [], staleAfter) == {};
    assert Run(EMPTY, [first], staleAfter).files[member] == Held(p, a, Some(0));
    assert Votes(EMPTY, [first], staleAfter) == {Vote(member, Pair(p, a), 0)};
  }
}
