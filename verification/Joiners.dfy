/** Recovery of the non-winners one at a time: src/runtime/sequential-joiners.mjs. */
module Joiners {
  import opened Options
  import RecoveryState

  /** What the world answers for one joiner: the epoch the recovery state reports when its turn comes, whether
      the start call returns, whether the verification says valid. */
  datatype Turn = Turn(reported: RecoveryState.Epoch, starts: bool, verified: bool)

  datatype Effect =
    | Started(joiner: string)
    | Verified(joiner: string)
    | Failed(joiner: string, completed: seq<string>)
    | Published(members: seq<string>)

  datatype Ending = Finished(completed: seq<string>) | Throws

  predicate EpochStands(epoch: RecoveryState.Epoch, reported: RecoveryState.Epoch) {
    epoch.Undefined? || reported.Undefined? || reported == epoch
  }

  predicate Succeeds(epoch: RecoveryState.Epoch, turn: Turn) {
    EpochStands(epoch, turn.reported) && turn.starts && turn.verified
  }

  /** The first joiner whose turn does not succeed. */
  function FirstFailure(epoch: RecoveryState.Epoch, turns: seq<Turn>): nat {
    if turns == [] then 0
    else if !Succeeds(epoch, turns[0]) then 0
    else 1 + FirstFailure(epoch, turns[1..])
  }

  /** Start and verification of the first `n` joiners, strictly alternating. */
  function Prefix(joiners: seq<string>, n: nat): seq<Effect>
    requires n <= |joiners|
  {
    if n == 0 then [] else Prefix(joiners, n - 1) + [Started(joiners[n - 1]), Verified(joiners[n - 1])]
  }

  /** `startAccepted` and `endAccepted` tell whether the recovery state takes `joining` and `complete`, `published`
      whether the call of the publication returns. */
  method RecoverJoinersSequentially(joiners: seq<string>, turns: seq<Turn>, epoch: RecoveryState.Epoch,
                                    startAccepted: bool, endAccepted: bool, published: bool)
    returns (ending: Ending, effects: seq<Effect>)
    requires |turns| == |joiners|
    ensures InTurn(joiners, effects)
    ensures !startAccepted ==> ending == Throws && effects == []
    ensures var k := FirstFailure(epoch, turns);
      && k <= |joiners|
      && (startAccepted && k == |joiners| ==>
           if endAccepted then
             && ending == (if published then Finished(joiners) else Throws)
             && effects == Prefix(joiners, k) + [Published(joiners)]
           else ending == Throws && effects == Prefix(joiners, k))
      && (startAccepted && k < |joiners| ==>
           && ending == Throws
           && effects == Prefix(joiners, k)
                + (if EpochStands(epoch, turns[k].reported) then [Started(joiners[k])] else [])
                + [Failed(joiners[k], joiners[..k])])
  {
    effects := [];
    FirstFailureExact(epoch, turns);
    if !startAccepted {
      return Throws, effects;
    }
    var completed: seq<string> := [];
    var i := 0;
    while i < |joiners|
      invariant 0 <= i <= |joiners|
      invariant completed == joiners[..i]
      invariant effects == Prefix(joiners, i)
      invariant FirstFailure(epoch, turns) == i + FirstFailure(epoch, turns[i..])
    {
      var joiner, turn := joiners[i], turns[i];
      assert turns[i..][0] == turn && turns[i..][1..] == turns[i + 1..];
      if !EpochStands(epoch, turn.reported) {
        TraceInTurn(joiners, i, false, Failed(joiner, completed));
        effects := effects + [Failed(joiner, completed)];
        return Throws, effects;
      }
      effects := effects + [Started(joiner)];
      if !turn.starts || !turn.verified {
        TraceInTurn(joiners, i, true, Failed(joiner, completed));
        effects := effects + [Failed(joiner, completed)];
        return Throws, effects;
      }
      effects := effects + [Verified(joiner)];
      completed := completed + [joiner];
      i := i + 1;
    }
    assert completed == joiners;
    PrefixInTurn(joiners, i);
    TraceInTurn(joiners, i, false, Published(completed));
    if !endAccepted {
      return Throws, effects;
    }
    effects := effects + [Published(completed)];
    ending := if published then Finished(completed) else Throws;
  }

  /** Every joiner before the first failure was let start, started and was verified; the one there was not let start,
      when two known epochs differ, or did not start, or was not verified. */
  lemma {:induction false} FirstFailureExact(epoch: RecoveryState.Epoch, turns: seq<Turn>)
    ensures var k := FirstFailure(epoch, turns);
      && k <= |turns|
      && (forall i :: 0 <= i < k ==>
           && turns[i].starts && turns[i].verified
           && (epoch == RecoveryState.Undefined || turns[i].reported in {epoch, RecoveryState.Undefined}))
      && (k < |turns| ==>
           || (epoch != RecoveryState.Undefined && turns[k].reported !in {epoch, RecoveryState.Undefined})
           || !turns[k].starts || !turns[k].verified)
  {
    if turns != [] {
      FirstFailureExact(epoch, turns[1..]);
    }
  }

  /** A joiner may start exactly unless two known epochs differ. */
  lemma EpochStandsExact(epoch: RecoveryState.Epoch, reported: RecoveryState.Epoch)
    ensures !EpochStands(epoch, reported)
       <==> epoch != RecoveryState.Undefined && reported != RecoveryState.Undefined && epoch != reported
  {
  }

  /** The order of effects, said without the loop: whatever comes before the start of a joiner is the start and
      verification of every earlier joiner, in order, and nothing else. */
  ghost predicate InTurn(joiners: seq<string>, effects: seq<Effect>) {
    forall p :: 0 <= p < |effects| ==> StartInTurn(joiners, effects, p)
  }

  ghost predicate StartInTurn(joiners: seq<string>, effects: seq<Effect>, p: nat)
    requires p < |effects|
  {
    effects[p].Started? ==>
      p / 2 < |joiners| && effects[p].joiner == joiners[p / 2] && effects[..p] == Prefix(joiners, p / 2)
  }

  lemma {:induction false} PrefixInTurn(joiners: seq<string>, n: nat)
    requires n <= |joiners|
    ensures |Prefix(joiners, n)| == 2 * n && InTurn(joiners, Prefix(joiners, n))
  {
    if n > 0 {
      PrefixInTurn(joiners, n - 1);
      var front := Prefix(joiners, n - 1);
      InTurnSnoc(joiners, front, Started(joiners[n - 1]));
      InTurnSnoc(joiners, front + [Started(joiners[n - 1])], Verified(joiners[n - 1]));
      assert Prefix(joiners, n) == front + [Started(joiners[n - 1])] + [Verified(joiners[n - 1])];
    }
  }

  /** Every trace the method can leave keeps the order: after a failure nothing starts, and publication comes
      once, after the last verification. */
  lemma TraceInTurn(joiners: seq<string>, k: nat, started: bool, last: Effect)
    requires k <= |joiners| && (started ==> k < |joiners|) && (last.Failed? || last.Published?)
    ensures InTurn(joiners, Prefix(joiners, k))
    ensures !started ==> InTurn(joiners, Prefix(joiners, k) + [last])
    ensures started ==> InTurn(joiners, Prefix(joiners, k) + [Started(joiners[k])] + [last])
  {
    PrefixInTurn(joiners, k);
    var effects := Prefix(joiners, k);
    if started {
      InTurnSnoc(joiners, effects, Started(joiners[k]));
      InTurnSnoc(joiners, effects + [Started(joiners[k])], last);
    } else {
      InTurnSnoc(joiners, effects, last);
    }
  }

  lemma InTurnSnoc(joiners: seq<string>, effects: seq<Effect>, last: Effect)
    requires InTurn(joiners, effects)
    requires last.Started? ==>
      |effects| / 2 < |joiners| && last.joiner == joiners[|effects| / 2] && effects == Prefix(joiners, |effects| / 2)
    ensures InTurn(joiners, effects + [last])
  {
    var all := effects + [last];
    forall p | 0 <= p < |all| ensures StartInTurn(joiners, all, p) {
      if p < |effects| {
        assert StartInTurn(joiners, effects, p);
        assert all[p] == effects[p] && all[..p] == effects[..p];
      } else {
        assert all[..p] == effects;
      }
    }
  }
}
