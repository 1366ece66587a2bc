/** From plan to MariaDB arguments: src/runtime/recovery-startup.mjs, recovery-startup-decision.mjs,
    recovery-decision.mjs, recovery-authorization.mjs, rejoin-decision.mjs and
    src/cluster/cold-bootstrap/startup-arguments.mjs, on the automatic path of a clustered supervisor. */
module Startup {
  import opened Options
  import opened Evidence
  import opened RecoveryEpoch
  import opened DecisionStore
  import opened Protocol
  import opened ProtocolFacts
  import RecoveryState
  import LeaseRuns
  import Majority
  import Sorting

  datatype Mode = Bootstrap | Join | Rejoin | BlockedMode

  datatype Decision = Decision(mode: Mode, winner: Option<string>, localWinner: bool, epoch: Option<EpochId>,
                               bootstrapComplete: bool)

  const FLAG: string := "--wsrep-new-cluster"
  const ADDRESS: string := "--wsrep-cluster-address="

  predicate GrantsBootstrap(decision: Decision) {
    decision.mode == Bootstrap && decision.localWinner
  }

  // ----- arguments -----

  predicate StartsWith(s: string, prefix: string) {
    |prefix| <= |s| && s[..|prefix|] == prefix
  }

  predicate NotFlag(a: string) {
    a != FLAG
  }

  /** The cluster address of a joiner is replaced, every other argument stays. */
  function Readdressed(joinAddress: string): string -> string {
    (a: string) => if StartsWith(a, ADDRESS) then ADDRESS + "gcomm://" + joinAddress else a
  }

  /** `joinAddress` is `None` when it is absent or not a host with an optional port. */
  function StartupArguments(args: seq<string>, decision: Decision, joinAddress: Option<string>): seq<string> {
    var joinOnly := Sorting.Filter(args, NotFlag);
    if GrantsBootstrap(decision) then joinOnly + [FLAG]
    else if decision.mode == Join && joinAddress.Some? then Sorting.Map(joinOnly, Readdressed(joinAddress.value))
    else joinOnly
  }

  function FlagCount(args: seq<string>): nat {
    multiset(args)[FLAG]
  }

  /** No address becomes the flag, and the flag is no address. */
  lemma ReaddressedIsNoFlag(a: string, joinAddress: string)
    ensures Readdressed(joinAddress)(a) == FLAG <==> a == FLAG
  {
    assert ADDRESS[8] != FLAG[8];
    assert (ADDRESS + "gcomm://" + joinAddress)[8] == ADDRESS[8];
  }

  lemma ReaddressedKeeps(args: seq<string>, joinAddress: string)
    requires FLAG !in args
    ensures FLAG !in Sorting.Map(args, Readdressed(joinAddress))
  {
    forall a | a in args ensures Readdressed(joinAddress)(a) != FLAG {
      ReaddressedIsNoFlag(a, joinAddress);
    }
  }

  lemma FilteredFlag(args: seq<string>)
    ensures FLAG !in Sorting.Filter(args, NotFlag)
    ensures Sorting.Filter(Sorting.Filter(args, NotFlag), NotFlag) == Sorting.Filter(args, NotFlag)
  {
    Sorting.FilterMembers(args, NotFlag);
    Sorting.FilterAll(Sorting.Filter(args, NotFlag), NotFlag);
  }

  /** Whatever the arguments were, the flag is there once for the local winner and never for anyone else. */
  lemma ArgumentsFlag(args: seq<string>, decision: Decision, joinAddress: Option<string>)
    ensures multiset(StartupArguments(args, decision, joinAddress))["--wsrep-new-cluster"]
         == if decision.mode == Bootstrap && decision.localWinner then 1 else 0
  {
    var joinOnly := Sorting.Filter(args, NotFlag);
    FilteredFlag(args);
    if joinAddress.Some? {
      ReaddressedKeeps(joinOnly, joinAddress.value);
    }
  }

  lemma ArgumentsMapped(args: seq<string>, decision: Decision, joinAddress: Option<string>)
    ensures Sorting.Filter(StartupArguments(args, decision, joinAddress), NotFlag)
         == if decision.mode == Join && joinAddress.Some?
            then Sorting.Map(Sorting.Filter(args, NotFlag), Readdressed(joinAddress.value))
            else Sorting.Filter(args, NotFlag)
  {
    var joinOnly := Sorting.Filter(args, NotFlag);
    FilteredFlag(args);
    if GrantsBootstrap(decision) {
      Sorting.FilterConcat(joinOnly, [FLAG], NotFlag);
    } else if decision.mode == Join && joinAddress.Some? {
      ReaddressedKeeps(joinOnly, joinAddress.value);
      Sorting.FilterAll(Sorting.Map(joinOnly, Readdressed(joinAddress.value)), NotFlag);
    }
  }

  lemma ReaddressedExact(a: string, joinAddress: string)
    ensures Readdressed(joinAddress)(a)
         == if "--wsrep-cluster-address=" <= a then "--wsrep-cluster-address=gcomm://" + joinAddress else a
  {
    assert ADDRESS + "gcomm://" == "--wsrep-cluster-address=gcomm://";
  }

  /** Apart from the flag every argument stays where it was, except that a joiner with an address to join has it in place
      of the configured cluster address. */
  lemma ArgumentsKept(args: seq<string>, decision: Decision, joinAddress: Option<string>)
    ensures var kept, given :=
      Sorting.Filter(StartupArguments(args, decision, joinAddress), NotFlag), Sorting.Filter(args, NotFlag);
      && |kept| == |given|
      && forall k :: 0 <= k < |given| ==>
           kept[k] == if decision.mode == Join && joinAddress.Some? && "--wsrep-cluster-address=" <= given[k]
                      then "--wsrep-cluster-address=gcomm://" + joinAddress.value else given[k]
  {
    ArgumentsMapped(args, decision, joinAddress);
    if decision.mode == Join && joinAddress.Some? {
      forall a ensures Readdressed(joinAddress.value)(a)
        == if "--wsrep-cluster-address=" <= a then "--wsrep-cluster-address=gcomm://" + joinAddress.value else a
      {
        ReaddressedExact(a, joinAddress.value);
      }
    }
  }

  // ----- plan to decision -----

  function RecoveryStartupDecision(plan: Reply, nodeName: string): Decision {
    match plan
    case PlanJoins => Decision(Join, None, false, None, true)
    case Elected(record) =>
      Decision(Bootstrap, record.winner.Node(), record.winner.Node() == Some(nodeName), Some(record.epoch), false)
    case _ => Decision(BlockedMode, None, false, None, false)
  }

  function StateOf(mode: Mode): RecoveryState.State {
    match mode
    case Bootstrap => RecoveryState.AwaitingQuorum
    case Join => RecoveryState.Joining
    case _ => RecoveryState.BlockedAmbiguous
  }

  function Tag(epoch: Option<EpochId>, render: EpochId -> string): RecoveryState.Details {
    RecoveryState.Details(None,
                          match epoch case Some(id) => RecoveryState.Text(render(id)) case None => RecoveryState.Null)
  }

  // ----- authorization by the members' leases -----

  /** What came back from one member's lease route; `Misrouted` is a URL for another host, which throws. */
  datatype LeaseAnswer = Answered(granted: bool) | Unreachable | Misrouted

  datatype Promotion = Promoted | NoStateFile | PromotionFails

  datatype BeginInputs = BeginInputs(answers: seq<Answer>, now: int, authorizeIo: bool, beginIo: bool)

  datatype AuthorizationResult =
    | AuthorizationThrows | AuthorizationDecides(decision: Decision, args: Option<seq<string>>)

  predicate IsGranted(answer: LeaseAnswer) {
    answer == Answered(true)
  }

  function GrantedNames(members: seq<Member>, claims: seq<LeaseAnswer>): seq<string>
    requires |members| == |claims|
  {
    if members == [] then []
    else (if IsGranted(claims[0]) then [members[0].name] else []) + GrantedNames(members[1..], claims[1..])
  }

  predicate DistinctNames(members: seq<Member>) {
    forall i, j :: 0 <= i < j < |members| ==> members[i].name != members[j].name
  }

  lemma {:induction false} GrantedNamesFacts(members: seq<Member>, claims: seq<LeaseAnswer>)
    requires |members| == |claims| && DistinctNames(members)
    ensures var granted := GrantedNames(members, claims);
      && |granted| <= |members|
      && (forall name <- granted :: exists k :: 0 <= k < |members| && members[k].name == name)
      && (|MemberSet(granted)| == |members| <==> forall c <- claims :: IsGranted(c))
      && Sorting.NoDuplicates(granted)
  {
    if members != [] {
      GrantedNamesFacts(members[1..], claims[1..]);
      var rest := GrantedNames(members[1..], claims[1..]);
      var granted := GrantedNames(members, claims);
      forall name <- granted ensures exists k :: 0 <= k < |members| && members[k].name == name {
        if name in rest {
          var k :| 0 <= k < |members[1..]| && members[1..][k].name == name;
          assert members[k + 1].name == name;
        } else {
          assert members[0].name == name;
        }
      }
      assert members[0].name !in rest;
      MemberSetDistinct(rest);
      MemberSetDistinct(granted);
      assert claims == [claims[0]] + claims[1..];
    }
  }

  /** Acknowledged are exactly the members whose own lease was granted. */
  lemma {:induction false} GrantedExactly(members: seq<Member>, claims: seq<LeaseAnswer>, k: nat)
    requires |members| == |claims| && DistinctNames(members) && k < |members|
    ensures members[k].name in GrantedNames(members, claims) <==> claims[k] == Answered(true)
  {
    GrantedNamesFacts(members[1..], claims[1..]);
    if k > 0 {
      GrantedExactly(members[1..], claims[1..], k - 1);
      assert members[0].name != members[k].name;
    } else {
      assert members[0].name !in GrantedNames(members[1..], claims[1..]);
    }
  }
}
