/** The recovery state a supervisor reports: src/cluster/cold-bootstrap/recovery-state.mjs. */
module RecoveryState {
  import opened Options
  import Names

  datatype State =
    | Pending | CollectingEvidence | AwaitingQuorum | RecoveryAuthorized | Bootstrapping
    | Joining | Complete | ClusterUnavailable | BlockedAmbiguous

  /** Epochs as callers pass them; the remembered one is never `Null`. */
  datatype Epoch = Undefined | Null | Text(text: string) | Number(number: int) {
    predicate Nullish() { Undefined? || Null? }
  }

  datatype Details = Details(reason: Option<string>, epoch: Epoch)

  predicate InTable(from: State, to: State) {
    match from
    case Pending => to in {CollectingEvidence, Joining, Bootstrapping, ClusterUnavailable, BlockedAmbiguous}
    case CollectingEvidence => to in {AwaitingQuorum, Joining, BlockedAmbiguous, ClusterUnavailable}
    case AwaitingQuorum => to in {RecoveryAuthorized, BlockedAmbiguous, ClusterUnavailable}
    case RecoveryAuthorized => to in {Bootstrapping, BlockedAmbiguous, ClusterUnavailable}
    case Bootstrapping => to in {Joining, Complete, ClusterUnavailable}
    case Joining => to in {Joining, Complete, ClusterUnavailable}
    case Complete => to in {CollectingEvidence, ClusterUnavailable}
    case ClusterUnavailable => to in {CollectingEvidence, BlockedAmbiguous, Complete, Joining}
    case BlockedAmbiguous => to in {CollectingEvidence, Joining}
  }

  function Digits(n: nat): string {
    if n < 10 then [('0' as int + n) as char] else Digits(n / 10) + [('0' as int + n % 10) as char]
  }

  /** `String(epoch)`. */
  function ToText(epoch: Epoch): string {
    match epoch
    case Undefined => "undefined"
    case Null => "null"
    case Text(text) => text
    case Number(n) => if n < 0 then "-" + Digits(-n) else Digits(n)
  }

  predicate Below(a: string, b: string) {
    !Names.Leq(b, a)
  }

  predicate IsStale(candidate: Epoch, epoch: Epoch) {
    if candidate.Undefined? || epoch.Undefined? then false
    else if candidate == epoch then false
    else if candidate.Number? && epoch.Number? then candidate.number < epoch.number
    else Below(ToText(candidate), ToText(epoch))
  }

  datatype Snapshot = Snapshot(state: State, reason: Option<string>, epoch: Epoch)

  datatype Outcome = Ignored | Moved | RefusedTransition

  function SetStep(s: Snapshot, next: State, details: Details): (Snapshot, Outcome) {
    if IsStale(details.epoch, s.epoch) then (s, Ignored)
    else if s.state == Complete && next == ClusterUnavailable && details.epoch == s.epoch then (s, Ignored)
    else if next != s.state && !InTable(s.state, next) then (s, RefusedTransition)
    else (Snapshot(next, details.reason, if details.epoch.Nullish() then s.epoch else details.epoch), Moved)
  }

  class RecoveryStateObject {
    var state: State
    var reason: Option<string>
    var epoch: Epoch

    constructor (initial: State)
      ensures View() == Snapshot(initial, None, Undefined)
    {
      state, reason, epoch := initial, None, Undefined;
    }

    function View(): Snapshot
      reads this
    {
      Snapshot(state, reason, epoch)
    }

    method Set(next: State, details: Details) returns (outcome: Outcome)
      modifies this
      ensures (View(), outcome) == SetStep(old(View()), next, details)
    {
      if IsStale(details.epoch, epoch) {
        return Ignored;
      }
      if state == Complete && next == ClusterUnavailable && details.epoch == epoch {
        return Ignored;
      }
      if next != state && !InTable(state, next) {
        return RefusedTransition;
      }
      state := next;
      reason := details.reason;
      if !details.epoch.Nullish() {
        epoch := details.epoch;
      }
      outcome := Moved;
    }
  }

  // ----- runs -----

  datatype Call = Call(next: State, details: Details)

  function Start(initial: State): Snapshot {
    Snapshot(initial, None, Undefined)
  }

  function Run(s: Snapshot, calls: seq<Call>): Snapshot {
    if calls == [] then s
    else SetStep(Run(s, calls[..|calls| - 1]), calls[|calls| - 1].next, calls[|calls| - 1].details).0
  }

  datatype Kind = Texts | Numbers

  predicate OfKind(epoch: Epoch, kind: Kind) {
    epoch.Nullish() || (if kind.Texts? then epoch.Text? else epoch.Number?)
  }

  /** The order of one kind of epochs, with "none yet" below everything. */
  predicate AtMost(a: Epoch, b: Epoch) {
    match (a, b)
    case (Undefined, _) => true
    case (Text(s), Text(t)) => Names.Leq(s, t)
    case (Number(m), Number(n)) => m <= n
    case _ => false
  }

  lemma EpochStep(s: Snapshot, call: Call, kind: Kind)
    requires OfKind(s.epoch, kind) && s.epoch != Null && OfKind(call.details.epoch, kind)
    ensures var t := SetStep(s, call.next, call.details).0;
      OfKind(t.epoch, kind) && t.epoch != Null && AtMost(s.epoch, t.epoch)
  {
    if s.epoch.Text? {
      Names.LeqTotal(s.epoch.text, s.epoch.text);
    }
  }

  lemma AtMostTransitive(a: Epoch, b: Epoch, c: Epoch)
    requires AtMost(a, b) && AtMost(b, c)
    ensures AtMost(a, c)
  {
    if a.Text? {
      Names.LeqTransitive(a.text, b.text, c.text);
    }
  }

  /** With epochs of one kind, the remembered epoch never decreases along a run. */
  lemma {:induction false} EpochNeverDecreases(s: Snapshot, calls: seq<Call>, kind: Kind)
    requires OfKind(s.epoch, kind) && s.epoch != Null && forall c <- calls :: OfKind(c.details.epoch, kind)
    ensures var t := Run(s, calls); OfKind(t.epoch, kind) && t.epoch != Null && AtMost(s.epoch, t.epoch)
  {
    if calls == [] {
      if s.epoch.Text? {
        Names.LeqTotal(s.epoch.text, s.epoch.text);
      }
    } else {
      var n := |calls| - 1;
      EpochNeverDecreases(s, calls[..n], kind);
      EpochStep(Run(s, calls[..n]), calls[n], kind);
      AtMostTransitive(s.epoch, Run(s, calls[..n]).epoch, Run(s, calls).epoch);
    }
  }

  /** Mixing kinds compares them as text, and then the remembered number can go down: 10, "2", 3. */
  lemma MixedKindsDecrease()
    ensures var calls := [Call(Joining, Details(None, Number(10))), Call(Joining, Details(None, Text("2"))),
                          Call(Joining, Details(None, Number(3)))];
      Run(Start(Pending), calls[..1]).epoch == Number(10) && Run(Start(Pending), calls).epoch == Number(3)
  {
    var a := Call(Joining, Details(None, Number(10)));
    var b, c := Call(Joining, Details(None, Text("2"))), Call(Joining, Details(None, Number(3)));
    var calls := [a, b, c];
    assert calls[..1] == [a] && calls[..2] == [a, b] && [a, b][..1] == [a] && [a][..0] == [];
    assert Run(Start(Pending), [a]) == Snapshot(Joining, None, Number(10));
    assert Digits(10) == "10" by { assert Digits(1) == "1"; }
    assert Digits(3) == "3";
    assert Run(Start(Pending), [a, b]) == Snapshot(Joining, None, Text("2"));
    assert Run(Start(Pending), calls) == Snapshot(Joining, None, Number(3));
  }

  // ----- when the epoch goes back -----

  /** `a` is an epoch of the kind of `b` and before it. */
  predicate Before(a: Epoch, b: Epoch) {
    match (a, b)
    case (Text(s), Text(t)) => Below(s, t)
    case (Number(m), Number(n)) => m < n
    case _ => false
  }

  predicate OtherKind(a: Epoch, b: Epoch) {
    (a.Text? && b.Number?) || (a.Number? && b.Text?)
  }

  /** The call passes an epoch before `first` while one of the other kind is remembered whose text is not above it, and
      the table lets it through. */
  predicate Slips(s: Snapshot, call: Call, first: Epoch) {
    && OtherKind(s.epoch, first) && Before(call.details.epoch, first)
    && Names.Leq(ToText(s.epoch), ToText(call.details.epoch))
    && (call.next == s.state || InTable(s.state, call.next))
  }

  /** An epoch that has not gone back behind `first`. */
  predicate Holds(epoch: Epoch, first: Epoch) {
    OtherKind(epoch, first) || AtMost(first, epoch)
  }

  lemma HoldsStep(s: Snapshot, call: Call, first: Epoch)
    requires (first.Text? || first.Number?) && Holds(s.epoch, first)
    ensures Holds(SetStep(s, call.next, call.details).0.epoch, first) <==> !Slips(s, call, first)
  {
    Names.LeqIsOrder();
  }

  lemma {:induction false} HoldsAlong(s: Snapshot, calls: seq<Call>, k: nat)
    requires (s.epoch.Text? || s.epoch.Number?) && k <= |calls|
    requires forall i :: 0 <= i < k ==> !Slips(Run(s, calls[..i]), calls[i], s.epoch)
    ensures Holds(Run(s, calls[..k]).epoch, s.epoch)
    decreases k
  {
    Names.LeqIsOrder();
    if k > 0 {
      HoldsAlong(s, calls, k - 1);
      HoldsStep(Run(s, calls[..k - 1]), calls[k - 1], s.epoch);
      assert calls[..k][..k - 1] == calls[..k - 1];
    }
  }

  /** A run goes back behind a remembered epoch exactly when some call passes an earlier epoch of that kind over a
      remembered one of the other kind whose text is not above it. */
  lemma FallsExactly(s: Snapshot, calls: seq<Call>)
    requires s.epoch.Text? || s.epoch.Number?
    ensures (exists k :: 0 <= k <= |calls| && Before(Run(s, calls[..k]).epoch, s.epoch))
       <==> (exists k :: 0 <= k < |calls| && Slips(Run(s, calls[..k]), calls[k], s.epoch))
  {
    Names.LeqIsOrder();
    if k :| 0 <= k < |calls| && Slips(Run(s, calls[..k]), calls[k], s.epoch) {
      assert calls[..k + 1][..k] == calls[..k];
      assert Before(Run(s, calls[..k + 1]).epoch, s.epoch);
    } else if k :| 0 <= k <= |calls| && Before(Run(s, calls[..k]).epoch, s.epoch) {
      HoldsAlong(s, calls, k);
    }
  }

  function Repeats(s: Snapshot, epoch: Epoch): Call {
    Call(s.state, Details(None, epoch))
  }

  /** Between a remembered number and a smaller one, a single text suffices exactly when the smaller number is not
      below the other as text. */
  lemma OneTextExactly(s: Snapshot, m: int, n: int)
    requires s.epoch == Number(m) && n < m
    ensures (exists t :: Run(s, [Repeats(s, Text(t)), Repeats(s, Number(n))]).epoch == Number(n))
       <==> Names.Leq(ToText(Number(m)), ToText(Number(n)))
  {
    forall t ensures Run(s, [Repeats(s, Text(t)), Repeats(s, Number(n))]).epoch == Number(n)
       <==> Names.Leq(ToText(Number(m)), t) && Names.Leq(t, ToText(Number(n))) {
      var calls := [Repeats(s, Text(t)), Repeats(s, Number(n))];
      assert calls[..1] == [Repeats(s, Text(t))] && calls[..1][..0] == [];
      assert Run(s, calls[..1]) == SetStep(s, s.state, Details(None, Text(t))).0;
    }
    Names.LeqIsOrder();
    var t := ToText(Number(m));
    if t' :| Run(s, [Repeats(s, Text(t')), Repeats(s, Number(n))]).epoch == Number(n) {
      Names.LeqTransitive(t, t', ToText(Number(n)));
    }
    assert Run(s, [Repeats(s, Text(t)), Repeats(s, Number(n))]).epoch == Number(n) <==> Names.Leq(t, ToText(Number(n)));
  }

  // ----- which numbers can be reached -----

  ghost predicate Reaches(s: Snapshot, epoch: Epoch) {
    exists calls :: Run(s, calls).epoch == epoch
  }

  lemma {:induction false} DigitsShape(n: nat)
    ensures var d := Digits(n);
      d != [] && (n > 0 ==> '1' <= d[0] <= '9') && (n == 0 ==> d == "0") && (n < 10 <==> |d| == 1)
    ensures forall c <- Digits(n) :: '0' <= c <= '9'
  {
    if n >= 10 {
      DigitsShape(n / 10);
    }
  }

  /** The least text a number from `bound` on can have: 2, 3, ... are all above the text of ten. */
  function LeastText(bound: nat): string
    requires bound <= 2
  {
    if bound == 0 then "0" else if bound == 1 then "1" else "10"
  }

  lemma LeastTextExact(bound: nat, n: int)
    requires bound <= 2
    ensures Names.Leq(LeastText(bound), ToText(Number(n))) <==> bound <= n
  {
    if n >= 0 {
      DigitsShape(n);
      var d := Digits(n);
      assert "10"[1..] == "0" && "0"[1..] == "" && "1"[1..] == "";
      if bound == 2 && d[0] == '1' && |d| > 1 {
        assert d[1] in d;
        assert d[1..] != [] && Names.Leq("0", d[1..]);
      }
    }
  }

  predicate AtLeast(epoch: Epoch, bound: nat)
    requires bound <= 2
  {
    (epoch.Number? && bound <= epoch.number) || (epoch.Text? && Names.Leq(LeastText(bound), epoch.text))
  }

  lemma AtLeastStep(s: Snapshot, call: Call, bound: nat)
    requires bound <= 2 && AtLeast(s.epoch, bound)
    ensures AtLeast(SetStep(s, call.next, call.details).0.epoch, bound)
  {
    Names.LeqIsOrder();
    if s.epoch.Number? {
      LeastTextExact(bound, s.epoch.number);
    }
    if call.details.epoch.Number? {
      LeastTextExact(bound, call.details.epoch.number);
    }
  }

  lemma {:induction false} AtLeastAlong(s: Snapshot, calls: seq<Call>, bound: nat)
    requires bound <= 2 && AtLeast(s.epoch, bound)
    ensures AtLeast(Run(s, calls).epoch, bound)
  {
    if calls != [] {
      var n := |calls| - 1;
      AtLeastAlong(s, calls[..n], bound);
      AtLeastStep(Run(s, calls[..n]), calls[n], bound);
    }
  }

  /** A power of ten above `m`. */
  function PowerAbove(m: nat): (p: nat)
    ensures p > m && p > 0
  {
    if m == 0 then 1 else 10 * PowerAbove(m / 10)
  }

  lemma {:induction false} PowerStartsWithOne(m: nat)
    ensures Digits(PowerAbove(m))[0] == '1'
  {
    if m > 0 {
      PowerStartsWithOne(m / 10);
      var p := PowerAbove(m / 10);
      assert 10 * p / 10 == p && Digits(10 * p) == Digits(p) + ['0'];
    }
  }

  /** One more epoch that is not stale, and the state repeated. */
  lemma Extends(s: Snapshot, calls: seq<Call>, epoch: Epoch)
    requires Run(s, calls).state == s.state && !epoch.Nullish() && !IsStale(epoch, Run(s, calls).epoch)
    ensures var after := Run(s, calls + [Repeats(s, epoch)]); after.state == s.state && after.epoch == epoch
  {
    assert (calls + [Repeats(s, epoch)])[..|calls|] == calls;
  }

  /** Three epochs on end, none of them stale. */
  lemma Detour(s: Snapshot, high: Epoch, between: Epoch, low: Epoch) returns (calls: seq<Call>)
    requires !high.Nullish() && !between.Nullish() && !low.Nullish()
    requires !IsStale(high, s.epoch) && !IsStale(between, high) && !IsStale(low, between)
    ensures Run(s, calls).state == s.state && Run(s, calls).epoch == low
  {
    Extends(s, [], high);
    var up := [] + [Repeats(s, high)];
    Extends(s, up, between);
    Extends(s, up + [Repeats(s, between)], low);
    calls := up + [Repeats(s, between)] + [Repeats(s, low)];
  }

  lemma NegativeReached(s: Snapshot, m: int, n: int)
    requires s.epoch == Number(m) && n < m < 0
    ensures Reaches(s, Number(n))
  {
    DigitsShape(-n);
    var least, text := ToText(Number(-1)), ToText(Number(n));
    assert Digits(1) == "1" && least == "-1" && text[0] == '-' && least[1..] == "1" && text[1..] == Digits(-n);
    assert Names.Leq("1", Digits(-n)) by { assert "1"[1..] == ""; }
    Names.LeqTotal(least, least);
    var calls := Detour(s, Number(-1), Text(least), Number(n));
  }

  lemma TwoReached(s: Snapshot, m: int, n: int)
    requires s.epoch == Number(m) && m >= 0 && n >= 2
    ensures Reaches(s, Number(n))
  {
    PowerStartsWithOne(m);
    assert Digits(2) == "2";
    Names.LeqTotal("2", "2");
    var calls := Detour(s, Number(PowerAbove(m)), Text("2"), Number(2));
    Extends(s, calls, Number(n));
  }

  /** Behind a remembered number some run leads to all negative numbers if it is negative, and else exactly to those
      from two on: up to a power of ten, over the text of two, and down. */
  lemma NumbersReachedExactly(s: Snapshot, m: int, n: int)
    requires s.epoch == Number(m) && n < m
    ensures Reaches(s, Number(n)) <==> m < 0 || n >= 2
  {
    if m < 0 {
      NegativeReached(s, m, n);
    } else if n >= 2 {
      TwoReached(s, m, n);
    } else if calls :| Run(s, calls).epoch == Number(n) {
      AtLeastAlong(s, calls, if n < 0 then 0 else n + 1);
    }
  }

  /** The steps of the table. */
  const TABLE: set<(State, State)> := {
    (Pending, CollectingEvidence), (Pending, Joining), (Pending, Bootstrapping), (Pending, ClusterUnavailable),
    (Pending, BlockedAmbiguous),
    (CollectingEvidence, AwaitingQuorum), (CollectingEvidence, Joining), (CollectingEvidence, BlockedAmbiguous),
    (CollectingEvidence, ClusterUnavailable),
    (AwaitingQuorum, RecoveryAuthorized), (AwaitingQuorum, BlockedAmbiguous), (AwaitingQuorum, ClusterUnavailable),
    (RecoveryAuthorized, Bootstrapping), (RecoveryAuthorized, BlockedAmbiguous),
    (RecoveryAuthorized, ClusterUnavailable),
    (Bootstrapping, Joining), (Bootstrapping, Complete), (Bootstrapping, ClusterUnavailable),
    (Joining, Joining), (Joining, Complete), (Joining, ClusterUnavailable),
    (Complete, CollectingEvidence), (Complete, ClusterUnavailable),
    (ClusterUnavailable, CollectingEvidence), (ClusterUnavailable, BlockedAmbiguous), (ClusterUnavailable, Complete),
    (ClusterUnavailable, Joining),
    (BlockedAmbiguous, CollectingEvidence), (BlockedAmbiguous, Joining)}

  /** An epoch is stale against another that is known: by number when both are numbers, and else by text. */
  lemma StaleExact(candidate: Epoch, epoch: Epoch)
    ensures IsStale(candidate, epoch) <==>
      && candidate != Undefined && epoch != Undefined
      && match (candidate, epoch)
         case (Number(m), Number(n)) => m < n
         case _ => ToText(candidate) != ToText(epoch) && Names.Leq(ToText(candidate), ToText(epoch))
    ensures ToText(Null) == "null" && forall text: string :: ToText(Text(text)) == text
  {
    Names.LeqIsOrder();
  }

  /** What a call decides: stale ones and refused ones change nothing, the others follow the table, and a
      failure report leaves `complete` exactly when it is neither stale nor about the completed epoch. */
  lemma SetExact(s: Snapshot, next: State, details: Details)
    ensures var (t, outcome) := SetStep(s, next, details);
      && (outcome != Moved ==> t == s)
      && (IsStale(details.epoch, s.epoch) ==> outcome == Ignored)
      && (t.state != s.state ==> outcome == Moved && t.state == next && (s.state, next) in TABLE)
      && (outcome == RefusedTransition <==>
           && !IsStale(details.epoch, s.epoch) && next != s.state && (s.state, next) !in TABLE
           && !(s.state == Complete && next == ClusterUnavailable && details.epoch == s.epoch))
      && (s.state == Complete && next == ClusterUnavailable ==>
           (t.state == ClusterUnavailable <==> details.epoch != s.epoch && !IsStale(details.epoch, s.epoch)))
      && (outcome == Moved ==>
          t.reason == details.reason && (t.epoch == details.epoch || (details.epoch.Nullish() && t.epoch == s.epoch)))
  {
  }

  predicate Reports(call: Call, epoch: Epoch) {
    call.next == ClusterUnavailable && call.details.epoch == epoch
  }

  /** Failure reports for the completed epoch, however many, cannot undo `complete`. */
  lemma {:induction false} CompleteSurvivesReports(s: Snapshot, calls: seq<Call>)
    requires s.state == Complete && forall c <- calls :: Reports(c, s.epoch) || IsStale(c.details.epoch, s.epoch)
    ensures Run(s, calls) == s
  {
    if calls != [] {
      var n := |calls| - 1;
      CompleteSurvivesReports(s, calls[..n]);
      assert calls[n] in calls;
    }
  }

  function StateAt(calls: seq<Call>, k: nat): State
    requires k <= |calls|
  {
    Run(Start(Pending), calls[..k]).state
  }

  lemma StateStep(calls: seq<Call>, k: nat)
    requires 0 < k <= |calls|
    ensures StateAt(calls, k) == StateAt(calls, k - 1) || InTable(StateAt(calls, k - 1), StateAt(calls, k))
  {
    assert calls[..k][..k - 1] == calls[..k - 1];
    SetExact(Run(Start(Pending), calls[..k - 1]), calls[k - 1].next, calls[k - 1].details);
  }

  lemma {:induction false} AwaitingFollowsCollecting(calls: seq<Call>, k: nat) returns (i: nat)
    requires k <= |calls| && StateAt(calls, k) == AwaitingQuorum
    ensures i < k && StateAt(calls, i) == CollectingEvidence
  {
    StateStep(calls, k);
    if StateAt(calls, k - 1) == AwaitingQuorum {
      i := AwaitingFollowsCollecting(calls, k - 1);
    } else {
      i := k - 1;
    }
  }

  /** A run from pending that reaches recovery-authorized collected evidence and then awaited a quorum. */
  lemma {:induction false} AuthorizedFollowsQuorum(calls: seq<Call>, k: nat) returns (i: nat, j: nat)
    requires k <= |calls| && StateAt(calls, k) == RecoveryAuthorized
    ensures i < j < k && StateAt(calls, i) == CollectingEvidence && StateAt(calls, j) == AwaitingQuorum
  {
    StateStep(calls, k);
    if StateAt(calls, k - 1) == RecoveryAuthorized {
      i, j := AuthorizedFollowsQuorum(calls, k - 1);
    } else {
      j := k - 1;
      i := AwaitingFollowsCollecting(calls, j);
    }
  }
}
