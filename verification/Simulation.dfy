/**
 * src/server/policy/simulate.ts: "test policy". The simulation reads the rows once and
 * changes nothing; the live run changes rows from one target to the next. What the one says
 * about the other is proved here.
 */
module Simulation {
  import opened Common
  import opened Store
  import opened PolicyActions
  import opened PolicyEngine

  datatype Simulated = Simulated(target: Target, matched: bool, unavailable: bool, alreadySatisfied: bool)

  function SimulatedOf(rows: State, policy: Policy, target: Target, observed: Option<real>): Simulated {
    var matched := Matches(policy, observed);
    Simulated(target, matched, observed.None?, matched && IsAlreadySatisfied(rows, policy.action, target))
  }

  function SimulatedAll(rows: State, policy: Policy, targets: seq<Target>, observed: seq<Option<real>>): seq<Simulated>
    requires |observed| == |targets|
  {
    seq(|targets|, k requires 0 <= k < |targets| => SimulatedOf(rows, policy, targets[k], observed[k]))
  }

  /** The simulator finds a match exactly where the operator holds of the observation. */
  lemma SimulatedExactly(rows: State, policy: Policy, target: Target, observed: Option<real>)
    ensures var s := SimulatedOf(rows, policy, target, observed);
            && s.target == target && (s.unavailable <==> observed.None?)
            && (s.matched <==> observed.Some? && policy.operator in Holding(observed.value - policy.value))
            && (s.alreadySatisfied ==> s.matched)
  {
    OperatorsExactly(policy, observed);
  }

  datatype Flag = MATCHED | UNAVAILABLE | SATISFIED

  predicate Flagged(s: Simulated, flag: Flag) {
    match flag
    case MATCHED => s.matched
    case UNAVAILABLE => s.unavailable
    case SATISFIED => s.alreadySatisfied
  }

  function CountFlag(outcomes: seq<Simulated>, flag: Flag): nat {
    if outcomes == [] then 0
    else CountFlag(outcomes[..|outcomes| - 1], flag) + if Flagged(outcomes[|outcomes| - 1], flag) then 1 else 0
  }

  /** Matched and unmeasurable targets are listed; plain non-matches are not. */
  function Shown(outcomes: seq<Simulated>): seq<Simulated> {
    if outcomes == [] then []
    else
      var last := outcomes[|outcomes| - 1];
      Shown(outcomes[..|outcomes| - 1]) + if last.matched || last.unavailable then [last] else []
  }

  /** The matches whose observed percentage is, or is not yet, at 100. */
  function MatchesAt(policy: Policy, observed: seq<Option<real>>, reached: bool): nat {
    if observed == [] then 0
    else
      var last := observed[|observed| - 1];
      MatchesAt(policy, observed[..|observed| - 1], reached)
      + if Matches(policy, last) && (last.value >= 100.0) == reached then 1 else 0
  }

  lemma NoneSimulated(policy: Policy)
    ensures forall flag :: CountFlag([], flag) == 0
    ensures Shown([]) == [] && forall reached :: MatchesAt(policy, [], reached) == 0
  {
  }

  lemma NextSimulated(all: seq<Simulated>, policy: Policy, observed: seq<Option<real>>, k: nat)
    requires k < |all| == |observed|
    ensures all[..k + 1] == all[..k] + [all[k]]
    ensures forall flag ::
              CountFlag(all[..k + 1], flag) == CountFlag(all[..k], flag) + if Flagged(all[k], flag) then 1 else 0
    ensures Shown(all[..k + 1]) == Shown(all[..k]) + if all[k].matched || all[k].unavailable then [all[k]] else []
    ensures forall reached :: MatchesAt(policy, observed[..k + 1], reached)
              == MatchesAt(policy, observed[..k], reached)
               + if Matches(policy, observed[k]) && (observed[k].value >= 100.0) == reached then 1 else 0
  {
    assert all[..k + 1][..k] == all[..k] && observed[..k + 1][..k] == observed[..k];
  }

  /** `quotaMetric`: the condition is on a quota percentage, whose matches are split at 100. */
  method SimulatePolicy(rows: State, policy: Policy, targets: seq<Target>, observed: seq<Option<real>>,
                        quotaMetric: bool)
    returns (matched: nat, unavailable: nat, satisfied: nat, warnings: nat, alreadyExceeded: nat, shown: seq<Simulated>)
    requires |observed| == |targets|
    ensures var all := SimulatedAll(rows, policy, targets, observed);
            && matched == CountFlag(all, MATCHED)
            && unavailable == CountFlag(all, UNAVAILABLE)
            && satisfied == CountFlag(all, SATISFIED)
            && shown == Shown(all)
    ensures warnings == if quotaMetric then MatchesAt(policy, observed, false) else 0
    ensures alreadyExceeded == if quotaMetric then MatchesAt(policy, observed, true) else 0
    ensures quotaMetric ==> warnings + alreadyExceeded == matched
    ensures satisfied <= matched && |shown| == matched + unavailable
  {
    hide IsAlreadySatisfied, Compare, CountFlag, Shown, MatchesAt;
    NoneSimulated(policy);
    matched, unavailable, satisfied, warnings, alreadyExceeded := 0, 0, 0, 0, 0;
    var outcomes: seq<Simulated> := [];
    ghost var all := SimulatedAll(rows, policy, targets, observed);
    for k := 0 to |targets|
      invariant outcomes == all[..k]
      invariant matched == CountFlag(all[..k], MATCHED)
      invariant unavailable == CountFlag(all[..k], UNAVAILABLE)
      invariant satisfied == CountFlag(all[..k], SATISFIED) <= matched
      invariant |Shown(all[..k])| == matched + unavailable
      invariant warnings == if quotaMetric then MatchesAt(policy, observed[..k], false) else 0
      invariant alreadyExceeded == if quotaMetric then MatchesAt(policy, observed[..k], true) else 0
      invariant quotaMetric ==> warnings + alreadyExceeded == matched
    {
      var target := targets[k];
      NextSimulated(all, policy, observed, k);
      if observed[k].None? {
        unavailable := unavailable + 1;
        outcomes := outcomes + [Simulated(target, false, true, false)];
      } else if !Compare(observed[k].value, policy.operator, policy.value) {
        outcomes := outcomes + [Simulated(target, false, false, false)];
      } else {
        matched := matched + 1;
        var alreadySatisfied := IsAlreadySatisfied(rows, policy.action, target);
        if alreadySatisfied {
          satisfied := satisfied + 1;
        }
        if quotaMetric {
          if observed[k].value >= 100.0 {
            alreadyExceeded := alreadyExceeded + 1;
          } else {
            warnings := warnings + 1;
          }
        }
        outcomes := outcomes + [Simulated(target, true, false, alreadySatisfied)];
      }
    }
    assert all[..|targets|] == all && observed[..|observed|] == observed;
    assert outcomes == all;
    shown := Shown(outcomes);
  }

  // --------------------------------------------------------------- agreement

  function ObservedIn(moments: seq<Moment>): seq<Option<real>> {
    seq(|moments|, k requires 0 <= k < |moments| => moments[k].observed)
  }

  predicate MatchedVerdict(v: Verdict) {
    v != NO_MATCH && v != UNMEASURABLE
  }

  lemma {:induction false} VerdictAt(w: World, policy: Policy, targets: seq<Target>, moments: seq<Moment>,
                                     options: Options, n: nat, k: nat)
    requires k < n <= |targets| == |moments|
    ensures VerdictsFirst(w, policy, targets, moments, options, n)[k]
         == VerdictOf(EvaluatedFirst(w, policy, targets, moments, options, k), policy, targets[k], moments[k], options)
  {
    if k < n - 1 {
      VerdictAt(w, policy, targets, moments, options, n - 1, k);
    }
  }

  /** The verdicts that say the condition matched. */
  function Hits(verdicts: seq<Verdict>): nat {
    Count(verdicts, APPLIED) + Count(verdicts, NO_OP) + Count(verdicts, COOLDOWN) + Count(verdicts, SUPPRESSED)
    + Count(verdicts, FAILED)
  }

  lemma {:induction false} CountsAgree(outcomes: seq<Simulated>, verdicts: seq<Verdict>)
    requires |outcomes| == |verdicts|
    requires forall k :: 0 <= k < |verdicts| ==>
               outcomes[k].matched == MatchedVerdict(verdicts[k])
               && outcomes[k].unavailable == (verdicts[k] == UNMEASURABLE)
    ensures CountFlag(outcomes, MATCHED) == Hits(verdicts)
    ensures CountFlag(outcomes, UNAVAILABLE) == Count(verdicts, UNMEASURABLE)
    ensures |verdicts| == Hits(verdicts) + Count(verdicts, UNMEASURABLE) + Count(verdicts, NO_MATCH)
  {
    if verdicts != [] {
      CountsAgree(outcomes[..|outcomes| - 1], verdicts[..|verdicts| - 1]);
    }
  }

  /**
   * On the same observations the simulation predicts the live run: it matches exactly the
   * targets the engine matches, and the engine's counters partition the targets. The
   * engine's own `matched` leaves out the matches whose action failed.
   */
  lemma SimulationPredictsMatches(w: World, policy: Policy, targets: seq<Target>, moments: seq<Moment>,
                                  options: Options, summary: Summary)
    requires |targets| == |moments|
    requires Tallies(summary, VerdictsFirst(w, policy, targets, moments, options, |targets|))
    ensures var all := SimulatedAll(w.rows, policy, targets, ObservedIn(moments));
            var verdicts := VerdictsFirst(w, policy, targets, moments, options, |targets|);
            && (forall k :: 0 <= k < |targets| ==> all[k].matched == MatchedVerdict(verdicts[k]))
            && CountFlag(all, MATCHED) == summary.matched + summary.failed
            && CountFlag(all, UNAVAILABLE) == summary.unmeasurable
            && summary.evaluated == summary.matched + summary.failed + summary.unmeasurable + Count(verdicts, NO_MATCH)
  {
    hide VerdictsFirst, EvaluatedFirst, Evaluated, Acts, Compare, Count;
    var all := SimulatedAll(w.rows, policy, targets, ObservedIn(moments));
    var verdicts := VerdictsFirst(w, policy, targets, moments, options, |targets|);
    forall k | 0 <= k < |targets|
      ensures all[k].matched == MatchedVerdict(verdicts[k]) && all[k].unavailable == (verdicts[k] == UNMEASURABLE)
    {
      VerdictAt(w, policy, targets, moments, options, |targets|, k);
    }
    CountsAgree(all, verdicts);
  }

  /** An action on one target leaves what the same action finds on another as it was. */
  lemma TargetsIndependent(s: State, action: Action, x: Target, y: Target, ctx: Context, later: Context)
    requires x != y && ctx.policy == later.policy && ctx.profiles == later.profiles
    requires Acts(s, action, x, ctx) == Success(true)
    ensures Acts(Acted(s, action, x, ctx), action, y, later) == Acts(s, action, y, later)
  {
    var t := Acted(s, action, x, ctx);
    if action.DISCONNECT_SESSION? && y.OnDevice? {
      assert forall i :: 0 <= i < |s.sessions| ==> OpenOn(t.sessions[i], y.device) == OpenOn(s.sessions[i], y.device);
    } else if action.DRAIN_NODE? && y.OnNode? {
      assert forall i :: 0 <= i < |s.sessions| ==>
               OpenOnNode(t.sessions[i], y.node) == OpenOnNode(s.sessions[i], y.node);
    } else if action.CREATE_ANOMALY_EVENT? {
      var key := AnomalyKey(Some(ctx.policy), y, action.kind);
      assert forall i :: 0 <= i < |s.anomalies| ==> t.anomalies[i] == s.anomalies[i];
      assert t.anomalies[|s.anomalies|].key != key;
    }
  }

  lemma {:induction false} UntouchedTarget(w: World, policy: Policy, targets: seq<Target>, moments: seq<Moment>,
                                           options: Options, n: nat,
                                           y: Target, later: Context)
    requires n <= |targets| == |moments| && y !in targets[..n]
    requires later.policy == policy.id && later.profiles == options.profiles
    ensures Acts(EvaluatedFirst(w, policy, targets, moments, options, n).rows, policy.action, y, later)
         == Acts(w.rows, policy.action, y, later)
  {
    hide Acts, Acted;
    if n > 0 {
      var before := EvaluatedFirst(w, policy, targets, moments, options, n - 1);
      assert targets[..n] == targets[..n - 1] + [targets[n - 1]];
      UntouchedTarget(w, policy, targets, moments, options, n - 1, y, later);
      if VerdictOf(before, policy, targets[n - 1], moments[n - 1], options) == APPLIED {
        TargetsIndependent(before.rows, policy.action, targets[n - 1], y,
                           ActionContext(policy, moments[n - 1].now, options), later);
      }
    }
  }

  predicate AllDifferent(targets: seq<Target>) {
    forall i, j :: 0 <= i < j < |targets| ==> targets[i] != targets[j]
  }

  predicate Executes(v: Verdict) {
    v == APPLIED || v == NO_OP || v == FAILED
  }

  /**
   * "Already satisfied" is what the live run reports as a no-op, although the run changes
   * rows between targets and the simulation does not: for every target the engine acts on,
   * exactly when the simulator is not mistaken about that target.
   */
  lemma SimulationPredictsNoOps(w: World, policy: Policy, targets: seq<Target>, moments: seq<Moment>, options: Options,
                                k: nat)
    requires k < |targets| == |moments| && AllDifferent(targets)
    requires ProfilesRefer(w.rows, options.profiles) && NoDrafts(w.rows)
    requires Executes(VerdictsFirst(w, policy, targets, moments, options, |targets|)[k])
    ensures var noOp := VerdictsFirst(w, policy, targets, moments, options, |targets|)[k] == NO_OP;
            var satisfied := SimulatedAll(w.rows, policy, targets, ObservedIn(moments))[k].alreadySatisfied;
            noOp == satisfied <==>
              !SimulatorMistaken(w.rows, policy.action, targets[k], ActionContext(policy, moments[k].now, options))
  {
    hide VerdictsFirst, EvaluatedFirst, Evaluated, Acts, SimulatorMistaken, IsAlreadySatisfied, CooldownActive,
        OverrideActive, Compare;
    var ctx := ActionContext(policy, moments[k].now, options);
    VerdictAt(w, policy, targets, moments, options, |targets|, k);
    UntouchedTarget(w, policy, targets, moments, options, k, targets[k], ctx);
    SimulatorAgreesExactly(w.rows, policy.action, targets[k], ctx);
  }
}
