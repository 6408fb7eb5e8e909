/**
 * What the ledger of the policy engine guarantees over whole runs: actions of one policy on
 * one target keep the cooldown apart, although executions in one minute share a row.
 */
module Cooldown {
  import opened Common
  import opened Store
  import opened PolicyActions
  import opened PolicyEngine

  /** One evaluation, with the rows it finds: other services may have changed them in between. */
  datatype Eval = Eval(policy: Policy, target: Target, moment: Moment, options: Options, rows: State)

  /** The ledger after one evaluation. */
  function Logged(ledger: Ledger, e: Eval): Ledger {
    Evaluated(World(e.rows, ledger), e.policy, e.target, e.moment, e.options).ledger
  }

  function RunEvals(ledger: Ledger, evals: seq<Eval>): Ledger {
    if evals == [] then ledger else Logged(RunEvals(ledger, evals[..|evals| - 1]), evals[|evals| - 1])
  }

  function VerdictIn(ledger: Ledger, e: Eval): Verdict {
    VerdictOf(World(e.rows, ledger), e.policy, e.target, e.moment, e.options)
  }

  predicate ExecutesIn(ledger: Ledger, e: Eval) {
    VerdictIn(ledger, e) == APPLIED || VerdictIn(ledger, e) == NO_OP
  }

  /** The k-th evaluation of a run from an empty ledger executes its action. */
  predicate ExecutesAt(evals: seq<Eval>, k: nat)
    requires k < |evals|
  {
    ExecutesIn(RunEvals(map[], evals[..k]), evals[k])
  }

  /** Two evaluations of one policy on one target. */
  predicate Repeats(e: Eval, f: Eval) {
    e.policy.id == f.policy.id && e.target == f.target
  }

  /**
   * The clock moves on between two evaluations of one policy on one target. Different targets,
   * and different policies, may be evaluated at one instant.
   */
  predicate Ticking(evals: seq<Eval>) {
    forall j, k :: 0 <= j < k < |evals| && Repeats(evals[j], evals[k]) ==> evals[j].moment.now < evals[k].moment.now
  }

  /** The evaluation is asked to leave a row, and the row is written. */
  predicate Recorded(e: Eval) {
    e.options.persist && e.moment.writes
  }

  /** The evaluation executes the action of this policy on this target, and is recorded. */
  predicate Counts(ledger: Ledger, e: Eval, policy: PolicyId, target: Target) {
    e.policy.id == policy && e.target == target && ExecutesIn(ledger, e) && Recorded(e)
  }

  /** When a recorded evaluation last executed the policy on the target in a run, if one has. */
  function LastExecution(evals: seq<Eval>, policy: PolicyId, target: Target): Option<int> {
    if evals == [] then None
    else
      var before, e := evals[..|evals| - 1], evals[|evals| - 1];
      if Counts(RunEvals(map[], before), e, policy, target) then Some(e.moment.now)
      else LastExecution(before, policy, target)
  }

  /** A row is filed under its own policy and target, and its kind of key tells its kind of result. */
  ghost predicate Consistent(ledger: Ledger) {
    forall key :: key in ledger ==>
      && ledger[key].policy == key.policy && ledger[key].target == key.target
      && (ledger[key].result == APPLIED || ledger[key].result == NO_OP <==> key.ForAction?)
  }

  /** The latest execution row of the policy and target carries this time, if there is one. */
  ghost predicate Carries(ledger: Ledger, policy: PolicyId, target: Target, last: Option<int>) {
    match last
    case None => forall key :: key in ledger ==> !Executed(ledger[key], policy, target)
    case Some(t) =>
      && (forall key :: key in ledger && Executed(ledger[key], policy, target) ==> ledger[key].evaluatedAt <= t)
      && exists key :: key in ledger && Executed(ledger[key], policy, target) && ledger[key].evaluatedAt == t
  }

  lemma ConsistentStep(ledger: Ledger, e: Eval)
    requires Consistent(ledger)
    ensures Consistent(Logged(ledger, e))
  {
    hide Acted, Acts;
  }

  lemma CarriesStep(ledger: Ledger, e: Eval, policy: PolicyId, target: Target, last: Option<int>)
    requires Consistent(ledger) && Carries(ledger, policy, target, last)
    requires e.policy.id == policy && e.target == target && last.Some? ==> last.value <= e.moment.now
    ensures Carries(Logged(ledger, e), policy, target,
                    if Counts(ledger, e, policy, target) then Some(e.moment.now) else last)
  {
    hide Acted, Acts, Compare, OverrideActive;
    var verdict := VerdictIn(ledger, e);
    var after := Logged(ledger, e);
    if verdict != NO_MATCH && Recorded(e) {
      var k := KeyOf(e.policy, e.target, verdict, e.moment.now);
      assert k in after && after[k].policy == e.policy.id && after[k].target == e.target;
      assert k.ForAction? <==> ExecutesIn(ledger, e);
      assert Executed(after[k], policy, target) <==>
               e.policy.id == policy && e.target == target && ExecutesIn(ledger, e);
      if last.Some? {
        var old' :| old' in ledger && Executed(ledger[old'], policy, target) && ledger[old'].evaluatedAt == last.value;
        assert old' in after;
      }
    }
  }

  /**
   * The invariant of the ledger: after any run, the latest execution row of a policy and target
   * carries the time they last executed and were recorded, same-minute overwriting and lost
   * writes notwithstanding.
   */
  lemma {:induction false} LedgerCarriesLast(evals: seq<Eval>, policy: PolicyId, target: Target)
    requires Ticking(evals)
    ensures Consistent(RunEvals(map[], evals))
    ensures Carries(RunEvals(map[], evals), policy, target, LastExecution(evals, policy, target))
  {
    hide Logged, Carries, Consistent;
    if evals == [] {
      assert Consistent(map[]) by { EmptyLedger(policy, target); }
      assert Carries(map[], policy, target, None) by { EmptyLedger(policy, target); }
    } else {
      var before, e := evals[..|evals| - 1], evals[|evals| - 1];
      LedgerCarriesLast(before, policy, target);
      LastExecutionBefore(evals, policy, target);
      ConsistentStep(RunEvals(map[], before), e);
      CarriesStep(RunEvals(map[], before), e, policy, target, LastExecution(before, policy, target));
    }
  }

  lemma EmptyLedger(policy: PolicyId, target: Target)
    ensures Consistent(map[]) && Carries(map[], policy, target, None)
  {
  }

  /** The last execution is that of some evaluation of the run. */
  lemma {:induction false} LastExecutionIs(evals: seq<Eval>, policy: PolicyId, target: Target)
    requires LastExecution(evals, policy, target).Some?
    ensures exists k :: 0 <= k < |evals| && evals[k].policy.id == policy && evals[k].target == target
              && evals[k].moment.now == LastExecution(evals, policy, target).value
  {
    hide ExecutesIn, RunEvals;
    var before, e := evals[..|evals| - 1], evals[|evals| - 1];
    if !Counts(RunEvals(map[], before), e, policy, target) {
      LastExecutionIs(before, policy, target);
      var k :| 0 <= k < |before| && before[k].policy.id == policy && before[k].target == target
               && before[k].moment.now == LastExecution(before, policy, target).value;
      assert evals[k] == before[k];
    }
  }

  lemma LastExecutionBefore(evals: seq<Eval>, policy: PolicyId, target: Target)
    requires Ticking(evals) && evals != []
    ensures var before, e := evals[..|evals| - 1], evals[|evals| - 1];
            && Ticking(before)
            && (LastExecution(before, policy, target).Some? && e.policy.id == policy && e.target == target ==>
                  LastExecution(before, policy, target).value < e.moment.now)
  {
    hide LastExecution;
    var before := evals[..|evals| - 1];
    if LastExecution(before, policy, target).Some? {
      LastExecutionIs(before, policy, target);
    }
  }

  lemma {:induction false} LastExecutionAtLeast(evals: seq<Eval>, i: nat)
    requires Ticking(evals) && i < |evals| && ExecutesAt(evals, i) && Recorded(evals[i])
    ensures var last := LastExecution(evals, evals[i].policy.id, evals[i].target);
            last.Some? && last.value >= evals[i].moment.now
    decreases |evals|
  {
    hide VerdictOf, Logged;
    var before := evals[..|evals| - 1];
    if i < |before| {
      assert before[..i] == evals[..i];
      LastExecutionAtLeast(before, i);
    }
  }

  /**
   * Cooldown spacing: in any run over any policies and targets, whatever changes the rows in
   * between and whichever other writes are lost, two executions of one policy on one target are
   * at least the later one's cooldown apart, if the earlier was recorded.
   */
  lemma CooldownSpacing(evals: seq<Eval>, i: nat, j: nat)
    requires Ticking(evals) && i < j < |evals| && Repeats(evals[i], evals[j])
    requires ExecutesAt(evals, i) && Recorded(evals[i]) && ExecutesAt(evals, j)
    ensures evals[j].moment.now - evals[i].moment.now >= evals[j].policy.cooldownSeconds * 1000
  {
    hide Logged, Acts;
    var before, e := evals[..j], evals[j];
    assert before[..i] == evals[..i];
    LastExecutionAtLeast(before, i);
    LedgerCarriesLast(before, e.policy.id, e.target);
    assert evals[..j + 1][..|evals[..j + 1]| - 1] == before && evals[..j + 1][j] == e;
    LastExecutionBefore(evals[..j + 1], e.policy.id, e.target);
    var ledger := RunEvals(map[], before);
    var last := LastExecution(before, e.policy.id, e.target).value;
    var key :| key in ledger && Executed(ledger[key], e.policy.id, e.target) && ledger[key].evaluatedAt == last;
    assert !CooldownActive(ledger, e.policy, e.target, e.moment.now);
  }

  /**
   * The cooldown, exactly: over any run, a matched policy that nothing suppresses is held back
   * if and only if its last recorded execution on the target is less than its cooldown ago.
   */
  lemma ActsWhenCooledDown(evals: seq<Eval>, e: Eval)
    requires Ticking(evals + [e])
    requires Matches(e.policy, e.moment.observed)
    requires !e.policy.dryRun && !e.options.forceDryRun && !OverrideActive(e.policy, e.moment.now)
    ensures var last := LastExecution(evals, e.policy.id, e.target);
            VerdictIn(RunEvals(map[], evals), e) == COOLDOWN <==>
              last.Some? && e.moment.now - last.value < e.policy.cooldownSeconds * 1000
  {
    hide Logged, Acts;
    assert (evals + [e])[..|evals + [e]| - 1] == evals && (evals + [e])[|evals|] == e;
    LastExecutionBefore(evals + [e], e.policy.id, e.target);
    LedgerCarriesLast(evals, e.policy.id, e.target);
    var ledger := RunEvals(map[], evals);
    var last := LastExecution(evals, e.policy.id, e.target);
    if last.Some? {
      var key :| key in ledger && Executed(ledger[key], e.policy.id, e.target) && ledger[key].evaluatedAt == last.value;
    }
  }

  // ---------------------------------------------- where the cooldown has holes

  /** Evaluated again at the very same millisecond, an action that just ran may run again. */
  lemma SameInstantRepeats(ledger: Ledger, e: Eval)
    requires MayAct(ledger, e.policy, e.target, e.moment, e.options)
    ensures MayAct(Logged(ledger, e), e.policy, e.target, e.moment, e.options)
  {
    hide Acts, Acted;
  }

  /** An execution whose row could not be written, and an action that failed, start no cooldown. */
  lemma UnrecordedStartsNoCooldown(ledger: Ledger, e: Eval, policy: Policy, target: Target, now: int)
    requires Consistent(ledger)
    requires !e.moment.writes || !e.options.persist || VerdictIn(ledger, e) == FAILED
    ensures CooldownActive(Logged(ledger, e), policy, target, now) == CooldownActive(ledger, policy, target, now)
  {
    hide Acts, Acted, MayAct;
    var after := Logged(ledger, e);
    var k := KeyOf(e.policy, e.target, VerdictIn(ledger, e), e.moment.now);
    assert forall key :: key in ledger && key != k ==> key in after && after[key] == ledger[key];
    assert forall key :: key in after && key != k ==> key in ledger;
  }
}
