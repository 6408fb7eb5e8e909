/**
 * src/server/policy/engine.ts: one policy against one target, the ledger of what came of it,
 * and the cooldown read back from that ledger; src/server/policy/simulate.ts: the same walk
 * without side effects.
 */
module PolicyEngine {
  import opened Common
  import opened Store
  import opened PolicyActions

  type PolicyId = nat

  datatype Operator = GTE | GT | LTE | LT | EQ | NEQ

  datatype Policy = Policy(
    id: PolicyId,
    operator: Operator,
    value: real,
    action: Action,
    cooldownSeconds: int,
    dryRun: bool,
    overrideUntil: Option<int>)

  datatype Verdict = UNMEASURABLE | NO_MATCH | COOLDOWN | SUPPRESSED | APPLIED | NO_OP | FAILED

  /** The dedupe keys, by what they collapse; `minute` is the minute of the evaluation. */
  datatype Key =
    | ForUnmeasurable(policy: PolicyId, target: Target)
    | ForCooldown(policy: PolicyId, target: Target, minute: int)
    | ForOverride(policy: PolicyId, target: Target, minute: int)
    | ForDryRun(policy: PolicyId, target: Target, minute: int)
    | ForFailure(policy: PolicyId, target: Target, action: Action, minute: int)
    | ForAction(policy: PolicyId, target: Target, action: Action, minute: int)

  datatype Execution = Execution(policy: PolicyId, target: Target, result: Verdict, evaluatedAt: int)

  type Ledger = map<Key, Execution>

  function Compare(observed: real, operator: Operator, threshold: real): bool {
    match operator
    case GTE => observed >= threshold
    case GT => observed > threshold
    case LTE => observed <= threshold
    case LT => observed < threshold
    case EQ => observed == threshold
    case NEQ => observed != threshold
  }

  /** The upsert: an existing row takes the new time but keeps the result it was created with. */
  function Persisted(ledger: Ledger, key: Key, policy: PolicyId, target: Target, result: Verdict, now: int): Ledger {
    if key in ledger then ledger[key := ledger[key].(evaluatedAt := now)]
    else ledger[key := Execution(policy, target, result, now)]
  }

  /** A row that the cooldown looks at. */
  predicate Executed(row: Execution, policy: PolicyId, target: Target) {
    row.policy == policy && row.target == target && (row.result == APPLIED || row.result == NO_OP)
  }

  /** The latest execution before `now` is less than the cooldown ago. */
  predicate CooldownActive(ledger: Ledger, policy: Policy, target: Target, now: int) {
    && policy.cooldownSeconds > 0
    && exists key :: key in ledger && Executed(ledger[key], policy.id, target)
         && ledger[key].evaluatedAt < now && now - ledger[key].evaluatedAt < policy.cooldownSeconds * 1000
  }

  predicate OverrideActive(policy: Policy, now: int) {
    policy.overrideUntil.Some? && policy.overrideUntil.value > now
  }

  /** What one evaluation meets: the measurement, the clock, and whether the ledger write succeeds. */
  datatype Moment = Moment(observed: Option<real>, now: int, writes: bool)

  datatype Options = Options(forceDryRun: bool, persist: bool, profiles: set<nat>)

  /** The rows the handlers change, and the ledger. */
  datatype World = World(rows: State, ledger: Ledger)

  predicate Matches(policy: Policy, observed: Option<real>) {
    observed.Some? && Compare(observed.value, policy.operator, policy.value)
  }

  /** The condition matched and nothing holds the action back. */
  predicate MayAct(ledger: Ledger, policy: Policy, target: Target, moment: Moment, options: Options) {
    && Matches(policy, moment.observed)
    && !options.forceDryRun && !policy.dryRun
    && !OverrideActive(policy, moment.now)
    && !CooldownActive(ledger, policy, target, moment.now)
  }

  /** The operators that hold at an observation this far above the threshold. */
  function Holding(above: real): set<Operator> {
    if above == 0.0 then {GTE, LTE, EQ} else if above > 0.0 then {GTE, GT, NEQ} else {LTE, LT, NEQ}
  }

  /**
   * What the operators mean: at the threshold exactly GTE, LTE and EQ match, above it exactly
   * GTE, GT and NEQ, below it exactly LTE, LT and NEQ; without a measurement nothing does.
   */
  lemma OperatorsExactly(policy: Policy, observed: Option<real>)
    ensures Matches(policy, observed) <==> observed.Some? && policy.operator in Holding(observed.value - policy.value)
  {
  }

  lemma VerdictMatches(w: World, policy: Policy, target: Target, moment: Moment, options: Options)
    ensures var verdict := VerdictOf(w, policy, target, moment, options);
            && (verdict == UNMEASURABLE <==> moment.observed.None?)
            && (verdict != UNMEASURABLE && verdict != NO_MATCH <==> Matches(policy, moment.observed))
  {
    hide Compare, Acts;
  }

  /**
   * A limit once reached stays reached: whatever the rows, the ledger and the options, a policy
   * on GTE or GT that matches still matches at every higher observation, and one on LTE or LT
   * at every lower one.
   */
  lemma MatchPersists(w: World, policy: Policy, target: Target, moment: Moment, options: Options, further: real)
    requires moment.observed.Some?
    requires VerdictOf(w, policy, target, moment, options) != NO_MATCH
    requires match policy.operator
             case GTE => further >= moment.observed.value
             case GT => further >= moment.observed.value
             case LTE => further <= moment.observed.value
             case LT => further <= moment.observed.value
             case _ => false
    ensures VerdictOf(w, policy, target, moment.(observed := Some(further)), options) != NO_MATCH
  {
    hide MayAct, Acts;
  }

  function ActionContext(policy: Policy, now: int, options: Options): Context {
    Context(policy.id, options.profiles, now, "policy", false)
  }

  /** What an evaluation comes to, before anything is written. */
  function VerdictOf(w: World, policy: Policy, target: Target, moment: Moment, options: Options): Verdict {
    if moment.observed.None? then UNMEASURABLE
    else if !Compare(moment.observed.value, policy.operator, policy.value) then NO_MATCH
    else if MayAct(w.ledger, policy, target, moment, options) then
      match Acts(w.rows, policy.action, target, ActionContext(policy, moment.now, options))
      case Failure(_) => FAILED
      case Success(applied) => if applied then APPLIED else NO_OP
    else if !(options.forceDryRun || policy.dryRun) && !OverrideActive(policy, moment.now) then COOLDOWN
    else SUPPRESSED
  }

  /** An execution of this policy on this target lies less than the cooldown back. */
  predicate Cooling(ledger: Ledger, policy: Policy, target: Target, now: int) {
    exists key :: key in ledger && ledger[key].policy == policy.id && ledger[key].target == target
      && (ledger[key].result == APPLIED || ledger[key].result == NO_OP)
      && 0 < now - ledger[key].evaluatedAt < policy.cooldownSeconds * 1000
  }

  /**
   * What an evaluation comes to, case by case: no measurement, no match, held back by a dry run
   * or an override, held back by the cooldown, or else whatever the handler answers.
   */
  lemma VerdictExactly(w: World, policy: Policy, target: Target, moment: Moment, options: Options)
    ensures var verdict := VerdictOf(w, policy, target, moment, options);
            var matched := moment.observed.Some? && policy.operator in Holding(moment.observed.value - policy.value);
            var heldBack := || options.forceDryRun || policy.dryRun
                            || (policy.overrideUntil.Some? && moment.now < policy.overrideUntil.value);
            var cooling := Cooling(w.ledger, policy, target, moment.now);
            var answer := Acts(w.rows, policy.action, target,
                               Context(policy.id, options.profiles, moment.now, "policy", false));
            && (verdict == UNMEASURABLE <==> moment.observed.None?)
            && (verdict == NO_MATCH <==> moment.observed.Some? && !matched)
            && (verdict == SUPPRESSED <==> matched && heldBack)
            && (verdict == COOLDOWN <==> matched && !heldBack && cooling)
            && (verdict == FAILED <==> matched && !heldBack && !cooling && answer.Failure?)
            && (verdict == APPLIED <==> matched && !heldBack && !cooling && answer == Success(true))
            && (verdict == NO_OP <==> matched && !heldBack && !cooling && answer == Success(false))
  {
    hide Acts;
    OperatorsExactly(policy, moment.observed);
    assert CooldownActive(w.ledger, policy, target, moment.now) <==> Cooling(w.ledger, policy, target, moment.now) by {
      if Cooling(w.ledger, policy, target, moment.now) {
        var key :| key in w.ledger && w.ledger[key].policy == policy.id && w.ledger[key].target == target
                   && (w.ledger[key].result == APPLIED || w.ledger[key].result == NO_OP)
                   && 0 < moment.now - w.ledger[key].evaluatedAt < policy.cooldownSeconds * 1000;
        assert Executed(w.ledger[key], policy.id, target);
      }
    }
  }

  /**
   * Two evaluations are recorded on one row exactly when they are of one policy on one target,
   * came to the same kind of result, in the same minute unless nothing could be measured, and
   * with the same action if one was tried.
   */
  lemma KeysExactly(p: Policy, t: Target, v: Verdict, now: int, q: Policy, u: Target, x: Verdict, later: int)
    requires v != NO_MATCH && x != NO_MATCH
    ensures var overridden := p.overrideUntil.Some? && now < p.overrideUntil.value;
            var overridden' := q.overrideUntil.Some? && later < q.overrideUntil.value;
            KeyOf(p, t, v, now) == KeyOf(q, u, x, later) <==>
              && p.id == q.id && t == u
              && (|| v == x == UNMEASURABLE
                  || (&& now / 60_000 == later / 60_000
                      && (|| v == x == COOLDOWN
                          || (v == x == SUPPRESSED && (overridden <==> overridden'))
                          || (v == x == FAILED && p.action == q.action)
                          || (&& (v == APPLIED || v == NO_OP) && (x == APPLIED || x == NO_OP)
                              && p.action == q.action))))
  {
  }

  function KeyOf(policy: Policy, target: Target, verdict: Verdict, now: int): Key {
    var minute := now / 60_000;
    match verdict
    case UNMEASURABLE => ForUnmeasurable(policy.id, target)
    case COOLDOWN => ForCooldown(policy.id, target, minute)
    case SUPPRESSED =>
      if OverrideActive(policy, now) then ForOverride(policy.id, target, minute)
      else ForDryRun(policy.id, target, minute)
    case FAILED => ForFailure(policy.id, target, policy.action, minute)
    case _ => ForAction(policy.id, target, policy.action, minute)
  }

  function Evaluated(w: World, policy: Policy, target: Target, moment: Moment, options: Options): World {
    var verdict := VerdictOf(w, policy, target, moment, options);
    World(
      if verdict == APPLIED
      then Acted(w.rows, policy.action, target, ActionContext(policy, moment.now, options))
      else w.rows,
      if verdict == NO_MATCH || !options.persist || !moment.writes then w.ledger
      else Persisted(w.ledger, KeyOf(policy, target, verdict, moment.now), policy.id, target, verdict, moment.now))
  }

  datatype Outcome = Outcome(target: Target, matched: bool, verdict: Verdict, executionId: Option<Key>)

  /** One tally per verdict that is not a plain non-match, and the matches as the engine counts them. */
  datatype Summary = Summary(
    evaluated: nat,
    matched: nat,
    applied: nat,
    noOp: nat,
    cooldown: nat,
    suppressed: nat,
    unmeasurable: nat,
    failed: nat)

  class Engine {
    var ledger: Ledger
    var lastExecutionId: Option<Key>

    constructor ()
      ensures ledger == map[] && lastExecutionId == None
    {
      ledger, lastExecutionId := map[], None;
    }

    /** A failed write is logged and otherwise ignored. */
    method PersistExecution(policy: PolicyId, target: Target, result: Verdict, now: int, key: Key, writes: bool)
      modifies this
      ensures ledger == if writes then Persisted(old(ledger), key, policy, target, result, now) else old(ledger)
      ensures lastExecutionId == if writes then Some(key) else None
    {
      if writes {
        if key in ledger {
          ledger := ledger[key := ledger[key].(evaluatedAt := now)];
        } else {
          ledger := ledger[key := Execution(policy, target, result, now)];
        }
        lastExecutionId := Some(key);
      } else {
        lastExecutionId := None;
      }
    }

    method EvaluatePolicyTarget(db: Database, policy: Policy, target: Target, moment: Moment, options: Options)
      returns (outcome: Outcome)
      requires SessionsRefer(db.Contents())
      modifies this, db
      ensures World(db.Contents(), ledger)
              == Evaluated(old(World(db.Contents(), ledger)), policy, target, moment, options)
      ensures outcome.target == target && outcome.matched == Matches(policy, moment.observed)
      ensures outcome.verdict == UNMEASURABLE <==> moment.observed.None?
      ensures moment.observed.Some? ==>
                (outcome.verdict != NO_MATCH <==> outcome.matched) &&
                (outcome.matched <==> policy.operator in Holding(moment.observed.value - policy.value))
      ensures outcome.verdict == VerdictOf(old(World(db.Contents(), ledger)), policy, target, moment, options)
      ensures outcome.executionId == if outcome.verdict == NO_MATCH then None
                                     else if !options.persist then old(lastExecutionId)
                                     else if moment.writes then Some(KeyOf(policy, target, outcome.verdict, moment.now))
                                     else None
    {
      hide Acts, Acted, MayAct, SessionsRefer, CooldownActive, KeyOf, Persisted, Compare;
      var now := moment.now;
      var verdict := Judge(db, policy, target, moment, options);
      OperatorsExactly(policy, moment.observed);
      VerdictMatches(old(World(db.Contents(), ledger)), policy, target, moment, options);
      if verdict == NO_MATCH {
        return Outcome(target, false, NO_MATCH, None);
      }
      if options.persist {
        lastExecutionId := None;
        PersistExecution(policy.id, target, verdict, now, KeyOf(policy, target, verdict, now), moment.writes);
      }
      return Outcome(target, verdict != UNMEASURABLE, verdict, lastExecutionId);
    }

    /** Measures, applies the guards in order, and acts when none holds. */
    method Judge(db: Database, policy: Policy, target: Target, moment: Moment, options: Options)
      returns (verdict: Verdict)
      requires SessionsRefer(db.Contents())
      modifies db
      ensures verdict == VerdictOf(old(World(db.Contents(), ledger)), policy, target, moment, options)
      ensures db.Contents() == if verdict == APPLIED
                               then Acted(old(db.Contents()), policy.action, target,
                                          ActionContext(policy, moment.now, options))
                               else old(db.Contents())
    {
      hide Acts, Acted, SessionsRefer, CooldownActive, Compare;
      var now := moment.now;
      if moment.observed.None? {
        return UNMEASURABLE;
      }
      if !Compare(moment.observed.value, policy.operator, policy.value) {
        return NO_MATCH;
      }
      var dryRun := options.forceDryRun || policy.dryRun;
      var overrideActive := policy.overrideUntil.Some? && policy.overrideUntil.value > now;
      if !dryRun && !overrideActive && CooldownActive(ledger, policy, target, now) {
        return COOLDOWN;
      }
      if overrideActive {
        return SUPPRESSED;
      }
      if dryRun {
        return SUPPRESSED;
      }
      var result := ExecuteAction(db, policy.action, target, ActionContext(policy, now, options));
      match result {
        case Failure(_) => verdict := FAILED;
        case Success(applied) => verdict := if applied then APPLIED else NO_OP;
      }
    }

    /** Every target once, in order; `moments[k]` is what the k-th evaluation meets. */
    method EvaluatePolicy(db: Database, policy: Policy, targets: seq<Target>, moments: seq<Moment>, options: Options)
      returns (summary: Summary, outcomes: seq<Outcome>)
      requires |moments| == |targets| && SessionsRefer(db.Contents())
      modifies this, db
      ensures var w := old(World(db.Contents(), ledger));
              && World(db.Contents(), ledger) == EvaluatedFirst(w, policy, targets, moments, options, |targets|)
              && Verdicts(outcomes) == VerdictsFirst(w, policy, targets, moments, options, |targets|)
      ensures Reported(outcomes, policy, targets, moments)
      ensures Tallies(summary, Verdicts(outcomes))
    {
      hide Evaluated, VerdictOf, Matches, SessionsRefer, Tallies, Verdicts, Tallied, EvaluatedFirst, VerdictsFirst,
          Compare;
      ghost var start := World(db.Contents(), ledger);
      NothingTallied(|targets|);
      NoneYet(start, policy, targets, moments, options);
      outcomes := [];
      summary := Summary(|targets|, 0, 0, 0, 0, 0, 0, 0);
      for k := 0 to |targets|
        invariant SessionsRefer(db.Contents())
        invariant World(db.Contents(), ledger) == EvaluatedFirst(start, policy, targets, moments, options, k)
        invariant Verdicts(outcomes) == VerdictsFirst(start, policy, targets, moments, options, k)
        invariant Reported(outcomes, policy, targets[..k], moments[..k])
        invariant Tallies(summary.(evaluated := k), Verdicts(outcomes)) && summary.evaluated == |targets|
      {
        ghost var w := World(db.Contents(), ledger);
        var outcome := EvaluatePolicyTarget(db, policy, targets[k], moments[k], options);
        SessionsStillRefer(w, policy, targets[k], moments[k], options);
        NextTarget(start, policy, targets, moments, options, k);
        VerdictsAdded(outcomes, outcome);
        TallyAdded(summary, k, Verdicts(outcomes), outcome.verdict);
        assert targets[..k + 1] == targets[..k] + [targets[k]] && moments[..k + 1] == moments[..k] + [moments[k]];
        outcomes := outcomes + [outcome];
        summary := Tallied(summary, outcome.verdict);
      }
      assert targets[..|targets|] == targets && moments[..|moments|] == moments;
    }
  }

  /** Every target is reported, in order, with whether its condition matched. */
  predicate Reported(outcomes: seq<Outcome>, policy: Policy, targets: seq<Target>, moments: seq<Moment>) {
    && |outcomes| == |targets| == |moments|
    && forall i :: 0 <= i < |targets| ==>
         outcomes[i].target == targets[i] && outcomes[i].matched == Matches(policy, moments[i].observed)
  }

  /** The counter an outcome raises, and `matched` with it unless it is a failure or no measurement. */
  function Tallied(summary: Summary, verdict: Verdict): Summary {
    match verdict
    case NO_MATCH => summary
    case UNMEASURABLE => summary.(unmeasurable := summary.unmeasurable + 1)
    case COOLDOWN => summary.(cooldown := summary.cooldown + 1, matched := summary.matched + 1)
    case SUPPRESSED => summary.(suppressed := summary.suppressed + 1, matched := summary.matched + 1)
    case APPLIED => summary.(applied := summary.applied + 1, matched := summary.matched + 1)
    case NO_OP => summary.(noOp := summary.noOp + 1, matched := summary.matched + 1)
    case FAILED => summary.(failed := summary.failed + 1)
  }

  lemma SessionsStillRefer(w: World, policy: Policy, target: Target, moment: Moment, options: Options)
    requires SessionsRefer(w.rows)
    ensures SessionsRefer(Evaluated(w, policy, target, moment, options).rows)
  {
  }

  function Verdicts(outcomes: seq<Outcome>): seq<Verdict> {
    seq(|outcomes|, k requires 0 <= k < |outcomes| => outcomes[k].verdict)
  }

  lemma VerdictsAdded(outcomes: seq<Outcome>, outcome: Outcome)
    ensures Verdicts(outcomes + [outcome]) == Verdicts(outcomes) + [outcome.verdict]
  {
  }

  function Count(verdicts: seq<Verdict>, v: Verdict): nat {
    if verdicts == [] then 0
    else Count(verdicts[..|verdicts| - 1], v) + if verdicts[|verdicts| - 1] == v then 1 else 0
  }

  /** The counters of a summary are the tallies of its outcomes; a failed action is not counted as matched. */
  predicate Tallies(summary: Summary, verdicts: seq<Verdict>) {
    && summary.evaluated == |verdicts|
    && summary.applied == Count(verdicts, APPLIED)
    && summary.noOp == Count(verdicts, NO_OP)
    && summary.cooldown == Count(verdicts, COOLDOWN)
    && summary.suppressed == Count(verdicts, SUPPRESSED)
    && summary.unmeasurable == Count(verdicts, UNMEASURABLE)
    && summary.failed == Count(verdicts, FAILED)
    && summary.matched == summary.applied + summary.noOp + summary.cooldown + summary.suppressed
  }

  lemma NothingTallied(n: nat)
    ensures Verdicts([]) == [] && Tallies(Summary(n, 0, 0, 0, 0, 0, 0, 0).(evaluated := 0), [])
  {
  }

  lemma TallyAdded(summary: Summary, k: nat, verdicts: seq<Verdict>, v: Verdict)
    requires Tallies(summary.(evaluated := k), verdicts)
    ensures Tallies(Tallied(summary, v).(evaluated := k + 1), verdicts + [v])
    ensures Tallied(summary, v).evaluated == summary.evaluated
  {
    assert (verdicts + [v])[..|verdicts|] == verdicts;
    assert forall u :: Count(verdicts + [v], u) == Count(verdicts, u) + if u == v then 1 else 0;
  }

  function EvaluatedFirst(w: World, policy: Policy, targets: seq<Target>, moments: seq<Moment>, options: Options,
                          n: nat): World
    requires n <= |targets| == |moments|
  {
    if n == 0 then w
    else Evaluated(EvaluatedFirst(w, policy, targets, moments, options, n - 1), policy, targets[n - 1], moments[n - 1],
                   options)
  }

  function VerdictsFirst(w: World, policy: Policy, targets: seq<Target>, moments: seq<Moment>, options: Options, n: nat)
    : (verdicts: seq<Verdict>)
    requires n <= |targets| == |moments|
    ensures |verdicts| == n
  {
    if n == 0 then []
    else
      VerdictsFirst(w, policy, targets, moments, options, n - 1)
      + [VerdictOf(EvaluatedFirst(w, policy, targets, moments, options, n - 1), policy, targets[n - 1], moments[n - 1],
                   options)]
  }

  lemma NoneYet(w: World, policy: Policy, targets: seq<Target>, moments: seq<Moment>, options: Options)
    requires |targets| == |moments|
    ensures EvaluatedFirst(w, policy, targets, moments, options, 0) == w
            && VerdictsFirst(w, policy, targets, moments, options, 0) == []
  {
  }

  lemma NextTarget(w: World, policy: Policy, targets: seq<Target>, moments: seq<Moment>, options: Options, k: nat)
    requires k < |targets| == |moments|
    ensures var before := EvaluatedFirst(w, policy, targets, moments, options, k);
            && EvaluatedFirst(w, policy, targets, moments, options, k + 1)
               == Evaluated(before, policy, targets[k], moments[k], options)
            && VerdictsFirst(w, policy, targets, moments, options, k + 1)
               == VerdictsFirst(w, policy, targets, moments, options, k)
                + [VerdictOf(before, policy, targets[k], moments[k], options)]
  {
  }
}
