/**
 * What runs keep about a quota's counters and its records: the usage it shows is exactly
 * the traffic it was charged since its last reset, and between two resets it is enforced at
 * most once and warns at most once at each threshold.
 */
module Accounting {
  import opened Common
  import opened Store
  import opened QuotaEngine
  import opened Jobs
  import opened Runs

  // ------------------------------------------------------------------- usage

  predicate ResetsQuota(s: State, op: Op, quota: QuotaId)
    requires quota < |s.quotas|
  {
    match op
    case DoReset(q) => q == quota
    case DoPeriodReset(now) => Due(s.quotas[quota], now)
    case _ => false
  }

  /** The bytes an operation counts against a quota: traffic it covers while it is enabled. */
  function Charge(s: State, op: Op, quota: QuotaId): nat
    requires quota < |s.quotas|
  {
    if && op.DoRecord? && op.usage.device < |s.devices|
       && s.quotas[quota].enabled && Covers(s.quotas[quota].scope, op.usage)
    then Total(op.usage)
    else 0
  }

  lemma MeteredOne(s: State, quota: QuotaId, usage: Usage, settings: Settings, now: int)
    requires quota < |s.quotas| && usage.device < |s.devices|
    ensures var t := Metered(s, quota, usage, settings, now);
            && t.quotas[quota].used == s.quotas[quota].used + Total(usage)
            && forall q :: 0 <= q < |s.quotas| && q != quota ==> t.quotas[q] == s.quotas[q]
  {
  }

  lemma {:induction false} MeteredUsage(s: State, n: nat, usage: Usage, settings: Settings, now: int)
    requires n <= |s.quotas| && usage.device < |s.devices|
    ensures var t := MeteredFirst(s, n, usage, settings, now);
            forall q :: 0 <= q < n ==>
              t.quotas[q].used
              == s.quotas[q].used + if s.quotas[q].enabled && Covers(s.quotas[q].scope, usage) then Total(usage) else 0
  {
    hide Metered, Covers;
    if n > 0 {
      MeteredUsage(s, n - 1, usage, settings, now);
      MeteredOne(MeteredFirst(s, n - 1, usage, settings, now), n - 1, usage, settings, now);
    }
  }

  lemma UsageStep(s: State, op: Op, quota: QuotaId)
    requires quota < |s.quotas|
    ensures quota < |Apply(s, op).quotas|
    ensures Apply(s, op).quotas[quota].used == if ResetsQuota(s, op, quota) then 0
                                               else s.quotas[quota].used + Charge(s, op, quota)
  {
    DevicesGrow(s, op);
    match op
    case DoRecord(usage, settings, now) =>
      if usage.device < |s.devices| {
        MeteredUsage(s, |s.quotas|, usage, settings, now);
      }
    case DoPeriodReset(now) => ResetFirstQuotas(s, |s.quotas|, now);
    case _ =>
  }

  /** Where the last reset of the quota in a run is over: 0 when there is none. */
  ghost function SinceReset(s: State, ops: seq<Op>, quota: QuotaId): (k: nat)
    requires quota < |s.quotas|
    ensures k <= |ops|
  {
    if ops == [] then 0
    else
      var before := ops[..|ops| - 1];
      RunGrows(s, before);
      if ResetsQuota(Run(s, before), ops[|ops| - 1], quota) then |ops| else SinceReset(s, before, quota)
  }

  /** The charges of operations `from` to the end of a run, added up. */
  ghost function Charges(s: State, ops: seq<Op>, quota: QuotaId, from: nat): nat
    requires quota < |s.quotas| && from <= |ops|
    decreases |ops|
  {
    if from == |ops| then 0
    else
      var before := ops[..|ops| - 1];
      RunGrows(s, before);
      Charges(s, before, quota, from) + Charge(Run(s, before), ops[|ops| - 1], quota)
  }

  /**
   * Accounting over runs: after any operations a quota's `usedBytes` is the sum of the
   * covering traffic recorded while it was enabled, since its last reset.
   */
  lemma {:induction false} UsedIsChargedSinceReset(s: State, ops: seq<Op>, quota: QuotaId)
    requires quota < |s.quotas|
    ensures quota < |Run(s, ops).quotas|
    ensures var k := SinceReset(s, ops, quota);
            Run(s, ops).quotas[quota].used == (if k == 0 then s.quotas[quota].used else 0) + Charges(s, ops, quota, k)
  {
    RunGrows(s, ops);
    if ops != [] {
      var before := ops[..|ops| - 1];
      UsedIsChargedSinceReset(s, before, quota);
      UsageStep(Run(s, before), ops[|ops| - 1], quota);
    }
  }

  /** The traffic counts against the quota. */
  predicate Charged(quota: Quota, usage: Usage) {
    quota.enabled && Covers(quota.scope, usage) && Total(usage) > 0
  }

  lemma MeteredOutcome(s: State, quota: QuotaId, usage: Usage, settings: Settings, now: int)
    requires quota < |s.quotas| && usage.device < |s.devices|
    ensures var t := Metered(s, quota, usage, settings, now);
            var row := s.quotas[quota].(used := s.quotas[quota].used + Total(usage));
            && t.quotas[quota] == row.(
                 exceededAt := if Evaluate(row, settings) == EXCEEDED && row.exceededAt.None? && settings.enforce
                               then Some(now) else row.exceededAt,
                 warned80At := if Evaluate(row, settings) == OVER_80 && row.warned80At.None? then Some(now)
                               else row.warned80At,
                 warned90At := if Evaluate(row, settings) == OVER_90 && row.warned90At.None? then Some(now)
                               else row.warned90At)
            && (forall q :: 0 <= q < |s.quotas| && q != quota ==> t.quotas[q] == s.quotas[q])
            && (t.quotas[quota].exceededAt != row.exceededAt ==> t.devices[usage.device].quotaExceededAt == Some(now))
            && (t.devices[usage.device].quotaExceededAt == Some(now) || t.devices == s.devices)
  {
    hide Evaluate, Covers;
  }

  lemma {:induction false} MeteredOutcomes(s: State, n: nat, usage: Usage, settings: Settings, now: int, quota: QuotaId)
    requires n <= |s.quotas| && usage.device < |s.devices| && quota < n
    requires s.quotas[quota].enabled && Covers(s.quotas[quota].scope, usage)
    ensures var t := MeteredFirst(s, n, usage, settings, now);
            && t.quotas[quota] == Metered(s, quota, usage, settings, now).quotas[quota]
            && (t.quotas[quota].exceededAt != s.quotas[quota].exceededAt ==>
                  t.devices[usage.device].quotaExceededAt == Some(now))
  {
    hide Metered, Evaluate, Covers;
    var before := MeteredFirst(s, n - 1, usage, settings, now);
    if quota < n - 1 {
      MeteredOutcomes(s, n - 1, usage, settings, now, quota);
      MeteredOutcome(before, n - 1, usage, settings, now);
    } else {
      MeteredOutcome(before, quota, usage, settings, now);
      MeteredOutcome(s, quota, usage, settings, now);
    }
  }

  /**
   * The hard limit cannot be missed: recording traffic that a live quota covers marks the
   * quota, and blocks the device, exactly when the limit is positive and at least 99.95 % of
   * it is used.
   */
  lemma LimitReachedBlocks(s: State, usage: Usage, settings: Settings, now: int, quota: QuotaId)
    requires usage.device < |s.devices| && quota < |s.quotas|
    requires Charged(s.quotas[quota], usage) && s.quotas[quota].exceededAt.None? && settings.enforce
    ensures var t := Recorded(s, usage, settings, now);
            var used := s.quotas[quota].used + Total(usage);
            && (t.quotas[quota].exceededAt == Some(now) <==>
                  s.quotas[quota].limit > 0 && 2000 * used >= 1999 * s.quotas[quota].limit)
            && (t.quotas[quota].exceededAt == Some(now) ==> t.devices[usage.device].quotaExceededAt == Some(now))
            && (s.quotas[quota].limit > 0 && used >= s.quotas[quota].limit ==> t.quotas[quota].exceededAt == Some(now))
  {
    hide Metered, Evaluate;
    MeteredOutcomes(s, |s.quotas|, usage, settings, now, quota);
    MeteredOutcome(s, quota, usage, settings, now);
    ExceededExactly(s.quotas[quota].(used := s.quotas[quota].used + Total(usage)), settings);
  }

  // ------------------------------------------------- one record between resets

  datatype Kind = ENFORCED | AT_80 | AT_90

  predicate Records(event: Event, quota: QuotaId, kind: Kind) {
    match event
    case Exceeded(q, _) => q == quota && kind == ENFORCED
    case Warned(q, percent) => q == quota && kind == if percent == 90 then AT_90 else AT_80
    case WasReset(_) => false
  }

  /** How often the quota left a record of this kind since its last reset. */
  function CountSinceReset(events: seq<Event>, quota: QuotaId, kind: Kind): nat {
    if events == [] then 0
    else
      var last := events[|events| - 1];
      if last == WasReset(quota) then 0
      else CountSinceReset(events[..|events| - 1], quota, kind) + if Records(last, quota, kind) then 1 else 0
  }

  function Stamp(quota: Quota, kind: Kind): Option<int> {
    match kind
    case ENFORCED => quota.exceededAt
    case AT_80 => quota.warned80At
    case AT_90 => quota.warned90At
  }

  /** The record count is what the quota's own timestamp says: one when it is set, none when not. */
  ghost predicate Stamped(s: State, quota: QuotaId, kind: Kind) {
    CountSinceReset(s.events, quota, kind) == if quota < |s.quotas| && Stamp(s.quotas[quota], kind).Some? then 1 else 0
  }

  ghost predicate AllStamped(s: State) {
    forall quota: QuotaId, kind :: Stamped(s, quota, kind)
  }

  lemma OneMore(events: seq<Event>, event: Event, quota: QuotaId, kind: Kind)
    ensures CountSinceReset(events + [event], quota, kind)
         == if event == WasReset(quota) then 0
            else CountSinceReset(events, quota, kind) + if Records(event, quota, kind) then 1 else 0
  {
    assert (events + [event])[..|events|] == events;
  }

  /** What metering a quota records, and that the quota's timestamps say so. */
  lemma MeteredRecords(s: State, q: QuotaId, usage: Usage, settings: Settings, now: int)
    requires q < |s.quotas| && usage.device < |s.devices|
    ensures var t := Metered(s, q, usage, settings, now);
            || (t.events == s.events && forall kind :: Stamp(t.quotas[q], kind) == Stamp(s.quotas[q], kind))
            || exists event, kind :: Noted(s, t, q, event, kind)
    ensures var t := Metered(s, q, usage, settings, now);
            && |t.quotas| == |s.quotas|
            && forall other :: 0 <= other < |s.quotas| && other != q ==> t.quotas[other] == s.quotas[other]
  {
    hide Evaluate;
    var t := Metered(s, q, usage, settings, now);
    var standing := Evaluate(s.quotas[q].(used := s.quotas[q].used + Total(usage)), settings);
    if t.events != s.events {
      var kind := if standing == EXCEEDED then ENFORCED else if standing == OVER_90 then AT_90 else AT_80;
      assert Noted(s, t, q, t.events[|s.events|], kind);
    }
  }

  /** One record of a kind was added, by a quota whose timestamp for it was not set before. */
  ghost predicate Noted(s: State, t: State, q: QuotaId, event: Event, kind: Kind)
    requires q < |s.quotas| && q < |t.quotas|
  {
    && t.events == s.events + [event]
    && (forall quota: QuotaId, k :: Records(event, quota, k) <==> quota == q && k == kind)
    && !event.WasReset?
    && Stamp(s.quotas[q], kind).None? && Stamp(t.quotas[q], kind).Some?
    && forall k :: k != kind ==> Stamp(t.quotas[q], k) == Stamp(s.quotas[q], k)
  }

  lemma MeteredStamps(s: State, q: QuotaId, usage: Usage, settings: Settings, now: int)
    requires q < |s.quotas| && usage.device < |s.devices| && AllStamped(s)
    ensures AllStamped(Metered(s, q, usage, settings, now))
  {
    hide Metered, CountSinceReset, Records, Stamp;
    MeteredRecords(s, q, usage, settings, now);
    var t := Metered(s, q, usage, settings, now);
    forall quota: QuotaId, kind
      ensures Stamped(t, quota, kind)
    {
      assert Stamped(s, quota, kind);
      if t.events != s.events {
        OneMore(s.events, t.events[|s.events|], quota, kind);
      }
    }
  }

  lemma {:induction false} RecordStamps(s: State, n: nat, usage: Usage, settings: Settings, now: int)
    requires n <= |s.quotas| && usage.device < |s.devices| && AllStamped(s)
    ensures AllStamped(MeteredFirst(s, n, usage, settings, now))
  {
    if n > 0 {
      RecordStamps(s, n - 1, usage, settings, now);
      if s.quotas[n - 1].enabled && Covers(s.quotas[n - 1].scope, usage) {
        MeteredStamps(MeteredFirst(s, n - 1, usage, settings, now), n - 1, usage, settings, now);
      }
    }
  }

  lemma ResetStamps(s: State, q: QuotaId, reason: string)
    requires q < |s.quotas| && AllStamped(s)
    ensures AllStamped(QuotaWasReset(s, q, reason))
  {
    var t := QuotaWasReset(s, q, reason);
    forall quota: QuotaId, kind
      ensures Stamped(t, quota, kind)
    {
      assert Stamped(s, quota, kind);
      OneMore(s.events, WasReset(q), quota, kind);
    }
  }

  lemma {:induction false} PeriodStamps(s: State, n: nat, now: int)
    requires n <= |s.quotas| && AllStamped(s)
    ensures AllStamped(ResetFirst(s, n, now))
  {
    if n > 0 {
      PeriodStamps(s, n - 1, now);
      if Due(s.quotas[n - 1], now) {
        ResetStamps(ResetFirst(s, n - 1, now), n - 1, RESET_REASON);
      }
    }
  }

  lemma StampStep(s: State, op: Op)
    requires AllStamped(s)
    ensures AllStamped(Apply(s, op))
  {
    hide CountSinceReset, Closed, Upserted, Redecided, Newest;
    match op
    case DoRecord(usage, settings, now) =>
      if usage.device < |s.devices| {
        RecordStamps(s, |s.quotas|, usage, settings, now);
      }
    case DoReset(q) =>
      if q < |s.quotas| {
        ResetStamps(s, q, "Quota reset by operator");
      }
    case DoPeriodReset(now) => PeriodStamps(s, |s.quotas|, now);
    case _ =>
      var t := Apply(s, op);
      forall quota: QuotaId, kind
        ensures Stamped(t, quota, kind)
      {
        assert Stamped(s, quota, kind);
      }
  }

  lemma {:induction false} StampRun(s: State, ops: seq<Op>)
    requires AllStamped(s)
    ensures AllStamped(Run(s, ops))
  {
    if ops != [] {
      StampRun(s, ops[..|ops| - 1]);
      StampStep(Run(s, ops[..|ops| - 1]), ops[|ops| - 1]);
    }
  }

  const EMPTY := State([], [], [], [], [], [], [])

  /**
   * Over any run from an empty database: at most one enforcement, one 80 % warning and one
   * 90 % warning of a quota since its last reset, and which of them happened can be read off
   * the quota's own row.
   */
  lemma OncePerPeriod(ops: seq<Op>, quota: QuotaId, kind: Kind)
    ensures var t := Run(EMPTY, ops);
            && CountSinceReset(t.events, quota, kind) <= 1
            && (CountSinceReset(t.events, quota, kind) == 1 <==>
                  quota < |t.quotas| && Stamp(t.quotas[quota], kind).Some?)
  {
    StampRun(EMPTY, ops);
    assert Stamped(Run(EMPTY, ops), quota, kind);
  }

  // ---------------------------------------------- an unblock is not a reset

  lemma {:induction false} MeteredKeepsExceeded(s: State, n: nat, usage: Usage, settings: Settings, now: int,
                                                quota: QuotaId)
    requires n <= |s.quotas| && usage.device < |s.devices| && quota < |s.quotas|
    requires s.quotas[quota].exceededAt.Some?
    ensures MeteredFirst(s, n, usage, settings, now).quotas[quota].exceededAt == s.quotas[quota].exceededAt
  {
    if n > 0 {
      MeteredKeepsExceeded(s, n - 1, usage, settings, now, quota);
    }
  }

  lemma ExceededStaysSet(s: State, op: Op, quota: QuotaId)
    requires quota < |s.quotas| && s.quotas[quota].exceededAt.Some? && !ResetsQuota(s, op, quota)
    ensures quota < |Apply(s, op).quotas| && Apply(s, op).quotas[quota].exceededAt == s.quotas[quota].exceededAt
  {
    DevicesGrow(s, op);
    match op
    case DoRecord(usage, settings, now) =>
      if usage.device < |s.devices| {
        MeteredKeepsExceeded(s, |s.quotas|, usage, settings, now, quota);
      }
    case DoPeriodReset(now) => ResetFirstQuotas(s, |s.quotas|, now);
    case _ =>
  }

  ghost predicate NeverReset(s: State, ops: seq<Op>, quota: QuotaId) {
    forall k :: 0 <= k < |ops| ==>
      quota < |Run(s, ops[..k]).quotas| && !ResetsQuota(Run(s, ops[..k]), ops[k], quota)
  }

  lemma {:induction false} ExceededStaysSetInRun(s: State, ops: seq<Op>, quota: QuotaId)
    requires quota < |s.quotas| && s.quotas[quota].exceededAt.Some? && NeverReset(s, ops, quota)
    ensures quota < |Run(s, ops).quotas| && Run(s, ops).quotas[quota].exceededAt == s.quotas[quota].exceededAt
  {
    if ops != [] {
      var before := ops[..|ops| - 1];
      assert forall k :: 0 <= k < |before| ==> before[..k] == ops[..k] && before[k] == ops[k];
      ExceededStaysSetInRun(s, before, quota);
      assert !ResetsQuota(Run(s, before), ops[|ops| - 1], quota);
      ExceededStaysSet(Run(s, before), ops[|ops| - 1], quota);
    }
  }

  /**
   * An exceeded quota is never enforced again before it is reset, whatever more is used: a
   * device that is merely unblocked goes on without any limit under that quota.
   */
  lemma UnblockedRunsFree(ops: seq<Op>, more: seq<Op>, quota: QuotaId)
    requires var t := Run(EMPTY, ops);
             quota < |t.quotas| && t.quotas[quota].exceededAt.Some? && NeverReset(t, more, quota)
    ensures var t, u := Run(EMPTY, ops), Run(Run(EMPTY, ops), more);
            && CountSinceReset(t.events, quota, ENFORCED) == CountSinceReset(u.events, quota, ENFORCED) == 1
            && quota < |u.quotas| && u.quotas[quota].exceededAt == t.quotas[quota].exceededAt
  {
    ExceededStaysSetInRun(Run(EMPTY, ops), more, quota);
    StampRun(EMPTY, ops);
    StampRun(Run(EMPTY, ops), more);
    assert Stamped(Run(EMPTY, ops), quota, ENFORCED) && Stamped(Run(Run(EMPTY, ops), more), quota, ENFORCED);
  }
}
