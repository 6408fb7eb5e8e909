/**
 * src/server/quota/engine.ts: metering a device's traffic against every quota that covers
 * it, the hard limit, and the two operations that release a device again.
 */
module QuotaEngine {
  import opened Common
  import opened Store

  // --------------------------------------------------------------- evaluation

  /** `quotaPercent` in tenths of a percent, rounded half up; none for a zero limit. */
  function PercentTenths(used: nat, limit: nat): Option<nat> {
    if limit == 0 then None else Some((2000 * used + limit) / (2 * limit))
  }

  lemma QuotientAtLeast(a: int, b: int, k: int)
    requires b > 0
    ensures a / b >= k <==> a >= k * b
  {
    var d := a / b - k;
    assert b * d == a - k * b - a % b;
    assert d >= 0 ==> b * d >= 0;
    assert d <= -1 ==> b * d <= -b;
  }

  datatype Standing = WITHIN | OVER_80 | OVER_90 | EXCEEDED | DISABLED

  datatype Settings = Settings(warn80: nat, warn90: nat, enforce: bool)

  function Evaluate(quota: Quota, settings: Settings): Standing {
    if !quota.enabled then DISABLED
    else if quota.exceededAt.Some? then EXCEEDED
    else
      match PercentTenths(quota.used, quota.limit)
      case None => WITHIN
      case Some(tenths) =>
        if tenths >= 1000 then EXCEEDED
        else if tenths >= 10 * settings.warn90 then OVER_90
        else if tenths >= 10 * settings.warn80 then OVER_80
        else WITHIN
  }

  /**
   * When the limit counts as reached, for every quota: because the percentage is rounded to
   * a tenth, at 99.95 % of the limit; never for a zero limit.
   */
  lemma ExceededExactly(quota: Quota, settings: Settings)
    ensures Evaluate(quota, settings) == EXCEEDED <==>
              quota.enabled && (quota.exceededAt.Some? || (quota.limit > 0 && 2000 * quota.used >= 1999 * quota.limit))
  {
    if quota.limit > 0 {
      QuotientAtLeast(2000 * quota.used + quota.limit, 2 * quota.limit, 1000);
    }
  }

  /** At least this percentage of a positive limit, less the twentieth of a percent that rounding gives away. */
  predicate AtLeastPercent(used: nat, limit: nat, percent: nat) {
    limit > 0 && 2000 * used >= (20 * percent - 1) * limit
  }

  /**
   * The standing of every quota: disabled; reached, as in ExceededExactly; and short of that
   * the higher of the two warning thresholds that the rounded percentage has come to.
   */
  lemma StandingExactly(quota: Quota, settings: Settings)
    ensures var standing := Evaluate(quota, settings);
            var reached := quota.exceededAt.Some? || (quota.limit > 0 && 2000 * quota.used >= 1999 * quota.limit);
            var past90 := AtLeastPercent(quota.used, quota.limit, settings.warn90);
            var past80 := AtLeastPercent(quota.used, quota.limit, settings.warn80);
            && (standing == DISABLED <==> !quota.enabled)
            && (standing == EXCEEDED <==> quota.enabled && reached)
            && (standing == OVER_90 <==> quota.enabled && !reached && past90)
            && (standing == OVER_80 <==> quota.enabled && !reached && !past90 && past80)
  {
    if quota.limit > 0 {
      var a, b := 2000 * quota.used + quota.limit, 2 * quota.limit;
      QuotientAtLeast(a, b, 1000);
      QuotientAtLeast(a, b, 10 * settings.warn90);
      QuotientAtLeast(a, b, 10 * settings.warn80);
      PercentTimes(quota.limit, settings.warn90);
      PercentTimes(quota.limit, settings.warn80);
    }
  }

  lemma PercentTimes(limit: nat, percent: nat)
    ensures 10 * percent * (2 * limit) - limit == (20 * percent - 1) * limit
  {
  }

  /** A zero limit is never reached, however much was used. */
  lemma ZeroLimitNeverTrips(used: nat, settings: Settings)
    ensures var quota := Quota(SYSTEM, 0, used, true, false, None, None, None, None, None);
            quota.used >= quota.limit && Evaluate(quota, settings) == WITHIN
  {
  }

  // -------------------------------------------------------------- enforcement

  /** The five writes of the hard limit, as one transaction. */
  function Enforced(s: State, quota: QuotaId, device: DeviceId, node: Option<NodeId>, now: int, reason: string): State
    requires quota < |s.quotas| && device < |s.devices|
  {
    s.(quotas := s.quotas[quota := s.quotas[quota].(exceededAt := Some(now))],
       devices := s.devices[device := s.devices[device].(connection := OVER_QUOTA, quotaExceededAt := Some(now))],
       sessions := Closed(s.sessions, device, now, ENDED_BY_QUOTA),
       policies := Upserted(s.policies, device, node, QUOTA_EXCEEDED, reason),
       events := s.events + [Exceeded(quota, device)])
  }

  method EnforceHardLimit(db: Database, quota: QuotaId, device: DeviceId, node: Option<NodeId>, now: int,
                          reason: string)
    requires quota < |db.quotas| && device < |db.devices|
    modifies db
    ensures db.Contents() == Enforced(old(db.Contents()), quota, device, node, now, reason)
  {
    db.quotas := db.quotas[quota := db.quotas[quota].(exceededAt := Some(now))];
    db.devices := db.devices[device := db.devices[device].(connection := OVER_QUOTA, quotaExceededAt := Some(now))];
    db.sessions := Closed(db.sessions, device, now, ENDED_BY_QUOTA);
    var existing := Newest(db.policies, device, node);
    if existing.Some? {
      db.policies := db.policies[existing.value := Decided(db.policies[existing.value], QUOTA_EXCEEDED, reason)];
    } else {
      db.policies := db.policies + [PolicyRow(device, node, QUOTA_EXCEEDED, reason, 1, None, None)];
    }
    db.events := db.events + [Exceeded(quota, device)];
  }

  /**
   * What a committed hard limit guarantees at once: the device is marked, none of its
   * sessions is open, the newest row for (device, node) says so, under a revision no earlier
   * row of the pair had and unconfirmed by the gateway; nobody else's row is touched.
   */
  lemma EnforcementIsWhole(s: State, quota: QuotaId, device: DeviceId, node: Option<NodeId>, now: int, reason: string)
    requires quota < |s.quotas| && device < |s.devices|
    ensures var t := Enforced(s, quota, device, node, now, reason);
            && t.devices[device].quotaExceededAt == Some(now) && t.quotas[quota].exceededAt == Some(now)
            && OpenSessions(t.sessions, device) == {}
            && (var row := Newest(t.policies, device, node);
                && row.Some? && t.policies[row.value].state == QUOTA_EXCEEDED
                && t.policies[row.value].appliedAt.None? && t.policies[row.value].ackedAt.None?
                && forall i :: 0 <= i < |s.policies| && RowFor(s.policies[i], device, node) ==>
                     s.policies[i].revision < t.policies[row.value].revision)
            && (forall i :: 0 <= i < |s.policies| && !RowFor(s.policies[i], device, node) ==>
                  t.policies[i] == s.policies[i])
            && (forall d :: 0 <= d < |s.devices| && d != device ==> t.devices[d] == s.devices[d])
            && (forall i :: 0 <= i < |s.sessions| && !OpenOn(s.sessions[i], device) ==> t.sessions[i] == s.sessions[i])
  {
    hide Newest;
    var t := Enforced(s, quota, device, node, now, reason);
    var before, row := Newest(s.policies, device, node), Newest(t.policies, device, node);
    var written := if before.Some? then before.value else |s.policies|;
    assert RowFor(t.policies[written], device, node);
  }

  // ------------------------------------------------------------------ metering

  datatype Usage = Usage(
    device: DeviceId,
    upload: nat,
    download: nat,
    node: Option<NodeId>,
    user: Option<nat>,
    config: Option<nat>)

  function Total(usage: Usage): nat {
    usage.upload + usage.download
  }

  /** The quotas a batch of traffic counts against, by scope. */
  predicate Covers(scope: Scope, usage: Usage) {
    match scope
    case DEVICE(d) => d == usage.device
    case USER(u) => usage.user == Some(u)
    case CONFIG(c) => usage.config == Some(c)
    case NODE(n) => usage.node == Some(n)
    case SYSTEM => true
  }

  predicate IsWarned(standing: Standing, quota: Quota) {
    match standing
    case OVER_80 => quota.warned80At.Some?
    case OVER_90 => quota.warned90At.Some?
    case _ => true
  }

  function WarningRaised(s: State, quota: QuotaId, standing: Standing, now: int): State
    requires quota < |s.quotas|
  {
    var row := s.quotas[quota];
    s.(quotas := s.quotas[quota :=
         if standing == OVER_90 then row.(warned90At := Some(now)) else row.(warned80At := Some(now))],
       events := s.events + [Warned(quota, if standing == OVER_90 then 90 else 80)])
  }

  method RaiseWarning(db: Database, quota: QuotaId, standing: Standing, now: int)
    requires quota < |db.quotas| && (standing == OVER_80 || standing == OVER_90)
    modifies db
    ensures db.Contents() == if IsWarned(standing, old(db.quotas[quota])) then old(db.Contents())
                             else WarningRaised(old(db.Contents()), quota, standing, now)
  {
    var isNinety := standing == OVER_90;
    var row := db.quotas[quota];
    var alreadyRaised := if isNinety then row.warned90At else row.warned80At;
    if alreadyRaised.Some? {
      return;
    }
    db.quotas := db.quotas[quota := if isNinety then row.(warned90At := Some(now)) else row.(warned80At := Some(now))];
    db.events := db.events + [Warned(quota, if isNinety then 90 else 80)];
  }

  function Decimal(n: nat): string {
    (if n < 10 then "" else Decimal(n / 10)) + [['0', '1', '2', '3', '4', '5', '6', '7', '8', '9'][n % 10]]
  }

  /** The number a text of decimal digits stands for. */
  function ValueOf(text: string): int {
    if text == "" then 0 else 10 * ValueOf(text[..|text| - 1]) + (text[|text| - 1] as int - '0' as int)
  }

  /** The text of a number is made of digits, stands for that number, and has no leading zero. */
  lemma {:induction false} DecimalReads(n: nat)
    ensures ValueOf(Decimal(n)) == n && Decimal(n) != ""
    ensures forall i :: 0 <= i < |Decimal(n)| ==> '0' <= Decimal(n)[i] <= '9'
    ensures Decimal(n)[0] == '0' <==> n == 0
  {
    var text := Decimal(n);
    if n >= 10 {
      DecimalReads(n / 10);
      assert text[..|text| - 1] == Decimal(n / 10);
    } else {
      assert text[..|text| - 1] == "";
    }
  }

  /** What the device's gateway row gives as the reason. */
  function Reason(quota: Quota): string {
    "Quota exceeded: " + Decimal(quota.used) + " of " + Decimal(quota.limit) + " bytes used"
  }

  /** One covering quota: add the bytes, evaluate, and enforce or warn on what that shows. */
  function Metered(s: State, quota: QuotaId, usage: Usage, settings: Settings, now: int): State
    requires quota < |s.quotas| && usage.device < |s.devices|
  {
    var row := s.quotas[quota].(used := s.quotas[quota].used + Total(usage));
    var t := s.(quotas := s.quotas[quota := row]);
    var standing := Evaluate(row, settings);
    if standing == EXCEEDED then
      if row.exceededAt.None? && settings.enforce
      then Enforced(t, quota, usage.device, usage.node, now, Reason(row))
      else t
    else if IsWarned(standing, row) then t
    else WarningRaised(t, quota, standing, now)
  }

  /** The first `n` quotas, each metered when it is enabled and covers the traffic. */
  function MeteredFirst(s: State, n: nat, usage: Usage, settings: Settings, now: int): (t: State)
    requires n <= |s.quotas| && usage.device < |s.devices|
    ensures |t.quotas| == |s.quotas| && |t.devices| == |s.devices|
    ensures forall q :: n <= q < |s.quotas| ==> t.quotas[q] == s.quotas[q]
  {
    if n == 0 then s
    else
      var before := MeteredFirst(s, n - 1, usage, settings, now);
      var row := s.quotas[n - 1];
      if row.enabled && Covers(row.scope, usage) then Metered(before, n - 1, usage, settings, now) else before
  }

  function Recorded(s: State, usage: Usage, settings: Settings, now: int): State
    requires usage.device < |s.devices|
  {
    if Total(usage) == 0 then s else MeteredFirst(s, |s.quotas|, usage, settings, now)
  }

  /** The standing each covering quota is found in, in the order of the quotas. */
  function Standings(quotas: seq<Quota>, usage: Usage, settings: Settings): seq<Standing> {
    if quotas == [] then []
    else
      var row := quotas[|quotas| - 1];
      Standings(quotas[..|quotas| - 1], usage, settings)
      + if row.enabled && Covers(row.scope, usage) then [Evaluate(row.(used := row.used + Total(usage)), settings)]
        else []
  }

  method MeterQuota(db: Database, quota: QuotaId, usage: Usage, settings: Settings, now: int)
    returns (standing: Standing)
    requires quota < |db.quotas| && usage.device < |db.devices|
    modifies db
    ensures standing == Evaluate(old(db.quotas[quota]).(used := old(db.quotas[quota]).used + Total(usage)), settings)
    ensures db.Contents() == Metered(old(db.Contents()), quota, usage, settings, now)
    ensures |db.quotas| == |old(db.quotas)| && |db.devices| == |old(db.devices)|
  {
    hide Evaluate, Newest, Closed, Reason;
    var updated := db.quotas[quota].(used := db.quotas[quota].used + Total(usage));
    db.quotas := db.quotas[quota := updated];
    standing := Evaluate(updated, settings);
    if standing == EXCEEDED && updated.exceededAt.None? {
      if settings.enforce {
        EnforceHardLimit(db, quota, usage.device, usage.node, now, Reason(updated));
      }
    } else if (standing == OVER_80 || standing == OVER_90) && !IsWarned(standing, updated) {
      RaiseWarning(db, quota, standing, now);
    }
  }

  method RecordUsage(db: Database, usage: Usage, settings: Settings, now: int) returns (evaluations: seq<Standing>)
    requires usage.device < |db.devices|
    modifies db
    ensures db.Contents() == Recorded(old(db.Contents()), usage, settings, now)
    ensures evaluations == if Total(usage) == 0 then [] else Standings(old(db.quotas), usage, settings)
  {
    hide Metered, Evaluate, Covers;
    evaluations := [];
    if Total(usage) == 0 {
      return;
    }
    var found := db.quotas;
    for i := 0 to |found|
      invariant |db.quotas| == |found| && |db.devices| == |old(db.devices)|
      invariant db.Contents() == MeteredFirst(old(db.Contents()), i, usage, settings, now)
      invariant evaluations == Standings(found[..i], usage, settings)
    {
      assert found[..i + 1][..i] == found[..i];
      if found[i].enabled && Covers(found[i].scope, usage) {
        assert db.quotas[i] == found[i];
        var standing := MeterQuota(db, i, usage, settings, now);
        evaluations := evaluations + [standing];
      }
    }
    assert found[..|found|] == found;
  }

  // ----------------------------------------------------------- administration

  function Find(quotas: seq<Quota>, scope: Scope): (found: Option<QuotaId>)
    ensures found.None? <==> forall q :: 0 <= q < |quotas| ==> quotas[q].scope != scope
    ensures found.Some? ==> found.value < |quotas| && quotas[found.value].scope == scope
  {
    if quotas == [] then None
    else if quotas[0].scope == scope then Some(0)
    else
      var rest := Find(quotas[1..], scope);
      assert forall q :: 1 <= q < |quotas| ==> quotas[1..][q - 1] == quotas[q];
      if rest.Some? then Some(rest.value + 1) else None
  }

  function DeviceOf(scope: Scope): Option<DeviceId> {
    match scope
    case DEVICE(d) => Some(d)
    case _ => None
  }

  /** The device, node or configuration a new quota names must exist: they are foreign keys. */
  predicate RefersToRows(s: State, scope: Scope, configs: set<nat>) {
    match scope
    case DEVICE(d) => d < |s.devices|
    case NODE(n) => n < |s.nodes|
    case CONFIG(c) => c in configs
    case _ => true
  }

  /** Creates the quota of a scope, or replaces its limit and schedule but not its usage. */
  function QuotaSet(s: State, scope: Scope, limit: nat, automatic: bool, resetAt: Option<int>, enabled: bool,
                    configs: set<nat>): State {
    match Find(s.quotas, scope)
    case Some(q) =>
      s.(quotas :=
        s.quotas[q := s.quotas[q].(limit := limit, automatic := automatic, resetAt := resetAt, enabled := enabled)])
    case None =>
      if RefersToRows(s, scope, configs) then
        s.(quotas :=
          s.quotas + [Quota(scope, limit, 0, enabled, automatic, resetAt, None, None, None, DeviceOf(scope))])
      else s
  }

  /** `configs` are the configurations that exist. */
  method SetQuota(db: Database, scope: Scope, limit: int, automatic: bool, resetAt: Option<int>, enabled: bool,
                  configs: set<nat>)
    returns (id: Result<QuotaId>)
    modifies db
    ensures id.Failure? <==>
              limit < 0 || (Find(old(db.quotas), scope).None? && !RefersToRows(old(db.Contents()), scope, configs))
    ensures db.Contents() == if limit < 0 then old(db.Contents())
                             else QuotaSet(old(db.Contents()), scope, limit, automatic, resetAt, enabled, configs)
    ensures id.Success? ==>
              id.value < |db.quotas| && db.quotas[id.value].scope == scope && db.quotas[id.value].limit == limit
  {
    if limit < 0 {
      return Failure(Validation);
    }
    var existing := Find(db.quotas, scope);
    if existing.Some? {
      var row := db.quotas[existing.value];
      db.quotas := db.quotas[existing.value :=
        row.(limit := limit, automatic := automatic, resetAt := resetAt, enabled := enabled)];
      return Success(existing.value);
    }
    if !RefersToRows(db.Contents(), scope, configs) {
      return Failure(Conflict);
    }
    db.quotas := db.quotas + [Quota(scope, limit, 0, enabled, automatic, resetAt, None, None, None, DeviceOf(scope))];
    return Success(|db.quotas| - 1);
  }

  function Cleared(quota: Quota): Quota {
    quota.(used := 0, exceededAt := None, warned80At := None, warned90At := None)
  }

  /** A reset empties the quota and releases the device it is bound to, if it is bound to one. */
  function QuotaWasReset(s: State, quota: QuotaId, reason: string): State
    requires quota < |s.quotas|
  {
    var t := s.(quotas := s.quotas[quota := Cleared(s.quotas[quota])], events := s.events + [WasReset(quota)]);
    match s.quotas[quota].device
    case Some(d) =>
      if d < |s.devices| then
        t.(devices := s.devices[d := s.devices[d].(connection := OFFLINE, quotaExceededAt := None)],
           policies := Redecided(s.policies, d, {QUOTA_EXCEEDED, BLOCKED}, ACTIVE, reason))
      else t
    case None => t
  }

  /** The transaction that `resetQuota` and the periodic reset job share. */
  method ResetRow(db: Database, quota: QuotaId, reason: string)
    requires quota < |db.quotas|
    requires db.quotas[quota].device.Some? ==> db.quotas[quota].device.value < |db.devices|
    modifies db
    ensures db.Contents() == QuotaWasReset(old(db.Contents()), quota, reason)
  {
    var row := db.quotas[quota];
    db.quotas := db.quotas[quota := Cleared(row)];
    if row.device.Some? {
      var d := row.device.value;
      db.devices := db.devices[d := db.devices[d].(connection := OFFLINE, quotaExceededAt := None)];
      RedecideRows(db, d, {QUOTA_EXCEEDED, BLOCKED}, ACTIVE, reason);
    }
    db.events := db.events + [WasReset(quota)];
  }

  method ResetQuota(db: Database, quota: QuotaId) returns (done: Result<()>)
    requires forall q :: 0 <= q < |db.quotas| && db.quotas[q].device.Some? ==> db.quotas[q].device.value < |db.devices|
    modifies db
    ensures done.Failure? <==> quota >= |old(db.quotas)|
    ensures db.Contents() == if done.Failure? then old(db.Contents())
                             else QuotaWasReset(old(db.Contents()), quota, "Quota reset by operator")
  {
    if quota >= |db.quotas| {
      return Failure(NotFound);
    }
    ResetRow(db, quota, "Quota reset by operator");
    return Success(());
  }

  function Unblocked(s: State, device: DeviceId, reason: string): State
    requires device < |s.devices|
  {
    s.(devices := s.devices[device := s.devices[device].(
         connection := OFFLINE, blockedAt := None, quotaExceededAt := None, security := NORMAL)],
       policies := Redecided(s.policies, device, {QUOTA_EXCEEDED, BLOCKED, REVOKED}, ACTIVE, reason))
  }

  /** An update of a missing device fails the transaction. */
  method UnblockDevice(db: Database, device: DeviceId, reason: string) returns (done: Result<()>)
    modifies db
    ensures done.Failure? <==> device >= |old(db.devices)|
    ensures db.Contents() == if done.Failure? then old(db.Contents())
                             else Unblocked(old(db.Contents()), device, reason)
  {
    if device >= |db.devices| {
      return Failure(NotFound);
    }
    var row := db.devices[device];
    db.devices :=
      db.devices[device := row.(connection := OFFLINE, blockedAt := None, quotaExceededAt := None, security := NORMAL)];
    RedecideRows(db, device, {QUOTA_EXCEEDED, BLOCKED, REVOKED}, ACTIVE, reason);
    return Success(());
  }
}
