/**
 * What each operation on devices and quotas writes, column by column: the rows and fields named
 * here change as stated, and everything else is as it was. The statements are over runs' steps
 * and use only the rows themselves, so that they can be read against the tables.
 */
module Effects {
  import opened Common
  import opened Store
  import opened QuotaEngine
  import opened Devices
  import opened GatewayPolicy
  import opened Jobs
  import opened PolicyActions
  import opened Runs
  import opened Accounting
  import Signals

  // ------------------------------------------------------------------- devices

  /**
   * Registration adds one device and touches nothing else. In private mode, and only then, it
   * has to wait: the gateway is told to block it until an operator approves.
   */
  lemma RegisterWrites(s: State, privateMode: bool, profile: Option<nat>, rejectMessage: string)
    ensures var t := Apply(s, DoRegister(privateMode, profile));
            && t == s.(devices := t.devices) && |t.devices| == |s.devices| + 1
            && (forall d :: 0 <= d < |s.devices| ==> t.devices[d] == s.devices[d])
            && var added := t.devices[|s.devices|];
            && (added.approval == PENDING <==> privateMode) && (added.approval == APPROVED <==> !privateMode)
            && added.connection == OFFLINE && added.security == NORMAL
            && added.quotaExceededAt.None? && added.blockedAt.None? && added.assignedNode.None?
            && added.profile == profile
            && ResolvePolicy(added, NO_CONFIG, None, false, rejectMessage).state
               == if privateMode then BLOCKED else ACTIVE
  {
  }

  /**
   * Approval: when the device was not approved and there is room, its approval and, if one is
   * named, its node; and the default quota, unless it is zero or the device has a quota.
   */
  lemma ApproveWrites(s: State, device: DeviceId, node: Option<NodeId>, approvals: ApprovalSettings)
    requires device < |s.devices|
    ensures var t := Apply(s, DoApprove(device, node, approvals));
            var before, after := s.devices[device], t.devices[device];
            && OneDevice(s, t, device, after) && t == s.(devices := t.devices, quotas := t.quotas)
            && if before.approval == APPROVED || ApprovedCount(s.devices) >= approvals.maxApproved then t == s
               else
                 && after.approval == APPROVED
                 && after.assignedNode == (if node.Some? then node else before.assignedNode)
                 && after.connection == before.connection && after.security == before.security
                 && after.blockedAt == before.blockedAt && after.quotaExceededAt == before.quotaExceededAt
                 && after.profile == before.profile
                 && if || approvals.defaultQuota == 0
                       || exists q :: 0 <= q < |s.quotas| && s.quotas[q].scope == DEVICE(device)
                    then t.quotas == s.quotas
                    else
                      && |t.quotas| == |s.quotas| + 1 && t.quotas[..|s.quotas|] == s.quotas
                      && var added := t.quotas[|s.quotas|];
                      && added.scope == DEVICE(device) && added.device == Some(device)
                      && added.limit == approvals.defaultQuota
                      && added.used == 0 && added.enabled && added.automatic && added.resetAt.None?
                      && added.exceededAt.None? && added.warned80At.None? && added.warned90At.None?
  {
    hide ApprovedCount;
  }

  /** How many devices are approved. */
  lemma {:induction false} ApprovedCountIs(devices: seq<Device>)
    ensures ApprovedCount(devices) == |set d | 0 <= d < |devices| && devices[d].approval == APPROVED|
  {
    var all := set d | 0 <= d < |devices| && devices[d].approval == APPROVED;
    if devices == [] {
      assert all == {};
    } else {
      var last := |devices| - 1;
      var before := devices[..last];
      ApprovedCountIs(before);
      var earlier := set d | 0 <= d < |before| && before[d].approval == APPROVED;
      assert all == earlier + if devices[last].approval == APPROVED then {last} else {};
    }
  }

  /** A rejection changes the approval alone. */
  lemma RejectWrites(s: State, device: DeviceId)
    requires device < |s.devices|
    ensures var t := Apply(s, DoReject(device));
            t == s.(devices := t.devices) && OneDevice(s, t, device, s.devices[device].(approval := REJECTED))
  {
  }

  /**
   * A block: the device's approval and its block time, its open sessions, and the row of its
   * assigned node, rewritten under the next revision or added at revision 1, unconfirmed.
   */
  lemma BlockWrites(s: State, device: DeviceId, now: int, reason: string)
    requires device < |s.devices|
    ensures var t := Apply(s, DoBlock(device, now, reason));
            && t == s.(devices := t.devices, sessions := t.sessions, policies := t.policies)
            && OneDevice(s, t, device, s.devices[device].(approval := BLOCKED_BY_OPERATOR, blockedAt := Some(now)))
            && EndedWhere(s, t, (x: Session) => x.device == device, now, ENDED_REVOKED)
            && RowWritten(s.policies, t.policies, device, s.devices[device].assignedNode, BLOCKED, reason)
  {
    RowIsWritten(s.policies, device, s.devices[device].assignedNode, BLOCKED, reason);
  }

  /** One row for this device and node carries the decision; it is the newest there was, or new. */
  ghost predicate RowWritten(before: seq<PolicyRow>, after: seq<PolicyRow>, device: DeviceId, node: Option<NodeId>,
                             state: Enforcement, reason: string) {
    exists i :: 0 <= i < |after| && WrittenAt(before, after, i, device, node, state, reason)
  }

  ghost predicate WrittenAt(before: seq<PolicyRow>, after: seq<PolicyRow>, i: nat, device: DeviceId,
                            node: Option<NodeId>, state: Enforcement, reason: string)
    requires i < |after|
  {
    && |before| <= |after| && i <= |before| && |after| == (if i == |before| then i + 1 else |before|)
    && (forall j :: 0 <= j < |before| && j != i ==> after[j] == before[j])
    && after[i].device == device && after[i].node == node
    && after[i].state == state && after[i].reason == reason && after[i].appliedAt.None? && after[i].ackedAt.None?
    && (forall j :: 0 <= j < |before| && before[j].device == device && before[j].node == node ==>
          i < |before| && before[j].revision <= before[i].revision)
    && (i < |before| ==> before[i].device == device && before[i].node == node)
    && after[i].revision == (if i < |before| then before[i].revision + 1 else 1)
  }

  lemma RowIsWritten(rows: seq<PolicyRow>, device: DeviceId, node: Option<NodeId>, state: Enforcement, reason: string)
    ensures RowWritten(rows, Upserted(rows, device, node, state, reason), device, node, state, reason)
  {
    hide Newest;
    var found := Newest(rows, device, node);
    var i := if found.Some? then found.value else |rows|;
    var after := Upserted(rows, device, node, state, reason);
    assert forall j :: 0 <= j < |rows| && rows[j].device == device && rows[j].node == node ==>
             RowFor(rows[j], device, node);
    assert WrittenAt(rows, after, i, device, node, state, reason);
  }

  /** A disconnect: the device is offline and its open sessions are ended; no decision changes. */
  lemma DisconnectWrites(s: State, device: DeviceId, now: int, byQuota: bool)
    requires device < |s.devices|
    ensures var t := Apply(s, DoDisconnect(device, now, byQuota));
            && t == s.(devices := t.devices, sessions := t.sessions)
            && OneDevice(s, t, device, s.devices[device].(connection := OFFLINE))
            && EndedWhere(s, t, (x: Session) => x.device == device, now,
                          if byQuota then ENDED_BY_QUOTA else ENDED_REVOKED)
  {
  }

  /** An update: the fields that are given, each to its own column. */
  lemma UpdateWrites(s: State, device: DeviceId, profile: Option<Option<nat>>, node: Option<Option<NodeId>>,
                     security: Option<Security>)
    requires device < |s.devices|
    ensures var t := Apply(s, DoUpdate(device, profile, node, security));
            var before, after := s.devices[device], t.devices[device];
            && t == s.(devices := t.devices) && OneDevice(s, t, device, after)
            && (profile.Some? ==> after.profile == profile.value) && (profile.None? ==> after.profile == before.profile)
            && (node.Some? ==> after.assignedNode == node.value)
            && (node.None? ==> after.assignedNode == before.assignedNode)
            && (security.Some? ==> after.security == security.value)
            && (security.None? ==> after.security == before.security)
            && after.approval == before.approval && after.connection == before.connection
            && after.blockedAt == before.blockedAt && after.quotaExceededAt == before.quotaExceededAt
  {
  }

  /** A device seen on the wire is online; that alone can hide that it is over its quota, but not the mark of it. */
  lemma SeenWrites(s: State, device: DeviceId)
    requires device < |s.devices|
    ensures var t := Apply(s, DoSee(device));
            t == s.(devices := t.devices) && OneDevice(s, t, device, s.devices[device].(connection := ONLINE))
  {
  }

  // -------------------------------------------------------------------- quotas

  /** Enforcing a quota: its mark, the device's, the end of the device's sessions, its row and a record. */
  lemma EnforceWrites(s: State, quota: QuotaId, device: DeviceId, node: Option<NodeId>, now: int, reason: string)
    requires quota < |s.quotas| && device < |s.devices|
    ensures var t := Enforced(s, quota, device, node, now, reason);
            && t.nodes == s.nodes && t.anomalies == s.anomalies
            && t.events == s.events + [Exceeded(quota, device)]
            && |t.quotas| == |s.quotas| && t.quotas[quota] == s.quotas[quota].(exceededAt := Some(now))
            && (forall q :: 0 <= q < |s.quotas| && q != quota ==> t.quotas[q] == s.quotas[q])
            && OneDevice(s, t, device, s.devices[device].(connection := OVER_QUOTA, quotaExceededAt := Some(now)))
            && EndedWhere(s, t, (x: Session) => x.device == device, now, ENDED_BY_QUOTA)
            && RowWritten(s.policies, t.policies, device, node, QUOTA_EXCEEDED, reason)
  {
    RowIsWritten(s.policies, device, node, QUOTA_EXCEEDED, reason);
  }

  /** Warning of a quota: the stamp of its threshold, if it has none yet, and a record of the percentage. */
  lemma WarnWrites(s: State, quota: QuotaId, standing: Standing, now: int)
    requires quota < |s.quotas| && (standing == OVER_80 || standing == OVER_90)
    ensures var t := if IsWarned(standing, s.quotas[quota]) then s else WarningRaised(s, quota, standing, now);
            var row := s.quotas[quota];
            && (standing == OVER_90 && row.warned90At.None? ==>
                  && t.quotas == s.quotas[quota := row.(warned90At := Some(now))]
                  && t == s.(quotas := t.quotas, events := s.events + [Warned(quota, 90)]))
            && (standing == OVER_80 && row.warned80At.None? ==>
                  && t.quotas == s.quotas[quota := row.(warned80At := Some(now))]
                  && t == s.(quotas := t.quotas, events := s.events + [Warned(quota, 80)]))
            && ((if standing == OVER_90 then row.warned90At else row.warned80At).Some? ==> t == s)
  {
  }

  /** The standings a recording returns: one for each live quota it counts against, in their order. */
  lemma {:induction false} StandingsInOrder(a: seq<Quota>, b: seq<Quota>, usage: Usage, settings: Settings)
    ensures Standings(a + b, usage, settings) == Standings(a, usage, settings) + Standings(b, usage, settings)
  {
    if b == [] {
      assert a + b == a;
    } else {
      assert (a + b)[..|a + b| - 1] == a + b[..|b| - 1];
      StandingsInOrder(a, b[..|b| - 1], usage, settings);
    }
  }

  /** Each is the standing of the quota with the traffic already counted. */
  lemma StandingsOfOne(quota: Quota, usage: Usage, settings: Settings)
    ensures Standings([quota], usage, settings)
            == if quota.enabled && quota.scope in ScopesOf(usage)
               then [Evaluate(quota.(used := quota.used + (usage.upload + usage.download)), settings)] else []
  {
    hide Evaluate;
    CoversExactly(quota.scope, usage);
    assert [quota][..0] == [];
  }

  /** The scopes that a batch of traffic counts against. */
  function ScopesOf(usage: Usage): set<Scope> {
    {SYSTEM, DEVICE(usage.device)}
    + (if usage.user.Some? then {USER(usage.user.value)} else {})
    + (if usage.config.Some? then {CONFIG(usage.config.value)} else {})
    + (if usage.node.Some? then {NODE(usage.node.value)} else {})
  }

  lemma CoversExactly(scope: Scope, usage: Usage)
    ensures Covers(scope, usage) <==> scope in ScopesOf(usage)
  {
  }

  /** What the traffic makes of a quota's row that it counts against. */
  ghost predicate Accounted(before: Quota, after: Quota, bytes: nat, settings: Settings, now: int) {
    var used := before.used + bytes;
    var reached := before.limit > 0 && 2000 * used >= 1999 * before.limit;
    var past90 := AtLeastPercent(used, before.limit, settings.warn90);
    var past80 := AtLeastPercent(used, before.limit, settings.warn80);
    && after.used == used
    && after.scope == before.scope && after.limit == before.limit && after.enabled == before.enabled
    && after.automatic == before.automatic && after.resetAt == before.resetAt && after.device == before.device
    && after.exceededAt
       == (if before.exceededAt.None? && reached && settings.enforce then Some(now) else before.exceededAt)
    && after.warned90At
       == (if before.exceededAt.None? && !reached && past90 && before.warned90At.None? then Some(now)
           else before.warned90At)
    && after.warned80At
       == (if before.exceededAt.None? && !reached && !past90 && past80 && before.warned80At.None? then Some(now)
           else before.warned80At)
  }

  /**
   * Recording traffic, quota by quota: a live quota whose scope is the system, the device, its
   * user, its configuration or its node is charged upload and download together, is marked at
   * 99.95 % of a positive limit where limits are enforced, and short of that is stamped once at
   * the higher warning threshold it has reached. Every other quota is as it was.
   */
  lemma RecordWrites(s: State, usage: Usage, settings: Settings, now: int, q: QuotaId)
    requires usage.device < |s.devices| && q < |s.quotas|
    ensures var t := Apply(s, DoRecord(usage, settings, now));
            && |t.quotas| == |s.quotas|
            && if s.quotas[q].enabled && s.quotas[q].scope in ScopesOf(usage) && usage.upload + usage.download > 0
               then Accounted(s.quotas[q], t.quotas[q], usage.upload + usage.download, settings, now)
               else t.quotas[q] == s.quotas[q]
  {
    hide ScopesOf, Metered, Accounted;
    var bytes := usage.upload + usage.download;
    CoversExactly(s.quotas[q].scope, usage);
    if bytes > 0 {
      if s.quotas[q].enabled && Covers(s.quotas[q].scope, usage) {
        MeteredOutcomes(s, |s.quotas|, usage, settings, now, q);
        MeterAccounts(s, q, usage, settings, now);
      } else {
        NotMetered(s, |s.quotas|, usage, settings, now, q);
      }
    }
  }

  /** Some quota that the traffic counts against is live and unmarked, and reaches its limit by it. */
  predicate ReachesLimit(quotas: seq<Quota>, usage: Usage) {
    exists q :: 0 <= q < |quotas| && quotas[q].enabled && quotas[q].scope in ScopesOf(usage)
      && quotas[q].exceededAt.None? && quotas[q].limit > 0
      && 2000 * (quotas[q].used + usage.upload + usage.download) >= 1999 * quotas[q].limit
  }

  /**
   * And the device: where limits are enforced, traffic that brings any such quota to its limit
   * marks the device that sent it and puts it over quota; otherwise, and for every other
   * device, nothing changes.
   */
  lemma RecordMarks(s: State, usage: Usage, settings: Settings, now: int)
    requires usage.device < |s.devices|
    ensures var t := Apply(s, DoRecord(usage, settings, now));
            var d := usage.device;
            OneDevice(s, t, d, if settings.enforce && usage.upload + usage.download > 0 && ReachesLimit(s.quotas, usage)
                               then s.devices[d].(connection := OVER_QUOTA, quotaExceededAt := Some(now))
                               else s.devices[d])
  {
    hide ScopesOf, MeteredFirst;
    Signals.RecordedDevice(s, |s.quotas|, usage, settings, now);
    forall q | 0 <= q < |s.quotas|
      ensures Covers(s.quotas[q].scope, usage) <==> s.quotas[q].scope in ScopesOf(usage)
    {
      CoversExactly(s.quotas[q].scope, usage);
    }
    var reached := settings.enforce && ReachesLimit(s.quotas, usage);
    assert Signals.AnyTrips(s.quotas, |s.quotas|, usage, settings) <==> reached by {
      if reached {
        var q :| 0 <= q < |s.quotas| && s.quotas[q].enabled && s.quotas[q].scope in ScopesOf(usage)
                 && s.quotas[q].exceededAt.None? && s.quotas[q].limit > 0
                 && 2000 * (s.quotas[q].used + usage.upload + usage.download) >= 1999 * s.quotas[q].limit;
        assert Signals.Trips(s.quotas[q], usage, settings);
      }
    }
  }

  lemma MeterAccounts(s: State, q: QuotaId, usage: Usage, settings: Settings, now: int)
    requires usage.device < |s.devices| && q < |s.quotas| && s.quotas[q].enabled
    ensures Accounted(s.quotas[q], Metered(s, q, usage, settings, now).quotas[q],
                      usage.upload + usage.download, settings, now)
  {
    hide Evaluate, AtLeastPercent;
    MeteredOutcome(s, q, usage, settings, now);
    StandingExactly(s.quotas[q].(used := s.quotas[q].used + Total(usage)), settings);
  }

  lemma {:induction false} NotMetered(s: State, n: nat, usage: Usage, settings: Settings, now: int, q: QuotaId)
    requires usage.device < |s.devices| && q < |s.quotas| && n <= |s.quotas|
    requires !(s.quotas[q].enabled && Covers(s.quotas[q].scope, usage))
    ensures MeteredFirst(s, n, usage, settings, now).quotas[q] == s.quotas[q]
  {
    hide Metered, Covers;
    if n > 0 {
      NotMetered(s, n - 1, usage, settings, now, q);
      MeteredOne(MeteredFirst(s, n - 1, usage, settings, now), n - 1, usage, settings, now);
    }
  }

  /** A reset quota starts over: nothing used and no mark; its limit, scope and schedule stay. */
  ghost predicate StartsOver(before: Quota, after: Quota) {
    && after.used == 0 && after.exceededAt.None? && after.warned80At.None? && after.warned90At.None?
    && after.scope == before.scope && after.limit == before.limit && after.enabled == before.enabled
    && after.automatic == before.automatic && after.resetAt == before.resetAt && after.device == before.device
  }

  /** A row of a released device is reopened if it says blocked or over quota, and is else as it was. */
  ghost predicate Reopened(before: PolicyRow, after: PolicyRow, reason: string) {
    && after.device == before.device && after.node == before.node
    && if before.state == QUOTA_EXCEEDED || before.state == BLOCKED
       then && after.state == ACTIVE && after.reason == reason && after.revision == before.revision + 1
            && after.appliedAt.None? && after.ackedAt.None?
       else after == before
  }

  /**
   * Resetting a quota: its own row starts over; if it is bound to a device, that device goes
   * offline without its mark and its rows are reopened; and the reset is recorded.
   */
  lemma ResetWrites(s: State, quota: QuotaId)
    requires quota < |s.quotas|
    requires s.quotas[quota].device.Some? ==> s.quotas[quota].device.value < |s.devices|
    ensures var t := Apply(s, DoReset(quota));
            && t == s.(quotas := t.quotas, devices := t.devices, policies := t.policies, events := t.events)
            && t.events == s.events + [WasReset(quota)]
            && |t.quotas| == |s.quotas| && StartsOver(s.quotas[quota], t.quotas[quota])
            && (forall q :: 0 <= q < |s.quotas| && q != quota ==> t.quotas[q] == s.quotas[q])
            && |t.policies| == |s.policies|
            && match s.quotas[quota].device {
                 case None => t.devices == s.devices && t.policies == s.policies
                 case Some(d) =>
                   && OneDevice(s, t, d, s.devices[d].(connection := OFFLINE, quotaExceededAt := None))
                   && forall i :: 0 <= i < |s.policies| ==>
                        if s.policies[i].device == d
                        then Reopened(s.policies[i], t.policies[i], "Quota reset by operator")
                        else t.policies[i] == s.policies[i]
               }
  {
  }

  /** The period has ended for a live, automatic quota. */
  predicate PeriodOver(quota: Quota, now: int) {
    quota.enabled && quota.automatic && quota.resetAt.Some? && now >= quota.resetAt.value
  }

  predicate BoundQuotaOver(quotas: seq<Quota>, device: DeviceId, now: int) {
    exists q :: 0 <= q < |quotas| && PeriodOver(quotas[q], now) && quotas[q].device == Some(device)
  }

  /**
   * The periodic reset: every live automatic quota whose time has come starts over and every
   * other is as it was; a device is released exactly if one of those is bound to it.
   */
  lemma PeriodResetWrites(s: State, now: int)
    ensures var t := Apply(s, DoPeriodReset(now));
            && |t.quotas| == |s.quotas| && |t.devices| == |s.devices|
            && (forall q :: 0 <= q < |s.quotas| ==>
                  if PeriodOver(s.quotas[q], now) then StartsOver(s.quotas[q], t.quotas[q])
                  else t.quotas[q] == s.quotas[q])
            && (forall d :: 0 <= d < |s.devices| ==>
                  t.devices[d] == if BoundQuotaOver(s.quotas, d, now)
                                  then s.devices[d].(connection := OFFLINE, quotaExceededAt := None) else s.devices[d])
  {
    ResetFirstQuotas(s, |s.quotas|, now);
    ResetDevices(s, |s.quotas|, now);
    assert forall q :: 0 <= q < |s.quotas| ==> (Due(s.quotas[q], now) <==> PeriodOver(s.quotas[q], now));
  }

  /** And the number the job reports is the number of quotas it reset. */
  lemma {:induction false} DueCountIs(quotas: seq<Quota>, now: int)
    ensures DueCount(quotas, now) == |set q | 0 <= q < |quotas| && PeriodOver(quotas[q], now)|
  {
    var all := set q | 0 <= q < |quotas| && PeriodOver(quotas[q], now);
    if quotas == [] {
      assert all == {};
    } else {
      var last := |quotas| - 1;
      var before := quotas[..last];
      DueCountIs(before, now);
      var earlier := set q | 0 <= q < |before| && PeriodOver(before[q], now);
      assert all == earlier + if PeriodOver(quotas[last], now) then {last} else {};
    }
  }

  /**
   * Setting a quota: the one of the scope takes the new limit and schedule and keeps what was
   * used and marked; without one a new quota begins at nothing, bound to its device if it is a
   * device's; it names only rows that exist. Nothing else is touched.
   */
  lemma SetQuotaWrites(s: State, scope: Scope, limit: nat, automatic: bool, resetAt: Option<int>, enabled: bool,
                       configs: set<nat>)
    requires forall i, j :: 0 <= i < j < |s.quotas| ==> s.quotas[i].scope != s.quotas[j].scope
    ensures var t := Apply(s, DoSetQuota(scope, limit, automatic, resetAt, enabled, configs));
            && t == s.(quotas := t.quotas)
            && (forall q :: 0 <= q < |s.quotas| ==>
                  if s.quotas[q].scope == scope
                  then
                    t.quotas[q]
                    == s.quotas[q].(limit := limit, automatic := automatic, resetAt := resetAt, enabled := enabled)
                  else t.quotas[q] == s.quotas[q])
            && var there := exists q :: 0 <= q < |s.quotas| && s.quotas[q].scope == scope;
            && var refers := match scope {
                               case DEVICE(d) => d < |s.devices|
                               case NODE(n) => n < |s.nodes|
                               case CONFIG(c) => c in configs
                               case _ => true
                             };
            && |t.quotas| == |s.quotas| + (if there || !refers then 0 else 1)
            && (|t.quotas| > |s.quotas| ==>
                  t.quotas[|s.quotas|]
                  == Quota(scope, limit, 0, enabled, automatic, resetAt, None, None, None,
                           if scope.DEVICE? then Some(scope.device) else None))
  {
  }
}
