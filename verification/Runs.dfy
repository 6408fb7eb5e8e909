/**
 * What whole runs keep. A run is any sequence of the operations that write device, quota,
 * session and gateway rows, one transaction after another.
 */
module Runs {
  import opened Common
  import opened Store
  import opened QuotaEngine
  import opened Devices
  import opened GatewayPolicy
  import opened Jobs
  import opened PolicyActions

  datatype Op =
    | DoRegister(privateMode: bool, defaultProfile: Option<nat>)
    | DoSee(device: DeviceId)
    | DoRecord(usage: Usage, settings: Settings, now: int)
    | DoSetQuota(scope: Scope, limit: nat, automatic: bool, resetAt: Option<int>, enabled: bool, configs: set<nat>)
    | DoReset(quota: QuotaId)
    | DoPeriodReset(now: int)
    | DoUnblock(device: DeviceId, reason: string)
    | DoApprove(device: DeviceId, node: Option<NodeId>, approvals: ApprovalSettings)
    | DoReject(device: DeviceId)
    | DoBlock(device: DeviceId, now: int, reason: string)
    | DoDisconnect(device: DeviceId, now: int, byQuota: bool)
    | DoUpdate(device: DeviceId, newProfile: Option<Option<nat>>, newNode: Option<Option<NodeId>>,
               security: Option<Security>)
    | DoAction(action: Action, target: Target, ctx: Context)
    | DoAck(device: DeviceId, agent: NodeId, revision: nat, ok: bool, now: int)

  /** One operation; one that names a missing row fails and changes nothing. */
  function Apply(s: State, op: Op): State {
    match op
    case DoRegister(privateMode, defaultProfile) => Registered(s, privateMode, defaultProfile)
    case DoSee(d) => if d < |s.devices| then DeviceSeen(s, d) else s
    case DoRecord(usage, settings, now) => if usage.device < |s.devices| then Recorded(s, usage, settings, now) else s
    case DoSetQuota(scope, limit, automatic, resetAt, enabled, configs) =>
      QuotaSet(s, scope, limit, automatic, resetAt, enabled, configs)
    case DoReset(q) => if q < |s.quotas| then QuotaWasReset(s, q, "Quota reset by operator") else s
    case DoPeriodReset(now) => PeriodReset(s, now)
    case DoUnblock(d, reason) => if d < |s.devices| then Unblocked(s, d, reason) else s
    case DoApprove(d, node, approvals) => if d < |s.devices| then DeviceApproved(s, d, node, approvals) else s
    case DoReject(d) => if d < |s.devices| then DeviceRejected(s, d) else s
    case DoBlock(d, now, reason) => if d < |s.devices| then DeviceBlocked(s, d, now, reason) else s
    case DoDisconnect(d, now, byQuota) => if d < |s.devices| then DeviceDisconnected(s, d, now, byQuota) else s
    case DoUpdate(d, profile, node, security) =>
      if d < |s.devices| then DeviceUpdated(s, d, profile, node, security) else s
    case DoAction(action, target, ctx) =>
      if Acts(s, action, target, ctx) == Success(true) && !ctx.dryRun then Acted(s, action, target, ctx) else s
    case DoAck(d, node, revision, ok, now) => Acknowledged(s, d, node, revision, ok, now)
  }

  function Run(s: State, ops: seq<Op>): State {
    if ops == [] then s else Apply(Run(s, ops[..|ops| - 1]), ops[|ops| - 1])
  }

  lemma {:induction false} RunPrefix(s: State, ops: seq<Op>, k: nat)
    requires k <= |ops|
    ensures Run(s, ops) == Run(Run(s, ops[..k]), ops[k..])
    decreases |ops| - k
  {
    hide Apply;
    if k == |ops| {
      assert ops[..k] == ops && ops[k..] == [];
    } else {
      RunPrefix(s, ops[..|ops| - 1], k);
      assert ops[..|ops| - 1][..k] == ops[..k];
      assert ops[..|ops| - 1][k..] == ops[k..][..|ops| - k - 1];
    }
  }

  // ------------------------------------------------------ devices never go away

  lemma {:induction false} MeteredDevices(s: State, n: nat, usage: Usage, settings: Settings, now: int)
    requires n <= |s.quotas| && usage.device < |s.devices|
    ensures var t := MeteredFirst(s, n, usage, settings, now);
            forall d :: 0 <= d < |s.devices| ==>
              || t.devices[d] == s.devices[d]
              || (d == usage.device
                  && t.devices[d] == s.devices[d].(connection := OVER_QUOTA, quotaExceededAt := Some(now)))
  {
    if n > 0 {
      MeteredDevices(s, n - 1, usage, settings, now);
    }
  }

  /** Some quota bound to the device is among the first `n` that are due. */
  ghost predicate DueFor(quotas: seq<Quota>, n: nat, device: DeviceId, now: int)
    requires n <= |quotas|
  {
    exists q :: 0 <= q < n && Due(quotas[q], now) && quotas[q].device == Some(device)
  }

  lemma {:induction false} ResetDevices(s: State, n: nat, now: int)
    requires n <= |s.quotas|
    ensures var t := ResetFirst(s, n, now);
            forall d :: 0 <= d < |s.devices| ==>
              t.devices[d] == if DueFor(s.quotas, n, d, now)
                              then s.devices[d].(connection := OFFLINE, quotaExceededAt := None)
                              else s.devices[d]
  {
    if n > 0 {
      ResetDevices(s, n - 1, now);
      forall d | 0 <= d < |s.devices|
        ensures DueFor(s.quotas, n, d, now) <==>
                  DueFor(s.quotas, n - 1, d, now) || (Due(s.quotas[n - 1], now) && s.quotas[n - 1].device == Some(d))
      {
      }
    }
  }

  lemma DevicesGrow(s: State, op: Op)
    ensures |s.devices| <= |Apply(s, op).devices| && |s.quotas| <= |Apply(s, op).quotas|
  {
  }

  lemma {:induction false} RunGrows(s: State, ops: seq<Op>)
    ensures |s.devices| <= |Run(s, ops).devices| && |s.quotas| <= |Run(s, ops).quotas|
  {
    if ops != [] {
      RunGrows(s, ops[..|ops| - 1]);
      DevicesGrow(Run(s, ops[..|ops| - 1]), ops[|ops| - 1]);
    }
  }

  // ------------------------------------------------- a quota stays enforced

  /** The operations that release a device from its exceeded quota. */
  ghost predicate Releases(s: State, op: Op, device: DeviceId) {
    match op
    case DoReset(q) => q < |s.quotas| && s.quotas[q].device == Some(device)
    case DoPeriodReset(now) => DueFor(s.quotas, |s.quotas|, device, now)
    case DoUnblock(d, _) => d == device
    case _ => false
  }

  /** An exceeded device is released by one operation exactly when that operation is a release of it. */
  lemma ReleasedExactly(s: State, op: Op, device: DeviceId)
    requires device < |s.devices| && s.devices[device].quotaExceededAt.Some?
    ensures device < |Apply(s, op).devices|
    ensures Apply(s, op).devices[device].quotaExceededAt.None? <==> Releases(s, op, device)
  {
    DevicesGrow(s, op);
    match op
    case DoRecord(usage, settings, now) =>
      if usage.device < |s.devices| {
        MeteredDevices(s, |s.quotas|, usage, settings, now);
      }
    case DoPeriodReset(now) => ResetDevices(s, |s.quotas|, now);
    case _ =>
  }

  /** No operation of the run releases the device in the state it finds. */
  ghost predicate NeverReleased(s: State, ops: seq<Op>, device: DeviceId) {
    forall k :: 0 <= k < |ops| ==> !Releases(Run(s, ops[..k]), ops[k], device)
  }

  lemma {:induction false} ExceededPersists(s: State, ops: seq<Op>, device: DeviceId)
    requires device < |s.devices| && s.devices[device].quotaExceededAt.Some?
    requires NeverReleased(s, ops, device)
    ensures device < |Run(s, ops).devices| && Run(s, ops).devices[device].quotaExceededAt.Some?
  {
    if ops != [] {
      var before := ops[..|ops| - 1];
      assert forall k :: 0 <= k < |before| ==> before[..k] == ops[..k] && before[k] == ops[k];
      ExceededPersists(s, before, device);
      assert !Releases(Run(s, before), ops[|ops| - 1], device);
      ReleasedExactly(Run(s, before), ops[|ops| - 1], device);
    }
  }

  /**
   * Once the hard limit commits, no gateway is told to let the device through until a reset
   * of a quota bound to it or an unblock: not after disconnects, approvals, or policy
   * actions that write ACTIVE on its gateway rows, and whatever row the gateway reads.
   */
  lemma EnforcementHolds(s: State, quota: QuotaId, device: DeviceId, node: Option<NodeId>, now: int, reason: string,
                         ops: seq<Op>, config: AssignedConfig, policy: Option<Enforcement>, expired: bool,
                          rejectMessage: string)
    requires quota < |s.quotas| && device < |s.devices|
    requires NeverReleased(Enforced(s, quota, device, node, now, reason), ops, device)
    ensures var t := Run(Enforced(s, quota, device, node, now, reason), ops);
            && device < |t.devices|
            && ResolvePolicy(t.devices[device], config, policy, expired, rejectMessage).state != ACTIVE
            && IsDeviceBlocked(t.devices[device])
  {
    var t := Enforced(s, quota, device, node, now, reason);
    ExceededPersists(t, ops, device);
    AllowedExactly(Run(t, ops).devices[device], config, policy, expired, rejectMessage);
  }

  // ------------------------------------------------- a block stays in force

  /** An approval of the device that there was room for. */
  ghost predicate ApprovedIn(s: State, ops: seq<Op>, device: DeviceId) {
    exists k :: 0 <= k < |ops| && ops[k].DoApprove? && ops[k].device == device
             && ApprovedCount(Run(s, ops[..k]).devices) < ops[k].approvals.maxApproved
  }

  ghost predicate UnblockedIn(ops: seq<Op>, device: DeviceId) {
    exists k :: 0 <= k < |ops| && ops[k].DoUnblock? && ops[k].device == device
  }

  lemma BlockStep(s: State, op: Op, device: DeviceId)
    requires device < |s.devices|
    ensures device < |Apply(s, op).devices|
    ensures s.devices[device].blockedAt.Some? && Apply(s, op).devices[device].blockedAt.None? <==>
              s.devices[device].blockedAt.Some? && op.DoUnblock? && op.device == device
    ensures s.devices[device].approval != APPROVED && Apply(s, op).devices[device].approval == APPROVED <==>
              s.devices[device].approval != APPROVED && op.DoApprove? && op.device == device
              && ApprovedCount(s.devices) < op.approvals.maxApproved
  {
    DevicesGrow(s, op);
    match op
    case DoRecord(usage, settings, now) =>
      if usage.device < |s.devices| {
        MeteredDevices(s, |s.quotas|, usage, settings, now);
      }
    case DoPeriodReset(now) => ResetDevices(s, |s.quotas|, now);
    case _ =>
  }

  lemma {:induction false} BlockPersists(s: State, ops: seq<Op>, device: DeviceId)
    requires device < |s.devices|
    requires s.devices[device].blockedAt.Some? && s.devices[device].approval != APPROVED
    ensures device < |Run(s, ops).devices|
    ensures Run(s, ops).devices[device].blockedAt.None? ==> UnblockedIn(ops, device)
    ensures Run(s, ops).devices[device].approval == APPROVED ==> ApprovedIn(s, ops, device)
  {
    if ops != [] {
      var before, op := ops[..|ops| - 1], ops[|ops| - 1];
      BlockPersists(s, before, device);
      BlockStep(Run(s, before), op, device);
      assert ops[|ops| - 1] == op;
      assert forall k :: 0 <= k < |before| ==> before[k] == ops[k] && before[..k] == ops[..k];
    }
  }

  /**
   * After an operator's block the gateway is told BLOCKED until the device has been both
   * approved and unblocked; no quota reset, disconnect or policy action lifts it.
   */
  lemma BlockHolds(s: State, device: DeviceId, now: int, reason: string,
                   ops: seq<Op>, config: AssignedConfig, policy: Option<Enforcement>, expired: bool,
                    rejectMessage: string)
    requires device < |s.devices|
    ensures var b := DeviceBlocked(s, device, now, reason);
            var t := Run(b, ops);
            && device < |t.devices|
            && (ResolvePolicy(t.devices[device], config, policy, expired, rejectMessage)
                != Decision(BLOCKED, rejectMessage) ==>
                  ApprovedIn(b, ops, device) && UnblockedIn(ops, device))
  {
    BlockPersists(DeviceBlocked(s, device, now, reason), ops, device);
  }

  /** An unblock touches one device and its gateway rows, and no other row of any table. */
  ghost predicate OnlyDeviceAndRows(s: State, t: State, device: DeviceId) {
    && |t.devices| == |s.devices| && |t.policies| == |s.policies|
    && (forall d :: 0 <= d < |s.devices| && d != device ==> t.devices[d] == s.devices[d])
    && (forall i :: 0 <= i < |s.policies| && s.policies[i].device != device ==> t.policies[i] == s.policies[i])
    && t.quotas == s.quotas && t.sessions == s.sessions && t.nodes == s.nodes
    && t.anomalies == s.anomalies && t.events == s.events
  }

  /**
   * What an unblock does: the device loses its block, its quota mark and its security mark and
   * goes offline; each of its gateway rows that shut it out is reopened under the next
   * revision, for the reason given and yet to be confirmed; everything else is as it was.
   */
  lemma UnblockReopens(s: State, device: DeviceId, why: string)
    requires device < |s.devices|
    ensures var t := Apply(s, DoUnblock(device, why));
            && OnlyDeviceAndRows(s, t, device)
            && t.devices[device].connection == OFFLINE && t.devices[device].security == NORMAL
            && t.devices[device].blockedAt.None? && t.devices[device].quotaExceededAt.None?
            && t.devices[device].approval == s.devices[device].approval
            && t.devices[device].assignedNode == s.devices[device].assignedNode
            && t.devices[device].profile == s.devices[device].profile
            && forall i :: 0 <= i < |s.policies| && s.policies[i].device == device ==>
                 var before, after := s.policies[i], t.policies[i];
                 && after.device == before.device && after.node == before.node
                 && if before.state == QUOTA_EXCEEDED || before.state == BLOCKED || before.state == REVOKED
                    then && after.state == ACTIVE && after.reason == why && after.revision == before.revision + 1
                         && after.appliedAt.None? && after.ackedAt.None?
                    else after == before
  {
  }

  /** With this configuration, every row of the device lets it connect. */
  ghost predicate AllRowsOpen(s: State, device: DeviceId, config: AssignedConfig, rejectMessage: string)
    requires device < |s.devices|
  {
    forall i :: 0 <= i < |s.policies| && s.policies[i].device == device ==>
      ResolvePolicy(s.devices[device], config, Some(s.policies[i].state), false, rejectMessage).state == ACTIVE
  }

  /** After an unblock, and an approval before or after it, the rows are open. */
  lemma UnblockOpens(s: State, device: DeviceId, why: string, t: State, config: AssignedConfig, rejectMessage: string)
    requires device < |s.devices| && device < |t.devices| && !IsDeviceBlocked(t.devices[device])
    requires t.policies == Apply(s, DoUnblock(device, why)).policies
    ensures config != CONFIG_REVOKED ==> AllRowsOpen(t, device, config, rejectMessage)
  {
    hide Apply, ResolvePolicy, IsDeviceBlocked;
    UnblockReopens(s, device, why);
    forall i | 0 <= i < |t.policies| && t.policies[i].device == device
      ensures config != CONFIG_REVOKED ==>
                ResolvePolicy(t.devices[device], config, Some(t.policies[i].state), false, rejectMessage).state
                == ACTIVE
    {
      AllowedExactly(t.devices[device], config, Some(t.policies[i].state), false, rejectMessage);
    }
  }

  /**
   * Both together do lift it, in either order: the device is no longer blocked at all, and with
   * a good configuration every gateway row it has lets it connect.
   */
  lemma ApproveAndUnblockLift(s: State, device: DeviceId, now: int, reason: string,
                              node: Option<NodeId>, approvals: ApprovalSettings, why: string,
                              config: AssignedConfig, rejectMessage: string)
    requires device < |s.devices|
    requires ApprovedCount(DeviceBlocked(s, device, now, reason).devices) < approvals.maxApproved
    ensures var b := DeviceBlocked(s, device, now, reason);
            var t := Apply(Apply(b, DoApprove(device, node, approvals)), DoUnblock(device, why));
            var u := Apply(Apply(b, DoUnblock(device, why)), DoApprove(device, node, approvals));
            && !IsDeviceBlocked(t.devices[device]) && !IsDeviceBlocked(u.devices[device])
            && (config != CONFIG_REVOKED ==>
                  AllRowsOpen(t, device, config, rejectMessage) && AllRowsOpen(u, device, config, rejectMessage))
  {
    hide Redecided, Upserted, AllRowsOpen, Closed, ApprovedCount;
    var b := DeviceBlocked(s, device, now, reason);
    SameApprovals(b.devices, Unblocked(b, device, why).devices);
    var a := Apply(b, DoApprove(device, node, approvals));
    UnblockOpens(a, device, why, Apply(a, DoUnblock(device, why)), config, rejectMessage);
    var u := Apply(Apply(b, DoUnblock(device, why)), DoApprove(device, node, approvals));
    UnblockOpens(b, device, why, u, config, rejectMessage);
  }

  lemma {:induction false} SameApprovals(a: seq<Device>, b: seq<Device>)
    requires |a| == |b| && forall i :: 0 <= i < |a| ==> a[i].approval == b[i].approval
    ensures ApprovedCount(a) == ApprovedCount(b)
  {
    if a != [] {
      SameApprovals(a[..|a| - 1], b[..|b| - 1]);
    }
  }

  // ------------------------------------------ what a reset does not release

  /** Every quota is bound to the device its scope names, and to none for any other scope. */
  ghost predicate BoundByScope(s: State) {
    forall q :: 0 <= q < |s.quotas| ==> s.quotas[q].device == DeviceOf(s.quotas[q].scope)
  }

  lemma MeteredBinding(s: State, quota: QuotaId, usage: Usage, settings: Settings, now: int)
    requires quota < |s.quotas| && usage.device < |s.devices|
    ensures var t := Metered(s, quota, usage, settings, now);
            forall q :: 0 <= q < |s.quotas| ==>
              && t.quotas[q].scope == s.quotas[q].scope && t.quotas[q].device == s.quotas[q].device
              && t.quotas[q].enabled == s.quotas[q].enabled
  {
    hide Evaluate, Closed, Upserted, IsWarned;
  }

  lemma {:induction false} MeteredBindings(s: State, n: nat, usage: Usage, settings: Settings, now: int)
    requires n <= |s.quotas| && usage.device < |s.devices|
    ensures var t := MeteredFirst(s, n, usage, settings, now);
            forall q :: 0 <= q < |s.quotas| ==>
              && t.quotas[q].scope == s.quotas[q].scope && t.quotas[q].device == s.quotas[q].device
              && t.quotas[q].enabled == s.quotas[q].enabled
  {
    hide Metered, Covers;
    if n > 0 {
      MeteredBindings(s, n - 1, usage, settings, now);
      MeteredBinding(MeteredFirst(s, n - 1, usage, settings, now), n - 1, usage, settings, now);
    }
  }

  lemma BindingsKept(s: State, op: Op)
    requires BoundByScope(s)
    ensures BoundByScope(Apply(s, op))
  {
    match op
    case DoRecord(usage, settings, now) =>
      if usage.device < |s.devices| {
        MeteredBindings(s, |s.quotas|, usage, settings, now);
      }
    case DoPeriodReset(now) => ResetFirstQuotas(s, |s.quotas|, now);
    case _ =>
  }

  lemma {:induction false} BindingsKeptByRun(s: State, ops: seq<Op>)
    requires BoundByScope(s)
    ensures BoundByScope(Run(s, ops))
  {
    if ops != [] {
      BindingsKeptByRun(s, ops[..|ops| - 1]);
      BindingsKept(Run(s, ops[..|ops| - 1]), ops[|ops| - 1]);
    }
  }

  /**
   * Resetting the quota that blocked a device is meant to release it. In every reachable
   * state it does so exactly when the quota is the device's own: a SYSTEM, USER, CONFIG or
   * NODE quota blocks the device that crossed it, and its reset leaves that device blocked.
   */
  lemma ResetReleasesOwnDeviceOnly(s: State, ops: seq<Op>, quota: QuotaId, device: DeviceId)
    requires BoundByScope(s)
    requires var t := Run(s, ops);
             quota < |t.quotas| && device < |t.devices|
             && t.quotas[quota].exceededAt.Some? && t.devices[device].quotaExceededAt.Some?
    ensures var t := Run(s, ops);
            var after := Apply(t, DoReset(quota));
            && after.quotas[quota].exceededAt.None? && after.quotas[quota].used == 0
            && (after.devices[device].quotaExceededAt.None? <==> t.quotas[quota].scope == DEVICE(device))
  {
    BindingsKeptByRun(s, ops);
  }

  /** A system quota of 100 bytes blocks the device that uses them; its reset clears the quota and not the device. */
  lemma SystemQuotaKeepsBlocking(settings: Settings, now: int)
    requires settings.enforce
    ensures var device := Device(APPROVED, ONLINE, NORMAL, None, None, None, None);
            var quota := Quota(SYSTEM, 100, 0, true, false, None, None, None, None, None);
            var s := State([device], [quota], [], [], [], [], []);
            var t := Run(s, [DoRecord(Usage(0, 100, 0, None, None, None), settings, now), DoReset(0)]);
            t.quotas == [quota] && t.devices == [device.(connection := OVER_QUOTA, quotaExceededAt := Some(now))]
  {
    var device := Device(APPROVED, ONLINE, NORMAL, None, None, None, None);
    var quota := Quota(SYSTEM, 100, 0, true, false, None, None, None, None, None);
    var s := State([device], [quota], [], [], [], [], []);
    var record := DoRecord(Usage(0, 100, 0, None, None, None), settings, now);
    var ops := [record, DoReset(0)];
    assert ops[..1] == [record] && ops[..1][..0] == [];
    ExceededExactly(quota.(used := 100), settings);
    assert MeteredFirst(s, 0, record.usage, settings, now) == s;
    assert Run(s, ops[..1]) == Apply(s, record);
    assert Run(s, ops) == Apply(Apply(s, record), DoReset(0));
  }

  /**
   * A reset of a device's own quota writes ACTIVE on its gateway rows even when an operator
   * had blocked the device: the rows and the device part, and only the decision that is
   * resolved from both still says BLOCKED.
   */
  lemma ResetReopensRows(s: State, quota: QuotaId, device: DeviceId, row: nat, config: AssignedConfig, expired: bool,
                         rejectMessage: string)
    requires quota < |s.quotas| && device < |s.devices| && row < |s.policies|
    requires s.quotas[quota].device == Some(device) && s.policies[row].device == device
    requires s.devices[device].blockedAt.Some?
    ensures var t := Apply(s, DoReset(quota));
            && (t.policies[row].state == ACTIVE <==> s.policies[row].state in {ACTIVE, QUOTA_EXCEEDED, BLOCKED})
            && ResolvePolicy(t.devices[device], config, Some(t.policies[row].state), expired, rejectMessage).state
               == BLOCKED
  {
  }
}
