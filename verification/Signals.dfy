/**
 * What an agent can tell from revisions: which operations change the decision it pulls for a
 * device without touching the row it came from, and when the revision its heartbeat reports
 * moves (src/app/api/gateway/heartbeat/route.ts:79-88, src/app/api/gateway/policy/route.ts:51-109).
 */
module Signals {
  import opened Common
  import opened Store
  import opened QuotaEngine
  import opened Devices
  import opened GatewayPolicy
  import opened Jobs
  import opened PolicyActions
  import opened Runs
  import opened Revisions

  /** What else the decision depends on: the configuration, its expiry, and the message for the refused. */
  datatype View = View(config: AssignedConfig, expired: bool, rejectMessage: string)

  /** The decision for a device as its agent pulls it, from the row at index `row`. */
  function Pulled(s: State, device: DeviceId, row: nat, view: View): Decision
    requires device < |s.devices| && row < |s.policies|
  {
    ResolvePolicy(s.devices[device], view.config, Some(s.policies[row].state), view.expired, view.rejectMessage)
  }

  // --------------------------------------------------- changes without a revision

  /** The operation gives the row no new revision. */
  predicate LeavesAlone(s: State, op: Op, row: nat)
    requires row < |s.policies|
  {
    row < |Apply(s, op).policies| && Apply(s, op).policies[row].revision == s.policies[row].revision
  }

  /** An operator's decision stands against the device. */
  predicate Barred(d: Device) {
    d.approval != APPROVED || d.blockedAt.Some?
  }

  predicate Over(d: Device) {
    d.connection == OVER_QUOTA || d.quotaExceededAt.Some?
  }

  /** The row's own state is what a device that is neither barred nor over its quota is told. */
  predicate RowSpeaks(view: View) {
    view.config != CONFIG_REVOKED && !view.expired
  }

  /** The row by itself tells the device that it is blocked, or over its quota. */
  predicate SaysBlocked(view: View, state: Enforcement) {
    RowSpeaks(view) && state == BLOCKED
  }

  predicate SaysOverQuota(view: View, state: Enforcement) {
    RowSpeaks(view) && state == QUOTA_EXCEEDED
  }

  /** The quota is marked, and the device blocked, by recording this traffic. */
  predicate Trips(quota: Quota, usage: Usage, settings: Settings) {
    && settings.enforce && quota.enabled && Covers(quota.scope, usage) && quota.exceededAt.None?
    && quota.limit > 0 && 2000 * (quota.used + Total(usage)) >= 1999 * quota.limit
  }

  ghost predicate AnyTrips(quotas: seq<Quota>, n: nat, usage: Usage, settings: Settings)
    requires n <= |quotas|
  {
    exists q :: 0 <= q < n && Trips(quotas[q], usage, settings)
  }

  /** The operations that change what is pulled from a row they leave alone, each with its guard. */
  ghost predicate Shifts(s: State, op: Op, device: DeviceId, state: Enforcement, view: View)
    requires device < |s.devices|
  {
    var d := s.devices[device];
    match op
    case DoRecord(usage, settings, _) =>
      && usage.device == device && Total(usage) > 0 && AnyTrips(s.quotas, |s.quotas|, usage, settings)
      && !Barred(d) && !Over(d) && !SaysOverQuota(view, state)
    case DoReset(q) =>
      q < |s.quotas| && s.quotas[q].device == Some(device) && !Barred(d) && Over(d) && !SaysOverQuota(view, state)
    case DoPeriodReset(now) =>
      DueFor(s.quotas, |s.quotas|, device, now) && !Barred(d) && Over(d) && !SaysOverQuota(view, state)
    case DoUnblock(x, _) =>
      && x == device && d.approval == APPROVED
      && if d.blockedAt.Some? then !SaysBlocked(view, state) else Over(d) && !SaysOverQuota(view, state)
    case DoApprove(x, _, approvals) =>
      && x == device && d.approval != APPROVED && ApprovedCount(s.devices) < approvals.maxApproved
      && d.blockedAt.None? && (Over(d) || !SaysBlocked(view, state))
    case DoReject(x) => x == device && !Barred(d) && (Over(d) || !SaysBlocked(view, state))
    case DoBlock(x, _, _) => x == device && !Barred(d) && (Over(d) || !SaysBlocked(view, state))
    case DoSee(x) => x == device && OverUnmarked(d) && !SaysOverQuota(view, state)
    case DoDisconnect(x, _, _) => x == device && OverUnmarked(d) && !SaysOverQuota(view, state)
    case _ => false
  }

  /** Over its quota by its connection alone, which no reachable device is (MarksKept). */
  predicate OverUnmarked(d: Device) {
    !Barred(d) && d.connection == OVER_QUOTA && d.quotaExceededAt.None?
  }

  lemma {:induction false} RecordedDevice(s: State, n: nat, usage: Usage, settings: Settings, now: int)
    requires n <= |s.quotas| && usage.device < |s.devices|
    ensures var d, t := usage.device, MeteredFirst(s, n, usage, settings, now);
            && t.devices[d] == (if AnyTrips(s.quotas, n, usage, settings)
                                then s.devices[d].(connection := OVER_QUOTA, quotaExceededAt := Some(now))
                                else s.devices[d])
            && forall other :: 0 <= other < |s.devices| && other != d ==> t.devices[other] == s.devices[other]
  {
    hide Metered;
    if n > 0 {
      var before := MeteredFirst(s, n - 1, usage, settings, now);
      RecordedDevice(s, n - 1, usage, settings, now);
      assert AnyTrips(s.quotas, n, usage, settings) <==>
               AnyTrips(s.quotas, n - 1, usage, settings) || Trips(s.quotas[n - 1], usage, settings);
      if s.quotas[n - 1].enabled && Covers(s.quotas[n - 1].scope, usage) {
        MeteredDevice(before, n - 1, usage, settings, now);
      }
    }
  }

  lemma MeteredDevice(s: State, q: QuotaId, usage: Usage, settings: Settings, now: int)
    requires q < |s.quotas| && usage.device < |s.devices| && s.quotas[q].enabled && Covers(s.quotas[q].scope, usage)
    ensures var d, t := usage.device, Metered(s, q, usage, settings, now);
            t.devices == if Trips(s.quotas[q], usage, settings)
                         then s.devices[d := s.devices[d].(connection := OVER_QUOTA, quotaExceededAt := Some(now))]
                         else s.devices
  {
    hide Evaluate;
    ExceededExactly(s.quotas[q].(used := s.quotas[q].used + Total(usage)), settings);
  }

  /** How the device itself bears on the decision. */
  lemma DecisionBy(d: Device, e: Device, state: Enforcement, view: View)
    ensures var before := ResolvePolicy(d, view.config, Some(state), view.expired, view.rejectMessage);
            var after := ResolvePolicy(e, view.config, Some(state), view.expired, view.rejectMessage);
            before == after <==>
              if Barred(d) then Barred(e) || (!Over(e) && SaysBlocked(view, state))
              else if Over(d) then !Barred(e) && (Over(e) || SaysOverQuota(view, state))
              else if Barred(e) then SaysBlocked(view, state)
              else Over(e) ==> SaysOverQuota(view, state)
  {
  }

  /** The device after any operation, as far as the decision looks at it. */
  lemma DeviceAfter(s: State, op: Op, device: DeviceId)
    requires device < |s.devices|
    ensures device < |Apply(s, op).devices|
    ensures var d, e := s.devices[device], Apply(s, op).devices[device];
            match op
            case DoRecord(usage, settings, now) =>
              e == if usage.device == device && Total(usage) > 0 && AnyTrips(s.quotas, |s.quotas|, usage, settings)
                   then d.(connection := OVER_QUOTA, quotaExceededAt := Some(now)) else d
            case DoReset(q) =>
              e == if q < |s.quotas| && s.quotas[q].device == Some(device)
                   then d.(connection := OFFLINE, quotaExceededAt := None) else d
            case DoPeriodReset(now) =>
              e == if DueFor(s.quotas, |s.quotas|, device, now)
                   then d.(connection := OFFLINE, quotaExceededAt := None) else d
            case _ => true
  {
    hide Closed, Upserted, Redecided;
    match op
    case DoRecord(usage, settings, now) =>
      if usage.device < |s.devices| {
        RecordedDevice(s, |s.quotas|, usage, settings, now);
      }
    case DoPeriodReset(now) => ResetDevices(s, |s.quotas|, now);
    case _ => DevicesGrow(s, op);
  }

  /** A device action that bars or frees a device puts every row of it under a new revision. */
  lemma ActionsLeaveNoRow(s: State, op: Op, device: DeviceId, row: nat)
    requires op.DoAction? && device < |s.devices| && row < |s.policies| && s.policies[row].device == device
    requires LeavesAlone(s, op, row)
    ensures device < |Apply(s, op).devices|
    ensures var d, e := s.devices[device], Apply(s, op).devices[device]; Barred(e) == Barred(d) && Over(e) == Over(d)
  {
    AnyState(s.policies[row].state);
  }

  /**
   * A revision is meant to name one decision. For every operation and every row whose revision
   * it leaves alone: the decision pulled from that row changes exactly when the operation is
   * one of those that `Shifts` lists, under the guard given there.
   */
  lemma SilentChangesExactly(s: State, op: Op, device: DeviceId, row: nat, view: View)
    requires OneRowEach(s.policies)
    requires device < |s.devices| && row < |s.policies| && s.policies[row].device == device
    requires LeavesAlone(s, op, row)
    ensures device < |Apply(s, op).devices|
    ensures Pulled(Apply(s, op), device, row, view) != Pulled(s, device, row, view) <==>
              Shifts(s, op, device, s.policies[row].state, view)
  {
    hide ResolvePolicy, AnyTrips, DueFor, Closed, Upserted, Redecided, ApprovedCount;
    DeviceAfter(s, op, device);
    RowsStep(s, op);
    DecisionBy(s.devices[device], Apply(s, op).devices[device], s.policies[row].state, view);
    assert Apply(s, op).policies[row].state == s.policies[row].state;
    if op.DoAction? {
      ActionsLeaveNoRow(s, op, device, row);
    }
  }

  /**
   * Nor does an agent come to be served another row under the same revision, but at a tie:
   * when the row of its node is new or rewritten and has just reached the revision of the
   * device's row of no node. SilentChangesExactly covers every other case.
   */
  lemma ServedRowStays(s: State, op: Op, device: DeviceId, node: NodeId, row: nat)
    requires OneRowEach(s.policies) && RowAcked(s.policies, device, node) == Some(row)
    ensures var t := Apply(s, op);
            var now := RowAcked(t.policies, device, node);
            && now.Some? && row < |t.policies|
            && (now.value != row && t.policies[now.value].revision == s.policies[row].revision ==>
                  && RowFor(s.policies[row], device, None) && RowFor(t.policies[now.value], device, Some(node))
                  && t.policies[row].revision == t.policies[now.value].revision
                  && (now.value < |s.policies| ==> s.policies[now.value].revision < t.policies[now.value].revision))
  {
    hide Apply, Newest;
    RowsStep(s, op);
    AckedIsFor(s.policies, device, node);
    AckedIsFor(Apply(s, op).policies, device, node);
    assert RowFor(Apply(s, op).policies[row], device, Some(node)) || RowFor(Apply(s, op).policies[row], device, None);
  }

  // ------------------------------------------------------- devices without a row

  predicate HasRow(rows: seq<PolicyRow>, device: DeviceId) {
    exists i :: 0 <= i < |rows| && rows[i].device == device
  }

  /** A device without a row is served all the same, under revision 0. */
  function PulledBare(s: State, device: DeviceId, view: View): Decision
    requires device < |s.devices|
  {
    ResolvePolicy(s.devices[device], view.config, None, view.expired, view.rejectMessage)
  }

  /** The operations that change what is pulled for a device and leave it without a row. */
  ghost predicate ShiftsBare(s: State, op: Op, device: DeviceId, view: View)
    requires device < |s.devices|
  {
    match op
    case DoAction(action, target, ctx) =>
      && target == OnDevice(device) && !ctx.dryRun
      && match action {
           case BLOCK_DEVICE_RECONNECT => !Barred(s.devices[device])
           case DISCONNECT_SESSION(_) => AnyOpen(s.sessions, device) && OverUnmarked(s.devices[device])
           case _ => false
         }
    case _ => Shifts(s, op, device, ACTIVE, view)
  }

  datatype Standing = IS_BARRED | IS_OVER | IS_FREE

  /** All that the decision on a device without a row looks at in the device. */
  function StandingOf(d: Device): Standing {
    if Barred(d) then IS_BARRED else if Over(d) then IS_OVER else IS_FREE
  }

  lemma BareByStanding(d: Device, e: Device, view: View)
    ensures ResolvePolicy(d, view.config, None, view.expired, view.rejectMessage)
            == ResolvePolicy(e, view.config, None, view.expired, view.rejectMessage) <==>
              StandingOf(d) == StandingOf(e)
  {
  }

  lemma StandingAfterAction(s: State, op: Op, device: DeviceId, view: View)
    requires op.DoAction? && device < |s.devices|
    ensures device < |Apply(s, op).devices|
    ensures StandingOf(Apply(s, op).devices[device]) != StandingOf(s.devices[device]) <==>
              ShiftsBare(s, op, device, view)
  {
    hide Closed, Redecided, AnyOpen;
  }

  lemma StandingAfter(s: State, op: Op, device: DeviceId, view: View)
    requires !op.DoAction? && device < |s.devices|
    requires !HasRow(s.policies, device) && !HasRow(Apply(s, op).policies, device)
    ensures device < |Apply(s, op).devices|
    ensures StandingOf(Apply(s, op).devices[device]) != StandingOf(s.devices[device]) <==>
              ShiftsBare(s, op, device, view)
  {
    hide AnyTrips, DueFor, Closed, Redecided, ApprovedCount, Upserted;
    DeviceAfter(s, op, device);
    match op
    case DoBlock(x, now, reason) =>
      if x == device {
        BlockLeavesRow(s, device, now, reason);
      }
    case DoRecord(usage, settings, now) =>
      if usage.device == device && Total(usage) > 0 {
        TripLeavesRow(s, |s.quotas|, usage, settings, now);
      }
    case _ =>
  }

  /**
   * Revision 0 stands for every decision on a device that has no row: for every operation that
   * leaves it without one, the decision changes exactly when `ShiftsBare` lists the operation.
   */
  lemma BareChangesExactly(s: State, op: Op, device: DeviceId, view: View)
    requires device < |s.devices| && !HasRow(s.policies, device) && !HasRow(Apply(s, op).policies, device)
    ensures device < |Apply(s, op).devices|
    ensures PulledBare(Apply(s, op), device, view) != PulledBare(s, device, view) <==> ShiftsBare(s, op, device, view)
  {
    hide Apply, ResolvePolicy, StandingOf, ShiftsBare;
    if op.DoAction? {
      StandingAfterAction(s, op, device, view);
    } else {
      StandingAfter(s, op, device, view);
    }
    BareByStanding(s.devices[device], Apply(s, op).devices[device], view);
  }

  lemma BlockLeavesRow(s: State, device: DeviceId, now: int, reason: string)
    requires device < |s.devices|
    ensures HasRow(Apply(s, DoBlock(device, now, reason)).policies, device)
  {
    hide Closed;
    var t := Apply(s, DoBlock(device, now, reason));
    var row := Newest(s.policies, device, s.devices[device].assignedNode);
    assert t.policies[if row.Some? then row.value else |s.policies|].device == device;
  }

  lemma {:induction false} TripLeavesRow(s: State, n: nat, usage: Usage, settings: Settings, now: int)
    requires n <= |s.quotas| && usage.device < |s.devices|
    ensures AnyTrips(s.quotas, n, usage, settings) || HasRow(s.policies, usage.device) ==>
              HasRow(MeteredFirst(s, n, usage, settings, now).policies, usage.device)
  {
    hide Metered, Trips, Covers;
    if n > 0 {
      var before := MeteredFirst(s, n - 1, usage, settings, now);
      TripLeavesRow(s, n - 1, usage, settings, now);
      if s.quotas[n - 1].enabled && Covers(s.quotas[n - 1].scope, usage) {
        MeteredPolicies(before, n - 1, usage, settings, now);
        UpsertLeavesRow(before.policies, usage.device, usage.node, ReasonAfter(before, n - 1, usage));
      } else {
        NotCovered(s.quotas[n - 1], usage, settings);
      }
    }
  }

  lemma UpsertLeavesRow(rows: seq<PolicyRow>, device: DeviceId, node: Option<NodeId>, reason: string)
    ensures HasRow(Upserted(rows, device, node, QUOTA_EXCEEDED, reason), device)
  {
    var row := Newest(rows, device, node);
    var at := if row.Some? then row.value else |rows|;
    assert Upserted(rows, device, node, QUOTA_EXCEEDED, reason)[at].device == device;
  }

  function ReasonAfter(s: State, q: QuotaId, usage: Usage): string
    requires q < |s.quotas|
  {
    Reason(s.quotas[q].(used := s.quotas[q].used + Total(usage)))
  }

  lemma MeteredPolicies(s: State, q: QuotaId, usage: Usage, settings: Settings, now: int)
    requires q < |s.quotas| && usage.device < |s.devices| && s.quotas[q].enabled && Covers(s.quotas[q].scope, usage)
    ensures Metered(s, q, usage, settings, now).policies
            == if Trips(s.quotas[q], usage, settings)
               then Upserted(s.policies, usage.device, usage.node, QUOTA_EXCEEDED, ReasonAfter(s, q, usage))
               else s.policies
  {
    hide Evaluate, Upserted, Reason, Closed;
    ExceededExactly(s.quotas[q].(used := s.quotas[q].used + Total(usage)), settings);
  }

  // ------------------------------------------------------- which rows are left alone

  lemma MeteredRow(s: State, q: QuotaId, usage: Usage, settings: Settings, now: int, row: nat)
    requires q < |s.quotas| && usage.device < |s.devices| && s.quotas[q].enabled && Covers(s.quotas[q].scope, usage)
    requires OneRowEach(s.policies) && row < |s.policies|
    ensures var t := Metered(s, q, usage, settings, now);
            && row < |t.policies| && t.policies[row].device == s.policies[row].device
            && t.policies[row].node == s.policies[row].node
            && t.policies[row].revision
               == s.policies[row].revision
                  + if Trips(s.quotas[q], usage, settings) && RowFor(s.policies[row], usage.device, usage.node)
                    then 1 else 0
  {
    hide Evaluate, Closed;
    ExceededExactly(s.quotas[q].(used := s.quotas[q].used + Total(usage)), settings);
  }

  lemma {:induction false} RecordedRow(s: State, n: nat, usage: Usage, settings: Settings, now: int, row: nat)
    requires n <= |s.quotas| && usage.device < |s.devices| && OneRowEach(s.policies) && row < |s.policies|
    ensures var t := MeteredFirst(s, n, usage, settings, now);
            && row < |t.policies| && t.policies[row].device == s.policies[row].device
            && t.policies[row].node == s.policies[row].node
            && s.policies[row].revision <= t.policies[row].revision
            && (t.policies[row].revision == s.policies[row].revision <==>
                  !(AnyTrips(s.quotas, n, usage, settings) && RowFor(s.policies[row], usage.device, usage.node)))
  {
    hide Metered, Trips, RowsSucceed;
    if n > 0 {
      var before := MeteredFirst(s, n - 1, usage, settings, now);
      RecordedRow(s, n - 1, usage, settings, now, row);
      RecordSucceeds(s, n - 1, usage, settings, now);
      assert AnyTrips(s.quotas, n, usage, settings) <==>
               AnyTrips(s.quotas, n - 1, usage, settings) || Trips(s.quotas[n - 1], usage, settings);
      if s.quotas[n - 1].enabled && Covers(s.quotas[n - 1].scope, usage) {
        MeteredRow(before, n - 1, usage, settings, now, row);
      } else {
        NotCovered(s.quotas[n - 1], usage, settings);
      }
    }
  }

  lemma NotCovered(quota: Quota, usage: Usage, settings: Settings)
    requires !(quota.enabled && Covers(quota.scope, usage))
    ensures !Trips(quota, usage, settings)
  {
  }

  /**
   * Enforcing a quota and blocking a device each write one row: that of the node the traffic
   * came through, or of the node the device is assigned to. Every other row of the device is
   * left alone, and SilentChangesExactly says what an agent then pulls from it.
   */
  lemma OneRowIsWritten(s: State, row: nat, usage: Usage, settings: Settings, device: DeviceId, now: int,
                        reason: string)
    requires OneRowEach(s.policies) && row < |s.policies|
    ensures LeavesAlone(s, DoRecord(usage, settings, now), row) <==>
              !(&& usage.device < |s.devices| && Total(usage) > 0 && AnyTrips(s.quotas, |s.quotas|, usage, settings)
                && RowFor(s.policies[row], usage.device, usage.node))
    ensures LeavesAlone(s, DoBlock(device, now, reason), row) <==>
              !(device < |s.devices| && RowFor(s.policies[row], device, s.devices[device].assignedNode))
  {
    hide AnyTrips, MeteredFirst, Closed;
    if usage.device < |s.devices| {
      RecordedRow(s, |s.quotas|, usage, settings, now, row);
    }
  }

  /** Every device over its quota carries the mark of it. */
  predicate Marked(s: State) {
    forall d :: 0 <= d < |s.devices| && s.devices[d].connection == OVER_QUOTA ==> s.devices[d].quotaExceededAt.Some?
  }

  lemma MarksKeptByStep(s: State, op: Op)
    requires Marked(s)
    ensures Marked(Apply(s, op))
  {
    hide Closed, Upserted, Redecided, ApprovedCount;
    match op
    case DoRecord(usage, settings, now) =>
      if usage.device < |s.devices| {
        MeteredDevices(s, |s.quotas|, usage, settings, now);
      }
    case DoPeriodReset(now) => ResetDevices(s, |s.quotas|, now);
    case _ =>
  }

  /** Over every run, so that seeing or disconnecting a device never shifts its decision. */
  lemma {:induction false} MarksKept(s: State, ops: seq<Op>)
    requires Marked(s)
    ensures Marked(Run(s, ops))
    ensures forall d :: 0 <= d < |Run(s, ops).devices| ==> !OverUnmarked(Run(s, ops).devices[d])
  {
    if ops != [] {
      MarksKept(s, ops[..|ops| - 1]);
      MarksKeptByStep(Run(s, ops[..|ops| - 1]), ops[|ops| - 1]);
    }
  }

  // ------------------------------------------------------- the heartbeat's revision

  /** The agent of a node is served the rows of the node, and those of no node for devices assigned to it. */
  predicate Served(s: State, row: PolicyRow, node: NodeId) {
    || row.node == Some(node)
    || (row.node.None? && row.device < |s.devices| && s.devices[row.device].assignedNode == Some(node))
  }

  /** The highest revision among the first `n` rows that are served. */
  function HighestFirst(s: State, node: NodeId, n: nat): (highest: nat)
    requires n <= |s.policies|
    ensures forall i :: 0 <= i < n && Served(s, s.policies[i], node) ==> s.policies[i].revision <= highest
    ensures || highest == 0
            || exists i :: 0 <= i < n && Served(s, s.policies[i], node) && s.policies[i].revision == highest
  {
    if n == 0 then 0
    else
      var before, row := HighestFirst(s, node, n - 1), s.policies[n - 1];
      if Served(s, row, node) then Max(before, row.revision) else before
  }

  /** `policyRevision`: the agent pulls again when this exceeds what it last applied. */
  function PolicyRevision(s: State, node: NodeId): nat {
    HighestFirst(s, node, |s.policies|)
  }

  /** What one transaction may do to the rows: a new revision is the next one, a new row starts at 1. */
  ghost predicate OneWrite(s: State, t: State) {
    && |s.policies| <= |t.policies| && |s.devices| <= |t.devices|
    && (forall i :: 0 <= i < |s.policies| ==>
          && t.policies[i].device == s.policies[i].device && t.policies[i].node == s.policies[i].node
          && (t.policies[i].revision == s.policies[i].revision || t.policies[i].revision == s.policies[i].revision + 1))
    && (forall i :: |s.policies| <= i < |t.policies| ==> t.policies[i].revision == 1)
    && (forall i :: 0 <= i < |s.policies| ==> s.policies[i].device < |s.devices|)
    && forall d :: 0 <= d < |s.devices| ==> t.devices[d].assignedNode == s.devices[d].assignedNode
  }

  /**
   * When a transaction moves the revision that a node's heartbeat reports, and so makes its
   * agent pull again: exactly when it rewrites a served row that stood at the highest
   * revision, or adds the first served row of any revision. A rewrite of a lower row is not seen.
   */
  lemma PolicyRevisionRisesExactly(s: State, t: State, node: NodeId)
    requires OneWrite(s, t)
    ensures PolicyRevision(t, node) >= PolicyRevision(s, node)
    ensures PolicyRevision(t, node) > PolicyRevision(s, node) <==>
              || (exists i :: 0 <= i < |s.policies| && Served(s, s.policies[i], node)
                    && t.policies[i].revision > s.policies[i].revision
                    && s.policies[i].revision == PolicyRevision(s, node))
              || (&& PolicyRevision(s, node) == 0
                  && exists i :: |s.policies| <= i < |t.policies| && Served(t, t.policies[i], node))
  {
    hide HighestFirst;
    assert forall i :: 0 <= i < |s.policies| ==> Served(t, t.policies[i], node) == Served(s, s.policies[i], node);
  }

  /** Rows refer to devices that exist: it is a foreign key. */
  ghost predicate RowsRefer(s: State) {
    forall i :: 0 <= i < |s.policies| ==> s.policies[i].device < |s.devices|
  }

  lemma UpsertIsOneWrite(s: State, t: State, device: DeviceId, node: Option<NodeId>, state: Enforcement, reason: string)
    requires RowsRefer(s) && t.policies == Upserted(s.policies, device, node, state, reason)
    requires |s.devices| <= |t.devices|
    requires forall d :: 0 <= d < |s.devices| ==> t.devices[d].assignedNode == s.devices[d].assignedNode
    ensures OneWrite(s, t)
  {
  }

  lemma MeteringIsOneWrite(s: State, q: QuotaId, usage: Usage, settings: Settings, now: int)
    requires RowsRefer(s) && q < |s.quotas| && usage.device < |s.devices|
    ensures OneWrite(s, Metered(s, q, usage, settings, now))
  {
    hide Evaluate, Closed, Upserted, Reason;
    var t := Metered(s, q, usage, settings, now);
    if t.policies != s.policies {
      hide OneWrite;
      UpsertIsOneWrite(s, t, usage.device, usage.node, QUOTA_EXCEEDED,
                       Reason(s.quotas[q].(used := s.quotas[q].used + Total(usage))));
    }
  }

  lemma ResetIsOneWrite(s: State, q: QuotaId, reason: string)
    requires RowsRefer(s) && q < |s.quotas|
    ensures OneWrite(s, QuotaWasReset(s, q, reason))
  {
  }

  /** However many quotas of a device are due, its rows are reopened once: an open row is not written again. */
  lemma {:induction false} PeriodIsOneWrite(s: State, n: nat, now: int)
    requires RowsRefer(s) && n <= |s.quotas|
    ensures var t := ResetFirst(s, n, now);
            && OneWrite(s, t) && |t.policies| == |s.policies|
            && forall i :: 0 <= i < |s.policies| ==> t.policies[i] == s.policies[i] || t.policies[i].state == ACTIVE
  {
    if n > 0 {
      PeriodIsOneWrite(s, n - 1, now);
    }
  }

  /**
   * Every operation that assigns no node is one such transaction, but for recording, which may
   * enforce several quotas in turn. RecordSeenExactly and AssignmentSeenExactly deal with these.
   */
  lemma OperationIsOneWrite(s: State, op: Op)
    requires RowsRefer(s) && !op.DoRecord? && !op.DoApprove? && !op.DoUpdate?
    ensures OneWrite(s, Apply(s, op))
  {
    hide Closed, Upserted, ResetFirst;
    match op
    case DoBlock(d, _, reason) =>
      if d < |s.devices| {
        UpsertIsOneWrite(s, Apply(s, op), d, s.devices[d].assignedNode, BLOCKED, reason);
      }
    case DoPeriodReset(now) => PeriodIsOneWrite(s, |s.quotas|, now);
    case _ =>
  }

  /** The revision that the row of a device and node stands at, 0 when there is none. */
  function RevisionOf(rows: seq<PolicyRow>, device: DeviceId, node: Option<NodeId>): nat {
    match Newest(rows, device, node)
    case Some(i) => rows[i].revision
    case None => 0
  }

  /** Whether a row for `device` and `key` is one that the agent of `node` is served. */
  predicate KeyServed(s: State, device: DeviceId, key: Option<NodeId>, node: NodeId)
    requires device < |s.devices|
  {
    key == Some(node) || (key.None? && s.devices[device].assignedNode == Some(node))
  }

  /** How many quotas recording this traffic enforces. */
  function TripCount(quotas: seq<Quota>, n: nat, usage: Usage, settings: Settings): nat
    requires n <= |quotas|
  {
    if n == 0 then 0
    else TripCount(quotas, n - 1, usage, settings) + if Trips(quotas[n - 1], usage, settings) then 1 else 0
  }

  ghost predicate SameAssignments(s: State, t: State) {
    && |t.devices| == |s.devices|
    && forall d :: 0 <= d < |s.devices| ==> t.devices[d].assignedNode == s.devices[d].assignedNode
  }

  lemma {:induction false} HighestSame(s: State, t: State, node: NodeId, n: nat)
    requires SameAssignments(s, t) && n <= |s.policies| <= |t.policies| && t.policies[..n] == s.policies[..n]
    ensures HighestFirst(t, node, n) == HighestFirst(s, node, n)
  {
    if n > 0 {
      assert t.policies[..n][..n - 1] == s.policies[..n][..n - 1];
      assert t.policies[n - 1] == t.policies[..n][n - 1] == s.policies[..n][n - 1];
      HighestSame(s, t, node, n - 1);
    }
  }

  lemma UpsertRaises(s: State, t: State, device: DeviceId, key: Option<NodeId>, reason: string, node: NodeId)
    requires OneRowEach(s.policies) && RowsRefer(s) && SameAssignments(s, t) && device < |s.devices|
    requires t.policies == Upserted(s.policies, device, key, QUOTA_EXCEEDED, reason)
    ensures RowsRefer(t) && RevisionOf(t.policies, device, key) == RevisionOf(s.policies, device, key) + 1
    ensures PolicyRevision(t, node)
            == if KeyServed(s, device, key, node)
               then Max(PolicyRevision(s, node), RevisionOf(s.policies, device, key) + 1)
               else PolicyRevision(s, node)
  {
    hide HighestFirst;
    var row := Newest(s.policies, device, key);
    var at := if row.Some? then row.value else |s.policies|;
    assert RowFor(t.policies[at], device, key) && t.policies[at].revision == RevisionOf(s.policies, device, key) + 1;
    assert forall i :: 0 <= i < |t.policies| && i != at ==> i < |s.policies| && t.policies[i] == s.policies[i];
    assert Served(t, t.policies[at], node) <==> KeyServed(s, device, key, node);
    assert forall i :: 0 <= i < |t.policies| && i != at ==>
             Served(t, t.policies[i], node) == Served(s, s.policies[i], node);
  }

  lemma RevisionAtMostHighest(s: State, device: DeviceId, key: Option<NodeId>, node: NodeId)
    requires device < |s.devices|
    ensures KeyServed(s, device, key, node) ==> RevisionOf(s.policies, device, key) <= PolicyRevision(s, node)
  {
    hide HighestFirst;
  }

  lemma {:induction false} RecordRaises(s: State, n: nat, usage: Usage, settings: Settings, now: int, node: NodeId)
    requires n <= |s.quotas| && usage.device < |s.devices| && OneRowEach(s.policies) && RowsRefer(s)
    ensures var t, trips := MeteredFirst(s, n, usage, settings, now), TripCount(s.quotas, n, usage, settings);
            var revision := RevisionOf(s.policies, usage.device, usage.node);
            && RowsRefer(t) && SameAssignments(s, t)
            && RevisionOf(t.policies, usage.device, usage.node) == revision + trips
            && PolicyRevision(t, node)
               == if KeyServed(s, usage.device, usage.node, node) then Max(PolicyRevision(s, node), revision + trips)
                  else PolicyRevision(s, node)
  {
    hide Metered, Trips, Covers, HighestFirst, Upserted, RevisionOf, Served, OneRowEach, PolicyRevision;
    RevisionAtMostHighest(s, usage.device, usage.node, node);
    if n > 0 {
      var before := MeteredFirst(s, n - 1, usage, settings, now);
      RecordRaises(s, n - 1, usage, settings, now, node);
      RecordSucceeds(s, n - 1, usage, settings, now);
      if s.quotas[n - 1].enabled && Covers(s.quotas[n - 1].scope, usage) {
        MeterRaises(before, n - 1, usage, settings, now, node);
        assert before.quotas[n - 1] == s.quotas[n - 1];
      } else {
        NotCovered(s.quotas[n - 1], usage, settings);
      }
    }
  }

  lemma MeterRaises(s: State, q: QuotaId, usage: Usage, settings: Settings, now: int, node: NodeId)
    requires q < |s.quotas| && usage.device < |s.devices| && s.quotas[q].enabled && Covers(s.quotas[q].scope, usage)
    requires OneRowEach(s.policies) && RowsRefer(s)
    ensures var t, trip := Metered(s, q, usage, settings, now), if Trips(s.quotas[q], usage, settings) then 1 else 0;
            var revision := RevisionOf(s.policies, usage.device, usage.node);
            && RowsRefer(t) && SameAssignments(s, t)
            && RevisionOf(t.policies, usage.device, usage.node) == revision + trip
            && PolicyRevision(t, node)
               == if KeyServed(s, usage.device, usage.node, node) then Max(PolicyRevision(s, node), revision + trip)
                  else PolicyRevision(s, node)
  {
    hide Metered, Trips, Covers, HighestFirst, Upserted, Served, OneRowEach;
    var t := Metered(s, q, usage, settings, now);
    MeteredPolicies(s, q, usage, settings, now);
    MeteredDevice(s, q, usage, settings, now);
    RevisionAtMostHighest(s, usage.device, usage.node, node);
    if Trips(s.quotas[q], usage, settings) {
      UpsertRaises(s, t, usage.device, usage.node, ReasonAfter(s, q, usage), node);
    } else {
      HighestSame(s, t, node, |s.policies|);
    }
  }

  /**
   * Recorded traffic that runs a device into quotas is seen by an agent exactly when the row
   * for the device and the node of the traffic is one that the agent is served, and counting
   * one revision on for each quota enforced it passes the highest of the node.
   */
  lemma RecordSeenExactly(s: State, usage: Usage, settings: Settings, now: int, node: NodeId)
    requires OneRowEach(s.policies) && RowsRefer(s) && usage.device < |s.devices|
    ensures var t := Apply(s, DoRecord(usage, settings, now));
            PolicyRevision(t, node) > PolicyRevision(s, node) <==>
              && Total(usage) > 0 && KeyServed(s, usage.device, usage.node, node)
              && RevisionOf(s.policies, usage.device, usage.node) + TripCount(s.quotas, |s.quotas|, usage, settings)
                 > PolicyRevision(s, node)
  {
    hide PolicyRevision, RevisionOf, TripCount;
    RecordRaises(s, |s.quotas|, usage, settings, now, node);
  }

  /** Approving and updating a device write no row, and show an agent the device's rows of no node or take them away. */
  lemma AssignmentSeenExactly(s: State, op: Op, device: DeviceId, node: NodeId)
    requires RowsRefer(s) && device < |s.devices|
    requires (op.DoApprove? || op.DoUpdate?) && op.device == device
    ensures var t := Apply(s, op);
            && device < |t.devices| && t.policies == s.policies
            && (PolicyRevision(t, node) > PolicyRevision(s, node) <==>
                  && t.devices[device].assignedNode == Some(node) && s.devices[device].assignedNode != Some(node)
                  && RevisionOf(s.policies, device, None) > PolicyRevision(s, node))
  {
    hide HighestFirst, ApprovedCount;
    var t := Apply(s, op);
    assert forall i :: 0 <= i < |s.policies| && s.policies[i].device != device ==>
      Served(t, s.policies[i], node) == Served(s, s.policies[i], node);
    assert forall i :: 0 <= i < |s.policies| && s.policies[i].device == device ==>
      (RowFor(s.policies[i], device, None) <==> s.policies[i].node.None?);
  }

  /**
   * Blocking a device is seen by the agent of its node exactly when the row that carries the
   * decision stood at the highest revision of the node, or is the first row with one. Blocking
   * any other device leaves the reported revision, and the agent, as they were.
   */
  lemma BlockSeenExactly(s: State, device: DeviceId, now: int, reason: string, node: NodeId)
    requires OneRowEach(s.policies) && RowsRefer(s)
    requires device < |s.devices| && s.devices[device].assignedNode == Some(node)
    ensures var t := Apply(s, DoBlock(device, now, reason));
            var row := Newest(s.policies, device, Some(node));
            PolicyRevision(t, node) > PolicyRevision(s, node) <==>
              if row.Some? then s.policies[row.value].revision == PolicyRevision(s, node)
              else PolicyRevision(s, node) == 0
  {
    hide PolicyRevision, Closed;
    var op := DoBlock(device, now, reason);
    var t := Apply(s, op);
    OperationIsOneWrite(s, op);
    PolicyRevisionRisesExactly(s, t, node);
    var row := Newest(s.policies, device, Some(node));
    if row.Some? {
      assert Served(s, s.policies[row.value], node);
      assert t.policies[row.value].revision > s.policies[row.value].revision;
    } else {
      assert Served(t, t.policies[|s.policies|], node);
    }
  }

  /** With another device's row at revision 5, blocking a device whose row is at 1 is not seen. */
  lemma BlockUnseen()
    ensures var device := Device(APPROVED, ONLINE, NORMAL, None, None, Some(0), None);
            var rows := [PolicyRow(0, Some(0), ACTIVE, "Allowed", 5, None, None),
                         PolicyRow(1, Some(0), ACTIVE, "Allowed", 1, None, None)];
            var s := State([device, device], [], [], rows, [], [], []);
            PolicyRevision(Apply(s, DoBlock(1, 10, "stop")), 0) == PolicyRevision(s, 0) == 5
  {
    var device := Device(APPROVED, ONLINE, NORMAL, None, None, Some(0), None);
    var rows := [PolicyRow(0, Some(0), ACTIVE, "Allowed", 5, None, None),
                 PolicyRow(1, Some(0), ACTIVE, "Allowed", 1, None, None)];
    var s := State([device, device], [], [], rows, [], [], []);
    assert HighestFirst(s, 0, 1) == 5;
    assert PolicyRevision(s, 0) == 5;
    assert RowFor(s.policies[1], 1, Some(0));
    BlockSeenExactly(s, 1, 10, "stop", 0);
    OperationIsOneWrite(s, DoBlock(1, 10, "stop"));
    PolicyRevisionRisesExactly(s, Apply(s, DoBlock(1, 10, "stop")), 0);
  }
}
