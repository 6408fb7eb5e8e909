/**
 * What runs keep about the rows a gateway agent pulls: one row per device and node, whose
 * revision names its decision.
 */
module Revisions {
  import opened Common
  import opened Store
  import opened QuotaEngine
  import opened Devices
  import opened GatewayPolicy
  import opened Jobs
  import opened PolicyActions
  import opened Runs

  /** At most one row for each device and node. */
  ghost predicate OneRowEach(rows: seq<PolicyRow>) {
    forall i, j :: 0 <= i < j < |rows| ==> !(rows[i].device == rows[j].device && rows[i].node == rows[j].node)
  }

  /**
   * How one operation may leave a row: as it was, freshly acknowledged, or under a later
   * revision that the gateway has not confirmed.
   */
  predicate Succeeds(before: PolicyRow, after: PolicyRow, acknowledging: bool) {
    && after.device == before.device && after.node == before.node
    && if acknowledging then
         after == before.(appliedAt := after.appliedAt, ackedAt := after.ackedAt)
       else
         after == before || (after.revision > before.revision && after.appliedAt.None? && after.ackedAt.None?)
  }

  ghost predicate RowsSucceed(before: seq<PolicyRow>, after: seq<PolicyRow>, acknowledging: bool) {
    |before| <= |after| && forall i :: 0 <= i < |before| ==> Succeeds(before[i], after[i], acknowledging)
  }

  lemma UpsertSucceeds(rows: seq<PolicyRow>, device: DeviceId, node: Option<NodeId>, state: Enforcement, reason: string)
    requires OneRowEach(rows)
    ensures var after := Upserted(rows, device, node, state, reason);
            RowsSucceed(rows, after, false) && OneRowEach(after)
  {
  }

  lemma RedecideSucceeds(rows: seq<PolicyRow>, device: DeviceId, from: set<Enforcement>, to: Enforcement,
                         reason: string)
    requires OneRowEach(rows)
    ensures var after := Redecided(rows, device, from, to, reason);
            RowsSucceed(rows, after, false) && OneRowEach(after)
  {
  }

  lemma SucceedTransitive(a: seq<PolicyRow>, b: seq<PolicyRow>, c: seq<PolicyRow>)
    requires RowsSucceed(a, b, false) && RowsSucceed(b, c, false)
    ensures RowsSucceed(a, c, false)
  {
  }

  lemma MeterSucceeds(s: State, q: QuotaId, usage: Usage, settings: Settings, now: int)
    requires q < |s.quotas| && usage.device < |s.devices| && OneRowEach(s.policies)
    ensures var t := Metered(s, q, usage, settings, now);
            RowsSucceed(s.policies, t.policies, false) && OneRowEach(t.policies)
  {
    hide Evaluate, Upserted, Reason;
    UpsertSucceeds(s.policies, usage.device, usage.node, QUOTA_EXCEEDED,
                   Reason(s.quotas[q].(used := s.quotas[q].used + Total(usage))));
  }

  lemma {:induction false} RecordSucceeds(s: State, n: nat, usage: Usage, settings: Settings, now: int)
    requires n <= |s.quotas| && usage.device < |s.devices| && OneRowEach(s.policies)
    ensures var t := MeteredFirst(s, n, usage, settings, now);
            RowsSucceed(s.policies, t.policies, false) && OneRowEach(t.policies)
  {
    hide Metered, Covers;
    if n > 0 {
      var before := MeteredFirst(s, n - 1, usage, settings, now);
      RecordSucceeds(s, n - 1, usage, settings, now);
      if s.quotas[n - 1].enabled && Covers(s.quotas[n - 1].scope, usage) {
        MeterSucceeds(before, n - 1, usage, settings, now);
        SucceedTransitive(s.policies, before.policies, MeteredFirst(s, n, usage, settings, now).policies);
      }
    }
  }

  lemma ResetSucceeds(s: State, q: QuotaId, reason: string)
    requires q < |s.quotas| && OneRowEach(s.policies)
    ensures var t := QuotaWasReset(s, q, reason);
            RowsSucceed(s.policies, t.policies, false) && OneRowEach(t.policies)
  {
    if s.quotas[q].device.Some? {
      RedecideSucceeds(s.policies, s.quotas[q].device.value, {QUOTA_EXCEEDED, BLOCKED}, ACTIVE, reason);
    }
  }

  lemma {:induction false} PeriodSucceeds(s: State, n: nat, now: int)
    requires n <= |s.quotas| && OneRowEach(s.policies)
    ensures var t := ResetFirst(s, n, now);
            RowsSucceed(s.policies, t.policies, false) && OneRowEach(t.policies)
  {
    if n > 0 {
      var before := ResetFirst(s, n - 1, now);
      PeriodSucceeds(s, n - 1, now);
      if Due(s.quotas[n - 1], now) {
        ResetSucceeds(before, n - 1, RESET_REASON);
        SucceedTransitive(s.policies, before.policies, ResetFirst(s, n, now).policies);
      }
    }
  }

  /**
   * Every operation keeps one row per device and node; a row it rewrites moves to a later
   * revision and loses its acknowledgement, and an acknowledgement decides nothing.
   */
  lemma RowsStep(s: State, op: Op)
    requires OneRowEach(s.policies)
    ensures RowsSucceed(s.policies, Apply(s, op).policies, op.DoAck?) && OneRowEach(Apply(s, op).policies)
  {
    hide Upserted, Redecided;
    match op
    case DoRecord(usage, settings, now) =>
      if usage.device < |s.devices| {
        RecordSucceeds(s, |s.quotas|, usage, settings, now);
      }
    case DoReset(q) =>
      if q < |s.quotas| {
        ResetSucceeds(s, q, "Quota reset by operator");
      }
    case DoPeriodReset(now) => PeriodSucceeds(s, |s.quotas|, now);
    case DoUnblock(d, reason) => RedecideSucceeds(s.policies, d, {QUOTA_EXCEEDED, BLOCKED, REVOKED}, ACTIVE, reason);
    case DoBlock(d, now, reason) =>
      if d < |s.devices| {
        UpsertSucceeds(s.policies, d, s.devices[d].assignedNode, BLOCKED, reason);
      }
    case DoAction(action, target, ctx) =>
      if target.OnDevice? {
        RedecideSucceeds(s.policies, target.device, ANY_STATE, ACTIVE, ctx.reason);
        RedecideSucceeds(s.policies, target.device, ANY_STATE, BLOCKED, ctx.reason);
      }
    case _ =>
  }

  /** How a run may leave a row: never an earlier revision, and the same revision means the same decision. */
  predicate Evolves(before: PolicyRow, after: PolicyRow) {
    && after.device == before.device && after.node == before.node
    && after.revision >= before.revision
    && (after.revision == before.revision ==> after.state == before.state && after.reason == before.reason)
  }

  /**
   * Revisions identify decisions: over any run, the row of a device and node stays the only
   * one, its revision never falls, and two sightings of it under one revision show the same
   * state for the same reason.
   */
  lemma {:induction false} RevisionIdentifiesDecision(s: State, ops: seq<Op>)
    requires OneRowEach(s.policies)
    ensures var t := Run(s, ops);
            && OneRowEach(t.policies) && |s.policies| <= |t.policies|
            && forall i :: 0 <= i < |s.policies| ==> Evolves(s.policies[i], t.policies[i])
  {
    if ops != [] {
      RevisionIdentifiesDecision(s, ops[..|ops| - 1]);
      RowsStep(Run(s, ops[..|ops| - 1]), ops[|ops| - 1]);
    }
  }

  // --------------------------------------------------------- acknowledgement

  /** The row as it was pulled, acknowledged. */
  function Booked(pulled: PolicyRow, now: int): PolicyRow {
    pulled.(appliedAt := Some(now), ackedAt := Some(now))
  }

  /**
   * An acknowledgement is booked on the newest decision, whatever revision it names. Over any
   * run between the pull and the acknowledgement, some row is there to book it on, and what is
   * booked is the very decision that was pulled exactly when that row is the one pulled and
   * still has the revision that the agent names; StaleAckConfirmsBlock shows the other case.
   */
  lemma AckConfirmsPulled(s: State, ops: seq<Op>, device: DeviceId, node: NodeId, seen: nat, now: int)
    requires OneRowEach(s.policies) && RowAcked(s.policies, device, node) == Some(seen)
    ensures var pulled, t := s.policies[seen], Run(s, ops);
            var acked := RowAcked(t.policies, device, node);
            && seen < |t.policies| && acked.Some?
            && var booked := Booked(t.policies[acked.value], now);
            && Apply(t, DoAck(device, node, pulled.revision, true, now)).policies == t.policies[acked.value := booked]
            && (booked == Booked(pulled, now) <==> acked.value == seen && t.policies[seen].revision == pulled.revision)
  {
    hide Apply, Run, Newest;
    var t := Run(s, ops);
    RevisionIdentifiesDecision(s, ops);
    AckedIsFor(s.policies, device, node);
    AckedIsFor(t.policies, device, node);
    assert RowFor(t.policies[seen], device, Some(node)) || RowFor(t.policies[seen], device, None);
    AckBooks(t, device, node, s.policies[seen].revision, now);
  }

  lemma AckedIsFor(rows: seq<PolicyRow>, device: DeviceId, node: NodeId)
    ensures var acked := RowAcked(rows, device, node);
            && (acked.Some? ==>
                  RowFor(rows[acked.value], device, Some(node)) || RowFor(rows[acked.value], device, None))
            && (acked.None? <==> forall i :: 0 <= i < |rows| ==>
                  !RowFor(rows[i], device, Some(node)) && !RowFor(rows[i], device, None))
  {
  }

  lemma AckBooks(t: State, device: DeviceId, node: NodeId, revision: nat, now: int)
    requires RowAcked(t.policies, device, node).Some?
    ensures var acked := RowAcked(t.policies, device, node).value;
            Apply(t, DoAck(device, node, revision, true, now)).policies
            == t.policies[acked := Booked(t.policies[acked], now)]
  {
  }

  /** A late acknowledgement of an earlier ACTIVE row confirms a block that no gateway has applied. */
  lemma StaleAckConfirmsBlock()
    ensures var device := Device(APPROVED, ONLINE, NORMAL, None, None, Some(0), None);
            var row := PolicyRow(0, Some(0), ACTIVE, "Allowed", 1, None, None);
            var s := State([device], [], [], [row], [], [], []);
            var t := Run(s, [DoBlock(0, 10, "stop"), DoAck(0, 0, 1, true, 20)]);
            t.policies == [PolicyRow(0, Some(0), BLOCKED, "stop", 2, Some(20), Some(20))]
  {
    var device := Device(APPROVED, ONLINE, NORMAL, None, None, Some(0), None);
    var row := PolicyRow(0, Some(0), ACTIVE, "Allowed", 1, None, None);
    var s := State([device], [], [], [row], [], [], []);
    var ops := [DoBlock(0, 10, "stop"), DoAck(0, 0, 1, true, 20)];
    assert ops[..1][..0] == [];
    var b := Apply(s, ops[0]);
    assert Run(s, ops[..1]) == b by {
      assert Run(s, ops[..1][..0]) == s;
    }
    OnlyRow(row, 0, Some(0));
    assert b.policies == [Decided(row, BLOCKED, "stop")];
    OnlyRow(b.policies[0], 0, Some(0));
    OnlyRow(b.policies[0], 0, None);
    assert ops[..|ops| - 1] == ops[..1];
  }

  lemma OnlyRow(row: PolicyRow, device: DeviceId, node: Option<NodeId>)
    ensures Newest([row], device, node) == if RowFor(row, device, node) then Some(0) else None
  {
    assert [row][..0] == [];
  }
}
