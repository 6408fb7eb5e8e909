/**
 * The rows that the quota, device, gateway and policy services share, and the database
 * object they update. A table is a sequence, a row's id is its position, and nothing
 * modelled here deletes a row. One committed transaction is one step.
 */
module Store {
  import opened Common

  type DeviceId = nat
  type QuotaId = nat
  type NodeId = nat

  datatype Approval = PENDING | APPROVED | REJECTED | BLOCKED_BY_OPERATOR

  datatype Connection = ONLINE | OFFLINE | CONNECTING | OVER_QUOTA | CUT_OFF

  datatype Security = NORMAL | REVIEW | LOCKED

  datatype Device = Device(
    approval: Approval,
    connection: Connection,
    security: Security,
    quotaExceededAt: Option<int>,
    blockedAt: Option<int>,
    assignedNode: Option<NodeId>,
    profile: Option<nat>)

  /** The (scope, scopeRefId) key of a quota. */
  datatype Scope = SYSTEM | USER(user: nat) | DEVICE(device: DeviceId) | CONFIG(config: nat) | NODE(node: NodeId)

  datatype Quota = Quota(
    scope: Scope,
    limit: nat,
    used: nat,
    enabled: bool,
    automatic: bool,
    resetAt: Option<int>,
    exceededAt: Option<int>,
    warned80At: Option<int>,
    warned90At: Option<int>,
    device: Option<DeviceId>)

  datatype EndReason = ENDED_BY_QUOTA | ENDED_REVOKED | ENDED_DRAINED

  datatype Session = Session(device: DeviceId, node: NodeId, endedAt: Option<int>, endReason: Option<EndReason>)

  datatype Enforcement = ACTIVE | WARNED_80 | WARNED_90 | QUOTA_EXCEEDED | BLOCKED | REVOKED

  /** The decision a gateway agent pulls for one device on one node, or on any node. */
  datatype PolicyRow = PolicyRow(
    device: DeviceId,
    node: Option<NodeId>,
    state: Enforcement,
    reason: string,
    revision: nat,
    appliedAt: Option<int>,
    ackedAt: Option<int>)

  datatype Health = HEALTHY | DEGRADED | NODE_OFFLINE | UNKNOWN

  /** `pool` is the node's pool policy row, when it has one: whether it takes new sessions. */
  datatype Node = Node(health: Health, weight: nat, draining: bool, pool: Option<bool>)

  datatype Target =
    | OnDevice(device: DeviceId)
    | OnNode(node: NodeId)
    | OnUser(user: nat)
    | OnConfig(config: nat)
    | OnSystem

  /** The dedupe key of an anomaly; a draft policy has no id. */
  datatype AnomalyKey = AnomalyKey(policy: Option<nat>, target: Target, kind: nat)

  datatype Anomaly = Anomaly(key: AnomalyKey, open: bool)

  /** The records a quota leaves behind: enforcement, advisory warnings and resets. */
  datatype Event =
    | Exceeded(quota: QuotaId, device: DeviceId)
    | Warned(quota: QuotaId, percent: nat)
    | WasReset(quota: QuotaId)

  datatype State = State(
    devices: seq<Device>,
    quotas: seq<Quota>,
    sessions: seq<Session>,
    policies: seq<PolicyRow>,
    nodes: seq<Node>,
    anomalies: seq<Anomaly>,
    events: seq<Event>)

  class Database {
    var devices: seq<Device>
    var quotas: seq<Quota>
    var sessions: seq<Session>
    var policies: seq<PolicyRow>
    var nodes: seq<Node>
    var anomalies: seq<Anomaly>
    var events: seq<Event>

    function Contents(): State
      reads this
    {
      State(devices, quotas, sessions, policies, nodes, anomalies, events)
    }
  }

  // ----------------------------------------------------------------- sessions

  predicate OpenOn(session: Session, device: DeviceId) {
    session.device == device && session.endedAt.None?
  }

  function OpenSessions(sessions: seq<Session>, device: DeviceId): set<nat> {
    set i | 0 <= i < |sessions| && OpenOn(sessions[i], device)
  }

  /** Every open session of the device is ended; every other row is as it was. */
  function Closed(sessions: seq<Session>, device: DeviceId, now: int, reason: EndReason): seq<Session> {
    seq(|sessions|, i requires 0 <= i < |sessions| =>
      if OpenOn(sessions[i], device)
      then sessions[i].(endedAt := Some(now), endReason := Some(reason))
      else sessions[i])
  }

  // ------------------------------------------------------------- gateway rows

  /** A new decision on a row: the revision moves on and the gateway has yet to confirm it. */
  function Decided(row: PolicyRow, state: Enforcement, reason: string): PolicyRow {
    row.(state := state, reason := reason, revision := row.revision + 1, appliedAt := None, ackedAt := None)
  }

  /** The decision on every row of the device whose state is among `from`. */
  function Redecided(rows: seq<PolicyRow>, device: DeviceId, from: set<Enforcement>, to: Enforcement, reason: string)
    : seq<PolicyRow>
  {
    seq(|rows|, i requires 0 <= i < |rows| =>
      if rows[i].device == device && rows[i].state in from then Decided(rows[i], to, reason) else rows[i])
  }

  const ANY_STATE: set<Enforcement> := {ACTIVE, WARNED_80, WARNED_90, QUOTA_EXCEEDED, BLOCKED, REVOKED}

  lemma AnyState(state: Enforcement)
    ensures state in ANY_STATE
  {
  }

  /** findMany and an update of each row found. */
  method RedecideRows(db: Database, device: DeviceId, from: set<Enforcement>, to: Enforcement, reason: string)
    modifies db
    ensures db.Contents() == old(db.Contents()).(policies := Redecided(old(db.policies), device, from, to, reason))
  {
    for i := 0 to |db.policies|
      invariant |db.policies| == |old(db.policies)|
      invariant db.Contents() == old(db.Contents()).(policies := db.policies)
      invariant db.policies[..i] == Redecided(old(db.policies), device, from, to, reason)[..i]
      invariant db.policies[i..] == old(db.policies)[i..]
    {
      var row := db.policies[i];
      assert row == old(db.policies)[i];
      if row.device == device && row.state in from {
        db.policies := db.policies[i := Decided(row, to, reason)];
      }
    }
  }

  predicate RowFor(row: PolicyRow, device: DeviceId, node: Option<NodeId>) {
    row.device == device && row.node == node
  }

  /** findFirst on (device, node), newest revision first. */
  function Newest(rows: seq<PolicyRow>, device: DeviceId, node: Option<NodeId>): (found: Option<nat>)
    ensures found.None? <==> forall i :: 0 <= i < |rows| ==> !RowFor(rows[i], device, node)
    ensures found.Some? ==>
              && found.value < |rows| && RowFor(rows[found.value], device, node)
              && forall i :: 0 <= i < |rows| && RowFor(rows[i], device, node) ==>
                   rows[i].revision <= rows[found.value].revision
  {
    if rows == [] then None
    else
      var last := |rows| - 1;
      var before := Newest(rows[..last], device, node);
      assert forall i :: 0 <= i < last ==> rows[..last][i] == rows[i];
      if !RowFor(rows[last], device, node) then before
      else if before.Some? && rows[last].revision <= rows[before.value].revision then before
      else Some(last)
  }

  /** Writes the decision to the row for (device, node), or creates the row at revision 1. */
  function Upserted(rows: seq<PolicyRow>, device: DeviceId, node: Option<NodeId>, state: Enforcement, reason: string)
    : seq<PolicyRow>
  {
    match Newest(rows, device, node)
    case Some(i) => rows[i := Decided(rows[i], state, reason)]
    case None => rows + [PolicyRow(device, node, state, reason, 1, None, None)]
  }
}
