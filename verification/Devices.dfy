/**
 * src/server/devices/service.ts: the approval lifecycle of a device, and the operator's
 * block and disconnect; src/server/traffic/collector.ts:310-320: a device seen on the wire.
 */
module Devices {
  import opened Common
  import opened Store
  import QuotaEngine

  predicate IsDeviceBlocked(device: Device) {
    || device.approval == BLOCKED_BY_OPERATOR
    || device.approval == REJECTED
    || device.connection == OVER_QUOTA
    || device.approval == PENDING
    || device.blockedAt.Some?
    || device.quotaExceededAt.Some?
  }

  /** In private mode a new device waits for an operator; it gets the default profile, if that exists. */
  function Registered(s: State, privateMode: bool, defaultProfile: Option<nat>): State {
    s.(devices := s.devices
      + [Device(if privateMode then PENDING else APPROVED, OFFLINE, NORMAL, None, None, None, defaultProfile)])
  }

  method RegisterDevice(db: Database, privateMode: bool, defaultProfile: Option<nat>) returns (id: DeviceId)
    modifies db
    ensures id == |old(db.devices)|
    ensures db.Contents() == Registered(old(db.Contents()), privateMode, defaultProfile)
  {
    id := |db.devices|;
    db.devices := db.devices
      + [Device(if privateMode then PENDING else APPROVED, OFFLINE, NORMAL, None, None, None, defaultProfile)];
  }

  function ApprovedCount(devices: seq<Device>): nat {
    if devices == [] then 0
    else ApprovedCount(devices[..|devices| - 1]) + if devices[|devices| - 1].approval == APPROVED then 1 else 0
  }

  datatype ApprovalSettings = ApprovalSettings(maxApproved: nat, defaultQuota: nat)

  /**
   * Approval changes the approval state and the node, never a block or an exceeded quota;
   * the device gets the default quota unless that is zero or it has one already.
   */
  function DeviceApproved(s: State, device: DeviceId, node: Option<NodeId>, settings: ApprovalSettings): State
    requires device < |s.devices|
  {
    var row := s.devices[device];
    if row.approval == APPROVED || ApprovedCount(s.devices) >= settings.maxApproved then s
    else
      var approved := row.(approval := APPROVED, assignedNode := if node.Some? then node else row.assignedNode);
      var t := s.(devices := s.devices[device := approved]);
      if settings.defaultQuota > 0 && QuotaEngine.Find(s.quotas, DEVICE(device)).None? then
        t.(quotas := s.quotas
          + [Quota(DEVICE(device), settings.defaultQuota, 0, true, true, None, None, None, None, Some(device))])
      else t
  }

  method ApproveDevice(db: Database, device: DeviceId, node: Option<NodeId>, settings: ApprovalSettings)
    returns (approval: Result<Approval>)
    modifies db
    ensures approval == if device >= |old(db.devices)| then Failure(NotFound)
                        else if && old(db.devices[device].approval) != APPROVED
                                && ApprovedCount(old(db.devices)) >= settings.maxApproved
                        then Failure(Conflict)
                        else Success(APPROVED)
    ensures db.Contents() == if device >= |old(db.devices)| then old(db.Contents())
                             else DeviceApproved(old(db.Contents()), device, node, settings)
  {
    if device >= |db.devices| {
      return Failure(NotFound);
    }
    var row := db.devices[device];
    if row.approval == APPROVED {
      return Success(row.approval);
    }
    var approvedCount := 0;
    for i := 0 to |db.devices|
      invariant approvedCount == ApprovedCount(db.devices[..i])
      invariant db.Contents() == old(db.Contents())
    {
      assert db.devices[..i + 1][..i] == db.devices[..i];
      if db.devices[i].approval == APPROVED {
        approvedCount := approvedCount + 1;
      }
    }
    assert db.devices[..|db.devices|] == db.devices;
    if approvedCount >= settings.maxApproved {
      return Failure(Conflict);
    }
    db.devices :=
      db.devices[device := row.(approval := APPROVED, assignedNode := if node.Some? then node else row.assignedNode)];
    if settings.defaultQuota > 0 {
      var existing := QuotaEngine.Find(db.quotas, DEVICE(device));
      if existing.None? {
        db.quotas := db.quotas
          + [Quota(DEVICE(device), settings.defaultQuota, 0, true, true, None, None, None, None, Some(device))];
      }
    }
    return Success(APPROVED);
  }

  function DeviceRejected(s: State, device: DeviceId): State
    requires device < |s.devices|
  {
    s.(devices := s.devices[device := s.devices[device].(approval := REJECTED)])
  }

  method RejectDevice(db: Database, device: DeviceId) returns (done: Result<()>)
    modifies db
    ensures done.Failure? <==> device >= |old(db.devices)|
    ensures db.Contents() == if done.Failure? then old(db.Contents()) else DeviceRejected(old(db.Contents()), device)
  {
    if device >= |db.devices| {
      return Failure(NotFound);
    }
    db.devices := db.devices[device := db.devices[device].(approval := REJECTED)];
    return Success(());
  }

  /** The decision goes on the row of the node the device is assigned to. */
  function DeviceBlocked(s: State, device: DeviceId, now: int, reason: string): State
    requires device < |s.devices|
  {
    var row := s.devices[device];
    s.(devices := s.devices[device := row.(approval := BLOCKED_BY_OPERATOR, blockedAt := Some(now))],
       sessions := Closed(s.sessions, device, now, ENDED_REVOKED),
       policies := Upserted(s.policies, device, row.assignedNode, BLOCKED, reason))
  }

  method BlockDevice(db: Database, device: DeviceId, now: int, reason: string) returns (done: Result<()>)
    modifies db
    ensures done.Failure? <==> device >= |old(db.devices)|
    ensures db.Contents() == if done.Failure? then old(db.Contents())
                             else DeviceBlocked(old(db.Contents()), device, now, reason)
  {
    if device >= |db.devices| {
      return Failure(NotFound);
    }
    var row := db.devices[device];
    db.devices := db.devices[device := row.(approval := BLOCKED_BY_OPERATOR, blockedAt := Some(now))];
    db.sessions := Closed(db.sessions, device, now, ENDED_REVOKED);
    var existing := Newest(db.policies, device, row.assignedNode);
    var revision := (if existing.Some? then db.policies[existing.value].revision else 0) + 1;
    if existing.Some? {
      var old' := db.policies[existing.value];
      db.policies := db.policies[existing.value :=
        old'.(state := BLOCKED, reason := reason, revision := revision, appliedAt := None, ackedAt := None)];
    } else {
      db.policies := db.policies + [PolicyRow(device, row.assignedNode, BLOCKED, reason, revision, None, None)];
    }
    return Success(());
  }

  /** Ends the sessions and marks the device offline; the gateway's decision is left alone. */
  function DeviceDisconnected(s: State, device: DeviceId, now: int, byQuota: bool): State
    requires device < |s.devices|
  {
    s.(sessions := Closed(s.sessions, device, now, if byQuota then ENDED_BY_QUOTA else ENDED_REVOKED),
       devices := s.devices[device := s.devices[device].(connection := OFFLINE)])
  }

  /** `byQuota`: the operator's reason mentions the quota. */
  method DisconnectDevice(db: Database, device: DeviceId, now: int, byQuota: bool) returns (sessionsClosed: Result<nat>)
    modifies db
    ensures sessionsClosed == if device >= |old(db.devices)| then Failure(NotFound)
                              else Success(|OpenSessions(old(db.sessions), device)|)
    ensures db.Contents() == if device >= |old(db.devices)| then old(db.Contents())
                             else DeviceDisconnected(old(db.Contents()), device, now, byQuota)
  {
    if device >= |db.devices| {
      return Failure(NotFound);
    }
    var count := |OpenSessions(db.sessions, device)|;
    db.sessions := Closed(db.sessions, device, now, if byQuota then ENDED_BY_QUOTA else ENDED_REVOKED);
    db.devices := db.devices[device := db.devices[device].(connection := OFFLINE)];
    return Success(count);
  }

  function DeviceUpdated(s: State, device: DeviceId, profile: Option<Option<nat>>, node: Option<Option<NodeId>>,
                         security: Option<Security>)
    : State
    requires device < |s.devices|
  {
    var row := s.devices[device];
    s.(devices := s.devices[device := row.(
      profile := if profile.Some? then profile.value else row.profile,
      assignedNode := if node.Some? then node.value else row.assignedNode,
      security := if security.Some? then security.value else row.security)])
  }

  /** Fields the caller leaves out keep their value. */
  method UpdateDevice(db: Database, device: DeviceId, profile: Option<Option<nat>>, node: Option<Option<NodeId>>,
                      security: Option<Security>)
    returns (done: Result<()>)
    modifies db
    ensures done.Failure? <==> device >= |old(db.devices)|
    ensures db.Contents() == if done.Failure? then old(db.Contents())
                             else DeviceUpdated(old(db.Contents()), device, profile, node, security)
  {
    if device >= |db.devices| {
      return Failure(NotFound);
    }
    var row := db.devices[device];
    if profile.Some? {
      row := row.(profile := profile.value);
    }
    if node.Some? {
      row := row.(assignedNode := node.value);
    }
    if security.Some? {
      row := row.(security := security.value);
    }
    db.devices := db.devices[device := row];
    return Success(());
  }

  /** The traffic collector reports a device it saw on the wire. */
  function DeviceSeen(s: State, device: DeviceId): State
    requires device < |s.devices|
  {
    s.(devices := s.devices[device := s.devices[device].(connection := ONLINE)])
  }
}
