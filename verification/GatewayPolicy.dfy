/**
 * src/server/gateway/policy.ts: the one decision a gateway agent pulls for a device, and
 * src/app/api/gateway/policy/ack/route.ts:50-65: the agent's acknowledgement of it.
 */
module GatewayPolicy {
  import opened Common
  import opened Store
  import opened Devices

  datatype Decision = Decision(state: Enforcement, reason: string)

  /** The configuration assigned to a device, if any: whether it was revoked. */
  datatype AssignedConfig = NO_CONFIG | CONFIG_USABLE | CONFIG_REVOKED

  function ResolvePolicy(device: Device, config: AssignedConfig, policy: Option<Enforcement>, configExpired: bool,
                         rejectMessage: string)
    : Decision
  {
    if device.approval == PENDING || device.approval == REJECTED then Decision(BLOCKED, rejectMessage)
    else if device.approval == BLOCKED_BY_OPERATOR then Decision(BLOCKED, rejectMessage)
    else if device.blockedAt.Some? then Decision(BLOCKED, rejectMessage)
    else if device.connection == OVER_QUOTA || device.quotaExceededAt.Some? then
      Decision(QUOTA_EXCEEDED, "Data limit reached for this device.")
    else if config == CONFIG_REVOKED then Decision(REVOKED, "This configuration is no longer valid.")
    else if configExpired then Decision(REVOKED, "This configuration has expired.")
    else if policy == Some(BLOCKED) then Decision(BLOCKED, rejectMessage)
    else if policy == Some(QUOTA_EXCEEDED) then Decision(QUOTA_EXCEEDED, "Data limit reached for this device.")
    else if policy == Some(REVOKED) then Decision(REVOKED, "This configuration is no longer valid.")
    else if policy == Some(WARNED_80) || policy == Some(WARNED_90) then Decision(ACTIVE, "Allowed by control plane")
    else Decision(ACTIVE, "Allowed by control plane")
  }

  /**
   * A device may connect exactly when it is not blocked in the console's sense, its
   * configuration is good, and no gateway row forbids it; the decision is never advisory.
   */
  lemma AllowedExactly(device: Device, config: AssignedConfig, policy: Option<Enforcement>, configExpired: bool,
                       rejectMessage: string)
    ensures var decision := ResolvePolicy(device, config, policy, configExpired, rejectMessage);
            && (decision.state == ACTIVE <==>
                  && !IsDeviceBlocked(device)
                  && config != CONFIG_REVOKED && !configExpired
                  && policy != Some(BLOCKED) && policy != Some(QUOTA_EXCEEDED) && policy != Some(REVOKED))
            && decision.state != WARNED_80 && decision.state != WARNED_90
            && (decision.state == BLOCKED ==> decision.reason == rejectMessage)
  {
  }

  /**
   * The four answers and what each rests on, in the order of precedence: an operator's decision,
   * the quota, the configuration, and last the gateway row's own state.
   */
  lemma DecisionExactly(device: Device, config: AssignedConfig, policy: Option<Enforcement>, configExpired: bool,
                        rejectMessage: string)
    ensures var decision := ResolvePolicy(device, config, policy, configExpired, rejectMessage);
            var barred := device.approval != APPROVED || device.blockedAt.Some?;
            var over := device.connection == OVER_QUOTA || device.quotaExceededAt.Some?;
            var lapsed := config == CONFIG_REVOKED || configExpired;
            && (decision.state == BLOCKED <==> barred || (!over && !lapsed && policy == Some(BLOCKED)))
            && (decision.state == QUOTA_EXCEEDED <==>
                  !barred && (over || (!lapsed && policy == Some(QUOTA_EXCEEDED))))
            && (decision.state == REVOKED <==> !barred && !over && (lapsed || policy == Some(REVOKED)))
            && (decision.state == ACTIVE <==>
                  && !barred && !over && !lapsed
                  && policy != Some(BLOCKED) && policy != Some(QUOTA_EXCEEDED) && policy != Some(REVOKED))
            && match decision.state {
                 case BLOCKED => decision.reason == rejectMessage
                 case QUOTA_EXCEEDED => decision.reason == "Data limit reached for this device."
                 case REVOKED =>
                   decision.reason
                   == if config != CONFIG_REVOKED && configExpired then "This configuration has expired."
                      else "This configuration is no longer valid."
                 case _ => decision.reason == "Allowed by control plane"
               }
  {
  }

  /** And the console calls a device blocked exactly when that does not come from configuration or row. */
  lemma ConsoleAgrees(device: Device, policy: Option<Enforcement>, rejectMessage: string)
    ensures IsDeviceBlocked(device) <==>
              var state := ResolvePolicy(device, CONFIG_USABLE, None, false, rejectMessage).state;
              state == BLOCKED || state == QUOTA_EXCEEDED
  {
  }

  /** An operator's decision outranks the quota, the configuration and whatever the gateway row says. */
  lemma BlockedExactly(device: Device, config: AssignedConfig, policy: Option<Enforcement>, configExpired: bool,
                       rejectMessage: string)
    ensures ResolvePolicy(device, config, policy, configExpired, rejectMessage).state == BLOCKED <==>
              || device.approval != APPROVED
              || device.blockedAt.Some?
              || (!IsDeviceBlocked(device) && config != CONFIG_REVOKED && !configExpired && policy == Some(BLOCKED))
  {
  }

  /** The row an acknowledgement from `node` is booked on: the newest one for it or for any node. */
  function RowAcked(rows: seq<PolicyRow>, device: DeviceId, node: NodeId): (found: Option<nat>)
    ensures found.Some? ==> found.value < |rows| && rows[found.value].device == device
  {
    var onNode, onAny := Newest(rows, device, Some(node)), Newest(rows, device, None);
    if onNode.None? then onAny
    else if onAny.Some? && rows[onAny.value].revision > rows[onNode.value].revision then onAny
    else onNode
  }

  /** `revision` is the revision the agent says it applied; the route does not look at it. */
  function Acknowledged(s: State, device: DeviceId, node: NodeId, revision: nat, ok: bool, now: int): State {
    match RowAcked(s.policies, device, node)
    case Some(i) =>
      if ok then s.(policies := s.policies[i := s.policies[i].(appliedAt := Some(now), ackedAt := Some(now))]) else s
    case None => s
  }

  method Acknowledge(db: Database, device: DeviceId, node: NodeId, revision: nat, ok: bool, now: int)
    modifies db
    ensures db.Contents() == Acknowledged(old(db.Contents()), device, node, revision, ok, now)
  {
    var policy := RowAcked(db.policies, device, node);
    if policy.None? {
      return;
    }
    if ok {
      var row := db.policies[policy.value];
      db.policies := db.policies[policy.value := row.(appliedAt := Some(now), ackedAt := Some(now))];
    }
  }
}
