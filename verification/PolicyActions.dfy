/**
 * src/server/policy/actions.ts: the closed registry of actions a policy may name, each with
 * its handler, and the reader that tells the simulator whether an action has nothing to do.
 */
module PolicyActions {
  import opened Common
  import opened Store

  datatype Action =
    | NOTIFY
    | QUOTA_WARNING
    | DISCONNECT_SESSION(allowReconnect: bool)
    | BLOCK_DEVICE_RECONNECT
    | MARK_NODE_DEGRADED
    | LOWER_NODE_ROUTING_PRIORITY(delta: nat)
    | STOP_NEW_ASSIGNMENTS
    | CREATE_ANOMALY_EVENT(kind: nat)
    | APPLY_OPTIMIZATION_PROFILE(profile: nat)
    | DRAIN_NODE(disconnectExisting: bool)
    | SET_DEVICE_SECURITY_REVIEW
    | REQUEST_REPORT

  /** Who acts, when and why, and the optimization profiles that exist. */
  datatype Context = Context(policy: nat, profiles: set<nat>, now: int, reason: string, dryRun: bool)

  predicate OpenOnNode(session: Session, node: NodeId) {
    session.node == node && session.endedAt.None?
  }

  predicate AnyOpen(sessions: seq<Session>, device: DeviceId) {
    exists i :: 0 <= i < |sessions| && OpenOn(sessions[i], device)
  }

  predicate AnyOpenOnNode(sessions: seq<Session>, node: NodeId) {
    exists i :: 0 <= i < |sessions| && OpenOnNode(sessions[i], node)
  }

  function Drained(sessions: seq<Session>, node: NodeId, now: int): seq<Session> {
    seq(|sessions|, i requires 0 <= i < |sessions| =>
      if OpenOnNode(sessions[i], node)
      then sessions[i].(endedAt := Some(now), endReason := Some(ENDED_DRAINED))
      else sessions[i])
  }

  predicate HasAnomaly(anomalies: seq<Anomaly>, key: AnomalyKey, openOnly: bool) {
    exists i :: 0 <= i < |anomalies| && anomalies[i].key == key && (openOnly ==> anomalies[i].open)
  }

  predicate Notifies(action: Action) {
    action.NOTIFY? || action.QUOTA_WARNING?
  }

  /** What a live handler answers: an error, or whether it had something to do. */
  function Acts(s: State, action: Action, target: Target, ctx: Context): Result<bool> {
    match action
    case NOTIFY => Success(true)
    case QUOTA_WARNING => Success(true)
    case REQUEST_REPORT => Success(true)
    case DISCONNECT_SESSION(_) =>
      if target.OnDevice? then Success(AnyOpen(s.sessions, target.device)) else Failure(Validation)
    case BLOCK_DEVICE_RECONNECT =>
      if !target.OnDevice? then Failure(Validation)
      else if target.device >= |s.devices| then Failure(NotFound)
      else Success(s.devices[target.device].blockedAt.None?)
    case MARK_NODE_DEGRADED =>
      if !target.OnNode? then Failure(Validation)
      else if target.node >= |s.nodes| then Failure(NotFound)
      else Success(s.nodes[target.node].health != DEGRADED && s.nodes[target.node].health != NODE_OFFLINE)
    case LOWER_NODE_ROUTING_PRIORITY(delta) =>
      if !target.OnNode? then Failure(Validation)
      else if target.node >= |s.nodes| then Failure(NotFound)
      else Success(Max(0, s.nodes[target.node].weight - delta) != s.nodes[target.node].weight)
    case STOP_NEW_ASSIGNMENTS =>
      if !target.OnNode? then Failure(Validation)
      else if target.node >= |s.nodes| then Failure(NotFound)
      else Success(s.nodes[target.node].pool != Some(false))
    case CREATE_ANOMALY_EVENT(kind) =>
      Success(!HasAnomaly(s.anomalies, AnomalyKey(Some(ctx.policy), target, kind), true))
    case APPLY_OPTIMIZATION_PROFILE(profile) =>
      if !target.OnDevice? then Failure(Validation)
      else if profile !in ctx.profiles || target.device >= |s.devices| then Failure(NotFound)
      else Success(s.devices[target.device].profile != Some(profile))
    case DRAIN_NODE(_) =>
      if !target.OnNode? then Failure(Validation)
      else if target.node >= |s.nodes| then Failure(NotFound)
      else Success(!s.nodes[target.node].draining || AnyOpenOnNode(s.sessions, target.node))
    case SET_DEVICE_SECURITY_REVIEW =>
      if !target.OnDevice? then Failure(Validation)
      else if target.device >= |s.devices| then Failure(NotFound)
      else Success(s.devices[target.device].security == NORMAL)
  }

  /** The rows after a live handler that had something to do. */
  function Acted(s: State, action: Action, target: Target, ctx: Context): State
    requires Acts(s, action, target, ctx) == Success(true)
  {
    match action
    case NOTIFY => s
    case QUOTA_WARNING => s
    case REQUEST_REPORT => s
    case DISCONNECT_SESSION(allowReconnect) =>
      var d := target.device;
      if d < |s.devices| then
        s.(sessions := Closed(s.sessions, d, ctx.now, ENDED_REVOKED),
           devices := s.devices[d := s.devices[d].(connection := if allowReconnect then OFFLINE else CUT_OFF)],
           policies := Redecided(s.policies, d, ANY_STATE, if allowReconnect then ACTIVE else BLOCKED, ctx.reason))
      else s
    case BLOCK_DEVICE_RECONNECT =>
      var d := target.device;
      s.(sessions := Closed(s.sessions, d, ctx.now, ENDED_REVOKED),
         devices := s.devices[d := s.devices[d].(blockedAt := Some(ctx.now), connection := OFFLINE)],
         policies := Redecided(s.policies, d, ANY_STATE, BLOCKED, ctx.reason))
    case MARK_NODE_DEGRADED => s.(nodes := s.nodes[target.node := s.nodes[target.node].(health := DEGRADED)])
    case LOWER_NODE_ROUTING_PRIORITY(delta) =>
      s.(nodes := s.nodes[target.node := s.nodes[target.node].(weight := Max(0, s.nodes[target.node].weight - delta))])
    case STOP_NEW_ASSIGNMENTS => s.(nodes := s.nodes[target.node := s.nodes[target.node].(pool := Some(false))])
    case CREATE_ANOMALY_EVENT(kind) =>
      s.(anomalies := s.anomalies + [Anomaly(AnomalyKey(Some(ctx.policy), target, kind), true)])
    case APPLY_OPTIMIZATION_PROFILE(profile) =>
      s.(devices := s.devices[target.device := s.devices[target.device].(profile := Some(profile))])
    case DRAIN_NODE(disconnectExisting) =>
      s.(sessions := if disconnectExisting then Drained(s.sessions, target.node, ctx.now) else s.sessions,
         nodes := s.nodes[target.node := s.nodes[target.node].(draining := true, pool := Some(false))])
    case SET_DEVICE_SECURITY_REVIEW =>
      s.(devices := s.devices[target.device := s.devices[target.device].(security := REVIEW)])
  }

  /** The answer and the rows of any call, dry runs included. */
  predicate Handled(s: State, t: State, action: Action, target: Target, ctx: Context, applied: Result<bool>) {
    var live := Acts(s, action, target, ctx);
    && applied == (if ctx.dryRun && Notifies(action) then Success(false) else live)
    && t == if live == Success(true) && !ctx.dryRun then Acted(s, action, target, ctx) else s
  }

  /** A session always belongs to a device that exists: it is a foreign key. */
  ghost predicate SessionsRefer(s: State) {
    forall i :: 0 <= i < |s.sessions| ==> s.sessions[i].device < |s.devices|
  }

  method HandlerDisconnectSession(db: Database, target: Target, allowReconnect: bool, ctx: Context)
    returns (applied: Result<bool>)
    requires SessionsRefer(db.Contents())
    modifies db
    ensures Handled(old(db.Contents()), db.Contents(), DISCONNECT_SESSION(allowReconnect), target, ctx, applied)
  {
    if !target.OnDevice? {
      return Failure(Validation);
    }
    var d := target.device;
    var open := |OpenSessions(db.sessions, d)|;
    NoneOpen(db.sessions, d);
    if open == 0 {
      return Success(false);
    }
    if ctx.dryRun {
      return Success(true);
    }
    db.sessions := Closed(db.sessions, d, ctx.now, ENDED_REVOKED);
    db.devices := db.devices[d := db.devices[d].(connection := if allowReconnect then OFFLINE else CUT_OFF)];
    RedecideRows(db, d, ANY_STATE, if allowReconnect then ACTIVE else BLOCKED, ctx.reason);
    return Success(true);
  }

  lemma NoneOpen(sessions: seq<Session>, device: DeviceId)
    ensures |OpenSessions(sessions, device)| == 0 <==> !AnyOpen(sessions, device)
  {
    if AnyOpen(sessions, device) {
      var i :| 0 <= i < |sessions| && OpenOn(sessions[i], device);
      assert i in OpenSessions(sessions, device);
    } else {
      assert OpenSessions(sessions, device) == {};
    }
  }

  method HandlerBlockReconnect(db: Database, target: Target, ctx: Context) returns (applied: Result<bool>)
    modifies db
    ensures Handled(old(db.Contents()), db.Contents(), BLOCK_DEVICE_RECONNECT, target, ctx, applied)
  {
    if !target.OnDevice? {
      return Failure(Validation);
    }
    var d := target.device;
    if d >= |db.devices| {
      return Failure(NotFound);
    }
    if db.devices[d].blockedAt.Some? {
      return Success(false);
    }
    if ctx.dryRun {
      return Success(true);
    }
    db.sessions := Closed(db.sessions, d, ctx.now, ENDED_REVOKED);
    db.devices := db.devices[d := db.devices[d].(blockedAt := Some(ctx.now), connection := OFFLINE)];
    RedecideRows(db, d, ANY_STATE, BLOCKED, ctx.reason);
    return Success(true);
  }

  method HandlerMarkNodeDegraded(db: Database, target: Target, ctx: Context) returns (applied: Result<bool>)
    modifies db
    ensures Handled(old(db.Contents()), db.Contents(), MARK_NODE_DEGRADED, target, ctx, applied)
  {
    if !target.OnNode? {
      return Failure(Validation);
    }
    if target.node >= |db.nodes| {
      return Failure(NotFound);
    }
    var node := db.nodes[target.node];
    if node.health == DEGRADED || node.health == NODE_OFFLINE {
      return Success(false);
    }
    if ctx.dryRun {
      return Success(true);
    }
    db.nodes := db.nodes[target.node := node.(health := DEGRADED)];
    return Success(true);
  }

  method HandlerLowerRoutingPriority(db: Database, target: Target, delta: nat, ctx: Context)
    returns (applied: Result<bool>)
    modifies db
    ensures Handled(old(db.Contents()), db.Contents(), LOWER_NODE_ROUTING_PRIORITY(delta), target, ctx, applied)
  {
    if !target.OnNode? {
      return Failure(Validation);
    }
    if target.node >= |db.nodes| {
      return Failure(NotFound);
    }
    var node := db.nodes[target.node];
    var next := Max(0, node.weight - delta);
    if next == node.weight {
      return Success(false);
    }
    if ctx.dryRun {
      return Success(true);
    }
    db.nodes := db.nodes[target.node := node.(weight := next)];
    return Success(true);
  }

  method HandlerStopNewAssignments(db: Database, target: Target, ctx: Context) returns (applied: Result<bool>)
    modifies db
    ensures Handled(old(db.Contents()), db.Contents(), STOP_NEW_ASSIGNMENTS, target, ctx, applied)
  {
    if !target.OnNode? {
      return Failure(Validation);
    }
    if target.node >= |db.nodes| {
      return Failure(NotFound);
    }
    var node := db.nodes[target.node];
    if node.pool.Some? && !node.pool.value {
      return Success(false);
    }
    if ctx.dryRun {
      return Success(true);
    }
    db.nodes := db.nodes[target.node := node.(pool := Some(false))];
    return Success(true);
  }

  method HandlerCreateAnomaly(db: Database, target: Target, kind: nat, ctx: Context) returns (applied: Result<bool>)
    modifies db
    ensures Handled(old(db.Contents()), db.Contents(), CREATE_ANOMALY_EVENT(kind), target, ctx, applied)
  {
    var key := AnomalyKey(Some(ctx.policy), target, kind);
    if HasAnomaly(db.anomalies, key, true) {
      return Success(false);
    }
    if ctx.dryRun {
      return Success(true);
    }
    db.anomalies := db.anomalies + [Anomaly(key, true)];
    return Success(true);
  }

  method HandlerApplyOptimization(db: Database, target: Target, profile: nat, ctx: Context)
    returns (applied: Result<bool>)
    modifies db
    ensures Handled(old(db.Contents()), db.Contents(), APPLY_OPTIMIZATION_PROFILE(profile), target, ctx, applied)
  {
    if !target.OnDevice? {
      return Failure(Validation);
    }
    var d := target.device;
    if profile !in ctx.profiles {
      return Failure(NotFound);
    }
    if d >= |db.devices| {
      return Failure(NotFound);
    }
    if db.devices[d].profile == Some(profile) {
      return Success(false);
    }
    if ctx.dryRun {
      return Success(true);
    }
    db.devices := db.devices[d := db.devices[d].(profile := Some(profile))];
    return Success(true);
  }

  method HandlerDrainNode(db: Database, target: Target, disconnectExisting: bool, ctx: Context)
    returns (applied: Result<bool>)
    modifies db
    ensures Handled(old(db.Contents()), db.Contents(), DRAIN_NODE(disconnectExisting), target, ctx, applied)
  {
    if !target.OnNode? {
      return Failure(Validation);
    }
    if target.node >= |db.nodes| {
      return Failure(NotFound);
    }
    var node := db.nodes[target.node];
    var open := AnyOpenOnNode(db.sessions, target.node);
    if node.draining && !open {
      return Success(false);
    }
    if ctx.dryRun {
      return Success(true);
    }
    if disconnectExisting {
      if open {
        db.sessions := Drained(db.sessions, target.node, ctx.now);
      } else {
        assert Drained(db.sessions, target.node, ctx.now) == db.sessions;
      }
    }
    db.nodes := db.nodes[target.node := node.(draining := true, pool := Some(false))];
    return Success(true);
  }

  method HandlerSecurityReview(db: Database, target: Target, ctx: Context) returns (applied: Result<bool>)
    modifies db
    ensures Handled(old(db.Contents()), db.Contents(), SET_DEVICE_SECURITY_REVIEW, target, ctx, applied)
  {
    if !target.OnDevice? {
      return Failure(Validation);
    }
    var d := target.device;
    if d >= |db.devices| {
      return Failure(NotFound);
    }
    if db.devices[d].security == REVIEW || db.devices[d].security == LOCKED {
      return Success(false);
    }
    if ctx.dryRun {
      return Success(true);
    }
    db.devices := db.devices[d := db.devices[d].(security := REVIEW)];
    return Success(true);
  }

  /** The registry: one handler per key. Notifications and reports leave these rows alone. */
  method ExecuteAction(db: Database, action: Action, target: Target, ctx: Context) returns (applied: Result<bool>)
    requires SessionsRefer(db.Contents())
    modifies db
    ensures Handled(old(db.Contents()), db.Contents(), action, target, ctx, applied)
  {
    match action
    case NOTIFY => applied := Success(!ctx.dryRun);
    case QUOTA_WARNING => applied := Success(!ctx.dryRun);
    case REQUEST_REPORT => applied := Success(true);
    case DISCONNECT_SESSION(allowReconnect) => applied := HandlerDisconnectSession(db, target, allowReconnect, ctx);
    case BLOCK_DEVICE_RECONNECT => applied := HandlerBlockReconnect(db, target, ctx);
    case MARK_NODE_DEGRADED => applied := HandlerMarkNodeDegraded(db, target, ctx);
    case LOWER_NODE_ROUTING_PRIORITY(delta) => applied := HandlerLowerRoutingPriority(db, target, delta, ctx);
    case STOP_NEW_ASSIGNMENTS => applied := HandlerStopNewAssignments(db, target, ctx);
    case CREATE_ANOMALY_EVENT(kind) => applied := HandlerCreateAnomaly(db, target, kind, ctx);
    case APPLY_OPTIMIZATION_PROFILE(profile) => applied := HandlerApplyOptimization(db, target, profile, ctx);
    case DRAIN_NODE(disconnectExisting) => applied := HandlerDrainNode(db, target, disconnectExisting, ctx);
    case SET_DEVICE_SECURITY_REVIEW => applied := HandlerSecurityReview(db, target, ctx);
  }

  // ------------------------------------------------- what the simulator is told

  predicate IsAlreadySatisfied(s: State, action: Action, target: Target) {
    match action
    case BLOCK_DEVICE_RECONNECT =>
      target.OnDevice? && target.device < |s.devices| && s.devices[target.device].blockedAt.Some?
    case DISCONNECT_SESSION(_) => target.OnDevice? && !AnyOpen(s.sessions, target.device)
    case MARK_NODE_DEGRADED =>
      target.OnNode? && target.node < |s.nodes|
      && (s.nodes[target.node].health == DEGRADED || s.nodes[target.node].health == NODE_OFFLINE)
    case DRAIN_NODE(_) => target.OnNode? && target.node < |s.nodes| && s.nodes[target.node].draining
    case STOP_NEW_ASSIGNMENTS => target.OnNode? && target.node < |s.nodes| && s.nodes[target.node].pool == Some(false)
    case SET_DEVICE_SECURITY_REVIEW =>
      target.OnDevice? && target.device < |s.devices| && s.devices[target.device].security != NORMAL
    case APPLY_OPTIMIZATION_PROFILE(profile) =>
      target.OnDevice? && target.device < |s.devices| && s.devices[target.device].profile == Some(profile)
    case CREATE_ANOMALY_EVENT(kind) => HasAnomaly(s.anomalies, AnomalyKey(None, target, kind), false)
    case _ => false
  }

  /** Every device's profile is one that exists: it is a foreign key. */
  ghost predicate ProfilesRefer(s: State, profiles: set<nat>) {
    forall d :: 0 <= d < |s.devices| && s.devices[d].profile.Some? ==> s.devices[d].profile.value in profiles
  }

  /** Only stored policies raise anomalies, so no anomaly carries a draft's key. */
  ghost predicate NoDrafts(s: State) {
    forall i :: 0 <= i < |s.anomalies| ==> s.anomalies[i].key.policy.Some?
  }

  lemma NoDraftsKept(s: State, action: Action, target: Target, ctx: Context)
    requires NoDrafts(s) && Acts(s, action, target, ctx) == Success(true)
    ensures NoDrafts(Acted(s, action, target, ctx))
  {
  }

  /**
   * Where the simulator's "already satisfied" and the handler's "nothing to do" part: a
   * drain of a node that still has sessions, a priority already at zero, and an anomaly
   * that is already open, which the simulator looks up under a key nothing ever writes.
   */
  predicate SimulatorMistaken(s: State, action: Action, target: Target, ctx: Context) {
    match action
    case DRAIN_NODE(_) =>
      target.OnNode? && target.node < |s.nodes| && s.nodes[target.node].draining
      && AnyOpenOnNode(s.sessions, target.node)
    case LOWER_NODE_ROUTING_PRIORITY(delta) =>
      target.OnNode? && target.node < |s.nodes| && (delta == 0 || s.nodes[target.node].weight == 0)
    case CREATE_ANOMALY_EVENT(kind) => HasAnomaly(s.anomalies, AnomalyKey(Some(ctx.policy), target, kind), true)
    case _ => false
  }

  /** On every state, action and target: the simulator agrees with the handler but in those cases. */
  lemma SimulatorAgreesExactly(s: State, action: Action, target: Target, ctx: Context)
    requires ProfilesRefer(s, ctx.profiles) && NoDrafts(s)
    ensures (IsAlreadySatisfied(s, action, target) <==> Acts(s, action, target, ctx) == Success(false))
              <==> !SimulatorMistaken(s, action, target, ctx)
  {
  }

  predicate Settles(action: Action) {
    || action.BLOCK_DEVICE_RECONNECT? || action.DISCONNECT_SESSION? || action.MARK_NODE_DEGRADED?
    || action.STOP_NEW_ASSIGNMENTS? || action.SET_DEVICE_SECURITY_REVIEW? || action.APPLY_OPTIMIZATION_PROFILE?
    || action.CREATE_ANOMALY_EVENT?
  }

  /**
   * Once applied, an action that settles its target has nothing left to do there, and what
   * it set out to bring about holds. A drain settles only once the node's sessions are gone.
   */
  lemma AppliedSettles(s: State, action: Action, target: Target, ctx: Context)
    requires SessionsRefer(s)
    requires Acts(s, action, target, ctx) == Success(true)
    ensures var t := Acted(s, action, target, ctx);
            && (Settles(action) ==> Acts(t, action, target, ctx) == Success(false))
            && (action.DRAIN_NODE? ==>
                  (Acts(t, action, target, ctx) == Success(false) <==>
                    (action.disconnectExisting || !AnyOpenOnNode(s.sessions, target.node))))
            && (action.LOWER_NODE_ROUTING_PRIORITY? ==>
                  (Acts(t, action, target, ctx) == Success(false) <==> t.nodes[target.node].weight == 0))
  {
    var t := Acted(s, action, target, ctx);
    if action.CREATE_ANOMALY_EVENT? {
      assert t.anomalies[|s.anomalies|] == Anomaly(AnomalyKey(Some(ctx.policy), target, action.kind), true);
    } else if action.DRAIN_NODE? && !action.disconnectExisting {
      assert AnyOpenOnNode(t.sessions, target.node) == AnyOpenOnNode(s.sessions, target.node);
    } else if action.DRAIN_NODE? {
      assert !AnyOpenOnNode(t.sessions, target.node);
    }
  }

  /** Only this device differs, and none was added. */
  ghost predicate OneDevice(s: State, t: State, device: DeviceId, row: Device) {
    && device < |s.devices| == |t.devices| && t.devices[device] == row
    && forall d :: 0 <= d < |s.devices| && d != device ==> t.devices[d] == s.devices[d]
  }

  ghost predicate OneNode(s: State, t: State, node: NodeId, row: Node) {
    && node < |s.nodes| == |t.nodes| && t.nodes[node] == row
    && forall n :: 0 <= n < |s.nodes| && n != node ==> t.nodes[n] == s.nodes[n]
  }

  /** The sessions of a device, or on a node, that were open are ended now for this reason, and no other is touched. */
  ghost predicate EndedWhere(s: State, t: State, ends: Session -> bool, now: int, reason: EndReason) {
    && |t.sessions| == |s.sessions|
    && forall i :: 0 <= i < |s.sessions| ==>
         if ends(s.sessions[i]) && s.sessions[i].endedAt.None?
         then t.sessions[i] == s.sessions[i].(endedAt := Some(now), endReason := Some(reason))
         else t.sessions[i] == s.sessions[i]
  }

  /**
   * What each applied action writes, row by row: the fields named here, and no other field of
   * any row of any table but the gateway rows, on which see DeviceActionReachesGateway.
   */
  lemma ActionWrites(s: State, action: Action, target: Target, ctx: Context)
    requires SessionsRefer(s)
    requires Acts(s, action, target, ctx) == Success(true)
    ensures var t := Acted(s, action, target, ctx);
            && t.quotas == s.quotas && t.events == s.events
            && match action {
                 case DISCONNECT_SESSION(allowReconnect) =>
                   && t == s.(devices := t.devices, sessions := t.sessions, policies := t.policies)
                   && target.device < |s.devices|
                   && OneDevice(s, t, target.device,
                        s.devices[target.device].(connection := if allowReconnect then OFFLINE else CUT_OFF))
                   && EndedWhere(s, t, (x: Session) => x.device == target.device, ctx.now, ENDED_REVOKED)
                 case BLOCK_DEVICE_RECONNECT =>
                   && t == s.(devices := t.devices, sessions := t.sessions, policies := t.policies)
                   && OneDevice(s, t, target.device,
                        s.devices[target.device].(blockedAt := Some(ctx.now), connection := OFFLINE))
                   && EndedWhere(s, t, (x: Session) => x.device == target.device, ctx.now, ENDED_REVOKED)
                 case APPLY_OPTIMIZATION_PROFILE(profile) =>
                   && t == s.(devices := t.devices)
                   && OneDevice(s, t, target.device, s.devices[target.device].(profile := Some(profile)))
                 case SET_DEVICE_SECURITY_REVIEW =>
                   && t == s.(devices := t.devices)
                   && OneDevice(s, t, target.device, s.devices[target.device].(security := REVIEW))
                 case MARK_NODE_DEGRADED =>
                   t == s.(nodes := t.nodes) && OneNode(s, t, target.node, s.nodes[target.node].(health := DEGRADED))
                 case LOWER_NODE_ROUTING_PRIORITY(delta) =>
                   && t == s.(nodes := t.nodes)
                   && t.nodes[target.node].weight
                      == (if delta <= s.nodes[target.node].weight then s.nodes[target.node].weight - delta else 0)
                   && OneNode(s, t, target.node, s.nodes[target.node].(weight := t.nodes[target.node].weight))
                 case STOP_NEW_ASSIGNMENTS =>
                   t == s.(nodes := t.nodes) && OneNode(s, t, target.node, s.nodes[target.node].(pool := Some(false)))
                 case DRAIN_NODE(disconnectExisting) =>
                   && t == s.(nodes := t.nodes, sessions := t.sessions)
                   && OneNode(s, t, target.node, s.nodes[target.node].(draining := true, pool := Some(false)))
                   && EndedWhere(s, t, (x: Session) => disconnectExisting && x.node == target.node,
                                 ctx.now, ENDED_DRAINED)
                 case CREATE_ANOMALY_EVENT(kind) =>
                   t == s.(anomalies := s.anomalies + [Anomaly(AnomalyKey(Some(ctx.policy), target, kind), true)])
                 case _ => t == s
               }
  {
  }

  /**
   * When an action has something to do, and how it fails, in the rows it looks at: a device
   * action needs a device and a node action a node, and each that is named must exist.
   */
  lemma ActsExactly(s: State, action: Action, target: Target, ctx: Context)
    ensures var answer := Acts(s, action, target, ctx);
            && (answer == Failure(Validation) <==>
                  || (&& (action.DISCONNECT_SESSION? || action.BLOCK_DEVICE_RECONNECT?
                          || action.APPLY_OPTIMIZATION_PROFILE? || action.SET_DEVICE_SECURITY_REVIEW?)
                      && !target.OnDevice?)
                  || (&& (action.MARK_NODE_DEGRADED? || action.LOWER_NODE_ROUTING_PRIORITY?
                          || action.STOP_NEW_ASSIGNMENTS? || action.DRAIN_NODE?)
                      && !target.OnNode?))
            && (answer == Failure(NotFound) <==>
                  || (&& (action.BLOCK_DEVICE_RECONNECT? || action.SET_DEVICE_SECURITY_REVIEW?
                          || action.APPLY_OPTIMIZATION_PROFILE?)
                      && target.OnDevice?
                      && (target.device >= |s.devices|
                          || (action.APPLY_OPTIMIZATION_PROFILE? && action.profile !in ctx.profiles)))
                  || (&& (action.MARK_NODE_DEGRADED? || action.LOWER_NODE_ROUTING_PRIORITY?
                          || action.STOP_NEW_ASSIGNMENTS? || action.DRAIN_NODE?)
                      && target.OnNode? && target.node >= |s.nodes|))
            && (answer.Failure? ==> answer == Failure(Validation) || answer == Failure(NotFound))
            && (answer.Success? ==>
                  (answer.value <==> !match action {
                    case DISCONNECT_SESSION(_) =>
                      forall i :: 0 <= i < |s.sessions| && s.sessions[i].device == target.device ==>
                        s.sessions[i].endedAt.Some?
                    case BLOCK_DEVICE_RECONNECT => s.devices[target.device].blockedAt.Some?
                    case APPLY_OPTIMIZATION_PROFILE(profile) => s.devices[target.device].profile == Some(profile)
                    case SET_DEVICE_SECURITY_REVIEW => s.devices[target.device].security != NORMAL
                    case MARK_NODE_DEGRADED =>
                      s.nodes[target.node].health == DEGRADED || s.nodes[target.node].health == NODE_OFFLINE
                    case LOWER_NODE_ROUTING_PRIORITY(delta) => delta == 0 || s.nodes[target.node].weight == 0
                    case STOP_NEW_ASSIGNMENTS => s.nodes[target.node].pool == Some(false)
                    case DRAIN_NODE(_) =>
                      && s.nodes[target.node].draining
                      && forall i :: 0 <= i < |s.sessions| && s.sessions[i].node == target.node ==>
                           s.sessions[i].endedAt.Some?
                    case CREATE_ANOMALY_EVENT(kind) =>
                      exists i :: 0 <= i < |s.anomalies|
                        && s.anomalies[i].key == AnomalyKey(Some(ctx.policy), target, kind) && s.anomalies[i].open
                    case _ => false
                  }))
  {
  }

  /**
   * What an applied device action leaves behind: no open session, and every gateway row of
   * the device under a new revision, telling the agent what the action decided.
   */
  lemma DeviceActionReachesGateway(s: State, action: Action, target: Target, ctx: Context)
    requires SessionsRefer(s)
    requires action.BLOCK_DEVICE_RECONNECT? || action.DISCONNECT_SESSION?
    requires Acts(s, action, target, ctx) == Success(true)
    ensures var t := Acted(s, action, target, ctx);
            && !AnyOpen(t.sessions, target.device)
            && |t.policies| == |s.policies|
            && forall i :: 0 <= i < |s.policies| ==>
                 if s.policies[i].device == target.device
                 then t.policies[i] == Decided(s.policies[i],
                        if action.DISCONNECT_SESSION? && action.allowReconnect then ACTIVE else BLOCKED, ctx.reason)
                 else t.policies[i] == s.policies[i]
  {
    forall i | 0 <= i < |s.policies|
      ensures s.policies[i].state in ANY_STATE
    {
      AnyState(s.policies[i].state);
    }
  }

  /** A dry run predicts the live answer exactly, except that it claims a notification does nothing. */
  lemma DryRunPredicts(s: State, t: State, action: Action, target: Target, ctx: Context, applied: Result<bool>)
    requires ctx.dryRun && Handled(s, t, action, target, ctx, applied)
    ensures t == s
    ensures applied == Acts(s, action, target, ctx) <==> action != NOTIFY && action != QUOTA_WARNING
    ensures applied != Acts(s, action, target, ctx) ==>
              applied == Success(false) && Acts(s, action, target, ctx) == Success(true)
  {
  }
}
