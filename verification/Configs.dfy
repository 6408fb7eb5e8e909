/**
 * src/server/configs/service.ts: client configurations, their revisions and credentials, and
 * the WireGuard address pool; src/server/automation/jobs.ts:178-222: the two cleanup jobs;
 * src/app/api/configs/[id]/route.ts:88-99: expiring a configuration by hand.
 * A row's id is its place in its table. A sealed payload stands for its plaintext.
 */
module Configs {
  import opened Common

  /** Hosts .2 to .254 of 10.200.0.0/24 may be handed out. */
  const FIRST_HOST := 2
  const LAST_HOST := 254

  /** How many rows a cleanup job takes at once. */
  const BATCH := 500

  datatype Kind = WIREGUARD_KEYPAIR | XRAY_UUID

  datatype Status = ACTIVE | EXPIRED | REVOKED

  datatype Protocol = WIREGUARD | XRAY_VLESS | XRAY_VMESS | XRAY_TROJAN | MOCK

  datatype Credential = Credential(device: nat, kind: Kind, tunnel: Option<nat>, expiresAt: Option<int>, revoked: bool)

  /** What a client file is rendered from: the address and everything else. */
  datatype Payload = Payload(tunnel: Option<nat>, material: Text)

  datatype Revision = Revision(version: nat, payload: Payload, isActive: bool)

  /** The revisions are rows of their own, numbered here within their configuration. */
  datatype Config = Config(
    device: Option<nat>,
    status: Status,
    version: nat,
    expiresAt: Option<int>,
    current: Option<nat>,
    revisions: seq<Revision>)

  /** `assignment` has a key for every device. */
  datatype State = State(credentials: seq<Credential>, configs: seq<Config>, assignment: map<nat, Option<nat>>)

  class Registry {
    var credentials: seq<Credential>
    var configs: seq<Config>
    var assignment: map<nat, Option<nat>>

    constructor (devices: set<nat>)
      ensures Contents() == State([], [], map d | d in devices :: None)
    {
      credentials, configs, assignment := [], [], map d | d in devices :: None;
    }

    ghost function Contents(): State
      reads this
    {
      State(credentials, configs, assignment)
    }

    /** The checks first; then credential, configuration, first revision and assignment in one transaction. */
    method GenerateConfig(device: nat, protocol: Protocol, material: Text, expiresAt: Option<int>, checks: Checks)
      returns (r: Result<nat>)
      modifies this
      ensures var after := Generated(old(Contents()), device, protocol, material, expiresAt, Refusal(checks, protocol));
              && (r.Success? <==> after.Success?)
              && (r.Success? ==> Contents() == after.value && r.value == |old(configs)|)
              && (r.Failure? ==> Contents() == old(Contents()) && r.error == after.error)
    {
      if device !in assignment {
        return Failure(NotFound);
      }
      if checks.requireApproval && !checks.approved {
        return Failure(Forbidden);
      }
      if checks.site.None? {
        return Failure(NotFound);
      }
      var site := checks.site.value;
      if protocol != site.protocol || !site.online {
        return Failure(Precondition);
      }
      if protocol == MOCK {
        return Failure(Unsupported);
      }
      if !site.hasEndpoint || (protocol == WIREGUARD && !checks.hasServerKey) {
        return Failure(Precondition);
      }
      var tunnel: Option<nat> := None;
      if protocol == WIREGUARD {
        var host := AllocateTunnelAddress(credentials);
        if host.Failure? {
          return Failure(host.error);
        }
        if host.value in Hosts(credentials) {
          return Failure(Conflict);
        }
        tunnel := Some(host.value);
      }
      var kind := if protocol == WIREGUARD then WIREGUARD_KEYPAIR else XRAY_UUID;
      credentials := credentials + [Credential(device, kind, tunnel, expiresAt, false)];
      var id := |configs|;
      var config := Config(Some(device), ACTIVE, 1, expiresAt, None, []);
      config := config.(revisions := [Revision(1, Payload(tunnel, material), true)]);
      configs := configs + [config.(current := Some(0))];
      assignment := assignment[device := Some(id)];
      return Success(id);
    }

    /** Revokes the configuration and every live credential of its device. */
    method RevokeConfig(id: nat) returns (r: Result<nat>)
      modifies this
      ensures r == if id < |old(configs)| then Success(id) else Failure(NotFound)
      ensures Contents() == if id < |old(configs)| then Revoked(old(Contents()), id) else old(Contents())
    {
      if id >= |configs| {
        return Failure(NotFound);
      }
      var config := configs[id];
      configs := configs[id := config.(status := REVOKED)];
      if config.device.Some? {
        var device, rows := config.device.value, credentials;
        credentials := seq(|rows|, i requires 0 <= i < |rows| =>
          if rows[i].device == device then rows[i].(revoked := true) else rows[i]);
        if device in assignment {
          assignment := assignment[device := None];
        }
      }
      return Success(id);
    }

    /** Publishes the payload of an earlier revision as a new one. */
    method RollbackConfig(id: nat, toVersion: nat) returns (r: Result<nat>)
      requires forall c :: c in configs && c.current.Some? ==> c.current.value < |c.revisions|
      modifies this
      ensures var after := if id < |old(configs)| then RolledBack(old(configs[id]), toVersion) else Failure(NotFound);
              && (r.Success? <==> after.Success?)
              && (r.Success? ==> r.value == after.value.version
                                 && Contents() == old(Contents()).(configs := old(configs)[id := after.value]))
              && (r.Failure? ==> r.error == after.error && Contents() == old(Contents()))
    {
      if id >= |configs| {
        return Failure(NotFound);
      }
      var config := configs[id];
      var versions := config.revisions;
      var target: Option<nat> := None;
      var highest: nat := 0;
      for i := 0 to |versions|
        invariant target == Find(versions[..i], toVersion)
        invariant highest == MaxVersion(versions[..i])
      {
        assert versions[..i + 1][..i] == versions[..i];
        if versions[i].version == toVersion {
          target := Some(i);
        }
        highest := Max(highest, versions[i].version);
      }
      assert versions[..|versions|] == versions;
      if target.None? {
        return Failure(NotFound);
      }
      if config.current.Some? && versions[config.current.value].version == toVersion {
        return Failure(InvalidState);
      }
      if config.status == REVOKED {
        return Failure(InvalidState);
      }
      if config.current.Some? {
        versions := versions[config.current.value := versions[config.current.value].(isActive := false)];
      }
      versions := versions + [Revision(highest + 1, config.revisions[target.value].payload, true)];
      configs := configs[id := config.(version := highest + 1, current := Some(|versions| - 1), revisions := versions)];
      return Success(highest + 1);
    }

    /** Marks a configuration expired, whatever its status was. */
    method ExpireConfig(id: nat, at: int) returns (r: Result<nat>)
      modifies this
      ensures r == if id < |old(configs)| then Success(id) else Failure(NotFound)
      ensures Contents() == if id < |old(configs)| then Expired(old(Contents()), id, at) else old(Contents())
    {
      if id >= |configs| {
        return Failure(NotFound);
      }
      configs := configs[id := configs[id].(status := EXPIRED, expiresAt := Some(at))];
      return Success(id);
    }

    /** Revokes a batch of the credentials that have expired. */
    method ExpiredCredentialCleanup(now: int) returns (affected: nat)
      modifies this
      ensures Contents() == CredentialsCleaned(old(Contents()), now)
      ensures affected == Min(BATCH, |Lapsed(old(credentials), now)|)
    {
      var expired := FirstBatch(Lapsed(credentials, now));
      LapsedAreRows(credentials, now);
      for k := 0 to |expired|
        invariant Contents() == old(Contents()).(credentials := WithRevoked(old(credentials), expired[..k]))
      {
        credentials := credentials[expired[k] := credentials[expired[k]].(revoked := true)];
        assert credentials == WithRevoked(old(credentials), expired[..k + 1]);
      }
      assert expired[..|expired|] == expired;
      affected := |expired|;
    }

    /** Expires a batch of the active configurations whose time has passed. */
    method ExpiredConfigCleanup(now: int) returns (affected: nat)
      modifies this
      ensures Contents() == ConfigsCleaned(old(Contents()), now)
      ensures affected == Min(BATCH, |Outdated(old(configs), now)|)
    {
      var expired := FirstBatch(Outdated(configs, now));
      OutdatedAreRows(configs, now);
      for k := 0 to |expired|
        invariant Contents() == old(Contents()).(configs := WithExpired(old(configs), expired[..k]))
      {
        configs := configs[expired[k] := configs[expired[k]].(status := EXPIRED)];
        assert configs == WithExpired(old(configs), expired[..k + 1]);
      }
      assert expired[..|expired|] == expired;
      affected := |expired|;
    }
  }

  // ---------------------------------------------------------------- addresses

  /** The addresses of credentials that are not revoked. */
  function LiveHosts(rows: seq<Credential>): set<nat> {
    set i | 0 <= i < |rows| && rows[i].kind == WIREGUARD_KEYPAIR && !rows[i].revoked && rows[i].tunnel.Some?
      :: rows[i].tunnel.value
  }

  /** The addresses the unique index covers: those of every row. */
  function Hosts(rows: seq<Credential>): set<nat> {
    set i | 0 <= i < |rows| && rows[i].tunnel.Some? :: rows[i].tunnel.value
  }

  /** The least host from `host` on that is not taken. */
  function LeastFree(taken: set<nat>, host: nat): (r: Result<nat>)
    requires host <= LAST_HOST + 1
    ensures r.Success? ==> host <= r.value <= LAST_HOST && r.value !in taken
    ensures r.Success? ==> forall h :: host <= h < r.value ==> h in taken
    ensures r.Failure? ==> r == Failure(InvalidState) && forall h :: host <= h <= LAST_HOST ==> h in taken
    decreases LAST_HOST + 1 - host
  {
    if host > LAST_HOST then Failure(InvalidState)
    else if host !in taken then Success(host)
    else LeastFree(taken, host + 1)
  }

  /** Fails exactly when every host is live; otherwise the least host that is not. */
  method AllocateTunnelAddress(credentials: seq<Credential>) returns (r: Result<nat>)
    ensures r.Failure? <==> forall h :: FIRST_HOST <= h <= LAST_HOST ==> h in LiveHosts(credentials)
    ensures r.Success? ==> FIRST_HOST <= r.value <= LAST_HOST && r.value !in LiveHosts(credentials)
    ensures r.Success? ==> forall h :: FIRST_HOST <= h < r.value ==> h in LiveHosts(credentials)
    ensures r == LeastFree(LiveHosts(credentials), FIRST_HOST)
  {
    var taken := LiveHosts(credentials);
    for host := FIRST_HOST to LAST_HOST + 1
      invariant LeastFree(taken, FIRST_HOST) == LeastFree(taken, host)
      invariant forall h :: FIRST_HOST <= h < host ==> h in taken
    {
      if host !in taken {
        return Success(host);
      }
    }
    return Failure(InvalidState);
  }

  /** The node the configuration is for: its protocol, whether it is healthy, and whether it has a public endpoint. */
  datatype Site = Site(protocol: Protocol, online: bool, hasEndpoint: bool)

  /** What is looked at before the transaction. */
  datatype Checks = Checks(requireApproval: bool, approved: bool, site: Option<Site>, hasServerKey: bool)

  /** The first check that fails, in the order they are made. */
  function Refusal(checks: Checks, protocol: Protocol): Option<Error> {
    if checks.requireApproval && !checks.approved then Some(Forbidden)
    else if checks.site.None? then Some(NotFound)
    else if protocol != checks.site.value.protocol || !checks.site.value.online then Some(Precondition)
    else if protocol == MOCK then Some(Unsupported)
    else if !checks.site.value.hasEndpoint || (protocol == WIREGUARD && !checks.hasServerKey) then Some(Precondition)
    else None
  }

  /**
   * The database after a configuration is generated. `refusal` is what the checks on the
   * approval, the node and the gateway say. The address is the least that no live credential
   * has; the unique index then refuses the row when a revoked credential still has it.
   */
  function Generated(s: State, device: nat, protocol: Protocol, material: Text, expiresAt: Option<int>,
                     refusal: Option<Error>):
    Result<State>
  {
    if device !in s.assignment then Failure(NotFound)
    else if refusal.Some? then Failure(refusal.value)
    else if protocol != WIREGUARD then Success(Issued(s, device, XRAY_UUID, None, material, expiresAt))
    else
      match LeastFree(LiveHosts(s.credentials), FIRST_HOST)
      case Failure(error) => Failure(error)
      case Success(host) =>
        if host in Hosts(s.credentials) then Failure(Conflict)
        else Success(Issued(s, device, WIREGUARD_KEYPAIR, Some(host), material, expiresAt))
  }

  /** A live WireGuard credential has this host. */
  predicate HostIsLive(rows: seq<Credential>, host: nat) {
    exists i :: 0 <= i < |rows| && rows[i].kind == WIREGUARD_KEYPAIR && !rows[i].revoked && rows[i].tunnel == Some(host)
  }

  /** A credential, live or not, has this host. */
  predicate HostIsTaken(rows: seq<Credential>, host: nat) {
    exists i :: 0 <= i < |rows| && rows[i].tunnel == Some(host)
  }

  /** Every check that a new configuration has to pass before an address is looked for. */
  predicate MayIssue(checks: Checks, protocol: Protocol) {
    && (checks.requireApproval ==> checks.approved)
    && checks.site.Some? && checks.site.value.protocol == protocol && checks.site.value.online
    && protocol != MOCK && checks.site.value.hasEndpoint
    && (protocol == WIREGUARD ==> checks.hasServerKey)
  }

  /**
   * What a generation comes to, for every input: it is refused for a device that does not
   * exist, by a check, for want of a free host from 2 to 254, or because any credential, live
   * or not, already has the least free one; and otherwise it goes through, with that host.
   */
  lemma GenerateExactly(s: State, device: nat, protocol: Protocol, material: Text, expiresAt: Option<int>,
                        checks: Checks)
    ensures var r := Generated(s, device, protocol, material, expiresAt, Refusal(checks, protocol));
            var allowed := device in s.assignment && MayIssue(checks, protocol);
            && (!allowed ==> r.Failure?)
            && (allowed && protocol != WIREGUARD ==>
                  r == Success(Issued(s, device, XRAY_UUID, None, material, expiresAt)))
            && (allowed && protocol == WIREGUARD ==>
                  && (r == Failure(InvalidState) <==> forall h: nat :: 2 <= h <= 254 ==> HostIsLive(s.credentials, h))
                  && (forall h: nat :: LeastHost(s.credentials, h) ==>
                        if HostIsTaken(s.credentials, h) then r == Failure(Conflict)
                        else r == Success(Issued(s, device, WIREGUARD_KEYPAIR, Some(h), material, expiresAt))))
  {
    forall h: nat
      ensures h in LiveHosts(s.credentials) <==> HostIsLive(s.credentials, h)
      ensures h in Hosts(s.credentials) <==> HostIsTaken(s.credentials, h)
    {
    }
    hide LiveHosts, Hosts, HostIsLive, HostIsTaken;
    var r := LeastFree(LiveHosts(s.credentials), FIRST_HOST);
    forall h: nat | LeastHost(s.credentials, h)
      ensures r == Success(h)
    {
      assert r.Success?;
      assert r.value == h;
    }
  }

  /** The least host from 2 to 254 that no live credential has. */
  predicate LeastHost(rows: seq<Credential>, host: nat) {
    && 2 <= host <= 254 && !HostIsLive(rows, host)
    && forall h: nat :: 2 <= h < host ==> HostIsLive(rows, h)
  }

  /** Which of the checks a refusal names: the first that fails, in the order they are made. */
  lemma RefusalExactly(checks: Checks, protocol: Protocol)
    ensures var r := Refusal(checks, protocol);
            var waiting := checks.requireApproval && !checks.approved;
            && (r.None? <==> MayIssue(checks, protocol))
            && (r == Some(Forbidden) <==> waiting)
            && (r == Some(NotFound) <==> !waiting && checks.site.None?)
            && (r == Some(Unsupported) <==>
                  !waiting && protocol == MOCK && checks.site.Some? && checks.site.value.protocol == MOCK
                  && checks.site.value.online)
            && (r.Some? ==> r.value in {Forbidden, NotFound, Unsupported, Precondition})
  {
  }

  function Issued(s: State, device: nat, kind: Kind, tunnel: Option<nat>, material: Text,
                  expiresAt: Option<int>): State {
    State(
      s.credentials + [Credential(device, kind, tunnel, expiresAt, false)],
      s.configs + [Config(Some(device), ACTIVE, 1, expiresAt, Some(0), [Revision(1, Payload(tunnel, material), true)])],
      s.assignment[device := Some(|s.configs|)])
  }

  // ------------------------------------------------------- revoke and clean up

  function Revoked(s: State, id: nat): State
    requires id < |s.configs|
  {
    var config := s.configs[id];
    var t := s.(configs := s.configs[id := config.(status := REVOKED)]);
    if config.device.None? then t
    else
      t.(credentials := seq(|s.credentials|, i requires 0 <= i < |s.credentials| =>
           if s.credentials[i].device == config.device.value then s.credentials[i].(revoked := true)
           else s.credentials[i]),
         assignment := if config.device.value in s.assignment then s.assignment[config.device.value := None]
                       else s.assignment)
  }

  function Expired(s: State, id: nat, at: int): State
    requires id < |s.configs|
  {
    s.(configs := s.configs[id := s.configs[id].(status := EXPIRED, expiresAt := Some(at))])
  }

  predicate Past(at: Option<int>, now: int) {
    at.Some? && at.value <= now
  }

  /** The live credentials past their expiry, by id. */
  function Lapsed(rows: seq<Credential>, now: int): seq<nat> {
    if rows == [] then []
    else
      var last := |rows| - 1;
      Lapsed(rows[..last], now) + if !rows[last].revoked && Past(rows[last].expiresAt, now) then [last] else []
  }

  /** The active configurations past their expiry, by id. */
  function Outdated(rows: seq<Config>, now: int): seq<nat> {
    if rows == [] then []
    else
      var last := |rows| - 1;
      Outdated(rows[..last], now)
      + if rows[last].status == ACTIVE && Past(rows[last].expiresAt, now) then [last] else []
  }

  lemma {:induction false} LapsedAreRows(rows: seq<Credential>, now: int)
    ensures forall id :: id in Lapsed(rows, now) <==>
              0 <= id < |rows| && !rows[id].revoked && Past(rows[id].expiresAt, now)
  {
    if rows != [] {
      LapsedAreRows(rows[..|rows| - 1], now);
    }
  }

  lemma {:induction false} OutdatedAreRows(rows: seq<Config>, now: int)
    ensures forall id :: id in Outdated(rows, now) <==>
              0 <= id < |rows| && rows[id].status == ACTIVE && Past(rows[id].expiresAt, now)
  {
    if rows != [] {
      OutdatedAreRows(rows[..|rows| - 1], now);
    }
  }

  function FirstBatch(ids: seq<nat>): (r: seq<nat>)
    ensures |r| == Min(BATCH, |ids|) && forall k :: 0 <= k < |r| ==> r[k] in ids
  {
    if |ids| <= BATCH then ids else ids[..BATCH]
  }

  function WithRevoked(rows: seq<Credential>, ids: seq<nat>): seq<Credential> {
    seq(|rows|, i requires 0 <= i < |rows| => if i in ids then rows[i].(revoked := true) else rows[i])
  }

  function WithExpired(rows: seq<Config>, ids: seq<nat>): seq<Config> {
    seq(|rows|, i requires 0 <= i < |rows| => if i in ids then rows[i].(status := EXPIRED) else rows[i])
  }

  function CredentialsCleaned(s: State, now: int): State {
    s.(credentials := WithRevoked(s.credentials, FirstBatch(Lapsed(s.credentials, now))))
  }

  function ConfigsCleaned(s: State, now: int): State {
    s.(configs := WithExpired(s.configs, FirstBatch(Outdated(s.configs, now))))
  }

  /** The i-th credential is live and its time has come. */
  predicate LapsedAt(rows: seq<Credential>, i: nat, now: int)
    requires i < |rows|
  {
    !rows[i].revoked && rows[i].expiresAt.Some? && rows[i].expiresAt.value <= now
  }

  /** The i-th configuration is active and its time has come. */
  predicate OutdatedAt(rows: seq<Config>, i: nat, now: int)
    requires i < |rows|
  {
    rows[i].status == ACTIVE && rows[i].expiresAt.Some? && rows[i].expiresAt.value <= now
  }

  predicate Ascends(ids: seq<nat>) {
    forall i, j :: 0 <= i < j < |ids| ==> ids[i] < ids[j]
  }

  lemma {:induction false} LapsedAscend(rows: seq<Credential>, now: int)
    ensures Ascends(Lapsed(rows, now)) && forall k :: 0 <= k < |Lapsed(rows, now)| ==> Lapsed(rows, now)[k] < |rows|
  {
    if rows != [] {
      LapsedAscend(rows[..|rows| - 1], now);
    }
  }

  lemma {:induction false} OutdatedAscend(rows: seq<Config>, now: int)
    ensures Ascends(Outdated(rows, now))
    ensures forall k :: 0 <= k < |Outdated(rows, now)| ==> Outdated(rows, now)[k] < |rows|
  {
    if rows != [] {
      OutdatedAscend(rows[..|rows| - 1], now);
    }
  }

  /** A batch takes the ids below some cut: the whole list, or the first 500 of it. */
  lemma BatchIsCut(ids: seq<nat>, rows: nat) returns (cut: nat)
    requires Ascends(ids) && forall k :: 0 <= k < |ids| ==> ids[k] < rows
    ensures cut <= rows && forall id :: id in FirstBatch(ids) <==> id in ids && id < cut
    ensures |FirstBatch(ids)| == if cut == rows then |ids| else 500
    ensures |FirstBatch(ids)| <= 500 && (|ids| <= 500 ==> cut == rows)
  {
    cut := if |ids| <= 500 then rows else ids[500];
    forall id
      ensures id in FirstBatch(ids) <==> id in ids && id < cut
    {
      if id in ids && id < cut {
        var k :| 0 <= k < |ids| && ids[k] == id;
        assert k < 500 || |ids| <= 500;
      }
    }
  }

  /**
   * The credential cleanup, row by row: in the order of the ids every lapsed credential is
   * revoked up to a cut, and nothing else changes; at most 500 are, and unless it is 500 the
   * cut is the end of the table.
   */
  lemma CredentialCleanupExactly(s: State, now: int) returns (cut: nat)
    ensures var t, n := CredentialsCleaned(s, now), Min(500, |Lapsed(s.credentials, now)|);
            && t == s.(credentials := t.credentials) && |t.credentials| == |s.credentials|
            && (forall i :: 0 <= i < |s.credentials| ==>
                  t.credentials[i]
                  == if LapsedAt(s.credentials, i, now) && i < cut then s.credentials[i].(revoked := true)
                     else s.credentials[i])
            && (n < 500 ==> cut == |s.credentials|)
  {
    LapsedAscend(s.credentials, now);
    LapsedAreRows(s.credentials, now);
    cut := BatchIsCut(Lapsed(s.credentials, now), |s.credentials|);
  }

  /** The configuration cleanup likewise expires active configurations whose time has come. */
  lemma ConfigCleanupExactly(s: State, now: int) returns (cut: nat)
    ensures var t, n := ConfigsCleaned(s, now), Min(500, |Outdated(s.configs, now)|);
            && t == s.(configs := t.configs) && |t.configs| == |s.configs|
            && (forall i :: 0 <= i < |s.configs| ==>
                  t.configs[i] == if OutdatedAt(s.configs, i, now) && i < cut then s.configs[i].(status := EXPIRED)
                                  else s.configs[i])
            && (n < 500 ==> cut == |s.configs|)
  {
    OutdatedAscend(s.configs, now);
    OutdatedAreRows(s.configs, now);
    cut := BatchIsCut(Outdated(s.configs, now), |s.configs|);
  }

  /** Revoking: the configuration, every credential of its device, and the device's assignment. */
  lemma RevokeWrites(s: State, id: nat)
    requires id < |s.configs|
    ensures var t := Revoked(s, id);
            && |t.configs| == |s.configs| && |t.credentials| == |s.credentials|
            && t.configs[id] == s.configs[id].(status := REVOKED)
            && (forall i :: 0 <= i < |s.configs| && i != id ==> t.configs[i] == s.configs[i])
            && (forall i :: 0 <= i < |s.credentials| ==>
                  t.credentials[i] == if s.configs[id].device == Some(s.credentials[i].device)
                                      then s.credentials[i].(revoked := true) else s.credentials[i])
            && t.assignment.Keys == s.assignment.Keys
            && forall d :: d in s.assignment ==>
                 t.assignment[d] == if s.configs[id].device == Some(d) then None else s.assignment[d]
  {
  }

  /** Expiring by hand: the status, whatever it was, and the time. */
  lemma ExpireWrites(s: State, id: nat, at: int)
    requires id < |s.configs|
    ensures var t := Expired(s, id, at);
            && t == s.(configs := t.configs) && |t.configs| == |s.configs|
            && t.configs[id] == s.configs[id].(status := EXPIRED, expiresAt := Some(at))
            && forall i :: 0 <= i < |s.configs| && i != id ==> t.configs[i] == s.configs[i]
  {
  }

  // ----------------------------------------------------------------- revisions

  /** The revision with a number. */
  function Find(revisions: seq<Revision>, version: nat): (r: Option<nat>)
    ensures r.Some? ==> r.value < |revisions| && revisions[r.value].version == version
    ensures r.None? ==> forall k :: 0 <= k < |revisions| ==> revisions[k].version != version
  {
    if revisions == [] then None
    else if revisions[|revisions| - 1].version == version then Some(|revisions| - 1)
    else Find(revisions[..|revisions| - 1], version)
  }

  function MaxVersion(revisions: seq<Revision>): nat {
    if revisions == [] then 0
    else Max(MaxVersion(revisions[..|revisions| - 1]), revisions[|revisions| - 1].version)
  }

  function RolledBack(config: Config, toVersion: nat): Result<Config>
    requires config.current.Some? ==> config.current.value < |config.revisions|
  {
    var target := Find(config.revisions, toVersion);
    if target.None? then Failure(NotFound)
    else if config.current.Some? && config.revisions[config.current.value].version == toVersion
    then Failure(InvalidState)
    else if config.status == REVOKED then Failure(InvalidState)
    else
      var next := MaxVersion(config.revisions) + 1;
      var older :=
        if config.current.None? then config.revisions
        else config.revisions[config.current.value := config.revisions[config.current.value].(isActive := false)];
      Success(config.(
        version := next,
        current := Some(|config.revisions|),
        revisions := older + [Revision(next, config.revisions[target.value].payload, true)]))
  }

  /**
   * The chain of revisions: numbered 1, 2, ... in order, the configuration pointing at the
   * last one and carrying its number, and that one alone active.
   */
  predicate Chain(config: Config) {
    && |config.revisions| > 0
    && config.version == |config.revisions|
    && config.current == Some(|config.revisions| - 1)
    && forall k :: 0 <= k < |config.revisions| ==>
         config.revisions[k].version == k + 1 && config.revisions[k].isActive == (k == |config.revisions| - 1)
  }

  function CurrentPayload(config: Config): Payload
    requires Chain(config)
  {
    config.revisions[config.current.value].payload
  }

  lemma {:induction false} MaxOfChain(revisions: seq<Revision>)
    requires forall k :: 0 <= k < |revisions| ==> revisions[k].version == k + 1
    ensures MaxVersion(revisions) == |revisions|
  {
    if revisions != [] {
      MaxOfChain(revisions[..|revisions| - 1]);
    }
  }

  /**
   * A rollback goes through exactly for an earlier revision of a configuration that is not
   * revoked. It adds one revision, with the next number and the target's payload, leaves
   * every earlier number and payload alone, and keeps the chain.
   */
  lemma RollbackExactly(config: Config, toVersion: nat)
    requires Chain(config)
    ensures var r := RolledBack(config, toVersion);
            && (r.Success? <==> 1 <= toVersion < config.version && config.status != REVOKED)
            && (r == Failure(NotFound) <==> toVersion == 0 || toVersion > config.version)
            && (r.Success? ==>
                  && Chain(r.value)
                  && r.value.version == config.version + 1
                  && CurrentPayload(r.value) == config.revisions[toVersion - 1].payload
                  && forall k :: 0 <= k < config.version ==>
                       && r.value.revisions[k].version == config.revisions[k].version
                       && r.value.revisions[k].payload == config.revisions[k].payload)
  {
    MaxOfChain(config.revisions);
    assert toVersion > 0 && toVersion <= config.version ==> config.revisions[toVersion - 1].version == toVersion;
  }

  /** A rollback can be rolled back: the second restores the payload the first replaced. */
  lemma RollbackUndone(config: Config, toVersion: nat)
    requires Chain(config) && RolledBack(config, toVersion).Success?
    ensures var once := RolledBack(config, toVersion).value;
            var twice := RolledBack(once, config.version);
            && Chain(once)
            && twice.Success?
            && Chain(twice.value)
            && CurrentPayload(twice.value) == CurrentPayload(config)
            && twice.value.version == config.version + 2
  {
    RollbackExactly(config, toVersion);
    RollbackExactly(RolledBack(config, toVersion).value, config.version);
  }
}
