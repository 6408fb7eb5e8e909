/**
 * What runs of the operations on configurations keep: the address pool, the chains of
 * revisions, and what a revocation amounts to.
 */
module ConfigRuns {
  import opened Common
  import opened Configs

  datatype Op =
    | Generate(device: nat, protocol: Protocol, material: Text, expiresAt: Option<int>, refusal: Option<Error>)
    | Revoke(id: nat)
    | Rollback(id: nat, toVersion: nat)
    | Expire(id: nat, at: int)
    | CleanCredentials(now: int)
    | CleanConfigs(now: int)

  /** The database of a new installation that knows some devices. */
  function Fresh(devices: set<nat>): State {
    State([], [], map d | d in devices :: None)
  }

  /** One operation; one that is refused changes nothing. */
  function Apply(s: State, op: Op): State {
    match op
    case Generate(device, protocol, material, expiresAt, refusal) =>
      var r := Generated(s, device, protocol, material, expiresAt, refusal);
      if r.Success? then r.value else s
    case Revoke(id) => if id < |s.configs| then Revoked(s, id) else s
    case Rollback(id, toVersion) =>
      if && id < |s.configs|
         && (s.configs[id].current.Some? ==> s.configs[id].current.value < |s.configs[id].revisions|) then
        var r := RolledBack(s.configs[id], toVersion);
        if r.Success? then s.(configs := s.configs[id := r.value]) else s
      else s
    case Expire(id, at) => if id < |s.configs| then Expired(s, id, at) else s
    case CleanCredentials(now) => CredentialsCleaned(s, now)
    case CleanConfigs(now) => ConfigsCleaned(s, now)
  }

  function Run(s: State, ops: seq<Op>): State {
    if ops == [] then s else Apply(Run(s, ops[..|ops| - 1]), ops[|ops| - 1])
  }

  // ------------------------------------------------------------ the address pool

  /** Addresses are in the pool, belong to WireGuard credentials and occur once, live or not. */
  predicate Distinct(rows: seq<Credential>) {
    && (forall i :: 0 <= i < |rows| && rows[i].tunnel.Some? ==>
          rows[i].kind == WIREGUARD_KEYPAIR && FIRST_HOST <= rows[i].tunnel.value <= LAST_HOST)
    && (forall i, j :: 0 <= i < j < |rows| && rows[i].tunnel.Some? ==> rows[j].tunnel != rows[i].tunnel)
  }

  /** The addresses ever handed out are .2, .3, ... without a gap. */
  ghost predicate Dense(rows: seq<Credential>) {
    forall h :: h in Hosts(rows) <==> FIRST_HOST <= h < FIRST_HOST + |Hosts(rows)|
  }

  /** Some credential with an address is revoked. */
  predicate AnyRetired(rows: seq<Credential>) {
    exists i :: 0 <= i < |rows| && rows[i].tunnel.Some? && rows[i].revoked
  }

  /** Rows stay, in place, and only their revocation changes. */
  predicate Continues(before: seq<Credential>, after: seq<Credential>) {
    && |before| <= |after|
    && forall i :: 0 <= i < |before| ==> after[i] == before[i] || after[i] == before[i].(revoked := true)
  }

  /** Whether the operation adds a credential with an address. */
  predicate Issues(s: State, op: Op) {
    op.Generate? && op.protocol == WIREGUARD
    && Generated(s, op.device, op.protocol, op.material, op.expiresAt, op.refusal).Success?
  }

  lemma Stays(s: State, op: Op)
    requires !op.Generate?
    ensures |Apply(s, op).credentials| == |s.credentials| && Continues(s.credentials, Apply(s, op).credentials)
  {
  }

  lemma SameHosts(before: seq<Credential>, after: seq<Credential>)
    requires |before| == |after| && Continues(before, after)
    ensures Hosts(after) == Hosts(before)
    ensures Distinct(before) ==> Distinct(after)
    ensures AnyRetired(before) ==> AnyRetired(after)
  {
    assert forall i :: 0 <= i < |before| ==> after[i].tunnel == before[i].tunnel && after[i].kind == before[i].kind;
    if AnyRetired(before) {
      var i :| 0 <= i < |before| && before[i].tunnel.Some? && before[i].revoked;
      assert after[i].revoked;
    }
  }

  lemma OneMore(rows: seq<Credential>, row: Credential)
    requires Distinct(rows) && !row.revoked
    requires row.tunnel.Some? ==> row.kind == WIREGUARD_KEYPAIR && FIRST_HOST <= row.tunnel.value <= LAST_HOST
    requires row.tunnel.Some? ==> row.tunnel.value !in Hosts(rows)
    ensures Distinct(rows + [row])
    ensures Hosts(rows + [row]) == Hosts(rows) + if row.tunnel.Some? then {row.tunnel.value} else {}
    ensures AnyRetired(rows + [row]) <==> AnyRetired(rows)
  {
    HostsAfter(rows, row);
    var more := rows + [row];
    assert forall i :: 0 <= i < |rows| ==> more[i] == rows[i];
    forall i | 0 <= i < |rows| && rows[i].tunnel.Some? && row.tunnel.Some? ensures rows[i].tunnel != row.tunnel {
      assert rows[i].tunnel.value in Hosts(rows);
    }
    if AnyRetired(rows) {
      var i :| 0 <= i < |rows| && rows[i].tunnel.Some? && rows[i].revoked;
      assert more[i].revoked;
    }
  }

  lemma HostsAfter(rows: seq<Credential>, row: Credential)
    ensures Hosts(rows + [row]) == Hosts(rows) + if row.tunnel.Some? then {row.tunnel.value} else {}
  {
    var more := rows + [row];
    forall h ensures h in Hosts(more) <==> h in Hosts(rows) || row.tunnel == Some(h) {
      if h in Hosts(rows) {
        var i :| 0 <= i < |rows| && rows[i].tunnel == Some(h);
        assert more[i].tunnel == Some(h);
      }
      if row.tunnel == Some(h) {
        assert more[|rows|].tunnel == Some(h);
      }
    }
  }

  /** A live address is on a row; one that is on no live row is on a revoked one. */
  lemma LiveOrRetired(rows: seq<Credential>)
    requires Distinct(rows)
    ensures LiveHosts(rows) <= Hosts(rows)
    ensures LiveHosts(rows) == Hosts(rows) <==> !AnyRetired(rows)
  {
    if AnyRetired(rows) {
      var i :| 0 <= i < |rows| && rows[i].tunnel.Some? && rows[i].revoked;
      assert rows[i].tunnel.value in Hosts(rows);
      assert rows[i].tunnel.value !in LiveHosts(rows);
    }
  }

  /**
   * With no gap behind it, the pool issues exactly when no address was ever retired and one
   * was never used; and then it issues the next.
   */
  lemma IssuingFrom(s: State, device: nat, material: Text, expiresAt: Option<int>)
    requires Distinct(s.credentials) && Dense(s.credentials) && device in s.assignment
    ensures var r := Generated(s, device, WIREGUARD, material, expiresAt, None);
            var n := |Hosts(s.credentials)|;
            && (r.Success? <==> !AnyRetired(s.credentials) && FIRST_HOST + n <= LAST_HOST)
            && (r.Success? ==>
                  r.value == Issued(s, device, WIREGUARD_KEYPAIR, Some(FIRST_HOST + n), material, expiresAt))
  {
    hide Issued, LiveHosts, Hosts, LeastFree, Distinct;
    LiveOrRetired(s.credentials);
    Offered(LiveHosts(s.credentials), Hosts(s.credentials));
  }

  /** What the allocator offers: the next address when all are live, a retired one otherwise. */
  lemma Offered(live: set<nat>, all: set<nat>)
    requires live <= all
    requires forall h :: h in all <==> FIRST_HOST <= h < FIRST_HOST + |all|
    ensures var r := LeastFree(live, FIRST_HOST);
            if live != all then r.Success? ==> r.value in all
            else if FIRST_HOST + |all| <= LAST_HOST then r == Success(FIRST_HOST + |all|)
            else r.Failure?
  {
    var r := LeastFree(live, FIRST_HOST);
    if live != all {
      var retired :| retired in all && retired !in live;
      assert r.Success? ==> r.value <= retired || retired > LAST_HOST;
    } else {
      var next := FIRST_HOST + |all|;
      assert next !in all;
      assert r.Success? && next < r.value ==> next in live;
      assert r.Failure? && next <= LAST_HOST ==> next in live;
    }
  }

  lemma AddressesKeptByStep(s: State, op: Op)
    requires Distinct(s.credentials) && Dense(s.credentials)
    ensures Distinct(Apply(s, op).credentials) && Dense(Apply(s, op).credentials)
    ensures AnyRetired(s.credentials) ==>
              Hosts(Apply(s, op).credentials) == Hosts(s.credentials) && AnyRetired(Apply(s, op).credentials)
    ensures Apply(s, op).assignment.Keys == s.assignment.Keys
  {
    hide Distinct, Dense, Hosts, AnyRetired;
    if op.Generate? {
      GenerateKeepsAddresses(s, op);
    } else {
      Stays(s, op);
      SameHosts(s.credentials, Apply(s, op).credentials);
      DenseIsAboutHosts(s.credentials, Apply(s, op).credentials);
    }
  }

  lemma DenseIsAboutHosts(before: seq<Credential>, after: seq<Credential>)
    requires Hosts(before) == Hosts(after)
    ensures Dense(before) <==> Dense(after)
  {
  }

  lemma GenerateKeepsAddresses(s: State, op: Op)
    requires Distinct(s.credentials) && Dense(s.credentials) && op.Generate?
    ensures Distinct(Apply(s, op).credentials) && Dense(Apply(s, op).credentials)
    ensures AnyRetired(s.credentials) ==>
              Hosts(Apply(s, op).credentials) == Hosts(s.credentials) && AnyRetired(Apply(s, op).credentials)
  {
    hide Distinct, Hosts, LiveHosts, AnyRetired, LeastFree;
    var r := Generated(s, op.device, op.protocol, op.material, op.expiresAt, op.refusal);
    if r.Success? {
      var n := |Hosts(s.credentials)|;
      var row := r.value.credentials[|s.credentials|];
      if op.protocol == WIREGUARD {
        IssuingFrom(s, op.device, op.material, op.expiresAt);
        assert row.tunnel == Some(FIRST_HOST + n);
      }
      OneMore(s.credentials, row);
    }
  }

  lemma {:induction false} AddressesKept(s: State, ops: seq<Op>)
    requires Distinct(s.credentials) && Dense(s.credentials)
    ensures Distinct(Run(s, ops).credentials) && Dense(Run(s, ops).credentials)
    ensures AnyRetired(s.credentials) ==>
              Hosts(Run(s, ops).credentials) == Hosts(s.credentials) && AnyRetired(Run(s, ops).credentials)
    ensures Run(s, ops).assignment.Keys == s.assignment.Keys
  {
    if ops != [] {
      AddressesKept(s, ops[..|ops| - 1]);
      AddressesKeptByStep(Run(s, ops[..|ops| - 1]), ops[|ops| - 1]);
    }
  }

  /** In every run, two live credentials have different addresses, from .2 to .254. */
  lemma LiveAddressesDistinct(devices: set<nat>, ops: seq<Op>, i: nat, j: nat)
    requires var rows := Run(Fresh(devices), ops).credentials; i < j < |rows| && !rows[i].revoked && !rows[j].revoked
    ensures var rows := Run(Fresh(devices), ops).credentials;
            rows[i].tunnel.Some? ==> rows[i].tunnel != rows[j].tunnel && FIRST_HOST <= rows[i].tunnel.value <= LAST_HOST
  {
    AddressesKept(Fresh(devices), ops);
  }

  /**
   * After any run, a WireGuard configuration that passes its checks is generated exactly when
   * no WireGuard credential has ever been revoked and fewer than 253 were issued. Its address
   * is then the next one. Freeing an address does not let it be issued again: the allocator
   * offers it, and the unique index, which covers revoked rows too, refuses it.
   */
  lemma IssuesExactlyWhileNothingRevoked(devices: set<nat>, ops: seq<Op>, device: nat, material: Text,
                                         expiresAt: Option<int>)
    requires device in devices
    ensures var s := Run(Fresh(devices), ops);
            var r := Generated(s, device, WIREGUARD, material, expiresAt, None);
            var n := |Hosts(s.credentials)|;
            && (r.Success? <==> !AnyRetired(s.credentials) && n < 253)
            && (r.Success? ==>
                  r.value.credentials
                  == s.credentials + [Credential(device, WIREGUARD_KEYPAIR, Some(2 + n), expiresAt, false)])
  {
    AddressesKept(Fresh(devices), ops);
    IssuingFrom(Run(Fresh(devices), ops), device, material, expiresAt);
  }

  /** One revoked address ends issuing for good: no later operation hands out another. */
  lemma RevocationEndsIssuing(devices: set<nat>, before: seq<Op>, after: seq<Op>, next: Op)
    requires AnyRetired(Run(Fresh(devices), before).credentials)
    ensures var s := Run(Run(Fresh(devices), before), after);
            !Issues(s, next) && Hosts(Apply(s, next).credentials) == Hosts(Run(Fresh(devices), before).credentials)
  {
    AddressesKept(Fresh(devices), before);
    AddressesKept(Run(Fresh(devices), before), after);
    var s := Run(Run(Fresh(devices), before), after);
    AddressesKeptByStep(s, next);
    if Issues(s, next) {
      IssuingFrom(s, next.device, next.material, next.expiresAt);
    }
  }

  /** The shortest such run: generate, revoke, and the next generation collides with the revoked row. */
  lemma SecondGenerationRefused(material: Text, expiresAt: Option<int>)
    ensures var first := Generate(0, WIREGUARD, material, expiresAt, None);
            var s := Run(Fresh({0}), [first, Revoke(0)]);
            && LiveHosts(s.credentials) == {} && Hosts(s.credentials) == {2}
            && Generated(s, 0, WIREGUARD, material, expiresAt, None) == Failure(Conflict)
  {
    var first := Generate(0, WIREGUARD, material, expiresAt, None);
    var start, ops := Fresh({0}), [first, Revoke(0)];
    assert ops[..1] == [first] && ops[..1][..0] == [];
    assert Run(start, ops[..1]) == Apply(start, first);
    FirstAddress({0}, material, expiresAt);
    var s := Apply(Apply(start, first), Revoke(0));
    assert Run(start, ops) == s;
    assert s.credentials == [Credential(0, WIREGUARD_KEYPAIR, Some(2), expiresAt, true)];
    assert s.credentials[0].tunnel == Some(2);
  }

  lemma FirstAddress(devices: set<nat>, material: Text, expiresAt: Option<int>)
    requires 0 in devices
    ensures var t := Apply(Fresh(devices), Generate(0, WIREGUARD, material, expiresAt, None));
            && t.credentials == [Credential(0, WIREGUARD_KEYPAIR, Some(2), expiresAt, false)]
            && t.configs
               == [Config(Some(0), ACTIVE, 1, expiresAt, Some(0), [Revision(1, Payload(Some(2), material), true)])]
  {
    var s := Fresh(devices);
    assert Hosts(s.credentials) == {};
    IssuingFrom(s, 0, material, expiresAt);
  }

  // -------------------------------------------------------------- the revisions

  predicate Chains(s: State) {
    forall id :: 0 <= id < |s.configs| ==> Chain(s.configs[id])
  }

  /** Configurations stay, and their revisions stay in order with the same number and payload. */
  predicate Extends(before: State, after: State) {
    && |before.configs| <= |after.configs|
    && forall id :: 0 <= id < |before.configs| ==> History(before.configs[id].revisions, after.configs[id].revisions)
  }

  predicate History(before: seq<Revision>, after: seq<Revision>) {
    && |before| <= |after|
    && forall k :: 0 <= k < |before| ==> after[k].version == before[k].version && after[k].payload == before[k].payload
  }

  lemma ChainsKeptByStep(s: State, op: Op)
    requires Chains(s)
    ensures Chains(Apply(s, op)) && Extends(s, Apply(s, op))
  {
    hide Find, MaxVersion, LeastFree, LiveHosts, Hosts, Lapsed, Outdated, Chains, Chain, Extends;
    match op
    case Generate(device, protocol, material, expiresAt, refusal) => ChainsKeptByGenerate(s, op);
    case Rollback(id, toVersion) => ChainsKeptByRollback(s, op);
    case _ => ChainsUntouched(s, op);
  }

  lemma ChainsKeptByGenerate(s: State, op: Op)
    requires Chains(s) && op.Generate?
    ensures Chains(Apply(s, op)) && Extends(s, Apply(s, op))
  {
    hide LeastFree, LiveHosts, Hosts;
  }

  lemma ChainsKeptByRollback(s: State, op: Op)
    requires Chains(s) && op.Rollback?
    ensures Chains(Apply(s, op)) && Extends(s, Apply(s, op))
  {
    hide Find, MaxVersion, RolledBack;
    if op.id < |s.configs| {
      RollbackExactly(s.configs[op.id], op.toVersion);
    }
  }

  /** The other operations write no revision. */
  lemma ChainsUntouched(s: State, op: Op)
    requires Chains(s) && !op.Generate? && !op.Rollback?
    ensures Chains(Apply(s, op)) && Extends(s, Apply(s, op))
  {
    hide Lapsed, Outdated, Chain;
    var t := Apply(s, op);
    forall id | 0 <= id < |s.configs|
      ensures Chain(t.configs[id]) && History(s.configs[id].revisions, t.configs[id].revisions)
    {
      assert Chain(s.configs[id]);
      SameChain(s.configs[id], t.configs[id]);
    }
  }

  lemma SameChain(a: Config, b: Config)
    requires Chain(a) && b.revisions == a.revisions && b.version == a.version && b.current == a.current
    ensures Chain(b)
  {
  }

  /**
   * Every run keeps every chain: contiguous numbers from 1, the configuration's number that of
   * its current revision, the last and only active one; and no stored revision changes.
   */
  lemma {:induction false} ChainsKept(s: State, ops: seq<Op>)
    requires Chains(s)
    ensures Chains(Run(s, ops)) && Extends(s, Run(s, ops))
  {
    if ops != [] {
      var before := Run(s, ops[..|ops| - 1]);
      ChainsKept(s, ops[..|ops| - 1]);
      ChainsKeptByStep(before, ops[|ops| - 1]);
      var after := Apply(before, ops[|ops| - 1]);
      forall id | 0 <= id < |s.configs| ensures History(s.configs[id].revisions, after.configs[id].revisions) {
        assert History(s.configs[id].revisions, before.configs[id].revisions);
        assert History(before.configs[id].revisions, after.configs[id].revisions);
      }
    }
  }

  predicate SingleRevisions(s: State) {
    forall id :: 0 <= id < |s.configs| ==> Chain(s.configs[id]) && |s.configs[id].revisions| == 1
  }

  lemma RollbackRefused(config: Config, toVersion: nat)
    requires Chain(config) && |config.revisions| == 1
    ensures RolledBack(config, toVersion).Failure?
  {
    RollbackExactly(config, toVersion);
  }

  /**
   * Nothing but a rollback ever adds a second revision, and a rollback needs two: in every
   * run from a new installation, every configuration has one revision and every rollback
   * is refused.
   */
  lemma {:induction false} NothingToRollBackTo(devices: set<nat>, ops: seq<Op>, id: nat, toVersion: nat)
    ensures var s := Run(Fresh(devices), ops);
            SingleRevisions(s) && (id < |s.configs| ==> RolledBack(s.configs[id], toVersion).Failure?)
  {
    if ops != [] {
      NothingToRollBackTo(devices, ops[..|ops| - 1], id, toVersion);
      SingleByStep(Run(Fresh(devices), ops[..|ops| - 1]), ops[|ops| - 1]);
    }
    var s := Run(Fresh(devices), ops);
    if id < |s.configs| {
      RollbackRefused(s.configs[id], toVersion);
    }
  }

  lemma SingleByStep(s: State, op: Op)
    requires SingleRevisions(s)
    ensures SingleRevisions(Apply(s, op))
  {
    ChainsKeptByStep(s, op);
    LengthByStep(s, op);
  }

  /** A step that is not a rollback adds no revision to a configuration it finds. */
  lemma LengthByStep(s: State, op: Op)
    requires SingleRevisions(s)
    ensures forall id :: 0 <= id < |Apply(s, op).configs| ==> |Apply(s, op).configs[id].revisions| == 1
  {
    hide Chain, Find, MaxVersion, LeastFree, LiveHosts, Hosts;
    if op.Rollback? && op.id < |s.configs| {
      RollbackRefused(s.configs[op.id], op.toVersion);
    }
  }

  // -------------------------------------------------------------- revoked is final?

  lemma RevokedKeptByStep(s: State, op: Op, id: nat)
    requires Chains(s) && id < |s.configs| && s.configs[id].status == REVOKED
    requires !(op.Expire? && op.id == id)
    ensures id < |Apply(s, op).configs| && Apply(s, op).configs[id] == s.configs[id]
  {
    if op.Rollback? && op.id == id {
      RollbackExactly(s.configs[id], op.toVersion);
    }
    if op.CleanConfigs? {
      OutdatedAreRows(s.configs, op.now);
    }
  }

  /** A revoked configuration stays as it is through every run that does not expire it by hand. */
  lemma {:induction false} RevokedStays(s: State, ops: seq<Op>, id: nat)
    requires Chains(s) && id < |s.configs| && s.configs[id].status == REVOKED
    requires forall k :: 0 <= k < |ops| ==> !(ops[k].Expire? && ops[k].id == id)
    ensures id < |Run(s, ops).configs| && Run(s, ops).configs[id] == s.configs[id]
  {
    if ops != [] {
      RevokedStays(s, ops[..|ops| - 1], id);
      ChainsKept(s, ops[..|ops| - 1]);
      RevokedKeptByStep(Run(s, ops[..|ops| - 1]), ops[|ops| - 1], id);
    }
  }

  /** Expiring a revoked configuration lifts the revocation: any earlier revision can be published again. */
  lemma ExpiryLiftsRevocation(s: State, id: nat, at: int, toVersion: nat)
    requires Chains(s) && id < |s.configs|
    ensures var t := Apply(Apply(s, Revoke(id)), Expire(id, at));
            && RolledBack(Apply(s, Revoke(id)).configs[id], toVersion).Failure?
            && (RolledBack(t.configs[id], toVersion).Success? <==> 1 <= toVersion < s.configs[id].version)
  {
    ChainsKeptByStep(s, Revoke(id));
    ChainsKeptByStep(Apply(s, Revoke(id)), Expire(id, at));
    RollbackExactly(Apply(s, Revoke(id)).configs[id], toVersion);
    RollbackExactly(Apply(Apply(s, Revoke(id)), Expire(id, at)).configs[id], toVersion);
  }

  /**
   * Revoking one configuration revokes every credential of its device, those of the device's
   * other configurations too, which themselves stay as they were; and it takes from the device
   * whichever configuration it was assigned. Other devices keep theirs.
   */
  lemma RevokeReachesDevice(s: State, id: nat)
    requires id < |s.configs| && s.configs[id].device.Some?
    ensures var device, t := s.configs[id].device.value, Apply(s, Revoke(id));
            && |t.credentials| == |s.credentials|
            && (forall i :: 0 <= i < |s.credentials| ==>
                  if s.credentials[i].device == device then t.credentials[i].revoked
                  else t.credentials[i] == s.credentials[i])
            && (forall other :: 0 <= other < |s.configs| && other != id ==> t.configs[other] == s.configs[other])
            && (device in s.assignment ==> t.assignment[device] == None)
            && (forall other :: other in s.assignment && other != device ==> t.assignment[other] == s.assignment[other])
  {
  }
}
