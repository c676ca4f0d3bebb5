/** Exactly which messages are accepted, in terms of the message's bytes and of who holds which role. */
module Acceptance {
  import opened Bytes
  import opened Types
  import opened Roles
  import opened Messages
  import opened Bookkeeping
  import opened Access
  import opened History

  ghost predicate Between(s: Str, lo: nat, hi: nat) { lo <= |s| <= hi }

  ghost predicate Readable(env: Env, address: Str) { address != [] && env.bech32(address).Some? }

  ghost predicate RegistryText(name: Str, description: Str, metadata: Str) {
    Between(name, 1, 128) && Between(description, 0, 2048) && Between(metadata, 0, 2048)
  }

  ghost predicate RecordText(e: Record) {
    && Between(e.checksum, 1, 64) && Between(e.checksumAlgo, 1, 128) && Between(e.uri, 1, 2048)
    && Between(e.metadata, 1, 2048) && e.metadata != [123, 125] && Between(e.status, 1, 64)
  }

  /** The scope a role request names: a checksum's when one is given, else the registry's. */
  ghost function Target(r: nat, checksum: Str, role: Str): Scope {
    if checksum == [] then RegistryScope(r, role) else RecordScope(r, checksum, role)
  }

  ghost predicate RoleText(env: Env, admin: Str, r: nat, checksum: Str, address: Str, role: Str) {
    Readable(env, admin) && Readable(env, address) && r > 0 && Between(checksum, 0, 64) && role != []
  }

  // ---- registries and records ----

  lemma AddRegistryAccepted(env: Env, s: State, tx: Tx)
    requires tx.msg.AddRegistry?
    ensures var m := tx.msg;
      Handle(env, s, tx).Ok? <==>
        && Readable(env, m.sender) && RegistryText(m.name, m.description, m.metadata)
        && Readable(env, env.text(env.bech32(m.sender).value))
  {
  }

  /** An accepted registry gets the next id and a zero counter, and its creator is its only new member, as admin. */
  lemma AddRegistryStores(env: Env, s: State, tx: Tx)
    requires tx.msg.AddRegistry? && Handle(env, s, tx).Ok?
    ensures var m, t := tx.msg, Deliver(env, s, tx);
      var creator := env.text(env.bech32(m.sender).value);
      var id, admin := s.registryCount + 1, env.keccak(Identifier(RegistryScope(s.registryCount + 1, ADMIN)));
      && t.registryCount == id && t.params == s.params
      && t.registries.Keys == s.registries.Keys + {id}
      && t.registries[id].id == id && t.registries[id].name == m.name && t.registries[id].description == m.description
      && t.registries[id].metadata == m.metadata && t.registries[id].creator == creator
      && t.registries[id].createdAt == tx.now
      && (forall r :: r in s.registries && r != id ==> t.registries[r] == s.registries[r])
      && t.recordCounts == s.recordCounts[id := 0] && t.roleAdmins == s.roleAdmins[admin := admin]
      && t.roleMembers == s.roleMembers[(admin, env.bech32(creator).value) := []]
      && t.records == s.records && t.latest == s.latest
      && t.idByRegSum == s.idByRegSum && t.idBySumReg == s.idBySumReg
  {
    AddRegistryEffect(env, s, tx);
  }

  lemma RecordTextIsValid(e: Record)
    ensures ValidRecordFields(e) <==> RecordText(e) && e.registryId > 0
  {
  }

  /** Storing the version cannot fail in a consistent store. */
  lemma KnownVersionPuts(env: Env, now: Str, s: State, e: Record)
    requires Consistent(env, s) && (e.registryId, e.checksum) in s.idByRegSum
    ensures PutVersion(now, s, e, s.idByRegSum[(e.registryId, e.checksum)]).Ok?
  {
    var r, id := e.registryId, s.idByRegSum[(e.registryId, e.checksum)];
    KnownId(env, s, r, e.checksum, id);
    assert (r, id, s.latest[(r, id)]) in s.records;
  }

  lemma FreshVersionPuts(env: Env, now: Str, s: State, e: Record)
    requires Consistent(env, s) && e.registryId in s.registries && (e.registryId, e.checksum) !in s.idByRegSum
    ensures var o := AssignRecordId(s, e.registryId, e.checksum);
      o.Ok? && PutVersion(now, o.value.0, e, o.value.1).Ok?
  {
    var r := e.registryId;
    assert r in s.recordCounts;
    FreshId(env, s, r, s.recordCounts[r] + 1);
  }

  lemma AddRecordAcceptedBy(env: Env, now: Str, s: State, a: Addr, e: Record)
    requires Consistent(env, s)
    ensures DoAddRecord(env, now, s, a, e).Ok? <==>
      RecordText(e) && e.registryId in s.registries && Writer(env, s, a, e.registryId, e.checksum)
    ensures DoAddRecord(env, now, s, a, e) == Err(Unauthorized) <==>
      RecordText(e) && e.registryId in s.registries && !Writer(env, s, a, e.registryId, e.checksum)
  {
    RecordTextIsValid(e);
    if ValidRecordFields(e) && e.registryId in s.registries {
      MayWriteIsWriter(env, s, a, e.registryId, e.checksum);
      if (e.registryId, e.checksum) in s.idByRegSum {
        KnownVersionPuts(env, now, s, e);
      } else {
        FreshVersionPuts(env, now, s, e);
      }
    }
  }

  /** A record is accepted exactly from a writer, well formed, for a registry there is; others are unauthorised. */
  lemma AddRecordAccepted(env: Env, s: State, tx: Tx)
    requires Consistent(env, s) && tx.msg.AddRecord?
    ensures var m, e := tx.msg, tx.msg.record;
      var fit := Readable(env, m.sender) && RecordText(e) && e.registryId in s.registries;
      && (Handle(env, s, tx).Ok? <==>
            fit && Writer(env, s, env.bech32(m.sender).value, e.registryId, e.checksum))
      && (Handle(env, s, tx) == Err(Unauthorized) <==>
            fit && !Writer(env, s, env.bech32(m.sender).value, e.registryId, e.checksum))
  {
    RecordTextIsValid(tx.msg.record);
    if Readable(env, tx.msg.sender) {
      AddRecordAcceptedBy(env, tx.now, s, env.bech32(tx.msg.sender).value, tx.msg.record);
    }
  }

  lemma UpdateStatusAcceptedBy(env: Env, s: State, a: Addr, k: (nat, nat, nat), status: Str)
    requires k in s.records ==> s.records[k].checksum != []
    ensures var o := DoUpdateStatus(env, s, a, k.0, k.1, k.2, status);
      && (o.Ok? <==> Between(status, 1, 64) && k in s.records && Writer(env, s, a, k.0, s.records[k].checksum))
      && (o == Err(Unauthorized) <==>
            Between(status, 1, 64) && k in s.records && !Writer(env, s, a, k.0, s.records[k].checksum))
  {
    if k in s.records { MayWriteIsWriter(env, s, a, k.0, s.records[k].checksum); }
  }

  /** A status is changed exactly by a writer of the version's checksum; without the role it is unauthorised. */
  lemma UpdateStatusAccepted(env: Env, s: State, tx: Tx)
    requires Consistent(env, s) && tx.msg.UpdateRecordStatus?
    ensures var m := tx.msg; var k := (m.registryId, m.recordId, m.index);
      var fit := && Readable(env, m.editor) && m.registryId > 0 && m.recordId > 0 && m.index > 0
                 && Between(m.status, 1, 64) && k in s.records;
      && (Handle(env, s, tx).Ok? <==>
            fit && Writer(env, s, env.bech32(m.editor).value, k.0, s.records[k].checksum))
      && (Handle(env, s, tx) == Err(Unauthorized) <==>
            fit && !Writer(env, s, env.bech32(m.editor).value, k.0, s.records[k].checksum))
  {
    var m := tx.msg;
    var k := (m.registryId, m.recordId, m.index);
    if Readable(env, m.editor) {
      if k in s.records { StoredChecksum(env, s, k); }
      UpdateStatusAcceptedBy(env, s, env.bech32(m.editor).value, k, m.status);
    }
  }

  /** What is wrong with a record that is not accepted. */
  lemma AddRecordRefused(env: Env, s: State, tx: Tx)
    requires Consistent(env, s) && tx.msg.AddRecord?
    ensures var m, e := tx.msg, tx.msg.record;
      var wellFormed := Readable(env, m.sender) && RecordText(e) && e.registryId > 0;
      && (Handle(env, s, tx) == Err(InvalidRequest) <==> !wellFormed)
      && (Handle(env, s, tx) == Err(NotFound) <==> wellFormed && e.registryId !in s.registries)
  {
    RecordTextIsValid(tx.msg.record);
    if Readable(env, tx.msg.sender) {
      AddRecordAcceptedBy(env, tx.now, s, env.bech32(tx.msg.sender).value, tx.msg.record);
    }
  }

  lemma UpdateStatusRefused(env: Env, s: State, tx: Tx)
    requires tx.msg.UpdateRecordStatus?
    ensures var m := tx.msg; var k := (m.registryId, m.recordId, m.index);
      var wellFormed := && Readable(env, m.editor) && m.registryId > 0 && m.recordId > 0 && m.index > 0
                        && Between(m.status, 1, 64);
      && (Handle(env, s, tx) == Err(InvalidRequest) <==> !wellFormed)
      && (Handle(env, s, tx) == Err(NotFound) <==> wellFormed && k !in s.records)
  {
  }

  // ---- roles ----

  lemma TargetIsScope(r: nat, checksum: Str, role: Str)
    requires r > 0
    ensures Target(r, checksum, role) == ScopeOf(r, checksum, role)
  {
  }

  lemma HashOfHash(h: Hash)
    ensures ToHash(h) == h
  {
    assert h[0..] == h;
  }

  /** A grant is accepted exactly from the registry's admin, or from the module admin adding a registry admin. */
  lemma GrantAccepted(env: Env, s: State, tx: Tx)
    requires tx.msg.GrantRole?
    ensures var m := tx.msg; var target := Target(m.registryId, m.checksum, m.role);
      Handle(env, s, tx).Ok? <==>
        && RoleText(env, m.admin, m.registryId, m.checksum, m.address, m.role) && Live(s, target)
        && (|| Holds(env, s, RegistryScope(m.registryId, ADMIN), env.bech32(m.admin).value)
            || (target == RegistryScope(m.registryId, ADMIN) && m.admin == s.params.admin))
  {
    HashOfHash(RoleOf(env, RegistryScope(tx.msg.registryId, ADMIN)));
  }

  lemma DoGrantRefused(env: Env, s: State, admin: Str, granter: Addr, r: nat, checksum: Str, grantee: Addr, role: Str)
    requires r > 0
    ensures var o := DoGrant(env, s, admin, granter, r, checksum, grantee, role);
      && o != Err(InvalidRequest) && (o == Err(NotFound) <==> !Live(s, Target(r, checksum, role)))
      && (Live(s, Target(r, checksum, role)) && o.Err? ==> o == Err(MissingRole))
  {
  }

  lemma GrantRefused(env: Env, s: State, tx: Tx)
    requires tx.msg.GrantRole?
    ensures var m := tx.msg; var target := Target(m.registryId, m.checksum, m.role);
      var wellFormed := RoleText(env, m.admin, m.registryId, m.checksum, m.address, m.role);
      && (Handle(env, s, tx) == Err(InvalidRequest) <==> !wellFormed)
      && (Handle(env, s, tx) == Err(NotFound) <==> wellFormed && !Live(s, target))
      && (wellFormed && Live(s, target) && Handle(env, s, tx).Err? ==> Handle(env, s, tx) == Err(MissingRole))
  {
    var m := tx.msg;
    if RoleText(env, m.admin, m.registryId, m.checksum, m.address, m.role) {
      DoGrantRefused(env, s, m.admin, env.bech32(m.admin).value, m.registryId, m.checksum,
                     env.bech32(m.address).value, m.role);
    }
  }

  /** It gives the account the target's role, under the registry's admin role, and changes nothing else. */
  lemma GrantStores(env: Env, s: State, tx: Tx)
    requires tx.msg.GrantRole? && Handle(env, s, tx).Ok?
    ensures var m := tx.msg;
      var role := env.keccak(Identifier(Target(m.registryId, m.checksum, m.role)));
      var admin := env.keccak(Identifier(RegistryScope(m.registryId, ADMIN)));
      Deliver(env, s, tx) == s.(roleAdmins := s.roleAdmins[role := admin],
                                roleMembers := s.roleMembers[(role, env.bech32(m.address).value) := []])
  {
    GrantEffect(env, s, tx);
    TargetIsScope(tx.msg.registryId, tx.msg.checksum, tx.msg.role);
  }

  /** The only holder of the scope's role is a. */
  ghost predicate OnlyHolder(env: Env, s: State, scope: Scope, a: Addr) {
    forall b :: Holds(env, s, scope, b) <==> b == a
  }

  lemma SoleMember(env: Env, s: State, scope: Scope, a: Addr)
    requires Holds(env, s, scope, a)
    ensures |MembersOf(s, RoleOf(env, scope))| == 1 <==> OnlyHolder(env, s, scope, a)
  {
    var role := RoleOf(env, scope);
    var members := MembersOf(s, role);
    assert (role, a).1 in members;
    if |members| == 1 {
      assert |members - {a}| == 0;
      forall b ensures Holds(env, s, scope, b) <==> b == a {
        if Holds(env, s, scope, b) { assert (role, b).1 in members; }
      }
    }
    if OnlyHolder(env, s, scope, a) {
      forall b ensures b in members <==> b == a {
        if b in members { assert Holds(env, s, scope, b); }
      }
      assert members == {a};
    }
  }

  /** A revocation is accepted exactly from the role's configured admin, for a holder who is not the last admin. */
  lemma RevokeAccepted(env: Env, s: State, tx: Tx)
    requires tx.msg.RevokeRole?
    ensures var m := tx.msg; var target := Target(m.registryId, m.checksum, m.role);
      var role := env.keccak(Identifier(target));
      Handle(env, s, tx).Ok? <==>
        && RoleText(env, m.admin, m.registryId, m.checksum, m.address, m.role) && Live(s, target)
        && Holds(env, s, target, env.bech32(m.address).value)
        && !(target == RegistryScope(m.registryId, ADMIN) && OnlyHolder(env, s, target, env.bech32(m.address).value))
        && role in s.roleAdmins && (ToHash(s.roleAdmins[role]), env.bech32(m.admin).value) in s.roleMembers
  {
    var m := tx.msg;
    var target := Target(m.registryId, m.checksum, m.role);
    if Readable(env, m.address) && Holds(env, s, target, env.bech32(m.address).value) {
      SoleMember(env, s, target, env.bech32(m.address).value);
    }
  }

  lemma RevokeRefused(env: Env, s: State, tx: Tx)
    requires tx.msg.RevokeRole?
    ensures var m := tx.msg; var target := Target(m.registryId, m.checksum, m.role);
      var wellFormed := RoleText(env, m.admin, m.registryId, m.checksum, m.address, m.role);
      && (Handle(env, s, tx) == Err(NotFound) <==> wellFormed && !Live(s, target))
      && (Handle(env, s, tx) == Err(InvalidRequest) <==>
            || !wellFormed
            || (Live(s, target)
                && (|| !Holds(env, s, target, env.bech32(m.address).value)
                    || (target == RegistryScope(m.registryId, ADMIN)
                        && OnlyHolder(env, s, target, env.bech32(m.address).value)))))
  {
    var m := tx.msg;
    var target := Target(m.registryId, m.checksum, m.role);
    if Readable(env, m.address) && Holds(env, s, target, env.bech32(m.address).value) {
      SoleMember(env, s, target, env.bech32(m.address).value);
    }
  }

  lemma HeldIsConfigured(env: Env, scopes: set<Scope>, s: State, scope: Scope, a: Addr)
    requires RolesSound(env, scopes, s) && CollisionFree(env, scopes) && scope in scopes && Holds(env, s, scope, a)
    ensures var role := env.keccak(Identifier(scope));
      role in s.roleAdmins
      && ToHash(s.roleAdmins[role]) == env.keccak(Identifier(RegistryScope(scope.registry, ADMIN)))
  {
    assert (RoleOf(env, scope), a).0 in s.roleAdmins;
    AdminOfRole(env, scopes, s, scope);
  }

  lemma RevokeByAdmin(env: Env, scopes: set<Scope>, s: State, tx: Tx, target: Scope)
    requires tx.msg.RevokeRole? && RolesSound(env, scopes, s) && CollisionFree(env, scopes) && target in scopes
    requires target == Target(tx.msg.registryId, tx.msg.checksum, tx.msg.role)
    ensures var m := tx.msg;
      Handle(env, s, tx).Ok? <==>
        && RoleText(env, m.admin, m.registryId, m.checksum, m.address, m.role) && Live(s, target)
        && Holds(env, s, target, env.bech32(m.address).value)
        && !(target == RegistryScope(m.registryId, ADMIN) && OnlyHolder(env, s, target, env.bech32(m.address).value))
        && Holds(env, s, RegistryScope(m.registryId, ADMIN), env.bech32(m.admin).value)
  {
    var m := tx.msg;
    RevokeAccepted(env, s, tx);
    if Readable(env, m.address) && Holds(env, s, target, env.bech32(m.address).value) {
      HeldIsConfigured(env, scopes, s, target, env.bech32(m.address).value);
    }
  }

  /** In a run the configured admin is the registry's admin role. */
  lemma RunsRevoke(env: Env, params: Params, txs: seq<Tx>, tx: Tx)
    requires tx.msg.RevokeRole? && CollisionFree(env, RunScopes(env, EmptyState(params), txs + [tx]))
    ensures var s, m := Run(env, EmptyState(params), txs), tx.msg;
      var target := Target(m.registryId, m.checksum, m.role);
      Handle(env, s, tx).Ok? <==>
        && RoleText(env, m.admin, m.registryId, m.checksum, m.address, m.role) && Live(s, target)
        && Holds(env, s, target, env.bech32(m.address).value)
        && !(target == RegistryScope(m.registryId, ADMIN) && OnlyHolder(env, s, target, env.bech32(m.address).value))
        && Holds(env, s, RegistryScope(m.registryId, ADMIN), env.bech32(m.admin).value)
  {
    var s, m := Run(env, EmptyState(params), txs), tx.msg;
    var scopes := RunScopes(env, EmptyState(params), txs + [tx]);
    assert (txs + [tx])[..|txs|] == txs;
    RunsKeepRoles(env, params, txs, scopes);
    if m.registryId > 0 {
      var target := Target(m.registryId, m.checksum, m.role);
      TargetIsScope(m.registryId, m.checksum, m.role);
      assert target in Mentioned(s, tx) && target in scopes;
      RevokeByAdmin(env, scopes, s, tx, target);
    }
  }

  /** It takes the target's role from the account and changes nothing else. */
  lemma RevokeStores(env: Env, s: State, tx: Tx)
    requires tx.msg.RevokeRole? && Handle(env, s, tx).Ok?
    ensures var m := tx.msg;
      var role := env.keccak(Identifier(Target(m.registryId, m.checksum, m.role)));
      Deliver(env, s, tx) == s.(roleMembers := s.roleMembers - {(role, env.bech32(m.address).value)})
  {
    RevokeEffect(env, s, tx);
    TargetIsScope(tx.msg.registryId, tx.msg.checksum, tx.msg.role);
  }

  // ---- parameters ----

  /** Only the current admin's update is accepted, and it stores the admin sent, if any. */
  lemma UpdateParamsAccepted(env: Env, s: State, tx: Tx)
    requires tx.msg.UpdateParams?
    ensures var m := tx.msg;
      Handle(env, s, tx).Ok? <==>
        Readable(env, m.authority) && m.authority == s.params.admin && (m.newAdmin == [] || Readable(env, m.newAdmin))
    ensures Handle(env, s, tx).Ok? ==>
      Deliver(env, s, tx) == if tx.msg.newAdmin == [] then s else s.(params := Params(tx.msg.newAdmin))
  {
  }

  /** No message but the current admin's update changes the parameters, and then to the admin sent. */
  lemma OnlyTheAdminChangesParams(env: Env, s: State, tx: Tx)
    requires Deliver(env, s, tx).params != s.params
    ensures tx.msg.UpdateParams? && tx.msg.authority == s.params.admin && tx.msg.newAdmin != []
    ensures Deliver(env, s, tx).params == Params(tx.msg.newAdmin) && Readable(env, tx.msg.newAdmin)
  {
    if tx.msg.UpdateParams? { UpdateParamsAccepted(env, s, tx); }
  }
}
