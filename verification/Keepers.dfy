/**
 The keeper and its message server, writing collection after collection. Each handler is proved
 against its function of the store; Deliver adds the SDK's roll-back.
 */
module Keepers {
  import opened Bytes
  import opened Walks
  import opened Types
  import opened Roles
  import opened Messages

  /** Once the id is known, adding a record is storing its version under that id. */
  lemma AddRecordSteps(env: Env, now: Str, s: State, sender: Addr, record: Record, s1: State, id: nat)
    requires ValidRecordFields(record) && record.registryId in s.registries
    requires MayWrite(env, s, sender, record.registryId, record.checksum)
    requires AssignRecordId(s, record.registryId, record.checksum) == Ok((s1, id))
    ensures var key, o := (record.registryId, record.checksum), PutVersion(now, s1, record, id);
            && DoAddRecord(env, now, s, sender, record) == o
            && (o.Ok? ==> key in o.value.idByRegSum && o.value.idByRegSum[key] == id)
  {
  }

  class Keeper {
    const env: Env
    var params: Params
    var registries: map<nat, Registry>
    var registryCount: nat
    var records: map<(nat, nat, nat), Record>
    var idByRegSum: map<(nat, Str), nat>
    var idBySumReg: map<(Str, nat), nat>
    var recordCounts: map<nat, nat>
    var latest: map<(nat, nat), nat>
    var roleAdmins: map<Role, Str>
    var roleMembers: map<(Role, Addr), Str>

    function View(): State
      reads this
    {
      State(params, registries, registryCount, records, idByRegSum, idBySumReg, recordCounts, latest,
            roleAdmins, roleMembers)
    }

    /** A keeper over the empty genesis. */
    constructor (env: Env, params: Params)
      ensures this.env == env && View() == EmptyState(params)
    {
      this.env, this.params := env, params;
      registries, registryCount, records, idByRegSum, idBySumReg := map[], 0, map[], map[], map[];
      recordCounts, latest, roleAdmins, roleMembers := map[], map[], map[], map[];
    }

    // ---- permissions ----

    /** checkRecordRoles and checkRegistryRoles for a list of role names. */
    method HasAnyRole(sender: Addr, scopes: seq<Scope>) returns (found: bool)
      ensures found <==> exists i :: 0 <= i < |scopes| && HasRole(View(), RoleOf(env, scopes[i]), sender)
    {
      for i := 0 to |scopes|
        invariant forall j :: 0 <= j < i ==> !HasRole(View(), RoleOf(env, scopes[j]), sender)
      {
        if (RoleOf(env, scopes[i]), sender) in roleMembers {
          return true;
        }
      }
      return false;
    }

    method CheckPermission(sender: Addr, r: nat, checksum: Str) returns (ok: bool)
      ensures ok <==> MayWrite(env, View(), sender, r, checksum)
    {
      ok := false;
      if checksum != [] {
        var scopes := [RecordScope(r, checksum, ADMIN), RecordScope(r, checksum, EDITOR)];
        ok := HasAnyRole(sender, scopes);
        assert HasRole(View(), RoleOf(env, scopes[0]), sender) ==> ok;
        assert HasRole(View(), RoleOf(env, scopes[1]), sender) ==> ok;
      }
      if !ok {
        var scopes := [RegistryScope(r, ADMIN), RegistryScope(r, EDITOR)];
        ok := HasAnyRole(sender, scopes);
        assert HasRole(View(), RoleOf(env, scopes[0]), sender) ==> ok;
        assert HasRole(View(), RoleOf(env, scopes[1]), sender) ==> ok;
      }
    }

    /** Walks the role's members and stops at the second. */
    method IsSoleAdmin(role: Role) returns (sole: bool)
      ensures sole <==> |MembersOf(View(), role)| == 1
    {
      var members := MembersOf(View(), role);
      WalkStrsExact(members);
      var ks := WalkStrs(members);
      var seen := 0;
      var stop := false;
      while seen < |ks| && !stop
        invariant 0 <= seen <= |ks| && (stop ==> seen >= 2) && (!stop ==> seen <= 1)
      {
        seen := seen + 1;
        stop := seen >= 2;
      }
      return seen == 1;
    }

    // ---- registries and records ----

    method AddRegistry(now: Str, sender: Addr, name: Str, description: Str, metadata: Str) returns (o: Result<nat>)
      modifies this
      ensures var spec := DoAddRegistry(env, now, old(View()), sender, name, description, metadata);
              && (o.Ok? <==> spec.Ok?) && (spec.Err? ==> o == Err(spec.error))
              && (spec.Ok? ==> View() == spec.value && o == Ok(View().registryCount))
    {
      if !ValidRegistryFields(name, description, metadata) {
        return Err(InvalidRequest);
      }
      var id := registryCount + 1;
      var registry := Registry(id, name, description, env.text(sender), now, metadata);
      registries := registries[id := registry];
      var adminRole := RoleOf(env, RegistryScope(id, ADMIN));
      roleAdmins := roleAdmins[adminRole := adminRole];
      match env.Account(env.text(sender)) {
        case None =>
          return Err(InvalidAddress);
        case Some(creator) =>
          roleMembers := roleMembers[(adminRole, creator) := []];
      }
      recordCounts := recordCounts[id := 0];
      registryCount := id;
      return Ok(id);
    }

    /** The first half of AddRecord: looks the checksum up, or gives it the next id. */
    method GetOrAssignId(r: nat, checksum: Str) returns (o: Result<nat>)
      modifies this
      ensures var spec := AssignRecordId(old(View()), r, checksum);
              && (o.Ok? <==> spec.Ok?) && (spec.Err? ==> o == Err(spec.error))
              && (spec.Ok? ==> View() == spec.value.0 && o == Ok(spec.value.1))
    {
      if (r, checksum) in idByRegSum {
        return Ok(idByRegSum[(r, checksum)]);
      }
      if r !in recordCounts {
        return Err(NotFound);
      }
      var id := recordCounts[r] + 1;
      recordCounts := recordCounts[r := id];
      idBySumReg := idBySumReg[(checksum, r) := id];
      idByRegSum := idByRegSum[(r, checksum) := id];
      return Ok(id);
    }

    /** The second half: stores the version and clears the mark of the one before. */
    method StoreVersion(now: Str, submitted: Record, id: nat) returns (o: Result<nat>)
      modifies this
      ensures var spec := PutVersion(now, old(View()), submitted, id);
              && (o.Ok? <==> spec.Ok?) && (spec.Err? ==> o == Err(spec.error))
              && (spec.Ok? ==> View() == spec.value && o == Ok(id))
    {
      var r := submitted.registryId;
      var index := 1;
      if (r, id) in latest {
        index := latest[(r, id)] + 1;
      }
      latest := latest[(r, id) := index];
      var record := submitted.(recordId := id, index := index, timestamp := now, isLatest := true);
      records := records[(r, id, index) := record];
      if index > 1 {
        if (r, id, index - 1) !in records {
          return Err(NotFound);
        }
        var previous := records[(r, id, index - 1)];
        records := records[(r, id, index - 1) := previous.(isLatest := false)];
      }
      return Ok(id);
    }

    method AddRecord(now: Str, sender: Addr, record: Record) returns (o: Result<nat>)
      modifies this
      ensures var spec := DoAddRecord(env, now, old(View()), sender, record);
              && (o.Ok? <==> spec.Ok?) && (spec.Err? ==> o == Err(spec.error))
              && (spec.Ok? ==> View() == spec.value)
      ensures o.Ok? ==> (record.registryId, record.checksum) in idByRegSum
                        && o.value == idByRegSum[(record.registryId, record.checksum)]
    {
      if !ValidRecordFields(record) {
        return Err(InvalidRequest);
      }
      if record.registryId !in registries {
        return Err(NotFound);
      }
      var permitted := CheckPermission(sender, record.registryId, record.checksum);
      if !permitted {
        return Err(Unauthorized);
      }
      ghost var before := View();
      var given := GetOrAssignId(record.registryId, record.checksum);
      if given.Err? {
        return given;
      }
      AddRecordSteps(env, now, before, sender, record, View(), given.value);
      o := StoreVersion(now, record, given.value);
    }

    method UpdateRecordStatus(sender: Addr, r: nat, id: nat, index: nat, status: Str) returns (o: Result<()>)
      modifies this
      ensures var spec := DoUpdateStatus(env, old(View()), sender, r, id, index, status);
              && (o.Ok? <==> spec.Ok?) && (spec.Err? ==> o == Err(spec.error))
              && (spec.Ok? ==> View() == spec.value)
    {
      if !ValidStatus(status) {
        return Err(InvalidRequest);
      }
      if (r, id, index) !in records {
        return Err(NotFound);
      }
      var record := records[(r, id, index)];
      var permitted := CheckPermission(sender, r, record.checksum);
      if !permitted {
        return Err(Unauthorized);
      }
      records := records[(r, id, index) := record.(status := status)];
      return Ok(());
    }

    // ---- roles ----

    /** RBACKeeper.GetRoleAdmin and HasRole: whether `who` may change `role`. */
    method CheckAdmin(role: Role, who: Addr) returns (o: Result<()>)
      ensures o == if role !in roleAdmins then Err(RoleAdminNotConfigured)
                   else if !HasRole(View(), ToHash(roleAdmins[role]), who) then Err(MissingRole) else Ok(())
    {
      if role !in roleAdmins {
        return Err(RoleAdminNotConfigured);
      }
      if (ToHash(roleAdmins[role]), who) !in roleMembers {
        return Err(MissingRole);
      }
      return Ok(());
    }

    /** Sets the role's admin first, then checks the granter unless the caller already may. */
    method GrantTo(target: Role, adminRole: Role, unchecked: bool, granter: Addr, grantee: Addr) returns (o: Result<()>)
      modifies this
      ensures var spec := GrantAs(old(View()), target, adminRole, unchecked, granter, grantee);
              && (o.Ok? <==> spec.Ok?) && (spec.Err? ==> o == Err(spec.error))
              && (spec.Ok? ==> View() == spec.value)
    {
      roleAdmins := roleAdmins[target := adminRole];
      if unchecked {
        roleMembers := roleMembers[(target, grantee) := []];
        return Ok(());
      }
      o := CheckAdmin(target, granter);
      if o.Ok? {
        roleMembers := roleMembers[(target, grantee) := []];
      }
    }

    method GrantRole(admin: Str, granter: Addr, r: nat, checksum: Str, grantee: Addr, role: Str) returns (o: Result<()>)
      modifies this
      ensures var spec := DoGrant(env, old(View()), admin, granter, r, checksum, grantee, role);
              && (o.Ok? <==> spec.Ok?) && (spec.Err? ==> o == Err(spec.error))
              && (spec.Ok? ==> View() == spec.value)
    {
      if !ScopeExists(View(), r, checksum) {
        return Err(NotFound);
      }
      var target := RoleOf(env, ScopeOf(r, checksum, role));
      var adminRole := RoleOf(env, RegistryScope(r, ADMIN));
      o := GrantTo(target, adminRole, BreaksGlass(View(), admin, r, checksum, role), granter, grantee);
    }

    /** Refuses to take a role nobody has given, or the last member of a guarded role. */
    method RevokeFrom(target: Role, adminRole: Role, guarded: bool, revoker: Addr, revokee: Addr)
      returns (o: Result<()>)
      modifies this
      ensures var spec := RevokeAs(old(View()), target, adminRole, guarded, revoker, revokee);
              && (o.Ok? <==> spec.Ok?) && (spec.Err? ==> o == Err(spec.error))
              && (spec.Ok? ==> View() == spec.value)
    {
      if (target, revokee) !in roleMembers {
        return Err(InvalidRequest);
      }
      if guarded {
        var sole := IsSoleAdmin(adminRole);
        if sole {
          return Err(InvalidRequest);
        }
      }
      o := CheckAdmin(target, revoker);
      if o.Ok? {
        roleMembers := roleMembers - {(target, revokee)};
      }
    }

    method RevokeRole(revoker: Addr, r: nat, checksum: Str, revokee: Addr, role: Str) returns (o: Result<()>)
      modifies this
      ensures var spec := DoRevoke(env, old(View()), revoker, r, checksum, revokee, role);
              && (o.Ok? <==> spec.Ok?) && (spec.Err? ==> o == Err(spec.error))
              && (spec.Ok? ==> View() == spec.value)
    {
      if !ScopeExists(View(), r, checksum) {
        return Err(NotFound);
      }
      var target := RoleOf(env, ScopeOf(r, checksum, role));
      var adminRole := RoleOf(env, RegistryScope(r, ADMIN));
      o := RevokeFrom(target, adminRole, IsAdminRole(r, checksum, role), revoker, revokee);
    }

    method UpdateParams(authority: Str, newAdmin: Str) returns (o: Result<()>)
      modifies this
      ensures var spec := DoUpdateParams(env, old(View()), authority, newAdmin);
              && (o.Ok? <==> spec.Ok?) && (spec.Err? ==> o == Err(spec.error))
              && (spec.Ok? ==> View() == spec.value)
    {
      if env.Account(authority).None? {
        return Err(InvalidAddress);
      }
      if authority != params.admin {
        return Err(Unauthorized);
      }
      var updated := params;
      if newAdmin != [] {
        updated := updated.(admin := newAdmin);
      }
      if env.Account(updated.admin).None? {
        return Err(InvalidRequest);
      }
      params := updated;
      return Ok(());
    }

    // ---- one transaction ----

    /** The message server's dispatch, with each message's ValidateBasic. */
    method Dispatch(tx: Tx) returns (ok: bool)
      modifies this
      ensures ok <==> Handle(env, old(View()), tx).Ok?
      ensures ok ==> View() == Handle(env, old(View()), tx).value
    {
      ok := false;
      match tx.msg
      case AddRegistry(sender, name, description, metadata) =>
        if env.Account(sender).Some? && ValidRegistryFields(name, description, metadata) {
          var o := AddRegistry(tx.now, env.Account(sender).value, name, description, metadata);
          ok := o.Ok?;
        }
      case AddRecord(sender, record) =>
        if env.Account(sender).Some? && ValidRecordFields(record) {
          var o := AddRecord(tx.now, env.Account(sender).value, record);
          ok := o.Ok?;
        }
      case UpdateRecordStatus(editor, r, id, index, status) =>
        if env.Account(editor).Some? && id != 0 && ValidStatus(status) && r != 0 && index != 0 {
          var o := UpdateRecordStatus(env.Account(editor).value, r, id, index, status);
          ok := o.Ok?;
        }
      case GrantRole(admin, r, checksum, address, role) =>
        if ValidRoleRequest(env, admin, r, checksum, address, role) {
          var o := GrantRole(admin, env.Account(admin).value, r, checksum, env.Account(address).value, role);
          ok := o.Ok?;
        }
      case RevokeRole(admin, r, checksum, address, role) =>
        if ValidRoleRequest(env, admin, r, checksum, address, role) {
          var o := RevokeRole(env.Account(admin).value, r, checksum, env.Account(address).value, role);
          ok := o.Ok?;
        }
      case UpdateParams(authority, newAdmin) =>
        var o := UpdateParams(authority, newAdmin);
        ok := o.Ok?;
    }

    /** A transaction over a cached store: a failed message leaves no trace. */
    method DeliverTx(tx: Tx) returns (ok: bool)
      modifies this
      ensures View() == Deliver(env, old(View()), tx)
    {
      var before := View();
      ok := Dispatch(tx);
      if !ok {
        params, registries := before.params, before.registries;
        registryCount, records := before.registryCount, before.records;
        idByRegSum, idBySumReg, recordCounts := before.idByRegSum, before.idBySumReg, before.recordCounts;
        latest, roleAdmins, roleMembers := before.latest, before.roleAdmins, before.roleMembers;
      }
    }

    /** A run of transactions. */
    method DeliverAll(txs: seq<Tx>)
      modifies this
      ensures View() == Run(env, old(View()), txs)
    {
      for i := 0 to |txs|
        invariant View() == Run(env, old(View()), txs[..i])
      {
        var ok := DeliverTx(txs[i]);
        assert txs[..i + 1][..i] == txs[..i];
      }
      assert txs[..|txs|] == txs;
    }
  }
}
