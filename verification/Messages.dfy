/**
 The message handlers as functions of the store. A handler that fails returns an error and the
 store is then left as it was: the SDK rolls the transaction back.
 */
module Messages {
  import opened Bytes
  import opened Types
  import opened Roles

  datatype Msg =
    | AddRegistry(sender: Str, name: Str, description: Str, metadata: Str)
    | AddRecord(sender: Str, record: Record)
    | UpdateRecordStatus(editor: Str, registryId: nat, recordId: nat, index: nat, status: Str)
    | GrantRole(admin: Str, registryId: nat, checksum: Str, address: Str, role: Str)
    | RevokeRole(admin: Str, registryId: nat, checksum: Str, address: Str, role: Str)
    | UpdateParams(authority: Str, newAdmin: Str)

  /** A message and the block time, printed, of the block that carries it. */
  datatype Tx = Tx(now: Str, msg: Msg)

  // ---- permissions ----

  predicate HasRole(s: State, role: Role, a: Addr) {
    (role, a) in s.roleMembers
  }

  predicate HasRegistryRole(env: Env, s: State, a: Addr, r: nat, role: Str) {
    HasRole(s, RoleOf(env, RegistryScope(r, role)), a)
  }

  predicate HasRecordRole(env: Env, s: State, a: Addr, r: nat, checksum: Str, role: Str) {
    HasRole(s, RoleOf(env, RecordScope(r, checksum, role)), a)
  }

  /** checkPermission for the roles admin and editor. */
  predicate MayWrite(env: Env, s: State, a: Addr, r: nat, checksum: Str) {
    || (checksum != []
        && (HasRecordRole(env, s, a, r, checksum, ADMIN) || HasRecordRole(env, s, a, r, checksum, EDITOR)))
    || HasRegistryRole(env, s, a, r, ADMIN) || HasRegistryRole(env, s, a, r, EDITOR)
  }

  predicate IsRecordRole(r: nat, checksum: Str) {
    r != 0 && checksum != []
  }

  function ScopeOf(r: nat, checksum: Str, role: Str): Scope {
    if IsRecordRole(r, checksum) then RecordScope(r, checksum, role) else RegistryScope(r, role)
  }

  /** ensureRoleScopeExists: the registry is there, and so is the checksum if one is named. */
  predicate ScopeExists(s: State, r: nat, checksum: Str) {
    r in s.registries && (IsRecordRole(r, checksum) ==> (checksum, r) in s.idBySumReg)
  }

  /** BytesToHash: the last 32 bytes, zero-padded on the left. */
  function ToHash(b: Str): Hash {
    if |b| >= 32 then b[|b| - 32..] else Zeros(32 - |b|) + b
  }

  function MembersOf(s: State, role: Role): set<Addr> {
    set k | k in s.roleMembers && k.0 == role :: k.1
  }

  /** From s to t no role and no registry changed, and no checksum was lost. */
  ghost predicate RolesUntouched(s: State, t: State) {
    && t.roleAdmins == s.roleAdmins && t.roleMembers == s.roleMembers && t.registries == s.registries
    && (forall k :: k in s.idBySumReg ==> k in t.idBySumReg)
  }

  // ---- handlers ----

  function DoAddRegistry(env: Env, now: Str, s: State, sender: Addr, name: Str, description: Str,
                         metadata: Str): (o: Result<State>)
    ensures o.Ok? ==> o.value.params == s.params
  {
    if !ValidRegistryFields(name, description, metadata) then Err(InvalidRequest) else
    var id := s.registryCount + 1;
    var registry := Registry(id, name, description, env.text(sender), now, metadata);
    var adminRole := RoleOf(env, RegistryScope(id, ADMIN));
    match env.Account(env.text(sender))
    case None => Err(InvalidAddress)
    case Some(creator) =>
      Ok(s.(registries := s.registries[id := registry],
            roleAdmins := s.roleAdmins[adminRole := adminRole],
            roleMembers := s.roleMembers[(adminRole, creator) := []],
            recordCounts := s.recordCounts[id := 0],
            registryCount := id))
  }

  /** The record id a checksum gets, with the counter and both checksum indexes after it. */
  function AssignRecordId(s: State, r: nat, checksum: Str): (o: Result<(State, nat)>)
    ensures o.Ok? ==> RolesUntouched(s, o.value.0) && o.value.0.params == s.params
  {
    if (r, checksum) in s.idByRegSum then Ok((s, s.idByRegSum[(r, checksum)])) else
    if r !in s.recordCounts then Err(NotFound) else
    var id := s.recordCounts[r] + 1;
    Ok((s.(recordCounts := s.recordCounts[r := id],
           idBySumReg := s.idBySumReg[(checksum, r) := id],
           idByRegSum := s.idByRegSum[(r, checksum) := id]),
        id))
  }

  /** Stores `record` as the next version of record `id` and clears the mark of the one before. */
  function PutVersion(now: Str, s: State, record: Record, id: nat): (o: Result<State>)
    ensures o.Ok? ==> RolesUntouched(s, o.value) && o.value.params == s.params
  {
    var r := record.registryId;
    var index := if (r, id) in s.latest then s.latest[(r, id)] + 1 else 1;
    var stored := record.(recordId := id, index := index, timestamp := now, isLatest := true);
    var s1 := s.(latest := s.latest[(r, id) := index],
                 records := s.records[(r, id, index) := stored]);
    if index <= 1 then Ok(s1) else
    if (r, id, index - 1) !in s1.records then Err(NotFound) else
    var previous := s1.records[(r, id, index - 1)];
    Ok(s1.(records := s1.records[(r, id, index - 1) := previous.(isLatest := false)]))
  }

  function DoAddRecord(env: Env, now: Str, s: State, sender: Addr, record: Record): (o: Result<State>)
    ensures o.Ok? ==> RolesUntouched(s, o.value) && o.value.params == s.params
  {
    if !ValidRecordFields(record) then Err(InvalidRequest) else
    if record.registryId !in s.registries then Err(NotFound) else
    if !MayWrite(env, s, sender, record.registryId, record.checksum) then Err(Unauthorized) else
    match AssignRecordId(s, record.registryId, record.checksum)
    case Err(e) => Err(e)
    case Ok((s1, id)) => PutVersion(now, s1, record, id)
  }

  function DoUpdateStatus(env: Env, s: State, sender: Addr, r: nat, id: nat, index: nat,
                          status: Str): (o: Result<State>)
    ensures o.Ok? ==> RolesUntouched(s, o.value) && o.value.params == s.params
  {
    if !ValidStatus(status) then Err(InvalidRequest) else
    if (r, id, index) !in s.records then Err(NotFound) else
    var record := s.records[(r, id, index)];
    if !MayWrite(env, s, sender, r, record.checksum) then Err(Unauthorized) else
    Ok(s.(records := s.records[(r, id, index) := record.(status := status)]))
  }

  /** RBACKeeper.GrantRole: the granter needs the admin role configured for `role`. */
  function CheckedGrant(s: State, role: Role, grantee: Addr, granter: Addr): (o: Result<State>)
    ensures o.Ok? ==> o.value.params == s.params
  {
    if role !in s.roleAdmins then Err(RoleAdminNotConfigured) else
    if !HasRole(s, ToHash(s.roleAdmins[role]), granter) then Err(MissingRole) else
    Ok(s.(roleMembers := s.roleMembers[(role, grantee) := []]))
  }

  function CheckedRevoke(s: State, role: Role, revokee: Addr, revoker: Addr): (o: Result<State>)
    ensures o.Ok? ==> o.value.params == s.params
  {
    if role !in s.roleAdmins then Err(RoleAdminNotConfigured) else
    if !HasRole(s, ToHash(s.roleAdmins[role]), revoker) then Err(MissingRole) else
    Ok(s.(roleMembers := s.roleMembers - {(role, revokee)}))
  }

  /** The role admin is written before the permission check; an error undoes it. */
  function GrantAs(s: State, target: Role, adminRole: Role, unchecked: bool, granter: Addr,
                   grantee: Addr): (o: Result<State>)
    ensures o.Ok? ==> o.value.params == s.params
  {
    var s1 := s.(roleAdmins := s.roleAdmins[target := adminRole]);
    if unchecked then Ok(s1.(roleMembers := s1.roleMembers[(target, grantee) := []]))
    else CheckedGrant(s1, target, grantee, granter)
  }

  predicate IsAdminRole(r: nat, checksum: Str, role: Str) {
    !IsRecordRole(r, checksum) && role == ADMIN
  }

  /** The module admin may add a registry-level admin without holding a role. */
  predicate BreaksGlass(s: State, admin: Str, r: nat, checksum: Str, role: Str) {
    IsAdminRole(r, checksum, role) && s.params.admin == admin
  }

  function DoGrant(env: Env, s: State, admin: Str, granter: Addr, r: nat, checksum: Str, grantee: Addr,
                   role: Str): (o: Result<State>)
    ensures o.Ok? ==> o.value.params == s.params
  {
    if !ScopeExists(s, r, checksum) then Err(NotFound)
    else GrantAs(s, RoleOf(env, ScopeOf(r, checksum, role)), RoleOf(env, RegistryScope(r, ADMIN)),
                 BreaksGlass(s, admin, r, checksum, role), granter, grantee)
  }

  /** A guarded role keeps its last member. */
  function RevokeAs(s: State, target: Role, adminRole: Role, guarded: bool, revoker: Addr,
                    revokee: Addr): (o: Result<State>)
    ensures o.Ok? ==> o.value.params == s.params
  {
    if !HasRole(s, target, revokee) then Err(InvalidRequest)
    else if guarded && |MembersOf(s, adminRole)| == 1 then Err(InvalidRequest)
    else CheckedRevoke(s, target, revokee, revoker)
  }

  function DoRevoke(env: Env, s: State, revoker: Addr, r: nat, checksum: Str, revokee: Addr,
                    role: Str): (o: Result<State>)
    ensures o.Ok? ==> o.value.params == s.params
  {
    if !ScopeExists(s, r, checksum) then Err(NotFound)
    else RevokeAs(s, RoleOf(env, ScopeOf(r, checksum, role)), RoleOf(env, RegistryScope(r, ADMIN)),
                  IsAdminRole(r, checksum, role), revoker, revokee)
  }

  function DoUpdateParams(env: Env, s: State, authority: Str, newAdmin: Str): (o: Result<State>)
    ensures o.Ok? ==> RolesUntouched(s, o.value) && env.Account(o.value.params.admin).Some?
  {
    if env.Account(authority).None? then Err(InvalidAddress) else
    if authority != s.params.admin then Err(Unauthorized) else
    var updated := if newAdmin != [] then Params(newAdmin) else s.params;
    if env.Account(updated.admin).None? then Err(InvalidRequest) else
    Ok(s.(params := updated))
  }

  /** One message through the message server, with its ValidateBasic. */
  function Handle(env: Env, s: State, tx: Tx): Result<State> {
    match tx.msg
    case AddRegistry(sender, name, description, metadata) =>
      if env.Account(sender).None? || !ValidRegistryFields(name, description, metadata) then Err(InvalidRequest)
      else DoAddRegistry(env, tx.now, s, env.Account(sender).value, name, description, metadata)
    case AddRecord(sender, record) =>
      if env.Account(sender).None? || !ValidRecordFields(record) then Err(InvalidRequest)
      else DoAddRecord(env, tx.now, s, env.Account(sender).value, record)
    case UpdateRecordStatus(editor, r, id, index, status) =>
      if env.Account(editor).None? || id == 0 || !ValidStatus(status) || r == 0 || index == 0 then Err(InvalidRequest)
      else DoUpdateStatus(env, s, env.Account(editor).value, r, id, index, status)
    case GrantRole(admin, r, checksum, address, role) =>
      if !ValidRoleRequest(env, admin, r, checksum, address, role) then Err(InvalidRequest)
      else DoGrant(env, s, admin, env.Account(admin).value, r, checksum, env.Account(address).value, role)
    case RevokeRole(admin, r, checksum, address, role) =>
      if !ValidRoleRequest(env, admin, r, checksum, address, role) then Err(InvalidRequest)
      else DoRevoke(env, s, env.Account(admin).value, r, checksum, env.Account(address).value, role)
    case UpdateParams(authority, newAdmin) =>
      DoUpdateParams(env, s, authority, newAdmin)
  }

  predicate ValidRoleRequest(env: Env, admin: Str, r: nat, checksum: Str, address: Str, role: Str) {
    env.Account(admin).Some? && env.Account(address).Some? && r != 0 && |checksum| <= MAX_CHECKSUM && role != []
  }

  function Deliver(env: Env, s: State, tx: Tx): State {
    match Handle(env, s, tx)
    case Ok(s') => s'
    case Err(_) => s
  }

  function Run(env: Env, s: State, txs: seq<Tx>): State
    decreases |txs|
  {
    if txs == [] then s else Deliver(env, Run(env, s, txs[..|txs| - 1]), txs[|txs| - 1])
  }
}
