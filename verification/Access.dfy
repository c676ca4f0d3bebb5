/**
 Role-based access over whole runs: who can ever hold a role, and who can change one.
 Roles are keccak hashes, so the results ask that keccak not collide on the finitely many
 identifiers the run itself mentions.
 */
module Access {
  import opened Bytes
  import opened Types
  import opened Roles
  import opened Messages
  import opened Bookkeeping

  /** The scopes whose identifiers a message hashes. */
  function Mentioned(s: State, tx: Tx): set<Scope> {
    match tx.msg
    case AddRegistry(_, _, _, _) => {RegistryScope(s.registryCount + 1, ADMIN)}
    case AddRecord(_, record) => WriterScopes(record.registryId, record.checksum)
    case UpdateRecordStatus(_, r, id, index, _) =>
      if (r, id, index) in s.records then WriterScopes(r, s.records[(r, id, index)].checksum) else {}
    case GrantRole(_, r, checksum, _, role) => {ScopeOf(r, checksum, role), RegistryScope(r, ADMIN)}
    case RevokeRole(_, r, checksum, _, role) => {ScopeOf(r, checksum, role), RegistryScope(r, ADMIN)}
    case UpdateParams(_, _) => {}
  }

  function WriterScopes(r: nat, checksum: Str): set<Scope> {
    {RecordScope(r, checksum, ADMIN), RecordScope(r, checksum, EDITOR),
     RegistryScope(r, ADMIN), RegistryScope(r, EDITOR)}
  }

  /** The scopes a whole run mentions. */
  function RunScopes(env: Env, s: State, txs: seq<Tx>): set<Scope>
    decreases |txs|
  {
    if txs == [] then {} else
      RunScopes(env, s, txs[..|txs| - 1]) + Mentioned(Run(env, s, txs[..|txs| - 1]), txs[|txs| - 1])
  }

  // ---- who may write ----

  /** The role table says that a holds the scope's role. */
  ghost predicate Holds(env: Env, s: State, scope: Scope, a: Addr) {
    (env.keccak(Identifier(scope)), a) in s.roleMembers
  }

  /** a is admin or editor of the registry, or of this checksum in it. */
  ghost predicate Writer(env: Env, s: State, a: Addr, r: nat, checksum: Str) {
    exists scope: Scope ::
      && scope.registry == r && scope.role in {ADMIN, EDITOR} && (scope.RecordScope? ==> scope.checksum == checksum)
      && Holds(env, s, scope, a)
  }

  lemma MayWriteIsWriter(env: Env, s: State, a: Addr, r: nat, checksum: Str)
    requires checksum != []
    ensures MayWrite(env, s, a, r, checksum) <==> Writer(env, s, a, r, checksum)
  {
    if MayWrite(env, s, a, r, checksum) {
      var scopes := [RecordScope(r, checksum, ADMIN), RecordScope(r, checksum, EDITOR),
                     RegistryScope(r, ADMIN), RegistryScope(r, EDITOR)];
      assert Holds(env, s, scopes[0], a) || Holds(env, s, scopes[1], a) || Holds(env, s, scopes[2], a)
          || Holds(env, s, scopes[3], a);
    }
  }

  // ---- what runs keep of roles ----

  /** The registry, and for a record scope the checksum, exist. */
  ghost predicate Live(s: State, scope: Scope) {
    && scope.registry in s.registries
    && (scope.RecordScope? ==> (scope.checksum, scope.registry) in s.idBySumReg)
  }

  /** A role stands for a live scope in play, and its admin is that registry's admin role. */
  ghost predicate Grounded(env: Env, scopes: set<Scope>, s: State, role: Role, admin: Str) {
    exists scope :: scope in scopes && Live(s, scope) && RoleOf(env, scope) == role
                    && admin == RoleOf(env, RegistryScope(scope.registry, ADMIN))
  }

  ghost predicate HasAdmin(env: Env, s: State, r: nat) {
    exists a :: (RoleOf(env, RegistryScope(r, ADMIN)), a) in s.roleMembers
  }

  ghost predicate RolesSound(env: Env, scopes: set<Scope>, s: State) {
    && (forall r :: r in s.registries ==> RegistryScope(r, ADMIN) in scopes && HasAdmin(env, s, r))
    && (forall role :: role in s.roleAdmins ==> Grounded(env, scopes, s, role, s.roleAdmins[role]))
    && (forall m :: m in s.roleMembers ==> m.0 in s.roleAdmins && s.roleMembers[m] == [])
  }

  /** t still has every registry and every checksum of s. */
  ghost predicate Extends(s: State, t: State) {
    && (forall r :: r in s.registries ==> r in t.registries)
    && (forall k :: k in s.idBySumReg ==> k in t.idBySumReg)
  }

  lemma GroundedGrows(env: Env, scopes: set<Scope>, s: State, t: State, role: Role, admin: Str)
    requires Grounded(env, scopes, s, role, admin)
    requires Extends(s, t)
    ensures Grounded(env, scopes, t, role, admin)
  {
    var scope :| scope in scopes && Live(s, scope) && RoleOf(env, scope) == role
                 && admin == RoleOf(env, RegistryScope(scope.registry, ADMIN));
    assert Live(t, scope);
  }

  /** A message that leaves the role tables and registries alone keeps roles sound. */
  lemma SameTablesKeep(env: Env, scopes: set<Scope>, s: State, t: State)
    requires RolesSound(env, scopes, s)
    requires RolesUntouched(s, t)
    ensures RolesSound(env, scopes, t)
  {
    forall role | role in t.roleAdmins ensures Grounded(env, scopes, t, role, t.roleAdmins[role]) {
      GroundedGrows(env, scopes, s, t, role, s.roleAdmins[role]);
    }
    forall r | r in t.registries ensures HasAdmin(env, t, r) {
      assert HasAdmin(env, s, r);
    }
  }

  /** The store with `a` holding the scope's role under the registry's admin role. */
  function WithMember(env: Env, s: State, scope: Scope, a: Addr): State {
    s.(roleAdmins := s.roleAdmins[RoleOf(env, scope) := RoleOf(env, RegistryScope(scope.registry, ADMIN))],
       roleMembers := s.roleMembers[(RoleOf(env, scope), a) := []])
  }

  lemma WithMemberKeeps(env: Env, scopes: set<Scope>, s: State, scope: Scope, a: Addr)
    requires RolesSound(env, scopes, s) && scope in scopes && Live(s, scope)
    ensures RolesSound(env, scopes, WithMember(env, s, scope, a))
  {
    var t := WithMember(env, s, scope, a);
    forall role | role in t.roleAdmins ensures Grounded(env, scopes, t, role, t.roleAdmins[role]) {
      if role == RoleOf(env, scope) {
        assert Live(t, scope);
      } else {
        GroundedGrows(env, scopes, s, t, role, s.roleAdmins[role]);
      }
    }
    forall r | r in t.registries ensures HasAdmin(env, t, r) {
      assert HasAdmin(env, s, r);
      var b :| (RoleOf(env, RegistryScope(r, ADMIN)), b) in s.roleMembers;
      assert (RoleOf(env, RegistryScope(r, ADMIN)), b) in t.roleMembers;
    }
  }

  /** The store with one more registry and its creator as admin. */
  function WithRegistry(env: Env, s: State, registry: Registry, creator: Addr): State {
    WithMember(env, s.(registries := s.registries[registry.id := registry],
                       recordCounts := s.recordCounts[registry.id := 0],
                       registryCount := registry.id),
               RegistryScope(registry.id, ADMIN), creator)
  }

  lemma WithRegistryKeeps(env: Env, scopes: set<Scope>, s: State, registry: Registry, creator: Addr)
    requires RolesSound(env, scopes, s) && RegistryScope(registry.id, ADMIN) in scopes
    ensures RolesSound(env, scopes, WithRegistry(env, s, registry, creator))
  {
    var admin := RegistryScope(registry.id, ADMIN);
    var t := WithRegistry(env, s, registry, creator);
    forall role | role in t.roleAdmins ensures Grounded(env, scopes, t, role, t.roleAdmins[role]) {
      if role == RoleOf(env, admin) {
        assert Live(t, admin);
      } else {
        GroundedGrows(env, scopes, s, t, role, s.roleAdmins[role]);
      }
    }
    forall r | r in t.registries ensures RegistryScope(r, ADMIN) in scopes && HasAdmin(env, t, r) {
      if r != registry.id {
        assert HasAdmin(env, s, r);
        var a :| (RoleOf(env, RegistryScope(r, ADMIN)), a) in s.roleMembers;
        assert (RoleOf(env, RegistryScope(r, ADMIN)), a) in t.roleMembers;
      } else {
        assert (RoleOf(env, admin), creator) in t.roleMembers;
      }
    }
  }

  /** Removing one of several members leaves one. */
  lemma AnotherMember(s: State, role: Role, a: Addr) returns (b: Addr)
    requires (role, a) in s.roleMembers && |MembersOf(s, role)| != 1
    ensures b != a && (role, b) in s.roleMembers
  {
    var members := MembersOf(s, role);
    assert (role, a).1 in members;
    assert members - {a} == {} ==> members == {a};
    b :| b in members - {a};
  }

  function WithoutMember(s: State, role: Role, a: Addr): State {
    s.(roleMembers := s.roleMembers - {(role, a)})
  }

  lemma AdminSurvives(env: Env, scopes: set<Scope>, s: State, scope: Scope, a: Addr, r: nat)
    requires CollisionFree(env, scopes) && scope in scopes && RegistryScope(r, ADMIN) in scopes && HasAdmin(env, s, r)
    requires (RoleOf(env, scope), a) in s.roleMembers
    requires scope.RegistryScope? && scope.role == ADMIN ==> |MembersOf(s, RoleOf(env, scope))| != 1
    ensures HasAdmin(env, WithoutMember(s, RoleOf(env, scope), a), r)
  {
    var t := WithoutMember(s, RoleOf(env, scope), a);
    var admin := RegistryScope(r, ADMIN);
    if RoleOf(env, scope) == RoleOf(env, admin) {
      RoleDeterminesScope(env, scopes, scope, admin);
      var b := AnotherMember(s, RoleOf(env, admin), a);
      assert (RoleOf(env, admin), b) in t.roleMembers;
    } else {
      var b :| (RoleOf(env, admin), b) in s.roleMembers;
      assert (RoleOf(env, admin), b) in t.roleMembers;
    }
  }

  lemma WithoutMemberKeeps(env: Env, scopes: set<Scope>, s: State, scope: Scope, a: Addr)
    requires RolesSound(env, scopes, s) && CollisionFree(env, scopes) && scope in scopes
    requires (RoleOf(env, scope), a) in s.roleMembers
    requires scope.RegistryScope? && scope.role == ADMIN ==> |MembersOf(s, RoleOf(env, scope))| != 1
    ensures RolesSound(env, scopes, WithoutMember(s, RoleOf(env, scope), a))
  {
    var t := WithoutMember(s, RoleOf(env, scope), a);
    forall role | role in t.roleAdmins ensures Grounded(env, scopes, t, role, t.roleAdmins[role]) {
      GroundedGrows(env, scopes, s, t, role, s.roleAdmins[role]);
    }
    forall r | r in t.registries ensures HasAdmin(env, t, r) {
      AdminSurvives(env, scopes, s, scope, a, r);
    }
  }

  lemma AddRegistryEffect(env: Env, s: State, tx: Tx)
    requires tx.msg.AddRegistry? && Handle(env, s, tx).Ok?
    ensures var sender := env.text(env.Account(tx.msg.sender).value);
            && env.Account(sender).Some?
            && Deliver(env, s, tx) == WithRegistry(env, s,
                 Registry(s.registryCount + 1, tx.msg.name, tx.msg.description, sender, tx.now, tx.msg.metadata),
                 env.Account(sender).value)
  {
  }

  /** Both ways to grant end in the same store; they differ in who may take them. */
  lemma GrantEffect(env: Env, s: State, tx: Tx)
    requires tx.msg.GrantRole? && Handle(env, s, tx).Ok?
    ensures var m := tx.msg;
            var scope := ScopeOf(m.registryId, m.checksum, m.role);
            && scope.registry == m.registryId && Live(s, scope)
            && env.Account(m.admin).Some? && env.Account(m.address).Some?
            && Deliver(env, s, tx) == WithMember(env, s, scope, env.Account(m.address).value)
            && (|| HasRegistryRole(env, s, env.Account(m.admin).value, m.registryId, ADMIN)
                || (scope == RegistryScope(m.registryId, ADMIN) && s.params.admin == m.admin))
  {
  }

  lemma RevokeEffect(env: Env, s: State, tx: Tx)
    requires tx.msg.RevokeRole? && Handle(env, s, tx).Ok?
    ensures var m := tx.msg;
            var scope := ScopeOf(m.registryId, m.checksum, m.role);
            && scope.registry == m.registryId && Live(s, scope)
            && env.Account(m.admin).Some? && env.Account(m.address).Some?
            && (RoleOf(env, scope), env.Account(m.address).value) in s.roleMembers
            && (scope.RegistryScope? && scope.role == ADMIN ==> |MembersOf(s, RoleOf(env, scope))| != 1)
            && RoleOf(env, scope) in s.roleAdmins
            && HasRole(s, ToHash(s.roleAdmins[RoleOf(env, scope)]), env.Account(m.admin).value)
            && Deliver(env, s, tx) == WithoutMember(s, RoleOf(env, scope), env.Account(m.address).value)
  {
  }

  /** The other messages leave the role tables alone. */
  lemma OtherEffect(env: Env, s: State, tx: Tx)
    requires !tx.msg.AddRegistry? && !tx.msg.GrantRole? && !tx.msg.RevokeRole?
    ensures RolesUntouched(s, Deliver(env, s, tx))
  {
  }

  /** What a message does to the role tables. */
  datatype Change =
    | Untouched
    | Added(scope: Scope, account: Addr)
    | Removed(scope: Scope, account: Addr)
    | Created(registry: Registry, creator: Addr)

  ghost predicate Makes(env: Env, s: State, t: State, c: Change) {
    match c
    case Untouched => RolesUntouched(s, t)
    case Added(scope, a) => Live(s, scope) && t == WithMember(env, s, scope, a)
    case Removed(scope, a) =>
      && (RoleOf(env, scope), a) in s.roleMembers && t == WithoutMember(s, RoleOf(env, scope), a)
      && (scope.RegistryScope? && scope.role == ADMIN ==> |MembersOf(s, RoleOf(env, scope))| != 1)
    case Created(registry, creator) => t == WithRegistry(env, s, registry, creator)
  }

  function Named(c: Change): set<Scope> {
    match c
    case Untouched => {}
    case Added(scope, _) => {scope}
    case Removed(scope, _) => {scope}
    case Created(registry, _) => {RegistryScope(registry.id, ADMIN)}
  }

  /** Every message makes one such change, to a scope it mentions. */
  lemma DeliverMakes(env: Env, s: State, tx: Tx) returns (c: Change)
    ensures Makes(env, s, Deliver(env, s, tx), c) && Named(c) <= Mentioned(s, tx)
  {
    c := Untouched;
    if Handle(env, s, tx).Ok? {
      match tx.msg
      case AddRegistry(sender, name, description, metadata) =>
        AddRegistryEffect(env, s, tx);
        var text := env.text(env.Account(sender).value);
        c := Created(Registry(s.registryCount + 1, name, description, text, tx.now, metadata), env.Account(text).value);
      case GrantRole(_, r, checksum, address, role) =>
        GrantEffect(env, s, tx);
        c := Added(ScopeOf(r, checksum, role), env.Account(address).value);
      case RevokeRole(_, r, checksum, address, role) =>
        RevokeEffect(env, s, tx);
        c := Removed(ScopeOf(r, checksum, role), env.Account(address).value);
      case _ =>
        OtherEffect(env, s, tx);
    }
  }

  lemma ChangeKeepsRoles(env: Env, scopes: set<Scope>, s: State, t: State, c: Change)
    requires RolesSound(env, scopes, s) && CollisionFree(env, scopes) && Named(c) <= scopes && Makes(env, s, t, c)
    ensures RolesSound(env, scopes, t)
  {
    match c
    case Untouched => SameTablesKeep(env, scopes, s, t);
    case Added(scope, a) => WithMemberKeeps(env, scopes, s, scope, a);
    case Removed(scope, a) => WithoutMemberKeeps(env, scopes, s, scope, a);
    case Created(registry, creator) => WithRegistryKeeps(env, scopes, s, registry, creator);
  }

  lemma DeliverKeepsRoles(env: Env, scopes: set<Scope>, s: State, tx: Tx)
    requires RolesSound(env, scopes, s) && CollisionFree(env, scopes) && Mentioned(s, tx) <= scopes
    ensures RolesSound(env, scopes, Deliver(env, s, tx))
  {
    var c := DeliverMakes(env, s, tx);
    ChangeKeepsRoles(env, scopes, s, Deliver(env, s, tx), c);
  }

  lemma {:induction false} RunsKeepRoles(env: Env, params: Params, txs: seq<Tx>, scopes: set<Scope>)
    requires RunScopes(env, EmptyState(params), txs) <= scopes && CollisionFree(env, scopes)
    ensures RolesSound(env, scopes, Run(env, EmptyState(params), txs))
    decreases |txs|
  {
    if txs != [] {
      var before := txs[..|txs| - 1];
      RunsKeepRoles(env, params, before, scopes);
      DeliverKeepsRoles(env, scopes, Run(env, EmptyState(params), before), txs[|txs| - 1]);
    }
  }

  /** In every run, every registry has at least one registry-level admin. */
  lemma RunsAlwaysHaveAdmins(env: Env, params: Params, txs: seq<Tx>, r: nat)
    requires CollisionFree(env, RunScopes(env, EmptyState(params), txs))
    requires r in Run(env, EmptyState(params), txs).registries
    ensures MembersOf(Run(env, EmptyState(params), txs), RoleOf(env, RegistryScope(r, ADMIN))) != {}
  {
    var s := Run(env, EmptyState(params), txs);
    RunsKeepRoles(env, params, txs, RunScopes(env, EmptyState(params), txs));
    assert HasAdmin(env, s, r);
    var a :| (RoleOf(env, RegistryScope(r, ADMIN)), a) in s.roleMembers;
    assert (RoleOf(env, RegistryScope(r, ADMIN)), a).1 in MembersOf(s, RoleOf(env, RegistryScope(r, ADMIN)));
  }

  /** A member's role is the role of a live scope. */
  lemma MemberScopeIsLive(env: Env, scopes: set<Scope>, s: State, scope: Scope, a: Addr)
    requires RolesSound(env, scopes, s) && CollisionFree(env, scopes) && scope in scopes
    requires (RoleOf(env, scope), a) in s.roleMembers
    ensures Live(s, scope)
  {
    var role := RoleOf(env, scope);
    assert (role, a).0 in s.roleAdmins;
    assert Grounded(env, scopes, s, role, s.roleAdmins[role]);
    var known :| known in scopes && Live(s, known) && RoleOf(env, known) == role
                 && s.roleAdmins[role] == RoleOf(env, RegistryScope(known.registry, ADMIN));
    RoleDeterminesScope(env, scopes, known, scope);
  }

  /** Only a registry-level admin or editor ever adds the first version of a checksum. */
  lemma FirstVersionNeedsRegistryRole(env: Env, params: Params, txs: seq<Tx>, tx: Tx)
    requires CollisionFree(env, RunScopes(env, EmptyState(params), txs + [tx]))
    requires var s := Run(env, EmptyState(params), txs);
             && tx.msg.AddRecord? && Handle(env, s, tx).Ok?
             && (tx.msg.record.registryId, tx.msg.record.checksum) !in s.idByRegSum
    ensures var s := Run(env, EmptyState(params), txs);
            var r := tx.msg.record.registryId;
            && env.Account(tx.msg.sender).Some?
            && var a := env.Account(tx.msg.sender).value;
            HasRegistryRole(env, s, a, r, ADMIN) || HasRegistryRole(env, s, a, r, EDITOR)
  {
    var s := Run(env, EmptyState(params), txs);
    var scopes := RunScopes(env, EmptyState(params), txs + [tx]);
    assert (txs + [tx])[..|txs|] == txs;
    RunsKeepRoles(env, params, txs, scopes);
    RunsAreConsistent(env, params, txs);
    var r, c := tx.msg.record.registryId, tx.msg.record.checksum;
    var a := env.Account(tx.msg.sender).value;
    assert Mentioned(s, tx) <= scopes;
    assert (c, r) !in s.idBySumReg;
    RecordRoleIsEmpty(env, scopes, s, RecordScope(r, c, ADMIN), a);
    RecordRoleIsEmpty(env, scopes, s, RecordScope(r, c, EDITOR), a);
  }

  lemma RecordRoleIsEmpty(env: Env, scopes: set<Scope>, s: State, scope: Scope, a: Addr)
    requires RolesSound(env, scopes, s) && CollisionFree(env, scopes) && scope in scopes
    requires scope.RecordScope? && (scope.checksum, scope.registry) !in s.idBySumReg
    ensures (RoleOf(env, scope), a) !in s.roleMembers
  {
    if (RoleOf(env, scope), a) in s.roleMembers {
      MemberScopeIsLive(env, scopes, s, scope, a);
    }
  }

  /** Why a message may change who holds a role of registry r. */
  ghost predicate Entitled(env: Env, s: State, tx: Tx, scope: Scope, added: bool) {
    match tx.msg
    // a new registry's creator becomes its admin
    case AddRegistry(_, _, _, _) => added && scope == RegistryScope(s.registryCount + 1, ADMIN)
    // an admin of the registry, or the module admin adding a registry-level admin
    case GrantRole(admin, r, _, _, _) =>
      && added && scope.registry == r && env.Account(admin).Some?
      && (|| HasRegistryRole(env, s, env.Account(admin).value, r, ADMIN)
          || (scope == RegistryScope(r, ADMIN) && s.params.admin == admin))
    // an admin of the registry
    case RevokeRole(admin, r, _, _, _) =>
      && !added && scope.registry == r && env.Account(admin).Some?
      && HasRegistryRole(env, s, env.Account(admin).value, r, ADMIN)
    case _ => false
  }

  /** The configured admin of a live role is its registry's admin role. */
  lemma AdminOfRole(env: Env, scopes: set<Scope>, s: State, scope: Scope)
    requires RolesSound(env, scopes, s) && CollisionFree(env, scopes) && scope in scopes
    requires RoleOf(env, scope) in s.roleAdmins
    ensures ToHash(s.roleAdmins[RoleOf(env, scope)]) == RoleOf(env, RegistryScope(scope.registry, ADMIN))
  {
    var role := RoleOf(env, scope);
    assert Grounded(env, scopes, s, role, s.roleAdmins[role]);
    var known :| known in scopes && Live(s, known) && RoleOf(env, known) == role
                 && s.roleAdmins[role] == RoleOf(env, RegistryScope(known.registry, ADMIN));
    RoleDeterminesScope(env, scopes, known, scope);
  }

  lemma GrantIsEntitled(env: Env, scopes: set<Scope>, s: State, tx: Tx, scope: Scope, a: Addr)
    requires CollisionFree(env, scopes) && scope in scopes && Mentioned(s, tx) <= scopes
    requires tx.msg.GrantRole? && Handle(env, s, tx).Ok?
    requires HasRole(s, RoleOf(env, scope), a) != HasRole(Deliver(env, s, tx), RoleOf(env, scope), a)
    ensures Entitled(env, s, tx, scope, HasRole(Deliver(env, s, tx), RoleOf(env, scope), a))
  {
    GrantEffect(env, s, tx);
    var target := ScopeOf(tx.msg.registryId, tx.msg.checksum, tx.msg.role);
    assert target in Mentioned(s, tx);
    assert RoleOf(env, scope) == RoleOf(env, target);
    RoleDeterminesScope(env, scopes, scope, target);
  }

  lemma RevokeIsEntitled(env: Env, scopes: set<Scope>, s: State, tx: Tx, scope: Scope, a: Addr)
    requires RolesSound(env, scopes, s) && CollisionFree(env, scopes) && scope in scopes && Mentioned(s, tx) <= scopes
    requires tx.msg.RevokeRole? && Handle(env, s, tx).Ok?
    requires HasRole(s, RoleOf(env, scope), a) != HasRole(Deliver(env, s, tx), RoleOf(env, scope), a)
    ensures Entitled(env, s, tx, scope, HasRole(Deliver(env, s, tx), RoleOf(env, scope), a))
  {
    RevokeEffect(env, s, tx);
    var target := ScopeOf(tx.msg.registryId, tx.msg.checksum, tx.msg.role);
    assert target in Mentioned(s, tx);
    assert RoleOf(env, scope) == RoleOf(env, target);
    RoleDeterminesScope(env, scopes, scope, target);
    AdminOfRole(env, scopes, s, scope);
  }

  lemma AddRegistryIsEntitled(env: Env, scopes: set<Scope>, s: State, tx: Tx, scope: Scope, a: Addr)
    requires CollisionFree(env, scopes) && scope in scopes && Mentioned(s, tx) <= scopes
    requires tx.msg.AddRegistry? && Handle(env, s, tx).Ok?
    requires HasRole(s, RoleOf(env, scope), a) != HasRole(Deliver(env, s, tx), RoleOf(env, scope), a)
    ensures Entitled(env, s, tx, scope, HasRole(Deliver(env, s, tx), RoleOf(env, scope), a))
  {
    AddRegistryEffect(env, s, tx);
    var target := RegistryScope(s.registryCount + 1, ADMIN);
    assert target in Mentioned(s, tx);
    assert RoleOf(env, scope) == RoleOf(env, target);
    RoleDeterminesScope(env, scopes, scope, target);
  }

  lemma DeliverIsEntitled(env: Env, scopes: set<Scope>, s: State, tx: Tx, scope: Scope, a: Addr)
    requires RolesSound(env, scopes, s) && CollisionFree(env, scopes) && scope in scopes && Mentioned(s, tx) <= scopes
    requires HasRole(s, RoleOf(env, scope), a) != HasRole(Deliver(env, s, tx), RoleOf(env, scope), a)
    ensures Entitled(env, s, tx, scope, HasRole(Deliver(env, s, tx), RoleOf(env, scope), a))
  {
    match tx.msg
    case AddRegistry(_, _, _, _) => AddRegistryIsEntitled(env, scopes, s, tx, scope, a);
    case GrantRole(_, _, _, _, _) => GrantIsEntitled(env, scopes, s, tx, scope, a);
    case RevokeRole(_, _, _, _, _) => RevokeIsEntitled(env, scopes, s, tx, scope, a);
    case _ => OtherEffect(env, s, tx);
  }

  /**
   In every run, a message changes who holds a role of a registry only if its sender is entitled
   to: by creating the registry, by being its admin, or, to add an admin, by being module admin.
   */
  lemma OnlyTheEntitledChangeRoles(env: Env, params: Params, txs: seq<Tx>, tx: Tx, scope: Scope, a: Addr)
    requires CollisionFree(env, RunScopes(env, EmptyState(params), txs + [tx]) + {scope})
    requires var s := Run(env, EmptyState(params), txs);
             HasRole(s, RoleOf(env, scope), a) != HasRole(Deliver(env, s, tx), RoleOf(env, scope), a)
    ensures var s := Run(env, EmptyState(params), txs);
            Entitled(env, s, tx, scope, HasRole(Deliver(env, s, tx), RoleOf(env, scope), a))
  {
    var scopes := RunScopes(env, EmptyState(params), txs + [tx]) + {scope};
    assert (txs + [tx])[..|txs|] == txs;
    RunsKeepRoles(env, params, txs, scopes);
    DeliverIsEntitled(env, scopes, Run(env, EmptyState(params), txs), tx, scope, a);
  }
}
