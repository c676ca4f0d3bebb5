/** The writes each message makes to the module's store, and that replaying them is the message's effect. */
module StoreWrites {
  import opened Bytes
  import opened Types
  import opened Roles
  import opened Messages
  import opened Access

  /** An entry of one of the collections. */
  datatype Place =
    | ParamsPlace
    | RegistryPlace(id: nat)
    | RegistryCountPlace
    | RecordPlace(key: (nat, nat, nat))
    | IdByRegPlace(r: nat, checksum: Str)
    | RecordCountPlace(r: nat)
    | LatestPlace(r: nat, id: nat)
    | IdBySumPlace(checksum: Str, r: nat)
    | RoleAdminPlace(role: Role)
    | MemberPlace(role: Role, account: Addr)

  datatype Op =
    | SetParams(params: Params)
    | SetRegistry(id: nat, registry: Registry)
    | SetRegistryCount(count: nat)
    | SetRecord(key: (nat, nat, nat), record: Record)
    | SetIdByReg(r: nat, checksum: Str, recordId: nat)
    | SetRecordCount(r: nat, count: nat)
    | SetLatest(r: nat, recordId: nat, index: nat)
    | SetIdBySum(checksum: Str, r: nat, recordId: nat)
    | SetRoleAdmin(role: Role, admin: Role)
    | SetMember(role: Role, account: Addr)
    | RemoveMember(role: Role, account: Addr)

  function Where(op: Op): Place {
    match op
    case SetParams(_) => ParamsPlace
    case SetRegistry(id, _) => RegistryPlace(id)
    case SetRegistryCount(_) => RegistryCountPlace
    case SetRecord(key, _) => RecordPlace(key)
    case SetIdByReg(r, checksum, _) => IdByRegPlace(r, checksum)
    case SetRecordCount(r, _) => RecordCountPlace(r)
    case SetLatest(r, id, _) => LatestPlace(r, id)
    case SetIdBySum(checksum, r, _) => IdBySumPlace(checksum, r)
    case SetRoleAdmin(role, _) => RoleAdminPlace(role)
    case SetMember(role, a) => MemberPlace(role, a)
    case RemoveMember(role, a) => MemberPlace(role, a)
  }

  /** The byte each collection's keys start with. */
  function Prefix(place: Place): byte {
    match place
    case ParamsPlace => 0
    case RegistryPlace(_) => 1
    case RegistryCountPlace => 3
    case RecordPlace(_) => 4
    case IdByRegPlace(_, _) => 5
    case RecordCountPlace(_) => 6
    case LatestPlace(_, _) => 7
    case IdBySumPlace(_, _) => 8
    case RoleAdminPlace(_) => 10
    case MemberPlace(_, _) => 11
  }

  function Applied(s: State, op: Op): State {
    match op
    case SetParams(params) => s.(params := params)
    case SetRegistry(id, registry) => s.(registries := s.registries[id := registry])
    case SetRegistryCount(count) => s.(registryCount := count)
    case SetRecord(key, record) => s.(records := s.records[key := record])
    case SetIdByReg(r, checksum, id) => s.(idByRegSum := s.idByRegSum[(r, checksum) := id])
    case SetRecordCount(r, count) => s.(recordCounts := s.recordCounts[r := count])
    case SetLatest(r, id, index) => s.(latest := s.latest[(r, id) := index])
    case SetIdBySum(checksum, r, id) => s.(idBySumReg := s.idBySumReg[(checksum, r) := id])
    case SetRoleAdmin(role, admin) => s.(roleAdmins := s.roleAdmins[role := admin])
    case SetMember(role, a) => s.(roleMembers := s.roleMembers[(role, a) := []])
    case RemoveMember(role, a) => s.(roleMembers := s.roleMembers - {(role, a)})
  }

  function Replayed(s: State, ops: seq<Op>): State
    decreases |ops|
  {
    if ops == [] then s else Applied(Replayed(s, ops[..|ops| - 1]), ops[|ops| - 1])
  }

  // ---- each message's writes, in the order the keeper makes them ----

  function RegistryOps(env: Env, s: State, now: Str, m: Msg): seq<Op>
    requires m.AddRegistry? && env.Account(m.sender).Some?
    requires env.Account(env.text(env.Account(m.sender).value)).Some?
  {
    var id, creator := s.registryCount + 1, env.text(env.Account(m.sender).value);
    var admin := RoleOf(env, RegistryScope(id, ADMIN));
    [SetRegistry(id, Registry(id, m.name, m.description, creator, now, m.metadata)), SetRoleAdmin(admin, admin),
     SetMember(admin, env.Account(creator).value), SetRecordCount(id, 0), SetRegistryCount(id)]
  }

  /** The counter and both checksum entries, for a checksum the registry does not know. */
  function IdOps(s: State, r: nat, checksum: Str): seq<Op> {
    if (r, checksum) in s.idByRegSum || r !in s.recordCounts then [] else
      var id := s.recordCounts[r] + 1;
      [SetRecordCount(r, id), SetIdBySum(checksum, r, id), SetIdByReg(r, checksum, id)]
  }

  /** The latest index, the version, and the version before it without its mark. */
  function VersionOps(now: Str, s: State, e: Record, id: nat): seq<Op> {
    var r := e.registryId;
    var k := if (r, id) in s.latest then s.latest[(r, id)] + 1 else 1;
    [SetLatest(r, id, k),
     SetRecord((r, id, k), e.(recordId := id, index := k, timestamp := now, isLatest := true))]
    + if k > 1 && (r, id, k - 1) in s.records
      then [SetRecord((r, id, k - 1), s.records[(r, id, k - 1)].(isLatest := false))] else []
  }

  function RecordOps(now: Str, s: State, e: Record): seq<Op> {
    var r, c := e.registryId, e.checksum;
    var id := if (r, c) in s.idByRegSum then s.idByRegSum[(r, c)]
              else if r in s.recordCounts then s.recordCounts[r] + 1 else 0;
    IdOps(s, r, c) + VersionOps(now, s, e, id)
  }

  function TxOps(env: Env, s: State, tx: Tx): seq<Op> {
    if Handle(env, s, tx).Err? then [] else
      match tx.msg
      case AddRegistry(_, _, _, _) => RegistryOps(env, s, tx.now, tx.msg)
      case AddRecord(_, record) => RecordOps(tx.now, s, record)
      case UpdateRecordStatus(_, r, id, index, status) =>
        [SetRecord((r, id, index), s.records[(r, id, index)].(status := status))]
      case GrantRole(_, r, checksum, address, role) =>
        var target := RoleOf(env, ScopeOf(r, checksum, role));
        [SetRoleAdmin(target, RoleOf(env, RegistryScope(r, ADMIN))), SetMember(target, env.Account(address).value)]
      case RevokeRole(_, r, checksum, address, role) =>
        [RemoveMember(RoleOf(env, ScopeOf(r, checksum, role)), env.Account(address).value)]
      case UpdateParams(_, newAdmin) => [SetParams(if newAdmin != [] then Params(newAdmin) else s.params)]
  }

  function BlockOps(env: Env, s: State, txs: seq<Tx>): seq<Op>
    decreases |txs|
  {
    if txs == [] then [] else
      var most := txs[..|txs| - 1];
      BlockOps(env, s, most) + TxOps(env, Run(env, s, most), txs[|txs| - 1])
  }

  // ---- replaying them ----

  lemma {:induction false} ReplayedConcat(s: State, a: seq<Op>, b: seq<Op>)
    ensures Replayed(s, a + b) == Replayed(Replayed(s, a), b)
    decreases |b|
  {
    if b == [] {
      assert a + b == a;
    } else {
      var n := |b| - 1;
      ReplayedConcat(s, a, b[..n]);
      assert (a + b)[..|a| + n] == a + b[..n] && (a + b)[|a| + n] == b[n];
    }
  }

  lemma ReplayedOne(s: State, op: Op)
    ensures Replayed(s, [op]) == Applied(s, op)
  {
    assert [op][..0] == [];
  }

  lemma ReplayedCons(s: State, op: Op, rest: seq<Op>)
    ensures Replayed(s, [op] + rest) == Replayed(Applied(s, op), rest)
  {
    ReplayedConcat(s, [op], rest);
    ReplayedOne(s, op);
  }

  lemma ReplayedTwo(s: State, a: Op, b: Op)
    ensures Replayed(s, [a, b]) == Applied(Applied(s, a), b)
  {
    assert [a, b] == [a] + [b];
    ReplayedCons(s, a, [b]);
    ReplayedOne(Applied(s, a), b);
  }

  lemma ReplayedThree(s: State, a: Op, b: Op, c: Op)
    ensures Replayed(s, [a, b, c]) == Applied(Applied(Applied(s, a), b), c)
  {
    assert [a, b, c] == [a] + [b, c];
    ReplayedCons(s, a, [b, c]);
    ReplayedTwo(Applied(s, a), b, c);
  }

  lemma RegistryReplays(env: Env, s: State, tx: Tx)
    requires tx.msg.AddRegistry? && Handle(env, s, tx).Ok?
    ensures Replayed(s, RegistryOps(env, s, tx.now, tx.msg)) == Deliver(env, s, tx)
  {
    var ops := RegistryOps(env, s, tx.now, tx.msg);
    assert ops == [ops[0], ops[1], ops[2]] + [ops[3], ops[4]];
    ReplayedConcat(s, [ops[0], ops[1], ops[2]], [ops[3], ops[4]]);
    ReplayedThree(s, ops[0], ops[1], ops[2]);
    ReplayedTwo(Replayed(s, [ops[0], ops[1], ops[2]]), ops[3], ops[4]);
    AddRegistryEffect(env, s, tx);
  }

  lemma IdReplays(s: State, r: nat, checksum: Str)
    requires AssignRecordId(s, r, checksum).Ok?
    ensures Replayed(s, IdOps(s, r, checksum)) == AssignRecordId(s, r, checksum).value.0
  {
    if (r, checksum) !in s.idByRegSum {
      var id := s.recordCounts[r] + 1;
      ReplayedThree(s, SetRecordCount(r, id), SetIdBySum(checksum, r, id), SetIdByReg(r, checksum, id));
    }
  }

  lemma FirstReplays(now: Str, s: State, s1: State, e: Record, id: nat)
    requires s1.latest == s.latest && s1.records == s.records && PutVersion(now, s1, e, id).Ok?
    requires (e.registryId, id) !in s.latest || s.latest[(e.registryId, id)] == 0
    ensures Replayed(s1, VersionOps(now, s, e, id)) == PutVersion(now, s1, e, id).value
  {
    var ops := VersionOps(now, s, e, id);
    assert ops == [ops[0], ops[1]];
    ReplayedTwo(s1, ops[0], ops[1]);
  }

  lemma NextReplays(now: Str, s: State, s1: State, e: Record, id: nat)
    requires s1.latest == s.latest && s1.records == s.records && PutVersion(now, s1, e, id).Ok?
    requires (e.registryId, id) in s.latest && s.latest[(e.registryId, id)] > 0
    ensures Replayed(s1, VersionOps(now, s, e, id)) == PutVersion(now, s1, e, id).value
  {
    var ops := VersionOps(now, s, e, id);
    assert (e.registryId, id, s.latest[(e.registryId, id)]) in s.records;
    assert ops == [ops[0], ops[1], ops[2]];
    ReplayedThree(s1, ops[0], ops[1], ops[2]);
  }

  lemma VersionReplays(now: Str, s: State, s1: State, e: Record, id: nat)
    requires s1.latest == s.latest && s1.records == s.records && PutVersion(now, s1, e, id).Ok?
    ensures Replayed(s1, VersionOps(now, s, e, id)) == PutVersion(now, s1, e, id).value
  {
    if (e.registryId, id) in s.latest && s.latest[(e.registryId, id)] > 0 {
      NextReplays(now, s, s1, e, id);
    } else {
      FirstReplays(now, s, s1, e, id);
    }
  }

  lemma RecordReplays(env: Env, now: Str, s: State, a: Addr, e: Record)
    requires DoAddRecord(env, now, s, a, e).Ok?
    ensures Replayed(s, RecordOps(now, s, e)) == DoAddRecord(env, now, s, a, e).value
  {
    var (s1, id) := AssignRecordId(s, e.registryId, e.checksum).value;
    IdReplays(s, e.registryId, e.checksum);
    VersionReplays(now, s, s1, e, id);
    ReplayedConcat(s, IdOps(s, e.registryId, e.checksum), VersionOps(now, s, e, id));
  }

  lemma StatusReplays(env: Env, s: State, tx: Tx)
    requires tx.msg.UpdateRecordStatus? && Handle(env, s, tx).Ok?
    ensures Replayed(s, TxOps(env, s, tx)) == Deliver(env, s, tx)
  {
    ReplayedOne(s, TxOps(env, s, tx)[0]);
  }

  lemma GrantReplays(env: Env, s: State, tx: Tx)
    requires tx.msg.GrantRole? && Handle(env, s, tx).Ok?
    ensures Replayed(s, TxOps(env, s, tx)) == Deliver(env, s, tx)
  {
    GrantEffect(env, s, tx);
    ReplayedTwo(s, TxOps(env, s, tx)[0], TxOps(env, s, tx)[1]);
  }

  lemma RevokeReplays(env: Env, s: State, tx: Tx)
    requires tx.msg.RevokeRole? && Handle(env, s, tx).Ok?
    ensures Replayed(s, TxOps(env, s, tx)) == Deliver(env, s, tx)
  {
    RevokeEffect(env, s, tx);
    ReplayedOne(s, TxOps(env, s, tx)[0]);
  }

  lemma ParamsReplays(env: Env, s: State, tx: Tx)
    requires tx.msg.UpdateParams? && Handle(env, s, tx).Ok?
    ensures Replayed(s, TxOps(env, s, tx)) == Deliver(env, s, tx)
  {
    ReplayedOne(s, TxOps(env, s, tx)[0]);
  }

  /** A message's writes, replayed, are its effect: none is missing and none is too many. */
  lemma TxReplays(env: Env, s: State, tx: Tx)
    ensures Replayed(s, TxOps(env, s, tx)) == Deliver(env, s, tx)
  {
    if Handle(env, s, tx).Ok? {
      match tx.msg
      case AddRegistry(_, _, _, _) => RegistryReplays(env, s, tx);
      case AddRecord(sender, record) => RecordReplays(env, tx.now, s, env.Account(sender).value, record);
      case UpdateRecordStatus(_, _, _, _, _) => StatusReplays(env, s, tx);
      case GrantRole(_, _, _, _, _) => GrantReplays(env, s, tx);
      case RevokeRole(_, _, _, _, _) => RevokeReplays(env, s, tx);
      case UpdateParams(_, _) => ParamsReplays(env, s, tx);
    }
  }

  /** So with a whole block. */
  lemma {:induction false} BlockReplays(env: Env, s: State, txs: seq<Tx>)
    ensures Replayed(s, BlockOps(env, s, txs)) == Run(env, s, txs)
    decreases |txs|
  {
    if txs != [] {
      var most, last := txs[..|txs| - 1], txs[|txs| - 1];
      BlockReplays(env, s, most);
      TxReplays(env, Run(env, s, most), last);
      ReplayedConcat(s, BlockOps(env, s, most), TxOps(env, Run(env, s, most), last));
    }
  }
}
