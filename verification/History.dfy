/** What messages add and undo: versions never change, statuses change only by a writer, revoke undoes grant. */
module History {
  import opened Bytes
  import opened Types
  import opened Roles
  import opened Messages
  import opened Bookkeeping
  import opened Access

  /** b is a with at most another status and mark. */
  ghost predicate SameContent(a: Record, b: Record) {
    b == a.(status := b.status, isLatest := b.isLatest)
  }

  /** Every version of s is still there with its content. */
  ghost predicate Preserves(s: Records, t: Records) {
    forall k :: k in s ==> k in t && SameContent(s[k], t[k])
  }

  // ---- one message ----

  /** The record id a checksum has or gets, and the index its next version gets. */
  function NextId(s: State, r: nat, checksum: Str): nat {
    if (r, checksum) in s.idByRegSum then s.idByRegSum[(r, checksum)]
    else if r in s.recordCounts then s.recordCounts[r] + 1
    else 1
  }

  function NextIndex(s: State, r: nat, id: nat): nat {
    if (r, id) in s.latest then s.latest[(r, id)] + 1 else 1
  }

  /** t is s with version e added; the version before it, if any, only loses its mark. */
  ghost predicate Appended(s: Records, t: Records, e: Record) {
    var (r, id, k) := (e.registryId, e.recordId, e.index);
    && (r, id, k) !in s && t.Keys == s.Keys + {(r, id, k)} && t[(r, id, k)] == e
    && (k > 1 ==> (r, id, k - 1) in s && t[(r, id, k - 1)] == s[(r, id, k - 1)].(isLatest := false))
    && (forall x :: x in s && !(x.0 == r && x.1 == id && x.2 + 1 == k) ==> t[x] == s[x])
  }

  /**
   * An accepted record becomes the version after the latest one of its checksum, under the block's
   * time, with the submitted fields.
   */
  lemma AddRecordStores(env: Env, s: State, tx: Tx)
    requires Consistent(env, s) && tx.msg.AddRecord? && Handle(env, s, tx).Ok?
    ensures var e, t := tx.msg.record, Deliver(env, s, tx);
      var id := NextId(s, e.registryId, e.checksum);
      var k := NextIndex(s, e.registryId, id);
      && Appended(s.records, t.records, e.(recordId := id, index := k, timestamp := tx.now, isLatest := true))
      && t.idByRegSum == s.idByRegSum[(e.registryId, e.checksum) := id]
      && t.latest == s.latest[(e.registryId, id) := k]
  {
    var e, sender := tx.msg.record, env.Account(tx.msg.sender).value;
    var id := NextId(s, e.registryId, e.checksum);
    Stores(env, tx.now, s, sender, e, e.registryId, id, NextIndex(s, e.registryId, id));
  }

  lemma Stores(env: Env, now: Str, s: State, sender: Addr, e: Record, r: nat, id: nat, k: nat)
    requires Consistent(env, s) && DoAddRecord(env, now, s, sender, e).Ok?
    requires r == e.registryId && id == NextId(s, r, e.checksum) && k == NextIndex(s, r, id)
    ensures var t := DoAddRecord(env, now, s, sender, e).value;
      && t.idByRegSum == s.idByRegSum[(r, e.checksum) := id] && t.latest == s.latest[(r, id) := k]
      && Appended(s.records, t.records, Version(now, e, id, k))
  {
    if (r, e.checksum) in s.idByRegSum {
      KnownId(env, s, r, e.checksum, id);
      KnownStores(env, now, s, sender, e, r, id, k, s.latest[(r, id)]);
    } else {
      FreshId(env, s, r, id);
      FreshStores(env, now, s, sender, e, r, id);
    }
  }

  lemma IndexesStartAtOne(env: Env, s: State)
    requires Consistent(env, s)
    ensures forall x :: x in s.records ==> x.2 >= 1
  {
    forall x | x in s.records ensures x.2 >= 1 { assert (x.0, x.1, x.2) in s.records; }
  }

  lemma FreshId(env: Env, s: State, r: nat, id: nat)
    requires Consistent(env, s) && r in s.recordCounts && id == s.recordCounts[r] + 1
    ensures (r, id) !in s.latest && (r, id, 1) !in s.records && forall x :: x in s.records ==> x.2 >= 1
  {
    IndexesStartAtOne(env, s);
  }

  lemma KnownId(env: Env, s: State, r: nat, checksum: Str, id: nat)
    requires Consistent(env, s) && (r, checksum) in s.idByRegSum && id == s.idByRegSum[(r, checksum)]
    ensures (r, id) in s.latest && s.latest[(r, id)] >= 1 && (r, id, s.latest[(r, id)] + 1) !in s.records
  {
  }

  lemma KnownStores(env: Env, now: Str, s: State, sender: Addr, e: Record, r: nat, id: nat, k: nat, was: nat)
    requires VersionsDense(s.records, s.latest, s.recordCounts, s.idByRegSum) && DoAddRecord(env, now, s, sender, e).Ok?
    requires r == e.registryId && (r, e.checksum) in s.idByRegSum && id == s.idByRegSum[(r, e.checksum)]
    requires (r, id) in s.latest && was == s.latest[(r, id)] >= 1 && k == was + 1 && (r, id, k) !in s.records
    ensures var t := DoAddRecord(env, now, s, sender, e).value;
      && t.idByRegSum == s.idByRegSum[(r, e.checksum) := id] && t.latest == s.latest[(r, id) := k]
      && Appended(s.records, t.records, Version(now, e, id, k))
  {
    AddKnownRecord(env, now, s, sender, e);
    assert s.idByRegSum[(r, e.checksum) := id] == s.idByRegSum;
    AppendedNext(s.records, r, id, was, Version(now, e, id, k));
  }

  lemma FreshStores(env: Env, now: Str, s: State, sender: Addr, e: Record, r: nat, id: nat)
    requires DoAddRecord(env, now, s, sender, e).Ok? && (r, id) !in s.latest && (r, id, 1) !in s.records
    requires forall x :: x in s.records ==> x.2 >= 1
    requires r == e.registryId && (r, e.checksum) !in s.idByRegSum && r in s.recordCounts && id == s.recordCounts[r] + 1
    ensures var t := DoAddRecord(env, now, s, sender, e).value;
      && t.idByRegSum == s.idByRegSum[(r, e.checksum) := id] && t.latest == s.latest[(r, id) := 1]
      && Appended(s.records, t.records, Version(now, e, id, 1))
  {
    AddFreshRecord(env, now, s, sender, e);
    AppendedFirst(s.records, Version(now, e, id, 1));
  }

  lemma AppendedNext(s: Records, r: nat, id: nat, k: nat, e: Record)
    requires (r, id, k) in s && (r, id, k + 1) !in s && e.registryId == r && e.recordId == id && e.index == k + 1
    requires k >= 1
    ensures Appended(s, s[(r, id, k + 1) := e][(r, id, k) := s[(r, id, k)].(isLatest := false)], e)
  {
  }

  lemma AppendedFirst(s: Records, e: Record)
    requires (e.registryId, e.recordId, 1) !in s && e.index == 1
    requires forall x :: x in s ==> x.2 >= 1
    ensures Appended(s, s[(e.registryId, e.recordId, 1) := e], e)
  {
  }

  lemma UpdateStatusStores(env: Env, s: State, tx: Tx)
    requires tx.msg.UpdateRecordStatus? && Handle(env, s, tx).Ok?
    ensures var m := tx.msg; var k := (m.registryId, m.recordId, m.index);
      && k in s.records && env.Account(m.editor).Some?
      && MayWrite(env, s, env.Account(m.editor).value, k.0, s.records[k].checksum)
      && Deliver(env, s, tx) == s.(records := s.records[k := s.records[k].(status := m.status)])
  {
  }

  lemma RolesKeepRecords(env: Env, s: State, tx: Tx)
    requires tx.msg.AddRegistry? || tx.msg.GrantRole? || tx.msg.RevokeRole? || tx.msg.UpdateParams?
    ensures Deliver(env, s, tx).records == s.records
  {
    if Handle(env, s, tx).Ok? {
      match tx.msg
      case AddRegistry(_, _, _, _) => AddRegistryEffect(env, s, tx);
      case GrantRole(_, _, _, _, _) => GrantEffect(env, s, tx);
      case RevokeRole(_, _, _, _, _) => RevokeEffect(env, s, tx);
      case _ =>
    }
  }

  lemma AppendPreserves(s: Records, t: Records, e: Record)
    requires Appended(s, t, e) && forall x :: x in s ==> x.2 >= 1
    ensures Preserves(s, t)
  {
  }

  lemma StatusPreserves(s: Records, k: (nat, nat, nat), status: Str)
    requires k in s
    ensures Preserves(s, s[k := s[k].(status := status)])
  {
  }

  lemma DeliverPreserves(env: Env, s: State, tx: Tx)
    requires Consistent(env, s)
    ensures Preserves(s.records, Deliver(env, s, tx).records)
  {
    if Handle(env, s, tx).Ok? {
      match tx.msg
      case AddRecord(_, e) =>
        AddRecordStores(env, s, tx);
        IndexesStartAtOne(env, s);
        var id := NextId(s, e.registryId, e.checksum);
        AppendPreserves(s.records, Deliver(env, s, tx).records,
                        e.(recordId := id, index := NextIndex(s, e.registryId, id), timestamp := tx.now,
                           isLatest := true));
      case UpdateRecordStatus(_, r, id, index, status) =>
        UpdateStatusStores(env, s, tx);
        StatusPreserves(s.records, (r, id, index), status);
      case _ => RolesKeepRecords(env, s, tx);
    }
  }

  lemma StoredChecksum(env: Env, s: State, k: (nat, nat, nat))
    requires Consistent(env, s) && k in s.records
    ensures s.records[k].checksum != []
  {
    assert (k.0, k.1, k.2) in s.records;
    assert VersionFits(s.latest, s.idByRegSum, k.0, k.1, k.2, s.records[(k.0, k.1, k.2)]);
  }

  /** A version's status changes only when an admin or editor of its registry or checksum asks for that version. */
  lemma StatusNeedsWriter(env: Env, s: State, tx: Tx, k: (nat, nat, nat))
    requires Consistent(env, s) && k in s.records && k in Deliver(env, s, tx).records
    requires Deliver(env, s, tx).records[k].status != s.records[k].status
    ensures && tx.msg.UpdateRecordStatus? && k == (tx.msg.registryId, tx.msg.recordId, tx.msg.index)
            && env.Account(tx.msg.editor).Some? && Deliver(env, s, tx).records[k].status == tx.msg.status
            && Writer(env, s, env.Account(tx.msg.editor).value, k.0, s.records[k].checksum)
  {
    match tx.msg
    case AddRecord(_, _) => AddRecordStores(env, s, tx);
    case UpdateRecordStatus(editor, _, _, _, _) =>
      UpdateStatusStores(env, s, tx);
      StoredChecksum(env, s, k);
      MayWriteIsWriter(env, s, env.Account(editor).value, k.0, s.records[k].checksum);
    case _ => RolesKeepRecords(env, s, tx);
  }

  // ---- whole runs ----

  /** Whatever follows, a version keeps its uri, checksum, metadata, time and place for good. */
  lemma {:induction false} VersionsAreForever(env: Env, params: Params, txs: seq<Tx>, n: nat)
    requires n <= |txs|
    ensures Preserves(Run(env, EmptyState(params), txs[..n]).records, Run(env, EmptyState(params), txs).records)
    decreases |txs|
  {
    if n == |txs| {
      assert txs[..n] == txs;
    } else {
      var most := txs[..|txs| - 1];
      assert most[..n] == txs[..n];
      VersionsAreForever(env, params, most, n);
      RunsAreConsistent(env, params, most);
      DeliverPreserves(env, Run(env, EmptyState(params), most), txs[|txs| - 1]);
    }
  }

  // ---- revoke undoes grant ----

  lemma TwoMembers(s: State, role: Role, a: Addr, b: Addr)
    requires a != b && HasRole(s, role, a) && HasRole(s, role, b)
    ensures |MembersOf(s, role)| != 1
  {
    var members := MembersOf(s, role);
    assert (role, a).1 in members && (role, b).1 in members;
    assert b in members - {a} && |members - {a}| == |members| - 1;
  }

  /** An admin who gives an account a role it lacked can take it back, and memberships are as before. */
  lemma RevokeUndoesGrant(env: Env, s: State, now: Str, admin: Str, r: nat, checksum: Str, address: Str, role: Str)
    requires Handle(env, s, Tx(now, GrantRole(admin, r, checksum, address, role))).Ok?
    requires HasRegistryRole(env, s, env.Account(admin).value, r, ADMIN)
    requires !HasRole(s, RoleOf(env, ScopeOf(r, checksum, role)), env.Account(address).value)
    ensures var t := Deliver(env, s, Tx(now, GrantRole(admin, r, checksum, address, role)));
      var undone := Handle(env, t, Tx(now, RevokeRole(admin, r, checksum, address, role)));
      && HasRole(t, RoleOf(env, ScopeOf(r, checksum, role)), env.Account(address).value)
      && undone.Ok? && undone.value == t.(roleMembers := s.roleMembers)
  {
    var tx := Tx(now, GrantRole(admin, r, checksum, address, role));
    GrantEffect(env, s, tx);
    var t, target := Deliver(env, s, tx), RoleOf(env, ScopeOf(r, checksum, role));
    var granter, grantee := env.Account(admin).value, env.Account(address).value;
    if !IsRecordRole(r, checksum) && role == ADMIN { TwoMembers(t, target, granter, grantee); }
    assert t.roleMembers - {(target, grantee)} == s.roleMembers;
  }
}
