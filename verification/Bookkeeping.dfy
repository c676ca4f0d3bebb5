/**
 What every run of messages keeps true of registries, records and their indexes.
 */
module Bookkeeping {
  import opened Bytes
  import opened Types
  import opened Messages

  type Records = map<(nat, nat, nat), Record>
  type Latest = map<(nat, nat), nat>
  type Counts = map<nat, nat>
  type ByRegSum = map<(nat, Str), nat>
  type BySumReg = map<(Str, nat), nat>

  /** Registry ids are exactly 1..registryCount and each registry has a record counter. */
  ghost predicate RegistriesDense(env: Env, registries: map<nat, Registry>, count: nat, counts: Counts) {
    && (forall i :: i in registries <==> 1 <= i <= count)
    && (forall i :: i in registries ==> registries[i].id == i && ValidRegistry(env, registries[i]))
    && (forall i :: i in counts <==> i in registries)
  }

  /** The two checksum indexes are transposes, and ids are given out once, from 1 to the count. */
  ghost predicate IndexesAgree(byReg: ByRegSum, bySum: BySumReg, counts: Counts) {
    && (forall r, c :: (r, c) in byReg <==> (c, r) in bySum)
    && (forall r, c :: (r, c) in byReg ==> bySum[(c, r)] == byReg[(r, c)])
    && (forall r, c :: (r, c) in byReg ==> r in counts && 1 <= byReg[(r, c)] <= counts[r])
    && (forall r, c, d :: (r, c) in byReg && (r, d) in byReg && byReg[(r, c)] == byReg[(r, d)] ==> c == d)
  }

  /** A stored version carries its own key, its checksum's record id and the right mark. */
  ghost predicate VersionFits(latest: Latest, byReg: ByRegSum, r: nat, i: nat, k: nat, e: Record) {
    && e.registryId == r && e.recordId == i && e.index == k
    && (r, i) in latest && (e.isLatest <==> k == latest[(r, i)])
    && ValidRecordFields(e)
    && (r, e.checksum) in byReg && byReg[(r, e.checksum)] == i
  }

  /** Records have ids 1..count and versions 1..latest. */
  ghost predicate VersionsDense(records: Records, latest: Latest, counts: Counts, byReg: ByRegSum) {
    && (forall r, i :: (r, i) in latest <==> r in counts && 1 <= i <= counts[r])
    && (forall r, i :: (r, i) in latest ==> latest[(r, i)] >= 1)
    && (forall r, i, k :: (r, i, k) in records <==> (r, i) in latest && 1 <= k <= latest[(r, i)])
    && (forall r, i, k :: (r, i, k) in records ==> VersionFits(latest, byReg, r, i, k, records[(r, i, k)]))
  }

  ghost predicate Consistent(env: Env, s: State) {
    match s
    case State(_, registries, count, records, byReg, bySum, counts, latest, _, _) =>
      && RegistriesDense(env, registries, count, counts)
      && IndexesAgree(byReg, bySum, counts)
      && VersionsDense(records, latest, counts, byReg)
  }

  lemma BumpCounterKeeps(env: Env, registries: map<nat, Registry>, count: nat, counts: Counts, r: nat, n: nat)
    requires RegistriesDense(env, registries, count, counts) && r in counts
    ensures RegistriesDense(env, registries, count, counts[r := n])
  {
  }

  lemma NewRegistryKeeps(env: Env, registries: map<nat, Registry>, count: nat, counts: Counts, registry: Registry)
    requires RegistriesDense(env, registries, count, counts)
    requires registry.id == count + 1 && ValidRegistry(env, registry)
    ensures RegistriesDense(env, registries[count + 1 := registry], count + 1, counts[count + 1 := 0])
  {
  }

  lemma NewCounterKeeps(records: Records, latest: Latest, counts: Counts, byReg: ByRegSum, bySum: BySumReg, r: nat)
    requires r !in counts
    requires IndexesAgree(byReg, bySum, counts) && VersionsDense(records, latest, counts, byReg)
    ensures IndexesAgree(byReg, bySum, counts[r := 0]) && VersionsDense(records, latest, counts[r := 0], byReg)
  {
  }

  lemma NewChecksumKeeps(byReg: ByRegSum, bySum: BySumReg, counts: Counts, r: nat, c: Str)
    requires IndexesAgree(byReg, bySum, counts) && r in counts && (r, c) !in byReg
    ensures var id := counts[r] + 1;
            IndexesAgree(byReg[(r, c) := id], bySum[(c, r) := id], counts[r := id])
  {
  }

  /** The first version of a fresh checksum. */
  lemma FirstVersionKeeps(records: Records, latest: Latest, counts: Counts, byReg: ByRegSum, r: nat, e: Record)
    requires VersionsDense(records, latest, counts, byReg)
    requires r in counts && (r, e.checksum) !in byReg
    requires ValidRecordFields(e) && e.registryId == r && e.recordId == counts[r] + 1 && e.index == 1 && e.isLatest
    ensures var id := counts[r] + 1;
            VersionsDense(records[(r, id, 1) := e], latest[(r, id) := 1], counts[r := id], byReg[(r, e.checksum) := id])
  {
    var id := counts[r] + 1;
    var records1, latest1, byReg1 := records[(r, id, 1) := e], latest[(r, id) := 1], byReg[(r, e.checksum) := id];
    forall q, i, k | (q, i, k) in records1
      ensures VersionFits(latest1, byReg1, q, i, k, records1[(q, i, k)])
    {
      if (q, i, k) != (r, id, 1) {
        assert VersionFits(latest, byReg, q, i, k, records[(q, i, k)]);
      }
    }
  }

  /** One more version of a known checksum: the old latest loses its mark. */
  lemma NextVersionKeeps(records: Records, latest: Latest, counts: Counts, byReg: ByRegSum, r: nat, id: nat, e: Record)
    requires VersionsDense(records, latest, counts, byReg) && (r, id) in latest
    requires (r, e.checksum) in byReg && byReg[(r, e.checksum)] == id
    requires ValidRecordFields(e) && e.registryId == r && e.recordId == id && e.index == latest[(r, id)] + 1
    requires e.isLatest
    ensures var k := latest[(r, id)];
            && (r, id, k) in records
            && VersionsDense(records[(r, id, k + 1) := e][(r, id, k) := records[(r, id, k)].(isLatest := false)],
                             latest[(r, id) := k + 1], counts, byReg)
  {
    var k := latest[(r, id)];
    var records1 := records[(r, id, k + 1) := e][(r, id, k) := records[(r, id, k)].(isLatest := false)];
    var latest1 := latest[(r, id) := k + 1];
    forall q, i, j | (q, i, j) in records1
      ensures VersionFits(latest1, byReg, q, i, j, records1[(q, i, j)])
    {
      if (q, i, j) != (r, id, k + 1) {
        assert VersionFits(latest, byReg, q, i, j, records[(q, i, j)]);
      }
    }
  }

  /** What AddRecord stores as version k of record `id`. */
  function Version(now: Str, record: Record, id: nat, k: nat): Record {
    record.(recordId := id, index := k, timestamp := now, isLatest := true)
  }

  /** The store with a first version e under a fresh checksum. */
  function WithFresh(s: State, r: nat, e: Record): State {
    s.(latest := s.latest[(r, e.recordId) := 1],
       records := s.records[(r, e.recordId, 1) := e],
       recordCounts := s.recordCounts[r := e.recordId],
       idByRegSum := s.idByRegSum[(r, e.checksum) := e.recordId],
       idBySumReg := s.idBySumReg[(e.checksum, r) := e.recordId])
  }

  /** The store with e as the version after the k-th. */
  function WithNext(s: State, r: nat, id: nat, k: nat, e: Record): State
    requires (r, id, k) in s.records
  {
    s.(latest := s.latest[(r, id) := k + 1],
       records := s.records[(r, id, k + 1) := e][(r, id, k) := s.records[(r, id, k)].(isLatest := false)])
  }

  /** A known checksum gets its next version; nothing but its record changes. */
  lemma AddKnownRecord(env: Env, now: Str, s: State, sender: Addr, record: Record)
    requires DoAddRecord(env, now, s, sender, record).Ok?
    requires (record.registryId, record.checksum) in s.idByRegSum
    requires VersionsDense(s.records, s.latest, s.recordCounts, s.idByRegSum)
    requires (record.registryId, s.idByRegSum[(record.registryId, record.checksum)]) in s.latest
    ensures var r := record.registryId;
            var id := s.idByRegSum[(r, record.checksum)];
            var k := s.latest[(r, id)];
            && (r, id, k) in s.records
            && DoAddRecord(env, now, s, sender, record).value == WithNext(s, r, id, k, Version(now, record, id, k + 1))
  {
    var r := record.registryId;
    var id := s.idByRegSum[(r, record.checksum)];
    assert (r, id, s.latest[(r, id)]) in s.records;
  }

  lemma PutFirstVersion(now: Str, s: State, s1: State, record: Record, r: nat, id: nat)
    requires r == record.registryId && (r, id) !in s.latest
    requires s1 == s.(recordCounts := s.recordCounts[r := id],
                      idBySumReg := s.idBySumReg[(record.checksum, r) := id],
                      idByRegSum := s.idByRegSum[(r, record.checksum) := id])
    ensures PutVersion(now, s1, record, id) == Ok(WithFresh(s, r, Version(now, record, id, 1)))
  {
  }

  /** A fresh checksum gets the next record id and its first version. */
  lemma AddFreshRecord(env: Env, now: Str, s: State, sender: Addr, record: Record)
    requires DoAddRecord(env, now, s, sender, record).Ok?
    requires (record.registryId, record.checksum) !in s.idByRegSum
    requires record.registryId in s.recordCounts
    requires (record.registryId, s.recordCounts[record.registryId] + 1) !in s.latest
    ensures var r := record.registryId;
            var id := s.recordCounts[r] + 1;
            DoAddRecord(env, now, s, sender, record).value == WithFresh(s, r, Version(now, record, id, 1))
  {
    var (s1, id) := AssignRecordId(s, record.registryId, record.checksum).value;
    PutFirstVersion(now, s, s1, record, record.registryId, id);
  }

  lemma WithNextKeeps(env: Env, s: State, r: nat, id: nat, k: nat, e: Record)
    requires Consistent(env, s) && (r, id) in s.latest && k == s.latest[(r, id)] && (r, id, k) in s.records
    requires (r, e.checksum) in s.idByRegSum && s.idByRegSum[(r, e.checksum)] == id
    requires ValidRecordFields(e) && e.registryId == r && e.recordId == id && e.index == k + 1 && e.isLatest
    ensures Consistent(env, WithNext(s, r, id, k, e))
  {
    NextVersionKeeps(s.records, s.latest, s.recordCounts, s.idByRegSum, r, id, e);
  }

  lemma AddKnownRecordKeeps(env: Env, now: Str, s: State, sender: Addr, record: Record, t: State)
    requires Consistent(env, s) && DoAddRecord(env, now, s, sender, record) == Ok(t)
    requires (record.registryId, record.checksum) in s.idByRegSum
    ensures Consistent(env, t)
  {
    var r, id := record.registryId, s.idByRegSum[(record.registryId, record.checksum)];
    AddKnownRecord(env, now, s, sender, record);
    var k := s.latest[(r, id)];
    WithNextKeeps(env, s, r, id, k, Version(now, record, id, k + 1));
  }

  lemma WithFreshKeeps(env: Env, s: State, r: nat, e: Record)
    requires Consistent(env, s) && r in s.recordCounts && (r, e.checksum) !in s.idByRegSum
    requires ValidRecordFields(e) && e.registryId == r && e.recordId == s.recordCounts[r] + 1 && e.index == 1
    requires e.isLatest
    ensures Consistent(env, WithFresh(s, r, e))
  {
    NewChecksumKeeps(s.idByRegSum, s.idBySumReg, s.recordCounts, r, e.checksum);
    FirstVersionKeeps(s.records, s.latest, s.recordCounts, s.idByRegSum, r, e);
    BumpCounterKeeps(env, s.registries, s.registryCount, s.recordCounts, r, e.recordId);
  }

  lemma AddFreshRecordKeeps(env: Env, now: Str, s: State, sender: Addr, record: Record, t: State)
    requires Consistent(env, s) && DoAddRecord(env, now, s, sender, record) == Ok(t)
    requires (record.registryId, record.checksum) !in s.idByRegSum
    ensures Consistent(env, t)
  {
    var r := record.registryId;
    AddFreshRecord(env, now, s, sender, record);
    WithFreshKeeps(env, s, r, Version(now, record, s.recordCounts[r] + 1, 1));
  }

  lemma UpdateStatusKeeps(env: Env, s: State, sender: Addr, r: nat, id: nat, index: nat, status: Str)
    requires Consistent(env, s)
    ensures var o := DoUpdateStatus(env, s, sender, r, id, index, status);
            o.Ok? ==> Consistent(env, o.value)
  {
    var o := DoUpdateStatus(env, s, sender, r, id, index, status);
    if o.Ok? {
      forall q, i, k | (q, i, k) in o.value.records
        ensures VersionFits(s.latest, s.idByRegSum, q, i, k, o.value.records[(q, i, k)])
      {
        assert VersionFits(s.latest, s.idByRegSum, q, i, k, s.records[(q, i, k)]);
      }
    }
  }

  lemma AddRegistryKeeps(env: Env, now: Str, s: State, sender: Addr, name: Str, description: Str, metadata: Str)
    requires Consistent(env, s)
    ensures var o := DoAddRegistry(env, now, s, sender, name, description, metadata);
            o.Ok? ==> Consistent(env, o.value)
  {
    var o := DoAddRegistry(env, now, s, sender, name, description, metadata);
    if o.Ok? {
      var id := s.registryCount + 1;
      NewRegistryKeeps(env, s.registries, s.registryCount, s.recordCounts,
                       Registry(id, name, description, env.text(sender), now, metadata));
      NewCounterKeeps(s.records, s.latest, s.recordCounts, s.idByRegSum, s.idBySumReg, id);
    }
  }

  /** Role and parameter messages leave the books alone. */
  lemma RoleMessagesKeep(env: Env, s: State, tx: Tx)
    requires tx.msg.GrantRole? || tx.msg.RevokeRole? || tx.msg.UpdateParams?
    ensures var t := Deliver(env, s, tx);
      t == s.(params := t.params, roleAdmins := t.roleAdmins, roleMembers := t.roleMembers)
  {
  }

  lemma DeliverKeeps(env: Env, s: State, tx: Tx)
    requires Consistent(env, s)
    ensures Consistent(env, Deliver(env, s, tx))
  {
    match tx.msg
    case AddRegistry(sender, name, description, metadata) =>
      if env.Account(sender).Some? {
        AddRegistryKeeps(env, tx.now, s, env.Account(sender).value, name, description, metadata);
      }
    case AddRecord(sender, record) =>
      if Handle(env, s, tx).Ok? {
        if (record.registryId, record.checksum) in s.idByRegSum {
          AddKnownRecordKeeps(env, tx.now, s, env.Account(sender).value, record, Deliver(env, s, tx));
        } else {
          AddFreshRecordKeeps(env, tx.now, s, env.Account(sender).value, record, Deliver(env, s, tx));
        }
      }
    case UpdateRecordStatus(editor, r, id, index, status) =>
      if env.Account(editor).Some? {
        UpdateStatusKeeps(env, s, env.Account(editor).value, r, id, index, status);
      }
    case _ => RoleMessagesKeep(env, s, tx);
  }

  /** Every run from the empty genesis is consistent. */
  lemma {:induction false} RunsAreConsistent(env: Env, params: Params, txs: seq<Tx>)
    ensures Consistent(env, Run(env, EmptyState(params), txs))
    decreases |txs|
  {
    if txs != [] {
      RunsAreConsistent(env, params, txs[..|txs| - 1]);
      DeliverKeeps(env, Run(env, EmptyState(params), txs[..|txs| - 1]), txs[|txs| - 1]);
    }
  }

  /** In every run, checksums and record ids match one to one, and a record's versions share a checksum. */
  lemma RunsMatchChecksumsToIds(env: Env, params: Params, txs: seq<Tx>)
    ensures var s := Run(env, EmptyState(params), txs);
            && s.recordCounts.Keys == s.registries.Keys
            && (forall r, i :: (r, i) in s.latest <==> r in s.registries && 1 <= i <= s.recordCounts[r])
            && (forall r, i :: (r, i) in s.latest ==> exists c :: (r, c) in s.idByRegSum && s.idByRegSum[(r, c)] == i)
            && (forall r, i, j, k :: (r, i, j) in s.records && (r, i, k) in s.records
                               ==> s.records[(r, i, j)].checksum == s.records[(r, i, k)].checksum)
  {
    RunsAreConsistent(env, params, txs);
    var s := Run(env, EmptyState(params), txs);
    forall r, i | (r, i) in s.latest
      ensures exists c :: (r, c) in s.idByRegSum && s.idByRegSum[(r, c)] == i
    {
      assert (r, i, 1) in s.records;
      assert (r, s.records[(r, i, 1)].checksum) in s.idByRegSum;
    }
    forall r, i, j, k | (r, i, j) in s.records && (r, i, k) in s.records
      ensures s.records[(r, i, j)].checksum == s.records[(r, i, k)].checksum
    {
      assert VersionFits(s.latest, s.idByRegSum, r, i, j, s.records[(r, i, j)]);
      assert VersionFits(s.latest, s.idByRegSum, r, i, k, s.records[(r, i, k)]);
    }
  }
}
