/**
 Reading a migrated store the way Solidity reads storage gives back the keeper's store, key by
 key, and zero for every key the keeper does not hold.
 */
module Migration {
  import opened Bytes
  import opened Types
  import opened Bookkeeping
  import opened Slots
  import opened Layout
  import opened MigrationPlan
  import opened MigrationStorage

  /** Everything a migration of s puts. */
  function Plan(s: State, admin: Addr): seq<Put> {
    Puts(s, admin, Items(s, KINDS))
  }

  /** The storage a migration of s leaves. */
  function Migrated(k: Keccak, s: State, admin: Addr): Storage {
    StorageOf(Emit(k, Plan(s, admin)))
  }

  /** Counters and lengths fit in 64 bits and every account has 20 bytes. */
  ghost predicate Fits(s: State, admin: Addr) {
    && s.registryCount < TWO64 && |s.registries| < TWO64 && |s.roleMembers| < TWO64 && |admin| == 20
    && (forall r :: r in s.recordCounts ==> s.recordCounts[r] < TWO64)
    && (forall p :: p in s.latest ==> s.latest[p] < TWO64)
    && (forall r :: r in s.registries ==>
          2 * |s.registries[r].creator| + 1 < TWO64 && 2 * |s.registries[r].createdAt| + 1 < TWO64)
    && (forall t :: t in s.records ==> 2 * |s.records[t].timestamp| + 1 < TWO64)
    && (forall m :: m in s.roleMembers ==> |m.1| == 20)
  }

  lemma RegistryIdFits(env: Env, s: State, admin: Addr, r: nat)
    requires Consistent(env, s) && Fits(s, admin) && r in s.registries
    ensures r < TWO64 && s.registries[r].name != []
  {
  }

  lemma RecordKeyFits(env: Env, s: State, admin: Addr, r: nat, id: nat)
    requires Consistent(env, s) && Fits(s, admin) && (r, id) in s.latest
    ensures r in s.registries && id < TWO64 && s.latest[(r, id)] < TWO64
  {
    assert r in s.registries;
  }

  lemma VersionKeyFits(env: Env, s: State, admin: Addr, r: nat, id: nat, index: nat)
    requires Consistent(env, s) && Fits(s, admin) && (r, id, index) in s.records
    ensures (r, id) in s.latest && index < TWO64
  {
    assert (r, id) in s.latest;
  }

  lemma PresentItemFits(env: Env, s: State, admin: Addr, item: Item)
    requires Consistent(env, s) && Fits(s, admin) && Present(s, item)
    ensures ItemFits(item)
  {
    match item
    case RegistryItem(r) => RegistryIdFits(env, s, admin, r);
    case NameItem(name) =>
      var r :| r in s.registries && AsciiLower(s.registries[r].name) == name;
      RegistryIdFits(env, s, admin, r);
    case CountItem(r) =>
      assert r in s.registries;
      RegistryIdFits(env, s, admin, r);
    case RecordItem(r, id, index) =>
      VersionKeyFits(env, s, admin, r, id, index);
      RecordKeyFits(env, s, admin, r, id);
      RegistryIdFits(env, s, admin, r);
    case LatestItem(r, id) =>
      RecordKeyFits(env, s, admin, r, id);
      RegistryIdFits(env, s, admin, r);
    case RecordIdItem(r, checksum) =>
      ChecksumIsNotEmpty(env, s, r, checksum);
      RegistryIdFits(env, s, admin, r);
    case ChecksumItem(checksum) =>
      var p :| p in s.idBySumReg && p.0 == checksum;
      assert (p.1, p.0) in s.idByRegSum;
      ChecksumIsNotEmpty(env, s, p.1, checksum);
    case _ =>
  }

  lemma ChecksumIsNotEmpty(env: Env, s: State, r: nat, checksum: Str)
    requires Consistent(env, s) && (r, checksum) in s.idByRegSum
    ensures r in s.registries && checksum != []
  {
    var id := s.idByRegSum[(r, checksum)];
    assert (r, id) in s.latest;
    assert (r, id, 1) in s.records;
    assert VersionFits(s.latest, s.idByRegSum, r, id, 1, s.records[(r, id, 1)]);
  }

  /** The keccak hypothesis for this store: every location it puts is in play. */
  ghost predicate KeccakOk(k: Keccak, s: State, admin: Addr, preimages: set<Str>, span: nat) {
    Spread(k, preimages, span) && span >= 7 && AllInPlay(k, Plan(s, admin), preimages, span)
  }

  lemma PlanIsDistinct(env: Env, s: State, admin: Addr)
    requires Consistent(env, s) && Fits(s, admin)
    ensures AllFit(Items(s, KINDS)) && DistinctLocs(Plan(s, admin))
  {
    var items := Items(s, KINDS);
    forall x | x in items ensures ItemFits(x) {
      ItemsExact(s, KINDS, x);
      PresentItemFits(env, s, admin, x);
    }
    ItemsNoDup(s, KINDS);
    PutsAreDistinct(s, admin, items);
  }

  /** A migration writes each slot at most once over all its steps. */
  lemma MigrationWritesOnce(env: Env, k: Keccak, s: State, admin: Addr, preimages: set<Str>, span: nat)
    requires Consistent(env, s) && Fits(s, admin) && KeccakOk(k, s, admin, preimages, span)
    ensures var ws := Emit(k, Plan(s, admin));
            forall i, j :: 0 <= i < j < |ws| ==> ws[i].slot != ws[j].slot
  {
    PlanIsDistinct(env, s, admin);
    SlotsWrittenOnce(k, Plan(s, admin), preimages, span);
  }

  lemma PutHolds(k: Keccak, plan: seq<Put>, p: Put, preimages: set<Str>, span: nat)
    requires p in plan && DistinctLocs(plan) && Spread(k, preimages, span) && AllInPlay(k, plan, preimages, span)
    ensures Load(StorageOf(Emit(k, plan)), Slot(k, p.loc)) == p.value
  {
    var i :| 0 <= i < |plan| && plan[i] == p;
    LoadGivesValue(k, plan, p.loc, preimages, span);
    ValueOfPut(plan, i);
  }

  lemma PresentHolds(env: Env, k: Keccak, s: State, admin: Addr, preimages: set<Str>, span: nat, item: Item)
    requires Consistent(env, s) && Fits(s, admin) && KeccakOk(k, s, admin, preimages, span)
    requires Present(s, item)
    ensures Holds(k, Migrated(k, s, admin), ItemPuts(s, admin, item))
  {
    var plan := Plan(s, admin);
    PlanIsDistinct(env, s, admin);
    ItemsExact(s, KINDS, item);
    PutsContain(s, admin, Items(s, KINDS), item);
    forall p | p in ItemPuts(s, admin, item)
      ensures Load(Migrated(k, s, admin), Slot(k, p.loc)) == p.value
    {
      PutHolds(k, plan, p, preimages, span);
    }
  }

  lemma AbsentIsZero(env: Env, k: Keccak, s: State, admin: Addr, preimages: set<Str>, span: nat, item: Item, l: Loc)
    requires Consistent(env, s) && Fits(s, admin) && KeccakOk(k, s, admin, preimages, span)
    requires !Present(s, item) && Askable(item) && Belongs(l, item) && InPlay(k, l, preimages, span)
    ensures Load(Migrated(k, s, admin), Slot(k, l)) == ZERO
  {
    var plan, items := Plan(s, admin), Items(s, KINDS);
    PlanIsDistinct(env, s, admin);
    forall i | 0 <= i < |plan| ensures plan[i].loc != l {
      var x := PutHasOwner(s, admin, items, i);
      ItemsExact(s, KINDS, x);
      if plan[i].loc == l {
        OwnersApart(x, item, l);
      }
    }
    LoadGivesValue(k, plan, l, preimages, span);
    ValueOfNothing(plan, l);
  }
}
