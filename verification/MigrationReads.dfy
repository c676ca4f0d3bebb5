/** The contract's getters over migrated storage, and what each returns. */
module MigrationReads {
  import opened Bytes
  import opened Walks
  import opened Types
  import opened Messages
  import opened Bookkeeping
  import opened Slots
  import opened Layout
  import opened MigrationPlan
  import opened MigrationStorage
  import opened Migration

  // ---- the contract's state variables, by their place in its declaration, read by Solidity's rules ----

  function SolRecordCount(k: Keccak, st: Storage, r: nat): nat {
    Num(Load(st, MapUint64(k, r, Word(5))))
  }

  function SolLatestIndex(k: Keccak, st: Storage, r: nat, id: nat): nat {
    Num(Load(st, MapUint64(k, id, MapUint64(k, r, Word(6)))))
  }

  function SolRecordId(k: Keccak, st: Storage, r: nat, checksum: Str): nat {
    Num(Load(st, MapString(k, checksum, MapUint64(k, r, Word(8)))))
  }

  function SolRegistriesByChecksum(k: Keccak, st: Storage, checksum: Str): seq<nat> {
    ReadIds(k, st, MapString(k, checksum, Word(9)))
  }

  function SolRegistriesByName(k: Keccak, st: Storage, folded: Str): seq<nat> {
    ReadIds(k, st, MapString(k, folded, Word(10)))
  }

  /** The old admin in the low 20 bytes of the header, the registry count in the 8 above. */
  function SolHeader(st: Storage): (Str, nat) {
    var w := Load(st, Word(3));
    (w[12..], Num(w[4..12]))
  }

  function SolRoleAdmin(k: Keccak, st: Storage, role: Role): Hash {
    Load(st, MapHash(k, role, Word(0)))
  }

  function SolHasRole(k: Keccak, st: Storage, role: Role, account: Addr): bool {
    Load(st, MapHash(k, ToHash(account), MapHash(k, role, Word(1)))) != ZERO
  }

  function SolMemberCount(k: Keccak, st: Storage, role: Role): nat {
    Num(Load(st, MapHash(k, role, Word(2))))
  }

  const NO_RECORD := Record([], [], [], [], [], [], 0, 0, false, 0)

  /** The getter for this item returns what the keeper's store holds, or zero. */
  ghost predicate ReadsBack(k: Keccak, st: Storage, s: State, admin: Addr, item: Item) {
    match item
    case RegistryItem(r) => ReadRegistry(k, st, r) == if r in s.registries then s.registries[r] else NO_REGISTRY
    case NameItem(name) => SolRegistriesByName(k, st, name) == IdsByName(s, name)
    case CountItem(r) => SolRecordCount(k, st, r) == if r in s.recordCounts then s.recordCounts[r] else 0
    case RecordItem(r, id, index) =>
      ReadRecord(k, st, r, id, index) == if (r, id, index) in s.records then s.records[(r, id, index)] else NO_RECORD
    case LatestItem(r, id) => SolLatestIndex(k, st, r, id) == if (r, id) in s.latest then s.latest[(r, id)] else 0
    case RecordIdItem(r, checksum) =>
      SolRecordId(k, st, r, checksum) == if (r, checksum) in s.idByRegSum then s.idByRegSum[(r, checksum)] else 0
    case HeaderItem => SolHeader(st) == (admin, s.registryCount)
    case ChecksumItem(checksum) => SolRegistriesByChecksum(k, st, checksum) == RegistriesOf(s, checksum)
    case AdminItem(role) =>
      SolRoleAdmin(k, st, role) == if role in s.roleAdmins then ToHash(s.roleAdmins[role]) else ZERO
    case MemberItem(role, account) => SolHasRole(k, st, role, account) <==> (role, account) in s.roleMembers
    case MemberCountItem(role) => SolMemberCount(k, st, role) == |MembersOf(s, role)|
  }

  // ---- slots of one-word items ----

  lemma EntrySlot(k: Keccak, key: Str, n: nat)
    ensures Slot(k, Cell(key, Root(n), 0)) == k(key + Word(n))
  {
    AtZero(k(key + Word(n)));
  }

  lemma NestedSlot(k: Keccak, key: Str, outer: Str, n: nat)
    ensures Slot(k, Cell(key, Cell(outer, Root(n), 0), 0)) == k(key + k(outer + Word(n)))
  {
    EntrySlot(k, outer, n);
    AtZero(k(key + k(outer + Word(n))));
  }

  /** The slot a getter loads first. */
  function GetterSlot(k: Keccak, item: Item): Hash {
    match item
    case RegistryItem(r) => RegistryBase(k, r)
    case NameItem(name) => MapString(k, name, Word(REGISTRIES_BY_NAME))
    case CountItem(r) => MapUint64(k, r, Word(RECORD_COUNT))
    case RecordItem(r, id, index) => RecordBase(k, r, id, index)
    case LatestItem(r, id) => MapUint64(k, id, MapUint64(k, r, Word(LATEST_INDEX)))
    case RecordIdItem(r, c) => MapString(k, c, MapUint64(k, r, Word(RECORD_ID_BY_CHECKSUM)))
    case HeaderItem => Word(HEADER)
    case ChecksumItem(c) => MapString(k, c, Word(REGISTRIES_BY_CHECKSUM))
    case AdminItem(role) => MapHash(k, role, Word(ROLE_ADMIN))
    case MemberItem(role, a) => MapHash(k, ToHash(a), MapHash(k, role, Word(ROLE_MEMBERS)))
    case MemberCountItem(role) => MapHash(k, role, Word(ROLE_MEMBER_COUNT))
  }

  lemma FirstRecordSlot(k: Keccak, r: nat, id: nat, index: nat)
    ensures Slot(k, RecordLoc(r, id, index, 0)) == RecordBase(k, r, id, index)
  {
    RecordSlot(k, r, id, index, 0);
    AtZero(RecordBase(k, r, id, index));
  }

  lemma EntryOwner(k: Keccak, item: Item)
    requires !item.RecordItem? && !item.LatestItem? && !item.RecordIdItem? && !item.MemberItem?
    ensures Slot(k, OwnerLoc(item)) == GetterSlot(k, item)
  {
    match item
    case RegistryItem(r) => EntrySlot(k, Word(r), REGISTRIES);
    case NameItem(name) => EntrySlot(k, name, REGISTRIES_BY_NAME);
    case CountItem(r) => EntrySlot(k, Word(r), RECORD_COUNT);
    case HeaderItem =>
    case ChecksumItem(c) => EntrySlot(k, c, REGISTRIES_BY_CHECKSUM);
    case AdminItem(role) => EntrySlot(k, role, ROLE_ADMIN);
    case MemberCountItem(role) => EntrySlot(k, role, ROLE_MEMBER_COUNT);
  }

  lemma OwnerSlot(k: Keccak, item: Item)
    ensures Slot(k, OwnerLoc(item)) == GetterSlot(k, item)
  {
    match item
    case RecordItem(r, id, index) => FirstRecordSlot(k, r, id, index);
    case LatestItem(r, id) => NestedSlot(k, Word(id), Word(r), LATEST_INDEX);
    case RecordIdItem(r, c) => NestedSlot(k, c, Word(r), RECORD_ID_BY_CHECKSUM);
    case MemberItem(role, a) => NestedSlot(k, ToHash(a), role, ROLE_MEMBERS);
    case _ => EntryOwner(k, item);
  }

  // ---- sizes ----

  lemma {:induction false} TaggedSize(role: Role, accounts: set<Addr>, members: set<(Role, Addr)>)
    requires forall a :: a in accounts ==> (role, a) in members
    ensures |accounts| <= |members|
    decreases |accounts|
  {
    if accounts != {} {
      var a :| a in accounts;
      TaggedSize(role, accounts - {a}, members - {(role, a)});
    }
  }

  lemma IdsFit(keys: set<nat>, s: State)
    requires keys <= s.registries.Keys && |s.registries| < TWO64 && (forall r :: r in s.registries ==> r < TWO64)
    ensures |WalkIds(keys)| < TWO64 && forall i :: 0 <= i < |WalkIds(keys)| ==> WalkIds(keys)[i] < TWO64
  {
    WalkIdsExact(keys);
    SubsetSize(keys, s.registries.Keys);
    assert |s.registries.Keys| == |s.registries|;
    forall i | 0 <= i < |WalkIds(keys)| ensures WalkIds(keys)[i] < TWO64 {
      assert WalkIds(keys)[i] in keys;
    }
  }

  // ---- present keys ----

  lemma PresentRegistryReads(env: Env, k: Keccak, st: Storage, s: State, admin: Addr, r: nat)
    requires Consistent(env, s) && Fits(s, admin) && r in s.registries
    requires Holds(k, st, ItemPuts(s, admin, RegistryItem(r)))
    ensures ReadsBack(k, st, s, admin, RegistryItem(r))
  {
    ReadRegistryBack(k, st, r, s.registries[r]);
  }

  lemma PresentRecordReads(env: Env, k: Keccak, st: Storage, s: State, admin: Addr, r: nat, id: nat, index: nat)
    requires Consistent(env, s) && Fits(s, admin) && (r, id, index) in s.records
    requires Holds(k, st, ItemPuts(s, admin, RecordItem(r, id, index)))
    ensures ReadsBack(k, st, s, admin, RecordItem(r, id, index))
  {
    assert VersionFits(s.latest, s.idByRegSum, r, id, index, s.records[(r, id, index)]);
    PresentItemFits(env, s, admin, RecordItem(r, id, index));
    ReadRecordBack(k, st, r, id, index, s.records[(r, id, index)]);
  }

  lemma PresentNameReads(env: Env, k: Keccak, st: Storage, s: State, admin: Addr, name: Str)
    requires Consistent(env, s) && Fits(s, admin) && Present(s, NameItem(name))
    requires Holds(k, st, ItemPuts(s, admin, NameItem(name)))
    ensures ReadsBack(k, st, s, admin, NameItem(name))
  {
    OwnerSlot(k, NameItem(name));
    var keys := set r | r in s.registries && AsciiLower(s.registries[r].name) == name;
    IdsFit(keys, s);
    ReadIdsBack(k, st, OwnerLoc(NameItem(name)), WalkIds(keys));
  }

  lemma PresentChecksumReads(env: Env, k: Keccak, st: Storage, s: State, admin: Addr, checksum: Str)
    requires Consistent(env, s) && Fits(s, admin) && Present(s, ChecksumItem(checksum))
    requires Holds(k, st, ItemPuts(s, admin, ChecksumItem(checksum)))
    ensures ReadsBack(k, st, s, admin, ChecksumItem(checksum))
  {
    OwnerSlot(k, ChecksumItem(checksum));
    var keys := set p | p in s.idBySumReg && p.0 == checksum :: p.1;
    forall r | r in keys ensures r in s.registries {
      var p :| p in s.idBySumReg && p.0 == checksum && p.1 == r;
      assert (p.1, p.0) in s.idByRegSum;
    }
    IdsFit(keys, s);
    ReadIdsBack(k, st, OwnerLoc(ChecksumItem(checksum)), WalkIds(keys));
  }

  lemma HeaderReads(admin: Addr, count: nat)
    requires |admin| == 20 && count < TWO64
    ensures HeaderWord(admin, count)[12..] == admin && Num(HeaderWord(admin, count)[4..12]) == count
  {
    Pow256Eight();
    NumOfBigEndian(count, 8);
    assert HeaderWord(admin, count)[4..12] == BigEndian(count, 8);
  }

  lemma OneWordLoads(k: Keccak, st: Storage, puts: seq<Put>, l: Loc, value: Hash)
    requires puts == [Put(l, value)] && Holds(k, st, puts)
    ensures Load(st, Slot(k, l)) == value
  {
    assert puts[0] in puts;
  }

  lemma PresentCountReads(k: Keccak, st: Storage, s: State, admin: Addr, r: nat)
    requires r in s.recordCounts && s.recordCounts[r] < TWO64 && Holds(k, st, ItemPuts(s, admin, CountItem(r)))
    ensures ReadsBack(k, st, s, admin, CountItem(r))
  {
    OneWordLoads(k, st, ItemPuts(s, admin, CountItem(r)), OwnerLoc(CountItem(r)), Word(s.recordCounts[r]));
    OwnerSlot(k, CountItem(r));
    NumOfWord(s.recordCounts[r]);
  }

  lemma PresentLatestReads(k: Keccak, st: Storage, s: State, admin: Addr, r: nat, id: nat)
    requires (r, id) in s.latest && s.latest[(r, id)] < TWO64 && Holds(k, st, ItemPuts(s, admin, LatestItem(r, id)))
    ensures ReadsBack(k, st, s, admin, LatestItem(r, id))
  {
    OneWordLoads(k, st, ItemPuts(s, admin, LatestItem(r, id)), OwnerLoc(LatestItem(r, id)), Word(s.latest[(r, id)]));
    OwnerSlot(k, LatestItem(r, id));
    NumOfWord(s.latest[(r, id)]);
  }

  lemma RecordIdFits(env: Env, s: State, admin: Addr, r: nat, checksum: Str)
    requires Consistent(env, s) && Fits(s, admin) && (r, checksum) in s.idByRegSum
    ensures s.idByRegSum[(r, checksum)] < TWO64
  {
    assert (r, s.idByRegSum[(r, checksum)]) in s.latest;
  }

  lemma PresentRecordIdReads(k: Keccak, st: Storage, s: State, admin: Addr, r: nat, c: Str)
    requires (r, c) in s.idByRegSum && s.idByRegSum[(r, c)] < TWO64
    requires Holds(k, st, ItemPuts(s, admin, RecordIdItem(r, c)))
    ensures ReadsBack(k, st, s, admin, RecordIdItem(r, c))
  {
    OneWordLoads(k, st, ItemPuts(s, admin, RecordIdItem(r, c)), OwnerLoc(RecordIdItem(r, c)),
                 Word(s.idByRegSum[(r, c)]));
    OwnerSlot(k, RecordIdItem(r, c));
    NumOfWord(s.idByRegSum[(r, c)]);
  }

  lemma PresentHeaderReads(k: Keccak, st: Storage, s: State, admin: Addr)
    requires |admin| == 20 && s.registryCount < TWO64 && Holds(k, st, ItemPuts(s, admin, HeaderItem))
    ensures ReadsBack(k, st, s, admin, HeaderItem)
  {
    OneWordLoads(k, st, ItemPuts(s, admin, HeaderItem), Root(HEADER), HeaderWord(admin, s.registryCount));
    HeaderReads(admin, s.registryCount);
  }

  lemma PresentAdminReads(k: Keccak, st: Storage, s: State, admin: Addr, role: Role)
    requires role in s.roleAdmins && Holds(k, st, ItemPuts(s, admin, AdminItem(role)))
    ensures ReadsBack(k, st, s, admin, AdminItem(role))
  {
    OneWordLoads(k, st, ItemPuts(s, admin, AdminItem(role)), OwnerLoc(AdminItem(role)), ToHash(s.roleAdmins[role]));
    OwnerSlot(k, AdminItem(role));
  }

  lemma PresentMemberReads(k: Keccak, st: Storage, s: State, admin: Addr, role: Role, a: Addr)
    requires (role, a) in s.roleMembers && Holds(k, st, ItemPuts(s, admin, MemberItem(role, a)))
    ensures ReadsBack(k, st, s, admin, MemberItem(role, a))
  {
    OneWordLoads(k, st, ItemPuts(s, admin, MemberItem(role, a)), OwnerLoc(MemberItem(role, a)), Word(1));
    OwnerSlot(k, MemberItem(role, a));
    NumOfWord(1);
    NumOfZero();
  }

  lemma PresentMemberCountReads(k: Keccak, st: Storage, s: State, admin: Addr, role: Role)
    requires |s.roleMembers| < TWO64 && Holds(k, st, ItemPuts(s, admin, MemberCountItem(role)))
    ensures ReadsBack(k, st, s, admin, MemberCountItem(role))
  {
    OneWordLoads(k, st, ItemPuts(s, admin, MemberCountItem(role)), OwnerLoc(MemberCountItem(role)),
                 Word(|MembersOf(s, role)|));
    OwnerSlot(k, MemberCountItem(role));
    TaggedSize(role, MembersOf(s, role), s.roleMembers.Keys);
    assert |s.roleMembers.Keys| == |s.roleMembers|;
    NumOfWord(|MembersOf(s, role)|);
  }

  lemma NumOfZero()
    ensures Num(ZERO) == 0 && Num(ZERO[24..]) == 0 && Num(ZERO[24..32]) == 0 && Num(ZERO[16..24]) == 0
    ensures Num(ZERO[7..15]) == 0
  {
    NumDropsZeros(32, []);
    NumDropsZeros(8, []);
    assert Zeros(32) + [] == ZERO && Zeros(8) + [] == Zeros(8);
    assert ZERO[24..] == Zeros(8) && ZERO[24..32] == Zeros(8) && ZERO[16..24] == Zeros(8) && ZERO[7..15] == Zeros(8);
  }

  // ---- absent keys ----

  lemma EmptyReads(k: Keccak, st: Storage, slot: Hash)
    requires Load(st, slot) == ZERO
    ensures ReadString(k, st, slot) == [] && ReadIds(k, st, slot) == []
  {
    NumOfZero();
  }

  lemma EmptyWalk()
    ensures WalkIds({}) == []
  {
  }

  lemma AbsentRegistryReads(k: Keccak, st: Storage, s: State, admin: Addr, item: Item)
    requires item.RegistryItem? && !Present(s, item)
    requires forall f :: 0 <= f < 7 ==> Load(st, Slot(k, RegistryLoc(item.r, f))) == ZERO
    ensures ReadsBack(k, st, s, admin, item)
  {
    var b := RegistryBase(k, item.r);
    NumOfZero();
    forall f | 0 <= f < 6 ensures Load(st, At(b, f)) == ZERO && ReadString(k, st, At(b, f)) == [] {
      RegistrySlot(k, item.r, f);
      assert Load(st, Slot(k, RegistryLoc(item.r, f))) == ZERO;
      EmptyReads(k, st, At(b, f));
    }
  }

  lemma AbsentRecordReads(k: Keccak, st: Storage, s: State, admin: Addr, item: Item)
    requires item.RecordItem? && !Present(s, item)
    requires forall f :: 0 <= f < 7 ==> Load(st, Slot(k, RecordLoc(item.r, item.id, item.index, f))) == ZERO
    ensures ReadsBack(k, st, s, admin, item)
  {
    var b := RecordBase(k, item.r, item.id, item.index);
    NumOfZero();
    forall f | 0 <= f < 7 ensures Load(st, At(b, f)) == ZERO && ReadString(k, st, At(b, f)) == [] {
      RecordSlot(k, item.r, item.id, item.index, f);
      assert Load(st, Slot(k, RecordLoc(item.r, item.id, item.index, f))) == ZERO;
      EmptyReads(k, st, At(b, f));
    }
  }

  lemma AbsentNameReads(k: Keccak, st: Storage, s: State, admin: Addr, name: Str)
    requires name !in FoldedNames(s) && Load(st, GetterSlot(k, NameItem(name))) == ZERO
    ensures ReadsBack(k, st, s, admin, NameItem(name))
  {
    EmptyReads(k, st, GetterSlot(k, NameItem(name)));
    assert (set r | r in s.registries && AsciiLower(s.registries[r].name) == name) == {};
    EmptyWalk();
  }

  lemma AbsentChecksumReads(k: Keccak, st: Storage, s: State, admin: Addr, checksum: Str)
    requires checksum !in Checksums(s) && Load(st, GetterSlot(k, ChecksumItem(checksum))) == ZERO
    ensures ReadsBack(k, st, s, admin, ChecksumItem(checksum))
  {
    EmptyReads(k, st, GetterSlot(k, ChecksumItem(checksum)));
    assert (set p | p in s.idBySumReg && p.0 == checksum :: p.1) == {};
    EmptyWalk();
  }

  lemma AbsentWordReads(k: Keccak, st: Storage, s: State, admin: Addr, item: Item)
    requires OneWord(item) && !Present(s, item) && Load(st, GetterSlot(k, item)) == ZERO
    ensures ReadsBack(k, st, s, admin, item)
  {
    NumOfZero();
    match item
    case MemberCountItem(role) => assert MembersOf(s, role) == {};
    case _ =>
  }

  lemma AbsentOtherReads(k: Keccak, st: Storage, s: State, admin: Addr, item: Item)
    requires !item.RegistryItem? && !item.RecordItem? && !Present(s, item)
    requires Load(st, Slot(k, OwnerLoc(item))) == ZERO
    ensures ReadsBack(k, st, s, admin, item)
  {
    OwnerSlot(k, item);
    match item
    case NameItem(name) => AbsentNameReads(k, st, s, admin, name);
    case ChecksumItem(checksum) => AbsentChecksumReads(k, st, s, admin, checksum);
    case _ => AbsentWordReads(k, st, s, admin, item);
  }

  // ---- the theorem ----

  /** Location f words past the item's own. */
  function FieldLoc(item: Item, f: nat): Loc {
    match OwnerLoc(item)
    case Root(n) => Root(n)
    case Cell(key, parent, _) => Cell(key, parent, f)
  }

  predicate OneWord(item: Item) {
    !item.RegistryItem? && !item.RecordItem? && !item.NameItem? && !item.ChecksumItem?
  }

  lemma PresentWordReads(env: Env, k: Keccak, st: Storage, s: State, admin: Addr, item: Item)
    requires Consistent(env, s) && Fits(s, admin) && OneWord(item) && Present(s, item)
    requires Holds(k, st, ItemPuts(s, admin, item))
    ensures ReadsBack(k, st, s, admin, item)
  {
    match item
    case CountItem(r) => PresentCountReads(k, st, s, admin, r);
    case LatestItem(r, id) => PresentLatestReads(k, st, s, admin, r, id);
    case RecordIdItem(r, checksum) =>
      RecordIdFits(env, s, admin, r, checksum);
      PresentRecordIdReads(k, st, s, admin, r, checksum);
    case HeaderItem => PresentHeaderReads(k, st, s, admin);
    case AdminItem(role) => PresentAdminReads(k, st, s, admin, role);
    case MemberItem(role, a) => PresentMemberReads(k, st, s, admin, role, a);
    case MemberCountItem(role) => PresentMemberCountReads(k, st, s, admin, role);
  }

  lemma PresentReads(env: Env, k: Keccak, st: Storage, s: State, admin: Addr, item: Item)
    requires Consistent(env, s) && Fits(s, admin) && Present(s, item)
    requires Holds(k, st, ItemPuts(s, admin, item))
    ensures ReadsBack(k, st, s, admin, item)
  {
    if OneWord(item) {
      PresentWordReads(env, k, st, s, admin, item);
    } else if item.RegistryItem? {
      PresentRegistryReads(env, k, st, s, admin, item.r);
    } else if item.RecordItem? {
      PresentRecordReads(env, k, st, s, admin, item.r, item.id, item.index);
    } else if item.NameItem? {
      PresentNameReads(env, k, st, s, admin, item.name);
    } else {
      PresentChecksumReads(env, k, st, s, admin, item.checksum);
    }
  }

  lemma FirstField(item: Item)
    ensures !item.RegistryItem? && !item.RecordItem? ==> FieldLoc(item, 0) == OwnerLoc(item)
  {
  }

  lemma AbsentReads(k: Keccak, st: Storage, s: State, admin: Addr, item: Item)
    requires !Present(s, item)
    requires forall f :: 0 <= f < 7 ==> Load(st, Slot(k, FieldLoc(item, f))) == ZERO
    ensures ReadsBack(k, st, s, admin, item)
  {
    FirstField(item);
    match item
    case RegistryItem(r) =>
      assert forall f :: 0 <= f < 7 ==> FieldLoc(item, f) == RegistryLoc(r, f);
      AbsentRegistryReads(k, st, s, admin, item);
    case RecordItem(r, id, index) =>
      assert forall f :: 0 <= f < 7 ==> FieldLoc(item, f) == RecordLoc(r, id, index, f);
      AbsentRecordReads(k, st, s, admin, item);
    case _ => AbsentOtherReads(k, st, s, admin, item);
  }

  lemma AbsentFields(env: Env, k: Keccak, s: State, admin: Addr, preimages: set<Str>, span: nat, item: Item)
    requires Consistent(env, s) && Fits(s, admin) && KeccakOk(k, s, admin, preimages, span)
    requires !Present(s, item) && Askable(item) && InPlay(k, OwnerLoc(item), preimages, span)
    ensures forall f :: 0 <= f < 7 ==> Load(Migrated(k, s, admin), Slot(k, FieldLoc(item, f))) == ZERO
  {
    forall f | 0 <= f < 7 ensures Load(Migrated(k, s, admin), Slot(k, FieldLoc(item, f))) == ZERO {
      AbsentIsZero(env, k, s, admin, preimages, span, item, FieldLoc(item, f));
    }
  }

  /** Every getter of the migrated contract agrees with the keeper's store, on every key. */
  lemma MigrationReadsBack(env: Env, k: Keccak, s: State, admin: Addr, preimages: set<Str>, span: nat, item: Item)
    requires Consistent(env, s) && Fits(s, admin) && KeccakOk(k, s, admin, preimages, span)
    requires Askable(item) && InPlay(k, OwnerLoc(item), preimages, span)
    ensures ReadsBack(k, Migrated(k, s, admin), s, admin, item)
  {
    var st := Migrated(k, s, admin);
    if Present(s, item) {
      PresentHolds(env, k, s, admin, preimages, span, item);
      PresentReads(env, k, st, s, admin, item);
    } else {
      AbsentFields(env, k, s, admin, preimages, span, item);
      AbsentReads(k, st, s, admin, item);
    }
  }
}
