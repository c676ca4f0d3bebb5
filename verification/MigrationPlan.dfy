/**
 The storage a migration emits, as a list of items: one per entity the contract keeps. Each item
 owns a location, and everything it puts lies at or under that location.
 */
module MigrationPlan {
  import opened Bytes
  import opened Walks
  import opened Types
  import opened Messages
  import opened Slots
  import opened Layout

  datatype Item =
    | RegistryItem(r: nat)
    | NameItem(name: Str)
    | CountItem(r: nat)
    | RecordItem(r: nat, id: nat, index: nat)
    | LatestItem(r: nat, id: nat)
    | RecordIdItem(r: nat, checksum: Str)
    | HeaderItem
    | ChecksumItem(checksum: Str)
    | AdminItem(role: Role)
    | MemberItem(role: Role, account: Addr)
    | MemberCountItem(role: Role)

  /** asciiLower: folds A-Z only. */
  function AsciiLower(s: Str): (t: Str)
    ensures |t| == |s|
  {
    seq(|s|, i requires 0 <= i < |s| => if 65 <= s[i] <= 90 then s[i] + 32 else s[i])
  }

  function FoldedNames(s: State): set<Str> {
    set r | r in s.registries :: AsciiLower(s.registries[r].name)
  }

  /** The ids of the registries with this folded name, ascending. */
  function IdsByName(s: State, name: Str): seq<nat> {
    WalkIds(set r | r in s.registries && AsciiLower(s.registries[r].name) == name)
  }

  function Checksums(s: State): set<Str> {
    set k | k in s.idBySumReg :: k.0
  }

  /** The ids of the registries that hold this checksum, ascending. */
  function RegistriesOf(s: State, checksum: Str): seq<nat> {
    WalkIds(set k | k in s.idBySumReg && k.0 == checksum :: k.1)
  }

  function RolesInUse(s: State): set<Role> {
    set k | k in s.roleMembers :: k.0
  }

  /** BytesToAddress: the last 20 bytes, zero-padded on the left. */
  function ToAddress(a: Addr): (b: Str)
    ensures |b| == 20
  {
    if |a| >= 20 then a[|a| - 20..] else Zeros(20 - |a|) + a
  }

  function HeaderWord(admin: Addr, count: nat): Hash {
    Zeros(4) + BigEndian(count, 8) + ToAddress(admin)
  }

  /** Where an item lives. */
  function OwnerLoc(item: Item): Loc {
    match item
    case RegistryItem(r) => RegistryLoc(r, 0)
    case NameItem(name) => Cell(name, Root(REGISTRIES_BY_NAME), 0)
    case CountItem(r) => Cell(Word(r), Root(RECORD_COUNT), 0)
    case RecordItem(r, id, index) => RecordLoc(r, id, index, 0)
    case LatestItem(r, id) => Cell(Word(id), Cell(Word(r), Root(LATEST_INDEX), 0), 0)
    case RecordIdItem(r, checksum) => Cell(checksum, Cell(Word(r), Root(RECORD_ID_BY_CHECKSUM), 0), 0)
    case HeaderItem => Root(HEADER)
    case ChecksumItem(checksum) => Cell(checksum, Root(REGISTRIES_BY_CHECKSUM), 0)
    case AdminItem(role) => Cell(role, Root(ROLE_ADMIN), 0)
    case MemberItem(role, account) => Cell(ToHash(account), Cell(role, Root(ROLE_MEMBERS), 0), 0)
    case MemberCountItem(role) => Cell(role, Root(ROLE_MEMBER_COUNT), 0)
  }

  /** The store has something to say about this item. */
  predicate Present(s: State, item: Item) {
    match item
    case RegistryItem(r) => r in s.registries
    case NameItem(name) => name in FoldedNames(s)
    case CountItem(r) => r in s.recordCounts
    case RecordItem(r, id, index) => (r, id, index) in s.records
    case LatestItem(r, id) => (r, id) in s.latest
    case RecordIdItem(r, checksum) => (r, checksum) in s.idByRegSum
    case HeaderItem => true
    case ChecksumItem(checksum) => checksum in Checksums(s)
    case AdminItem(role) => role in s.roleAdmins
    case MemberItem(role, account) => (role, account) in s.roleMembers
    case MemberCountItem(role) => role in RolesInUse(s)
  }

  /** What an item puts; only a present one has anything to put. */
  function ItemPuts(s: State, admin: Addr, item: Item): seq<Put> {
    match item
    case RegistryItem(r) => if r in s.registries then RegistryPuts(r, s.registries[r]) else []
    case NameItem(name) => IdsPuts(OwnerLoc(item), IdsByName(s, name))
    case CountItem(r) => if r in s.recordCounts then [Put(OwnerLoc(item), Word(s.recordCounts[r]))] else []
    case RecordItem(r, id, index) =>
      if (r, id, index) in s.records then RecordPuts(r, id, index, s.records[(r, id, index)]) else []
    case LatestItem(r, id) => if (r, id) in s.latest then [Put(OwnerLoc(item), Word(s.latest[(r, id)]))] else []
    case RecordIdItem(r, checksum) =>
      if (r, checksum) in s.idByRegSum then [Put(OwnerLoc(item), Word(s.idByRegSum[(r, checksum)]))] else []
    case HeaderItem => [Put(OwnerLoc(item), HeaderWord(admin, s.registryCount))]
    case ChecksumItem(checksum) => IdsPuts(OwnerLoc(item), RegistriesOf(s, checksum))
    case AdminItem(role) => if role in s.roleAdmins then [Put(OwnerLoc(item), ToHash(s.roleAdmins[role]))] else []
    case MemberItem(role, account) => if (role, account) in s.roleMembers then [Put(OwnerLoc(item), Word(1))] else []
    case MemberCountItem(role) => [Put(OwnerLoc(item), Word(|MembersOf(s, role)|))]
  }

  // ---- the items in the order they are emitted ----

  function RegistryItems(keys: set<nat>): seq<Item> {
    var ks := WalkIds(keys);
    seq(|ks|, i requires 0 <= i < |ks| => RegistryItem(ks[i]))
  }

  function NameItems(keys: set<Str>): seq<Item> {
    var ks := WalkStrs(keys);
    seq(|ks|, i requires 0 <= i < |ks| => NameItem(ks[i]))
  }

  function CountItems(keys: set<nat>): seq<Item> {
    var ks := WalkIds(keys);
    seq(|ks|, i requires 0 <= i < |ks| => CountItem(ks[i]))
  }

  function RecordItems(keys: set<(nat, nat, nat)>): seq<Item> {
    var ks := WalkTriples(keys);
    seq(|ks|, i requires 0 <= i < |ks| => RecordItem(ks[i].0, ks[i].1, ks[i].2))
  }

  function LatestItems(keys: set<(nat, nat)>): seq<Item> {
    var ks := WalkPairs(keys);
    seq(|ks|, i requires 0 <= i < |ks| => LatestItem(ks[i].0, ks[i].1))
  }

  function RecordIdItems(keys: set<(nat, Str)>): seq<Item> {
    var ks := WalkIdStrs(keys);
    seq(|ks|, i requires 0 <= i < |ks| => RecordIdItem(ks[i].0, ks[i].1))
  }

  function ChecksumItems(keys: set<Str>): seq<Item> {
    var ks := WalkStrs(keys);
    seq(|ks|, i requires 0 <= i < |ks| => ChecksumItem(ks[i]))
  }

  function AdminItems(keys: set<Role>): seq<Item> {
    var ks := WalkHashes(keys);
    seq(|ks|, i requires 0 <= i < |ks| => AdminItem(ks[i]))
  }

  function MemberItems(role: Role, accounts: seq<Addr>): seq<Item> {
    seq(|accounts|, i requires 0 <= i < |accounts| => MemberItem(role, accounts[i]))
  }

  /** A role's members, then their number. */
  function RoleItems(s: State, role: Role): seq<Item> {
    MemberItems(role, WalkStrs(MembersOf(s, role))) + [MemberCountItem(role)]
  }

  function AllRoleItems(s: State, roles: seq<Role>): seq<Item> {
    if roles == [] then [] else AllRoleItems(s, roles[..|roles| - 1]) + RoleItems(s, roles[|roles| - 1])
  }

  const KINDS := 10

  /** The items of one kind, in the order their walk meets them. */
  function Step(s: State, kind: nat): seq<Item> {
    match kind
    case 0 => RegistryItems(s.registries.Keys)
    case 1 => NameItems(FoldedNames(s))
    case 2 => CountItems(s.recordCounts.Keys)
    case 3 => RecordItems(s.records.Keys)
    case 4 => LatestItems(s.latest.Keys)
    case 5 => RecordIdItems(s.idByRegSum.Keys)
    case 6 => [HeaderItem]
    case 7 => ChecksumItems(Checksums(s))
    case 8 => AdminItems(s.roleAdmins.Keys)
    case 9 => AllRoleItems(s, WalkHashes(RolesInUse(s)))
    case _ => []
  }

  /** The items of the first n kinds. */
  function Items(s: State, n: nat): seq<Item>
    decreases n, s
  {
    if n == 0 then [] else Items(s, n - 1) + Step(s, n - 1)
  }

  function Puts(s: State, admin: Addr, items: seq<Item>): seq<Put> {
    if items == [] then [] else
      Puts(s, admin, items[..|items| - 1]) + ItemPuts(s, admin, items[|items| - 1])
  }

  // ---- the items are exactly the present ones, each once ----

  lemma NoDupConcat<T(!new)>(xs: seq<T>, ys: seq<T>)
    requires NoDup(xs) && NoDup(ys)
    requires forall x :: x in xs ==> x !in ys
    ensures NoDup(xs + ys)
  {
    forall i, j | 0 <= i < j < |xs + ys|
      ensures (xs + ys)[i] != (xs + ys)[j]
    {
      if i < |xs| <= j {
        assert xs[i] in xs && ys[j - |xs|] in ys;
      }
    }
  }

  /** The place of an item's kind in the order of emission. */
  function Kind(item: Item): nat {
    match item
    case RegistryItem(_) => 0
    case NameItem(_) => 1
    case CountItem(_) => 2
    case RecordItem(_, _, _) => 3
    case LatestItem(_, _) => 4
    case RecordIdItem(_, _) => 5
    case HeaderItem => 6
    case ChecksumItem(_) => 7
    case AdminItem(_) => 8
    case MemberItem(_, _) => 9
    case MemberCountItem(_) => 9
  }

  lemma MemberItemsList(role: Role, accounts: seq<Addr>)
    requires NoDup(accounts)
    ensures NoDup(MemberItems(role, accounts))
    ensures forall x :: x in MemberItems(role, accounts) <==> x.MemberItem? && x.role == role && x.account in accounts
  {
    forall x: Item | x.MemberItem? && x.role == role && x.account in accounts ensures x in MemberItems(role, accounts) {
      var i :| 0 <= i < |accounts| && accounts[i] == x.account;
      assert MemberItems(role, accounts)[i] == x;
    }
  }

  lemma OneRoleList(s: State, role: Role)
    ensures NoDup(RoleItems(s, role))
    ensures forall x :: x in RoleItems(s, role) <==>
              x == MemberCountItem(role) || (x.MemberItem? && x.role == role && x.account in MembersOf(s, role))
  {
    var members := MemberItems(role, WalkStrs(MembersOf(s, role)));
    WalkStrsExact(MembersOf(s, role));
    MemberItemsList(role, WalkStrs(MembersOf(s, role)));
    NoDupConcat(members, [MemberCountItem(role)]);
  }

  lemma {:induction false} AllRolesList(s: State, roles: seq<Role>)
    requires NoDup(roles)
    ensures NoDup(AllRoleItems(s, roles))
    ensures forall x :: x in AllRoleItems(s, roles) <==>
              || (x.MemberCountItem? && x.role in roles)
              || (x.MemberItem? && x.role in roles && x.account in MembersOf(s, x.role))
  {
    if roles != [] {
      var n := |roles| - 1;
      AllRolesList(s, roles[..n]);
      OneRoleList(s, roles[n]);
      assert roles[n] !in roles[..n];
      NoDupConcat(AllRoleItems(s, roles[..n]), RoleItems(s, roles[n]));
      assert roles == roles[..n] + [roles[n]];
    }
  }

  lemma RegistryItemsList(keys: set<nat>)
    ensures NoDup(RegistryItems(keys))
    ensures forall x :: x in RegistryItems(keys) <==> x.RegistryItem? && x.r in keys
  {
    WalkIdsExact(keys);
    var ks := WalkIds(keys);
    forall x: Item | x.RegistryItem? && x.r in keys ensures x in RegistryItems(keys) {
      var i :| 0 <= i < |ks| && ks[i] == x.r;
      assert RegistryItems(keys)[i] == x;
    }
  }

  lemma NameItemsList(keys: set<Str>)
    ensures NoDup(NameItems(keys))
    ensures forall x :: x in NameItems(keys) <==> x.NameItem? && x.name in keys
  {
    WalkStrsExact(keys);
    var ks := WalkStrs(keys);
    forall x: Item | x.NameItem? && x.name in keys ensures x in NameItems(keys) {
      var i :| 0 <= i < |ks| && ks[i] == x.name;
      assert NameItems(keys)[i] == x;
    }
  }

  lemma CountItemsList(keys: set<nat>)
    ensures NoDup(CountItems(keys))
    ensures forall x :: x in CountItems(keys) <==> x.CountItem? && x.r in keys
  {
    WalkIdsExact(keys);
    var ks := WalkIds(keys);
    forall x: Item | x.CountItem? && x.r in keys ensures x in CountItems(keys) {
      var i :| 0 <= i < |ks| && ks[i] == x.r;
      assert CountItems(keys)[i] == x;
    }
  }

  lemma RecordItemsList(keys: set<(nat, nat, nat)>)
    ensures NoDup(RecordItems(keys))
    ensures forall x :: x in RecordItems(keys) <==> x.RecordItem? && (x.r, x.id, x.index) in keys
  {
    WalkTriplesExact(keys);
    var ks := WalkTriples(keys);
    forall x: Item | x.RecordItem? && (x.r, x.id, x.index) in keys ensures x in RecordItems(keys) {
      var i :| 0 <= i < |ks| && ks[i] == (x.r, x.id, x.index);
      assert RecordItems(keys)[i] == x;
    }
  }

  lemma LatestItemsList(keys: set<(nat, nat)>)
    ensures NoDup(LatestItems(keys))
    ensures forall x :: x in LatestItems(keys) <==> x.LatestItem? && (x.r, x.id) in keys
  {
    WalkPairsExact(keys);
    var ks := WalkPairs(keys);
    forall x: Item | x.LatestItem? && (x.r, x.id) in keys ensures x in LatestItems(keys) {
      var i :| 0 <= i < |ks| && ks[i] == (x.r, x.id);
      assert LatestItems(keys)[i] == x;
    }
  }

  lemma RecordIdItemsList(keys: set<(nat, Str)>)
    ensures NoDup(RecordIdItems(keys))
    ensures forall x :: x in RecordIdItems(keys) <==> x.RecordIdItem? && (x.r, x.checksum) in keys
  {
    WalkIdStrsExact(keys);
    var ks := WalkIdStrs(keys);
    forall x: Item | x.RecordIdItem? && (x.r, x.checksum) in keys ensures x in RecordIdItems(keys) {
      var i :| 0 <= i < |ks| && ks[i] == (x.r, x.checksum);
      assert RecordIdItems(keys)[i] == x;
    }
  }

  lemma ChecksumItemsList(keys: set<Str>)
    ensures NoDup(ChecksumItems(keys))
    ensures forall x :: x in ChecksumItems(keys) <==> x.ChecksumItem? && x.checksum in keys
  {
    WalkStrsExact(keys);
    var ks := WalkStrs(keys);
    forall x: Item | x.ChecksumItem? && x.checksum in keys ensures x in ChecksumItems(keys) {
      var i :| 0 <= i < |ks| && ks[i] == x.checksum;
      assert ChecksumItems(keys)[i] == x;
    }
  }

  lemma AdminItemsList(keys: set<Role>)
    ensures NoDup(AdminItems(keys))
    ensures forall x :: x in AdminItems(keys) <==> x.AdminItem? && x.role in keys
  {
    WalkHashesExact(keys);
    var ks := WalkHashes(keys);
    forall x: Item | x.AdminItem? && x.role in keys ensures x in AdminItems(keys) {
      var i :| 0 <= i < |ks| && ks[i] == x.role;
      assert AdminItems(keys)[i] == x;
    }
  }

  lemma StepMember(s: State, kind: nat, x: Item)
    ensures x in Step(s, kind) <==> Kind(x) == kind && Present(s, x)
  {
    match kind
    case 0 => RegistryItemsList(s.registries.Keys);
    case 1 => NameItemsList(FoldedNames(s));
    case 2 => CountItemsList(s.recordCounts.Keys);
    case 3 => RecordItemsList(s.records.Keys);
    case 4 => LatestItemsList(s.latest.Keys);
    case 5 => RecordIdItemsList(s.idByRegSum.Keys);
    case 6 =>
    case 7 => ChecksumItemsList(Checksums(s));
    case 8 => AdminItemsList(s.roleAdmins.Keys);
    case 9 => RoleItemPresent(s, x);
    case _ =>
  }

  lemma StepNoDup(s: State, kind: nat)
    ensures NoDup(Step(s, kind))
  {
    match kind
    case 0 => RegistryItemsList(s.registries.Keys);
    case 1 => NameItemsList(FoldedNames(s));
    case 2 => CountItemsList(s.recordCounts.Keys);
    case 3 => RecordItemsList(s.records.Keys);
    case 4 => LatestItemsList(s.latest.Keys);
    case 5 => RecordIdItemsList(s.idByRegSum.Keys);
    case 6 =>
    case 7 => ChecksumItemsList(Checksums(s));
    case 8 => AdminItemsList(s.roleAdmins.Keys);
    case 9 => WalkHashesExact(RolesInUse(s)); AllRolesList(s, WalkHashes(RolesInUse(s)));
    case _ =>
  }

  lemma RoleItemPresent(s: State, x: Item)
    ensures x in AllRoleItems(s, WalkHashes(RolesInUse(s))) <==> (x.MemberItem? || x.MemberCountItem?) && Present(s, x)
  {
    WalkHashesExact(RolesInUse(s));
    AllRolesList(s, WalkHashes(RolesInUse(s)));
    if x.MemberItem? && Present(s, x) {
      assert (x.role, x.account).0 in RolesInUse(s);
      assert (x.role, x.account).1 in MembersOf(s, x.role);
    }
  }

  /** Every present item is emitted and nothing else is. */
  lemma {:induction false} ItemsExact(s: State, n: nat, x: Item)
    ensures x in Items(s, n) <==> Kind(x) < n && Present(s, x)
  {
    if n > 0 {
      ItemsExact(s, n - 1, x);
      StepMember(s, n - 1, x);
    }
  }

  /** No item is emitted twice. */
  lemma {:induction false} ItemsNoDup(s: State, n: nat)
    ensures NoDup(Items(s, n))
  {
    if n > 0 {
      ItemsNoDup(s, n - 1);
      StepNoDup(s, n - 1);
      var before, step := Items(s, n - 1), Step(s, n - 1);
      forall x | x in before ensures x !in step {
        ItemsExact(s, n - 1, x);
        StepMember(s, n - 1, x);
      }
      NoDupConcat(before, step);
    }
  }
}
