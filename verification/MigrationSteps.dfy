/** What each step of the migration writes, key by key, and that the steps make up the plan. */
module MigrationSteps {
  import opened Bytes
  import opened Walks
  import opened Types
  import opened Messages
  import opened Slots
  import opened Layout
  import opened MigrationPlan
  import opened MigrationStorage
  import opened Migration
  import opened MigrationReads
  import opened LayoutWrites
  import opened Emission

  /** The writes of each step, one function of the walked key per step. */
  datatype Steps = Steps(
    registry: nat -> seq<Write>, name: Str -> seq<Write>, count: nat -> seq<Write>,
    record: ((nat, nat, nat)) -> seq<Write>, latest: ((nat, nat)) -> seq<Write>,
    recordId: ((nat, Str)) -> seq<Write>, header: seq<Write>, checksum: Str -> seq<Write>,
    admin: Role -> seq<Write>, member: Role -> Addr -> seq<Write>, role: Role -> seq<Write>)

  ghost predicate WritesRegistries(k: Keccak, s: State, f: nat -> seq<Write>) {
    forall r :: r in s.registries ==> f(r) == NonZero(ToWrites(k, RegistryPuts(r, s.registries[r])))
  }

  ghost predicate WritesNames(k: Keccak, s: State, f: Str -> seq<Write>) {
    forall name :: name in FoldedNames(s) ==>
      f(name) == NonZero(ToWrites(k, IdsPuts(Cell(name, Root(REGISTRIES_BY_NAME), 0), IdsByName(s, name))))
  }

  ghost predicate WritesCounts(k: Keccak, s: State, f: nat -> seq<Write>) {
    forall r :: r in s.recordCounts ==>
      f(r) == NonZero([Write(MapUint64(k, r, Word(RECORD_COUNT)), Word(s.recordCounts[r]))])
  }

  ghost predicate WritesRecords(k: Keccak, s: State, f: ((nat, nat, nat)) -> seq<Write>) {
    forall t :: t in s.records ==> f(t) == NonZero(ToWrites(k, RecordPuts(t.0, t.1, t.2, s.records[t])))
  }

  ghost predicate WritesLatest(k: Keccak, s: State, f: ((nat, nat)) -> seq<Write>) {
    forall p :: p in s.latest ==>
      f(p) == NonZero([Write(MapUint64(k, p.1, MapUint64(k, p.0, Word(LATEST_INDEX))), Word(s.latest[p]))])
  }

  ghost predicate WritesRecordIds(k: Keccak, s: State, f: ((nat, Str)) -> seq<Write>) {
    forall p :: p in s.idByRegSum ==>
      f(p) == NonZero([Write(MapString(k, p.1, MapUint64(k, p.0, Word(RECORD_ID_BY_CHECKSUM))), Word(s.idByRegSum[p]))])
  }

  ghost predicate WritesHeader(s: State, admin: Addr, header: seq<Write>) {
    header == NonZero([Write(Word(HEADER), HeaderWord(admin, s.registryCount))])
  }

  ghost predicate WritesChecksums(k: Keccak, s: State, f: Str -> seq<Write>) {
    forall c :: f(c) == NonZero(ToWrites(k, IdsPuts(Cell(c, Root(REGISTRIES_BY_CHECKSUM), 0), RegistriesOf(s, c))))
  }

  ghost predicate WritesAdmins(k: Keccak, s: State, f: Role -> seq<Write>) {
    forall role :: role in s.roleAdmins ==>
      f(role) == NonZero([Write(MapHash(k, role, Word(ROLE_ADMIN)), ToHash(s.roleAdmins[role]))])
  }

  ghost predicate WritesMembers(k: Keccak, s: State, f: Role -> Addr -> seq<Write>) {
    forall m :: m in s.roleMembers ==>
      f(m.0)(m.1) == NonZero([Write(MapHash(k, ToHash(m.1), MapHash(k, m.0, Word(ROLE_MEMBERS))), Word(1))])
  }

  /** A whole role: its members in order, then their number. */
  ghost predicate WritesRoles(k: Keccak, s: State, member: Role -> Addr -> seq<Write>, f: Role -> seq<Write>) {
    forall role :: f(role) == Joined(member(role), WalkStrs(MembersOf(s, role)))
      + NonZero([Write(MapHash(k, role, Word(ROLE_MEMBER_COUNT)), Word(|MembersOf(s, role)|))])
  }

  ghost predicate Follows(k: Keccak, s: State, admin: Addr, fs: Steps) {
    && WritesRegistries(k, s, fs.registry) && WritesNames(k, s, fs.name) && WritesCounts(k, s, fs.count)
    && WritesRecords(k, s, fs.record) && WritesLatest(k, s, fs.latest) && WritesRecordIds(k, s, fs.recordId)
    && WritesHeader(s, admin, fs.header) && WritesChecksums(k, s, fs.checksum) && WritesAdmins(k, s, fs.admin)
    && WritesMembers(k, s, fs.member) && WritesRoles(k, s, fs.member, fs.role)
  }

  /** Registries with their names, record counts, records and latest indexes. */
  ghost function FirstHalf(s: State, fs: Steps): seq<Write> {
    Joined(fs.registry, WalkIds(s.registries.Keys)) + Joined(fs.name, WalkStrs(FoldedNames(s)))
    + Joined(fs.count, WalkIds(s.recordCounts.Keys)) + Joined(fs.record, WalkTriples(s.records.Keys))
    + Joined(fs.latest, WalkPairs(s.latest.Keys))
  }

  /** Checksum lookup, header, checksum index, role admins and members. */
  ghost function SecondHalf(s: State, fs: Steps): seq<Write> {
    Joined(fs.recordId, WalkIdStrs(s.idByRegSum.Keys)) + fs.header
    + Joined(fs.checksum, WalkStrs(Checksums(s))) + Joined(fs.admin, WalkHashes(s.roleAdmins.Keys))
    + Joined(fs.role, WalkHashes(RolesInUse(s)))
  }

  // ---- the steps of the plan ----

  /** By the writes of each item. */
  ghost function StepsOf(s: State, out: Item -> seq<Write>): Steps {
    Steps((r: nat) => out(RegistryItem(r)), (name: Str) => out(NameItem(name)), (r: nat) => out(CountItem(r)),
          (t: (nat, nat, nat)) => out(RecordItem(t.0, t.1, t.2)), (p: (nat, nat)) => out(LatestItem(p.0, p.1)),
          (p: (nat, Str)) => out(RecordIdItem(p.0, p.1)), out(HeaderItem), (c: Str) => out(ChecksumItem(c)),
          (role: Role) => out(AdminItem(role)), (role: Role) => (a: Addr) => out(MemberItem(role, a)),
          (role: Role) => Joined(out, RoleItems(s, role)))
  }

  /** What each item's puts write. */
  ghost function Out(k: Keccak, p: Item -> seq<Put>): Item -> seq<Write> {
    (x: Item) => Emit(k, p(x))
  }

  ghost predicate PutsOf(s: State, admin: Addr, p: Item -> seq<Put>) {
    forall x :: p(x) == ItemPuts(s, admin, x)
  }

  lemma ListOut(k: Keccak, p: Item -> seq<Put>, item: Item)
    ensures Out(k, p)(item) == NonZero(ToWrites(k, p(item)))
  {
    EmitIsNonZero(k, p(item));
  }

  lemma OneOut(k: Keccak, p: Item -> seq<Put>, item: Item, l: Loc, value: Hash)
    requires p(item) == [Put(l, value)]
    ensures Out(k, p)(item) == NonZero([Write(Slot(k, l), value)])
  {
    EmitIsNonZero(k, p(item));
    assert ToWrites(k, [Put(l, value)]) == [Write(Slot(k, l), value)];
  }

  lemma EntryOut(k: Keccak, p: Item -> seq<Put>, item: Item, key: Str, n: nat, value: Hash)
    requires p(item) == [Put(Cell(key, Root(n), 0), value)]
    ensures Out(k, p)(item) == NonZero([Write(MapString(k, key, Word(n)), value)])
  {
    EntrySlot(k, key, n);
    OneOut(k, p, item, Cell(key, Root(n), 0), value);
  }

  lemma NestedOut(k: Keccak, p: Item -> seq<Put>, item: Item, inner: Str, outer: Str, n: nat, value: Hash)
    requires p(item) == [Put(Cell(inner, Cell(outer, Root(n), 0), 0), value)]
    ensures Out(k, p)(item) == NonZero([Write(MapString(k, inner, MapString(k, outer, Word(n))), value)])
  {
    NestedSlot(k, inner, outer, n);
    OneOut(k, p, item, Cell(inner, Cell(outer, Root(n), 0), 0), value);
  }

  lemma RegistriesFollow(k: Keccak, s: State, admin: Addr, p: Item -> seq<Put>, f: nat -> seq<Write>)
    requires PutsOf(s, admin, p) && forall r :: f(r) == Out(k, p)(RegistryItem(r))
    ensures WritesRegistries(k, s, f)
  {
    forall r | r in s.registries ensures f(r) == NonZero(ToWrites(k, RegistryPuts(r, s.registries[r]))) {
      ListOut(k, p, RegistryItem(r));
    }
  }

  lemma NamesFollow(k: Keccak, s: State, admin: Addr, p: Item -> seq<Put>, f: Str -> seq<Write>)
    requires PutsOf(s, admin, p) && forall name :: f(name) == Out(k, p)(NameItem(name))
    ensures WritesNames(k, s, f)
  {
    forall name ensures f(name)
        == NonZero(ToWrites(k, IdsPuts(Cell(name, Root(REGISTRIES_BY_NAME), 0), IdsByName(s, name)))) {
      ListOut(k, p, NameItem(name));
    }
  }

  lemma CountsFollow(k: Keccak, s: State, admin: Addr, p: Item -> seq<Put>, f: nat -> seq<Write>)
    requires PutsOf(s, admin, p) && forall r :: f(r) == Out(k, p)(CountItem(r))
    ensures WritesCounts(k, s, f)
  {
    forall r | r in s.recordCounts
      ensures f(r) == NonZero([Write(MapUint64(k, r, Word(RECORD_COUNT)), Word(s.recordCounts[r]))]) {
      EntryOut(k, p, CountItem(r), Word(r), RECORD_COUNT, Word(s.recordCounts[r]));
    }
  }

  lemma RecordFollows(k: Keccak, s: State, admin: Addr, p: Item -> seq<Put>, r: nat, id: nat, index: nat,
                      puts: seq<Put>)
    requires PutsOf(s, admin, p) && (r, id, index) in s.records
    requires puts == RecordPuts(r, id, index, s.records[(r, id, index)])
    ensures Out(k, p)(RecordItem(r, id, index)) == NonZero(ToWrites(k, puts))
  {
    assert p(RecordItem(r, id, index)) == puts;
    ListOut(k, p, RecordItem(r, id, index));
  }

  lemma RecordsFollow(k: Keccak, s: State, admin: Addr, p: Item -> seq<Put>, f: ((nat, nat, nat)) -> seq<Write>)
    requires PutsOf(s, admin, p) && forall t :: f(t) == Out(k, p)(RecordItem(t.0, t.1, t.2))
    ensures WritesRecords(k, s, f)
  {
    forall t | t in s.records ensures f(t) == NonZero(ToWrites(k, RecordPuts(t.0, t.1, t.2, s.records[t]))) {
      RecordFollows(k, s, admin, p, t.0, t.1, t.2, RecordPuts(t.0, t.1, t.2, s.records[t]));
    }
  }

  lemma LatestFollow(k: Keccak, s: State, admin: Addr, p: Item -> seq<Put>, f: ((nat, nat)) -> seq<Write>)
    requires PutsOf(s, admin, p) && forall e :: f(e) == Out(k, p)(LatestItem(e.0, e.1))
    ensures WritesLatest(k, s, f)
  {
    forall e | e in s.latest
      ensures f(e) == NonZero([Write(MapUint64(k, e.1, MapUint64(k, e.0, Word(LATEST_INDEX))), Word(s.latest[e]))]) {
      NestedOut(k, p, LatestItem(e.0, e.1), Word(e.1), Word(e.0), LATEST_INDEX, Word(s.latest[e]));
    }
  }

  lemma RecordIdsFollow(k: Keccak, s: State, admin: Addr, p: Item -> seq<Put>, f: ((nat, Str)) -> seq<Write>)
    requires PutsOf(s, admin, p) && forall e :: f(e) == Out(k, p)(RecordIdItem(e.0, e.1))
    ensures WritesRecordIds(k, s, f)
  {
    forall e | e in s.idByRegSum
      ensures f(e)
        == NonZero([Write(MapString(k, e.1, MapUint64(k, e.0, Word(RECORD_ID_BY_CHECKSUM))), Word(s.idByRegSum[e]))]) {
      NestedOut(k, p, RecordIdItem(e.0, e.1), e.1, Word(e.0), RECORD_ID_BY_CHECKSUM, Word(s.idByRegSum[e]));
    }
  }

  lemma HeaderFollows(k: Keccak, s: State, admin: Addr, p: Item -> seq<Put>)
    requires PutsOf(s, admin, p)
    ensures WritesHeader(s, admin, Out(k, p)(HeaderItem))
  {
    OneOut(k, p, HeaderItem, Root(HEADER), HeaderWord(admin, s.registryCount));
  }

  lemma ChecksumsFollow(k: Keccak, s: State, admin: Addr, p: Item -> seq<Put>, f: Str -> seq<Write>)
    requires PutsOf(s, admin, p) && forall c :: f(c) == Out(k, p)(ChecksumItem(c))
    ensures WritesChecksums(k, s, f)
  {
    forall c ensures f(c)
        == NonZero(ToWrites(k, IdsPuts(Cell(c, Root(REGISTRIES_BY_CHECKSUM), 0), RegistriesOf(s, c)))) {
      ListOut(k, p, ChecksumItem(c));
    }
  }

  lemma AdminsFollow(k: Keccak, s: State, admin: Addr, p: Item -> seq<Put>, f: Role -> seq<Write>)
    requires PutsOf(s, admin, p) && forall role :: f(role) == Out(k, p)(AdminItem(role))
    ensures WritesAdmins(k, s, f)
  {
    forall role | role in s.roleAdmins
      ensures f(role) == NonZero([Write(MapHash(k, role, Word(ROLE_ADMIN)), ToHash(s.roleAdmins[role]))]) {
      EntryOut(k, p, AdminItem(role), role, ROLE_ADMIN, ToHash(s.roleAdmins[role]));
    }
  }

  lemma MembersFollow(k: Keccak, s: State, admin: Addr, p: Item -> seq<Put>, f: Role -> Addr -> seq<Write>)
    requires PutsOf(s, admin, p) && forall role, a :: f(role)(a) == Out(k, p)(MemberItem(role, a))
    ensures WritesMembers(k, s, f)
  {
    forall m | m in s.roleMembers ensures f(m.0)(m.1)
        == NonZero([Write(MapHash(k, ToHash(m.1), MapHash(k, m.0, Word(ROLE_MEMBERS))), Word(1))]) {
      NestedOut(k, p, MemberItem(m.0, m.1), ToHash(m.1), m.0, ROLE_MEMBERS, Word(1));
    }
  }

  lemma RoleOut(s: State, out: Item -> seq<Write>, member: Addr -> seq<Write>, role: Role)
    requires forall a :: member(a) == out(MemberItem(role, a))
    ensures Joined(out, RoleItems(s, role))
         == Joined(member, WalkStrs(MembersOf(s, role))) + out(MemberCountItem(role))
  {
    var accounts := WalkStrs(MembersOf(s, role));
    JoinedSnoc(out, MemberItems(role, accounts), MemberCountItem(role));
    JoinedMap(out, MemberItems(role, accounts), member, accounts);
  }

  lemma RolesFollow(k: Keccak, s: State, admin: Addr, p: Item -> seq<Put>, member: Role -> Addr -> seq<Write>,
                    f: Role -> seq<Write>)
    requires PutsOf(s, admin, p) && forall role, a :: member(role)(a) == Out(k, p)(MemberItem(role, a))
    requires forall role :: f(role) == Joined(Out(k, p), RoleItems(s, role))
    ensures WritesRoles(k, s, member, f)
  {
    forall role: Role ensures f(role) == Joined(member(role), WalkStrs(MembersOf(s, role)))
        + NonZero([Write(MapHash(k, role, Word(ROLE_MEMBER_COUNT)), Word(|MembersOf(s, role)|))]) {
      RoleOut(s, Out(k, p), member(role), role);
      EntryOut(k, p, MemberCountItem(role), role, ROLE_MEMBER_COUNT, Word(|MembersOf(s, role)|));
    }
  }

  lemma AllFollow(k: Keccak, s: State, admin: Addr, p: Item -> seq<Put>, fs: Steps)
    requires PutsOf(s, admin, p) && fs == StepsOf(s, Out(k, p))
    ensures Follows(k, s, admin, fs)
  {
    RegistriesFollow(k, s, admin, p, fs.registry);
    NamesFollow(k, s, admin, p, fs.name);
    CountsFollow(k, s, admin, p, fs.count);
    RecordsFollow(k, s, admin, p, fs.record);
    LatestFollow(k, s, admin, p, fs.latest);
    RecordIdsFollow(k, s, admin, p, fs.recordId);
    HeaderFollows(k, s, admin, p);
    ChecksumsFollow(k, s, admin, p, fs.checksum);
    AdminsFollow(k, s, admin, p, fs.admin);
    MembersFollow(k, s, admin, p, fs.member);
    RolesFollow(k, s, admin, p, fs.member, fs.role);
  }

  // ---- the plan is the steps, one after the other ----

  /** The first n of a list of pieces, put end to end. */
  ghost function UpTo(piece: nat -> seq<Write>, n: nat): seq<Write>
    decreases n, piece
  {
    if n == 0 then [] else UpTo(piece, n - 1) + piece(n - 1)
  }

  lemma {:induction false} PiecesJoin(out: Item -> seq<Write>, items: nat -> seq<Item>, step: nat -> seq<Item>,
                                      piece: nat -> seq<Write>, n: nat)
    requires items(0) == [] && forall i: nat :: items(i + 1) == items(i) + step(i)
    requires forall i :: piece(i) == Joined(out, step(i))
    ensures Joined(out, items(n)) == UpTo(piece, n)
  {
    if n > 0 {
      PiecesJoin(out, items, step, piece, n - 1);
      assert items((n - 1) + 1) == items(n - 1) + step(n - 1);
      JoinedConcat(out, items(n - 1), step(n - 1));
    }
  }

  lemma UpToTen(piece: nat -> seq<Write>)
    ensures UpTo(piece, 10) == (piece(0) + piece(1) + piece(2) + piece(3) + piece(4))
                             + (piece(5) + piece(6) + piece(7) + piece(8) + piece(9))
  {
    assert UpTo(piece, 5) == piece(0) + piece(1) + piece(2) + piece(3) + piece(4) by {
      assert UpTo(piece, 1) == piece(0);
      assert UpTo(piece, 3) == UpTo(piece, 2) + piece(2);
      assert UpTo(piece, 4) == UpTo(piece, 3) + piece(3);
    }
    assert UpTo(piece, 7) == UpTo(piece, 5) + (piece(5) + piece(6));
    assert UpTo(piece, 9) == UpTo(piece, 7) + piece(7) + piece(8);
  }

  lemma {:induction false} RolesJoin(s: State, out: Item -> seq<Write>, f: Role -> seq<Write>, roles: seq<Role>)
    requires forall role :: f(role) == Joined(out, RoleItems(s, role))
    ensures Joined(out, AllRoleItems(s, roles)) == Joined(f, roles)
    decreases |roles|
  {
    if roles != [] {
      var n := |roles| - 1;
      RolesJoin(s, out, f, roles[..n]);
      JoinedConcat(out, AllRoleItems(s, roles[..n]), RoleItems(s, roles[n]));
    }
  }

  lemma RegistriesJoin(out: Item -> seq<Write>, f: nat -> seq<Write>, keys: set<nat>)
    requires forall r :: f(r) == out(RegistryItem(r))
    ensures Joined(out, RegistryItems(keys)) == Joined(f, WalkIds(keys))
  {
    JoinedMap(out, RegistryItems(keys), f, WalkIds(keys));
  }

  lemma NamesJoin(out: Item -> seq<Write>, f: Str -> seq<Write>, keys: set<Str>)
    requires forall name :: f(name) == out(NameItem(name))
    ensures Joined(out, NameItems(keys)) == Joined(f, WalkStrs(keys))
  {
    JoinedMap(out, NameItems(keys), f, WalkStrs(keys));
  }

  lemma CountsJoin(out: Item -> seq<Write>, f: nat -> seq<Write>, keys: set<nat>)
    requires forall r :: f(r) == out(CountItem(r))
    ensures Joined(out, CountItems(keys)) == Joined(f, WalkIds(keys))
  {
    JoinedMap(out, CountItems(keys), f, WalkIds(keys));
  }

  lemma RecordsJoin(out: Item -> seq<Write>, f: ((nat, nat, nat)) -> seq<Write>, keys: set<(nat, nat, nat)>)
    requires forall t :: f(t) == out(RecordItem(t.0, t.1, t.2))
    ensures Joined(out, RecordItems(keys)) == Joined(f, WalkTriples(keys))
  {
    JoinedMap(out, RecordItems(keys), f, WalkTriples(keys));
  }

  lemma LatestJoin(out: Item -> seq<Write>, f: ((nat, nat)) -> seq<Write>, keys: set<(nat, nat)>)
    requires forall p :: f(p) == out(LatestItem(p.0, p.1))
    ensures Joined(out, LatestItems(keys)) == Joined(f, WalkPairs(keys))
  {
    JoinedMap(out, LatestItems(keys), f, WalkPairs(keys));
  }

  lemma RecordIdsJoin(out: Item -> seq<Write>, f: ((nat, Str)) -> seq<Write>, keys: set<(nat, Str)>)
    requires forall p :: f(p) == out(RecordIdItem(p.0, p.1))
    ensures Joined(out, RecordIdItems(keys)) == Joined(f, WalkIdStrs(keys))
  {
    JoinedMap(out, RecordIdItems(keys), f, WalkIdStrs(keys));
  }

  lemma ChecksumsJoin(out: Item -> seq<Write>, f: Str -> seq<Write>, keys: set<Str>)
    requires forall c :: f(c) == out(ChecksumItem(c))
    ensures Joined(out, ChecksumItems(keys)) == Joined(f, WalkStrs(keys))
  {
    JoinedMap(out, ChecksumItems(keys), f, WalkStrs(keys));
  }

  lemma AdminsJoin(out: Item -> seq<Write>, f: Role -> seq<Write>, keys: set<Role>)
    requires forall role :: f(role) == out(AdminItem(role))
    ensures Joined(out, AdminItems(keys)) == Joined(f, WalkHashes(keys))
  {
    JoinedMap(out, AdminItems(keys), f, WalkHashes(keys));
  }

  lemma FirstPieces(s: State, out: Item -> seq<Write>, fs: Steps, piece: nat -> seq<Write>)
    requires fs == StepsOf(s, out) && forall i :: piece(i) == Joined(out, Step(s, i))
    ensures piece(0) + piece(1) + piece(2) + piece(3) + piece(4) == FirstHalf(s, fs)
  {
    RegistriesJoin(out, fs.registry, s.registries.Keys);
    NamesJoin(out, fs.name, FoldedNames(s));
    CountsJoin(out, fs.count, s.recordCounts.Keys);
    RecordsJoin(out, fs.record, s.records.Keys);
    LatestJoin(out, fs.latest, s.latest.Keys);
  }

  lemma SecondPieces(s: State, out: Item -> seq<Write>, fs: Steps, piece: nat -> seq<Write>)
    requires fs == StepsOf(s, out) && forall i :: piece(i) == Joined(out, Step(s, i))
    ensures piece(5) + piece(6) + piece(7) + piece(8) + piece(9) == SecondHalf(s, fs)
  {
    RecordIdsJoin(out, fs.recordId, s.idByRegSum.Keys);
    assert piece(6) == fs.header by { JoinedSnoc(out, [], HeaderItem); }
    ChecksumsJoin(out, fs.checksum, Checksums(s));
    AdminsJoin(out, fs.admin, s.roleAdmins.Keys);
    RolesJoin(s, out, fs.role, WalkHashes(RolesInUse(s)));
  }

  lemma PlanJoins(k: Keccak, s: State, admin: Addr, p: Item -> seq<Put>)
    requires PutsOf(s, admin, p)
    ensures Emit(k, Plan(s, admin)) == Joined(Out(k, p), Items(s, KINDS))
  {
    PutsAreFlat(s, admin, p, Items(s, KINDS));
    FlatIsJoined(k, p, Out(k, p), Items(s, KINDS));
  }

  lemma ItemsNext(s: State, n: nat, next: nat)
    requires next == n + 1
    ensures Items(s, next) == Items(s, n) + Step(s, n)
  {
  }

  lemma ItemsJoin(s: State, out: Item -> seq<Write>, fs: Steps)
    requires fs == StepsOf(s, out)
    ensures Joined(out, Items(s, KINDS)) == FirstHalf(s, fs) + SecondHalf(s, fs)
  {
    var items, step := (n: nat) => Items(s, n), (n: nat) => Step(s, n);
    var piece := (i: nat) => Joined(out, step(i));
    forall i: nat ensures items(i + 1) == items(i) + step(i) { ItemsNext(s, i, i + 1); }
    PiecesJoin(out, items, step, piece, KINDS);
    UpToTen(piece);
    FirstPieces(s, out, fs, piece);
    SecondPieces(s, out, fs, piece);
  }

  lemma StepsFollow(k: Keccak, s: State, admin: Addr, p: Item -> seq<Put>, fs: Steps)
    requires PutsOf(s, admin, p) && fs == StepsOf(s, Out(k, p))
    ensures Follows(k, s, admin, fs) && FirstHalf(s, fs) + SecondHalf(s, fs) == Emit(k, Plan(s, admin))
  {
    AllFollow(k, s, admin, p, fs);
    PlanJoins(k, s, admin, p);
    ItemsJoin(s, Out(k, p), fs);
  }

  /** There are steps that write what the store asks, and together they are the plan. */
  lemma StepsExist(k: Keccak, s: State, admin: Addr) returns (fs: Steps)
    ensures Follows(k, s, admin, fs) && FirstHalf(s, fs) + SecondHalf(s, fs) == Emit(k, Plan(s, admin))
  {
    var p := (x: Item) => ItemPuts(s, admin, x);
    fs := StepsOf(s, Out(k, p));
    StepsFollow(k, s, admin, p, fs);
  }
}
