/**
 migrate.go: the walks over the keeper's store, each emitting slots to a dump. Every step is
 proved to emit exactly what the store asks of it, and together they emit the plan.
 */
module Migrator {
  import opened Bytes
  import opened Walks
  import opened Groups
  import opened Types
  import opened Messages
  import opened Slots
  import opened Layout
  import opened MigrationPlan
  import opened MigrationStorage
  import opened Migration
  import opened MigrationReads
  import opened LayoutWrites
  import opened Dumps
  import opened Emission
  import opened MigrationSteps

  // ---- one-walk steps ----

  /** Each registry's record count. */
  method MigrateRecordCounts(k: Keccak, s: State, dump: Dump, ghost f: nat -> seq<Write>)
    requires dump.Valid() && WritesCounts(k, s, f)
    modifies dump
    ensures dump.Valid() && dump.address == old(dump.address)
    ensures dump.Written() == old(dump.Written()) + Joined(f, WalkIds(s.recordCounts.Keys))
  {
    var ks := WalkIds(s.recordCounts.Keys);
    WalkIdsExact(s.recordCounts.Keys);
    ghost var base := dump.Written();
    for i := 0 to |ks|
      invariant dump.Valid() && dump.address == old(dump.address)
      invariant dump.Written() == base + Joined(f, ks[..i])
    {
      assert ks[i] in s.recordCounts.Keys;
      EmitNext(dump, Write(MapUint64(k, ks[i], Word(RECORD_COUNT)), Word(s.recordCounts[ks[i]])), f, ks, i, base);
    }
    Whole(ks);
  }

  method EmitRecord(k: Keccak, dump: Dump, key: (nat, nat, nat), rec: Record, ghost out: seq<Write>)
    requires dump.Valid() && out == NonZero(ToWrites(k, RecordPuts(key.0, key.1, key.2, rec)))
    modifies dump
    ensures dump.Valid() && dump.address == old(dump.address) && dump.Written() == old(dump.Written()) + out
  {
    var (r, id, index) := key;
    var ws := RecordWrites(k, r, id, index, rec);
    EmitAll(dump, ws);
  }

  method EmitRecords(k: Keccak, s: State, dump: Dump, ks: seq<(nat, nat, nat)>,
                     ghost f: ((nat, nat, nat)) -> seq<Write>)
    requires dump.Valid() && WritesRecords(k, s, f) && forall i :: 0 <= i < |ks| ==> ks[i] in s.records
    modifies dump
    ensures dump.Valid() && dump.address == old(dump.address)
    ensures dump.Written() == old(dump.Written()) + Joined(f, ks)
  {
    ghost var base := dump.Written();
    for i := 0 to |ks|
      invariant dump.Valid() && dump.address == old(dump.address)
      invariant dump.Written() == base + Joined(f, ks[..i])
    {
      EmitRecord(k, dump, ks[i], s.records[ks[i]], f(ks[i]));
      Advance(f, ks, i, base);
    }
    Whole(ks);
  }

  /** Each version's struct. */
  method MigrateRecords(k: Keccak, s: State, dump: Dump, ghost f: ((nat, nat, nat)) -> seq<Write>)
    requires dump.Valid() && WritesRecords(k, s, f)
    modifies dump
    ensures dump.Valid() && dump.address == old(dump.address)
    ensures dump.Written() == old(dump.Written()) + Joined(f, WalkTriples(s.records.Keys))
  {
    WalkTriplesExact(s.records.Keys);
    var ks := WalkTriples(s.records.Keys);
    forall i | 0 <= i < |ks| ensures ks[i] in s.records {
      assert ks[i] in s.records.Keys;
    }
    EmitRecords(k, s, dump, ks, f);
  }

  /** Each record's latest index. */
  method MigrateLatestIndexes(k: Keccak, s: State, dump: Dump, ghost f: ((nat, nat)) -> seq<Write>)
    requires dump.Valid() && WritesLatest(k, s, f)
    modifies dump
    ensures dump.Valid() && dump.address == old(dump.address)
    ensures dump.Written() == old(dump.Written()) + Joined(f, WalkPairs(s.latest.Keys))
  {
    var ks := WalkPairs(s.latest.Keys);
    WalkPairsExact(s.latest.Keys);
    ghost var base := dump.Written();
    for i := 0 to |ks|
      invariant dump.Valid() && dump.address == old(dump.address)
      invariant dump.Written() == base + Joined(f, ks[..i])
    {
      assert ks[i] in s.latest.Keys;
      var (r, id) := ks[i];
      EmitNext(dump, Write(MapUint64(k, id, MapUint64(k, r, Word(LATEST_INDEX))), Word(s.latest[ks[i]])), f, ks, i,
               base);
    }
    Whole(ks);
  }

  /** Each checksum's record id. */
  method MigrateRecordIds(k: Keccak, s: State, dump: Dump, ghost f: ((nat, Str)) -> seq<Write>)
    requires dump.Valid() && WritesRecordIds(k, s, f)
    modifies dump
    ensures dump.Valid() && dump.address == old(dump.address)
    ensures dump.Written() == old(dump.Written()) + Joined(f, WalkIdStrs(s.idByRegSum.Keys))
  {
    var ks := WalkIdStrs(s.idByRegSum.Keys);
    WalkIdStrsExact(s.idByRegSum.Keys);
    ghost var base := dump.Written();
    for i := 0 to |ks|
      invariant dump.Valid() && dump.address == old(dump.address)
      invariant dump.Written() == base + Joined(f, ks[..i])
    {
      assert ks[i] in s.idByRegSum.Keys;
      var (r, c) := ks[i];
      EmitNext(dump, Write(MapString(k, c, MapUint64(k, r, Word(RECORD_ID_BY_CHECKSUM))), Word(s.idByRegSum[ks[i]])),
               f, ks, i, base);
    }
    Whole(ks);
  }

  lemma HeaderBytes(admin: Addr, count: nat)
    ensures PutUint64(Zeros(12) + ToAddress(admin), 4, count) == HeaderWord(admin, count)
  {
  }

  /** The registry count and the admin account packed into one word. */
  method PackHeader(admin: Addr, count: nat) returns (header: Hash)
    ensures header == HeaderWord(admin, count)
  {
    header := Zeros(12) + ToAddress(admin);
    HeaderBytes(admin, count);
    header := PutUint64(header, 4, count);
  }

  method MigrateHeader(s: State, dump: Dump, admin: Addr, ghost header: seq<Write>)
    requires dump.Valid() && WritesHeader(s, admin, header)
    modifies dump
    ensures dump.Valid() && dump.address == old(dump.address)
    ensures dump.Written() == old(dump.Written()) + header
  {
    var word := PackHeader(admin, s.registryCount);
    EmitOne(dump, Write(Word(HEADER), word));
  }

  /** Each role's admin. */
  method MigrateRoleAdmins(k: Keccak, s: State, dump: Dump, ghost f: Role -> seq<Write>)
    requires dump.Valid() && WritesAdmins(k, s, f)
    modifies dump
    ensures dump.Valid() && dump.address == old(dump.address)
    ensures dump.Written() == old(dump.Written()) + Joined(f, WalkHashes(s.roleAdmins.Keys))
  {
    var ks := WalkHashes(s.roleAdmins.Keys);
    WalkHashesExact(s.roleAdmins.Keys);
    ghost var base := dump.Written();
    for i := 0 to |ks|
      invariant dump.Valid() && dump.address == old(dump.address)
      invariant dump.Written() == base + Joined(f, ks[..i])
    {
      assert ks[i] in s.roleAdmins.Keys;
      EmitNext(dump, Write(MapHash(k, ks[i], Word(ROLE_ADMIN)), ToHash(s.roleAdmins[ks[i]])), f, ks, i, base);
    }
    Whole(ks);
  }

  // ---- registries and the name index ----

  /** Folds A-Z in a copy of s, byte by byte. */
  method FoldName(s: Str) returns (t: Str)
    ensures t == AsciiLower(s)
  {
    var b := new byte[|s|](i requires 0 <= i < |s| => s[i]);
    for i := 0 to b.Length
      invariant forall j :: 0 <= j < i ==> b[j] == AsciiLower(s)[j]
      invariant forall j :: i <= j < b.Length ==> b[j] == s[j]
    {
      if 65 <= b[i] <= 90 {
        b[i] := b[i] + 32;
      }
    }
    t := b[..];
  }

  /** The ids among ks[..n] whose registry folds to this name. */
  function Matching(s: State, ks: seq<nat>, n: nat, name: Str): seq<nat>
    requires n <= |ks| && (forall i :: 0 <= i < |ks| ==> ks[i] in s.registries)
  {
    if n == 0 then [] else
      Matching(s, ks, n - 1, name) + if AsciiLower(s.registries[ks[n - 1]].name) == name then [ks[n - 1]] else []
  }

  lemma {:induction false} MatchingFacts(s: State, ks: seq<nat>, n: nat, name: Str)
    requires n <= |ks| && (forall i :: 0 <= i < |ks| ==> ks[i] in s.registries) && Ascending(ks, IdLess)
    ensures Ascending(Matching(s, ks, n, name), IdLess)
    ensures forall r :: r in Matching(s, ks, n, name) <==>
              r in s.registries && AsciiLower(s.registries[r].name) == name && r in ks[..n]
  {
    if n > 0 {
      MatchingFacts(s, ks, n - 1, name);
      var before := Matching(s, ks, n - 1, name);
      assert ks[..n] == ks[..n - 1] + [ks[n - 1]];
      forall i | 0 <= i < |before| ensures before[i] < ks[n - 1] {
        assert before[i] in before;
        var m :| 0 <= m < n - 1 && ks[m] == before[i];
        assert IdLess(ks[m], ks[n - 1]);
      }
    }
  }

  /** The ascending list of a set's elements is its walk. */
  lemma OnlyWalk(ids: seq<nat>, keys: set<nat>)
    requires Ascending(ids, IdLess) && forall r :: r in ids <==> r in keys
    ensures ids == WalkIds(keys)
  {
    OrdersAreStrict();
    WalkIdsExact(keys);
    WalkIsUnique(ids, WalkIds(keys), keys, IdLess);
  }

  lemma MatchingIsIdsByName(s: State, name: Str)
    ensures var ks := WalkIds(s.registries.Keys);
            && (forall i :: 0 <= i < |ks| ==> ks[i] in s.registries)
            && Matching(s, ks, |ks|, name) == IdsByName(s, name)
  {
    var ks := WalkIds(s.registries.Keys);
    WalkIdsExact(s.registries.Keys);
    forall i | 0 <= i < |ks| ensures ks[i] in s.registries {
      assert ks[i] in ks;
    }
    MatchingFacts(s, ks, |ks|, name);
    assert ks[..|ks|] == ks;
    var keys := set r | r in s.registries && AsciiLower(s.registries[r].name) == name;
    OnlyWalk(Matching(s, ks, |ks|, name), keys);
  }

  /** Ids run from 1 to the count with no gap. */
  ghost predicate IdsDense(s: State) {
    forall r :: r in s.registries <==> 1 <= r <= s.registryCount
  }

  function IdsUpTo(n: nat): seq<nat> {
    seq(n, (i: nat) => i + 1)
  }

  lemma DenseIsWalk(s: State)
    requires IdsDense(s)
    ensures WalkIds(s.registries.Keys) == IdsUpTo(s.registryCount)
  {
    var dense := IdsUpTo(s.registryCount);
    WalkIdsExact(s.registries.Keys);
    forall r ensures r in dense <==> r in s.registries.Keys {
      if 1 <= r <= s.registryCount {
        assert dense[r - 1] == r;
      }
    }
    assert StrictOrder(IdLess);
    WalkIsUnique(WalkIds(s.registries.Keys), dense, s.registries.Keys, IdLess);
  }

  lemma WalkIsDense(s: State)
    requires WalkIds(s.registries.Keys) == IdsUpTo(s.registryCount)
    ensures IdsDense(s)
  {
    var ks := WalkIds(s.registries.Keys);
    WalkIdsExact(s.registries.Keys);
    forall r ensures r in s.registries <==> 1 <= r <= s.registryCount {
      if 1 <= r <= s.registryCount {
        assert ks[r - 1] == r;
      }
      assert r in ks <==> r in s.registries.Keys;
    }
  }

  /** byName lists, for every folded name among ks[..n], the ids that carry it. */
  ghost predicate NamesGrouped(s: State, ks: seq<nat>, n: nat, byName: map<Str, seq<nat>>)
    requires n <= |ks| && (forall i :: 0 <= i < |ks| ==> ks[i] in s.registries)
  {
    && (forall name :: name in byName <==> Matching(s, ks, n, name) != [])
    && (forall name :: name in byName ==> byName[name] == Matching(s, ks, n, name))
  }

  lemma NamesNext(s: State, ks: seq<nat>, n: nat, byName: map<Str, seq<nat>>)
    requires n < |ks| && (forall i :: 0 <= i < |ks| ==> ks[i] in s.registries) && NamesGrouped(s, ks, n, byName)
    ensures var key := AsciiLower(s.registries[ks[n]].name);
            NamesGrouped(s, ks, n + 1, byName[key := (if key in byName then byName[key] else []) + [ks[n]]])
  {
  }

  lemma IdsUpToNext(ks: seq<nat>, i: nat)
    requires i < |ks| && ks[..i] == IdsUpTo(i)
    ensures ks[i] == i + 1 ==> ks[..i + 1] == IdsUpTo(i + 1)
    ensures ks[i] != i + 1 ==> ks != IdsUpTo(|ks|)
  {
    assert IdsUpTo(|ks|)[i] == i + 1;
  }

  method EmitRegistry(k: Keccak, dump: Dump, id: nat, reg: Registry, ghost out: seq<Write>)
    requires dump.Valid() && out == NonZero(ToWrites(k, RegistryPuts(id, reg)))
    modifies dump
    ensures dump.Valid() && dump.address == old(dump.address) && dump.Written() == old(dump.Written()) + out
  {
    var ws := RegistryWrites(k, id, reg);
    EmitAll(dump, ws);
  }

  /** The registries' walk: emits each registry, groups ids by folded name, stops at a gap. */
  method WalkRegistries(k: Keccak, s: State, dump: Dump, ks: seq<nat>, ghost f: nat -> seq<Write>)
    returns (ok: bool, previous: nat, byName: map<Str, seq<nat>>)
    requires dump.Valid() && (forall i :: 0 <= i < |ks| ==> ks[i] in s.registries) && WritesRegistries(k, s, f)
    modifies dump
    ensures dump.Valid() && dump.address == old(dump.address)
    ensures ok <==> ks == IdsUpTo(|ks|)
    ensures ok ==> previous == |ks| && NamesGrouped(s, ks, |ks|, byName)
    ensures ok ==> dump.Written() == old(dump.Written()) + Joined(f, ks)
  {
    previous := 0;
    byName := map[];
    ghost var base := dump.Written();
    for i := 0 to |ks|
      invariant dump.Valid() && dump.address == old(dump.address)
      invariant previous == i && ks[..i] == IdsUpTo(i)
      invariant NamesGrouped(s, ks, i, byName)
      invariant dump.Written() == base + Joined(f, ks[..i])
    {
      var id := ks[i];
      IdsUpToNext(ks, i);
      if id != previous + 1 {
        ok := false;
        return;
      }
      previous := id;
      var key := FoldName(s.registries[id].name);
      NamesNext(s, ks, i, byName);
      byName := byName[key := (if key in byName then byName[key] else []) + [id]];
      EmitRegistry(k, dump, id, s.registries[id], f(id));
      Advance(f, ks, i, base);
    }
    Whole(ks);
    ok := true;
  }

  lemma NameKeys(s: State, byName: map<Str, seq<nat>>)
    requires forall i :: 0 <= i < |WalkIds(s.registries.Keys)| ==> WalkIds(s.registries.Keys)[i] in s.registries
    requires NamesGrouped(s, WalkIds(s.registries.Keys), |WalkIds(s.registries.Keys)|, byName)
    ensures byName.Keys == FoldedNames(s)
    ensures forall name :: name in byName ==> byName[name] == IdsByName(s, name)
  {
    var ks := WalkIds(s.registries.Keys);
    WalkIdsExact(s.registries.Keys);
    assert ks[..|ks|] == ks;
    forall name
      ensures (name in byName <==> name in FoldedNames(s)) && (name in byName ==> byName[name] == IdsByName(s, name))
    {
      MatchingIsIdsByName(s, name);
      MatchingFacts(s, ks, |ks|, name);
      if name in FoldedNames(s) {
        var r :| r in s.registries && AsciiLower(s.registries[r].name) == name;
        assert r in Matching(s, ks, |ks|, name);
      }
      if Matching(s, ks, |ks|, name) != [] {
        assert Matching(s, ks, |ks|, name)[0] in Matching(s, ks, |ks|, name);
      }
    }
  }

  /** The list of ids under a key of a root table. */
  method EmitIds(k: Keccak, dump: Dump, table: nat, key: Str, ids: seq<nat>, ghost out: seq<Write>)
    requires dump.Valid() && out == NonZero(ToWrites(k, IdsPuts(Cell(key, Root(table), 0), ids)))
    modifies dump
    ensures dump.Valid() && dump.address == old(dump.address) && dump.Written() == old(dump.Written()) + out
  {
    EntrySlot(k, key, table);
    var ws := IdsWrites(k, Word(table), key, ids, Cell(key, Root(table), 0));
    EmitAll(dump, ws);
  }

  method EmitNames(k: Keccak, dump: Dump, names: seq<Str>, byName: map<Str, seq<nat>>, ghost f: Str -> seq<Write>)
    requires dump.Valid() && forall i :: 0 <= i < |names| ==> names[i] in byName
    requires forall name :: name in byName ==>
      f(name) == NonZero(ToWrites(k, IdsPuts(Cell(name, Root(REGISTRIES_BY_NAME), 0), byName[name])))
    modifies dump
    ensures dump.Valid() && dump.address == old(dump.address)
    ensures dump.Written() == old(dump.Written()) + Joined(f, names)
  {
    ghost var base := dump.Written();
    for i := 0 to |names|
      invariant dump.Valid() && dump.address == old(dump.address)
      invariant dump.Written() == base + Joined(f, names[..i])
    {
      EmitIds(k, dump, REGISTRIES_BY_NAME, names[i], byName[names[i]], f(names[i]));
      Advance(f, names, i, base);
    }
    Whole(names);
  }

  /** One list of ids per folded name. */
  method MigrateNames(k: Keccak, s: State, dump: Dump, byName: map<Str, seq<nat>>, ghost f: Str -> seq<Write>)
    requires dump.Valid() && WritesNames(k, s, f)
    requires byName.Keys == FoldedNames(s) && forall name :: name in byName ==> byName[name] == IdsByName(s, name)
    modifies dump
    ensures dump.Valid() && dump.address == old(dump.address)
    ensures dump.Written() == old(dump.Written()) + Joined(f, WalkStrs(FoldedNames(s)))
  {
    WalkStrsExact(byName.Keys);
    var names := WalkStrs(byName.Keys);
    forall i | 0 <= i < |names| ensures names[i] in byName {
      assert names[i] in byName.Keys;
    }
    EmitNames(k, dump, names, byName, f);
  }

  method MigrateRegistries(k: Keccak, s: State, dump: Dump, ghost f: nat -> seq<Write>, ghost g: Str -> seq<Write>)
    returns (ok: bool)
    requires dump.Valid() && WritesRegistries(k, s, f) && WritesNames(k, s, g)
    modifies dump
    ensures dump.Valid() && dump.address == old(dump.address)
    ensures ok <==> IdsDense(s)
    ensures ok ==>
      dump.Written()
      == old(dump.Written()) + Joined(f, WalkIds(s.registries.Keys)) + Joined(g, WalkStrs(FoldedNames(s)))
  {
    MatchingIsIdsByName(s, []);
    var ks := WalkIds(s.registries.Keys);
    var walked, previous, byName := WalkRegistries(k, s, dump, ks, f);
    if IdsDense(s) { DenseIsWalk(s); }
    if !walked {
      return false;
    }
    // the header's count is where the contract's paging ends
    if s.registryCount != previous {
      return false;
    }
    WalkIsDense(s);
    NameKeys(s, byName);
    MigrateNames(k, s, dump, byName, g);
    return true;
  }

  // ---- the checksum index ----

  lemma ChecksumGroups(s: State)
    ensures var ks := WalkStrIds(s.idBySumReg.Keys);
            && PairAscending(ks, StrLess, IdLess)
            && Firsts(ks, |ks|) == WalkStrs(Checksums(s))
            && forall c :: Seconds(ks, |ks|, c) == RegistriesOf(s, c)
  {
    var keys := s.idBySumReg.Keys;
    var ks := WalkStrIds(keys);
    WalkStrIdsExact(keys);
    forall i, j | 0 <= i < j < |ks|
      ensures StrLess(ks[i].0, ks[j].0) || (ks[i].0 == ks[j].0 && IdLess(ks[i].1, ks[j].1))
    {
      assert StrIdLess(ks[i], ks[j]);
    }
    ChecksumFirsts(s, ks);
    forall c ensures Seconds(ks, |ks|, c) == RegistriesOf(s, c) {
      ChecksumSeconds(s, ks, c);
    }
  }

  lemma ChecksumFirsts(s: State, ks: seq<(Str, nat)>)
    requires PairAscending(ks, StrLess, IdLess) && IsWalk(ks, s.idBySumReg.Keys, StrIdLess)
    ensures Firsts(ks, |ks|) == WalkStrs(Checksums(s))
  {
    OrdersAreStrict();
    FirstsFacts(ks, |ks|, StrLess, IdLess);
    var firsts := Firsts(ks, |ks|);
    forall c ensures c in firsts <==> c in Checksums(s) {
      if c in firsts {
        var i :| 0 <= i < |ks| && ks[i].0 == c;
        assert ks[i] in s.idBySumReg.Keys;
      }
      if c in Checksums(s) {
        var p :| p in s.idBySumReg && p.0 == c;
        assert p in ks;
      }
    }
    WalkStrsExact(Checksums(s));
    WalkIsUnique(firsts, WalkStrs(Checksums(s)), Checksums(s), StrLess);
  }

  lemma ChecksumSeconds(s: State, ks: seq<(Str, nat)>, c: Str)
    requires PairAscending(ks, StrLess, IdLess) && IsWalk(ks, s.idBySumReg.Keys, StrIdLess)
    ensures Seconds(ks, |ks|, c) == RegistriesOf(s, c)
  {
    OrdersAreStrict();
    SecondsFacts(ks, |ks|, c, StrLess, IdLess);
    var keys := set p | p in s.idBySumReg && p.0 == c :: p.1;
    var seconds := Seconds(ks, |ks|, c);
    forall r ensures r in seconds <==> r in keys {
      if r in seconds {
        var i :| 0 <= i < |ks| && ks[i] == (c, r);
        assert ks[i] in s.idBySumReg.Keys;
        assert (c, r).1 in keys;
      }
      if r in keys {
        assert (c, r) in s.idBySumReg.Keys;
        assert (c, r) in ks;
      }
    }
    OnlyWalk(seconds, keys);
  }

  /** What the group of each checksum writes. */
  ghost predicate WritesGroups(k: Keccak, ks: seq<(Str, nat)>, f: Str -> seq<Write>) {
    forall c :: f(c) == NonZero(ToWrites(k, IdsPuts(Cell(c, Root(REGISTRIES_BY_CHECKSUM), 0), Seconds(ks, |ks|, c))))
  }

  /** flush: a finished group becomes the list of registries that hold its checksum. */
  method FlushChecksum(k: Keccak, dump: Dump, current: Str, registries: seq<nat>,
                       ghost f: Str -> seq<Write>, ghost done: seq<Str>, ghost base: seq<Write>)
    requires dump.Valid() && dump.Written() == base + Joined(f, done)
    requires f(current) == NonZero(ToWrites(k, IdsPuts(Cell(current, Root(REGISTRIES_BY_CHECKSUM), 0), registries)))
    modifies dump
    ensures dump.Valid() && dump.address == old(dump.address)
    ensures dump.Written() == base + Joined(f, done + [current])
  {
    EmitIds(k, dump, REGISTRIES_BY_CHECKSUM, current, registries, f(current));
    JoinedMore(f, done, current, base);
  }

  /** A walk's account of itself: the checksum it is in and its registries so far, and the checksums flushed. */
  datatype Gathering = Gathering(current: Str, registries: seq<nat>, done: seq<Str>)

  /** From one account to the next: the group before is complete, and flushed, when the checksum changes. */
  ghost predicate Gathers(k: Keccak, c: Str, r: nat, f: Str -> seq<Write>, t0: Gathering, t: Gathering) {
    var flushes := c != t0.current && t0.registries != [];
    && t.current == c && t.registries == (if c != t0.current then [] else t0.registries) + [r]
    && t.done == (if flushes then t0.done + [t0.current] else t0.done)
    && (flushes ==>
          var loc := Cell(t0.current, Root(REGISTRIES_BY_CHECKSUM), 0);
          f(t0.current) == NonZero(ToWrites(k, IdsPuts(loc, t0.registries))))
  }

  /** The account after the i-th entry. */
  lemma NextGathering(k: Keccak, ks: seq<(Str, nat)>, i: nat, f: Str -> seq<Write>, t0: Gathering,
                      less: (Str, Str) -> bool, lessId: (nat, nat) -> bool) returns (t: Gathering)
    requires StrictOrder(less) && PairAscending(ks, less, lessId) && WritesGroups(k, ks, f)
    requires i < |ks| && Standing(ks, i, t0.done, t0.current, t0.registries)
    ensures Standing(ks, i + 1, t.done, t.current, t.registries) && Gathers(k, ks[i].0, ks[i].1, f, t0, t)
  {
    var done, kept := StandingNext(ks, i, t0.done, t0.current, t0.registries, less, lessId);
    t := Gathering(ks[i].0, kept + [ks[i].1], done);
  }

  /** The accounts at every point of the walk. */
  lemma Gatherings(k: Keccak, ks: seq<(Str, nat)>, f: Str -> seq<Write>, less: (Str, Str) -> bool,
                   lessId: (nat, nat) -> bool) returns (ts: seq<Gathering>)
    requires StrictOrder(less) && PairAscending(ks, less, lessId) && WritesGroups(k, ks, f)
    ensures |ts| == |ks| + 1 && ts[0] == Gathering([], [], [])
    ensures Standing(ks, |ks|, ts[|ks|].done, ts[|ks|].current, ts[|ks|].registries)
    ensures forall i :: 0 <= i < |ks| ==> Gathers(k, ks[i].0, ks[i].1, f, ts[i], ts[i + 1])
  {
    var inv := (i: nat, t: Gathering) => i <= |ks| && Standing(ks, i, t.done, t.current, t.registries);
    var step := (i: nat, t0: Gathering, t: Gathering) => i < |ks| && Gathers(k, ks[i].0, ks[i].1, f, t0, t);
    forall i: nat, t0 | i < |ks| && inv(i, t0) ensures exists t :: step(i, t0, t) && inv(i + 1, t) {
      var t := NextGathering(k, ks, i, f, t0, less, lessId);
      assert step(i, t0, t) && inv(i + 1, t);
    }
    ts := Chain(Gathering([], [], []), |ks|, inv, step);
    forall i | 0 <= i < |ks| ensures Gathers(k, ks[i].0, ks[i].1, f, ts[i], ts[i + 1]) {
      assert step(i, ts[i], ts[i + 1]);
    }
  }

  /** One entry: the group before it is flushed first when the checksum changes. */
  method ChecksumStep(k: Keccak, dump: Dump, c: Str, r: nat, current0: Str, registries0: seq<nat>,
                      ghost f: Str -> seq<Write>, ghost base: seq<Write>, ghost t0: Gathering, ghost t: Gathering)
    returns (current: Str, registries: seq<nat>)
    requires dump.Valid() && dump.Written() == base + Joined(f, t0.done)
    requires current0 == t0.current && registries0 == t0.registries && Gathers(k, c, r, f, t0, t)
    modifies dump
    ensures dump.Valid() && dump.address == old(dump.address) && dump.Written() == base + Joined(f, t.done)
    ensures current == t.current && registries == t.registries
  {
    current, registries := current0, registries0;
    if c != current {
      if |registries| != 0 {
        FlushChecksum(k, dump, current, registries, f, t0.done, base);
      }
      current, registries := c, [];
    }
    registries := registries + [r];
  }

  /** The entries' walk up to its last one. */
  method EmitChecksums(k: Keccak, dump: Dump, ks: seq<(Str, nat)>, ghost f: Str -> seq<Write>, ghost base: seq<Write>,
                       ghost ts: seq<Gathering>)
    returns (current: Str, registries: seq<nat>)
    requires dump.Valid() && |ts| == |ks| + 1 && ts[0] == Gathering([], [], [])
    requires dump.Written() == base + Joined(f, ts[0].done)
    requires forall i :: 0 <= i < |ks| ==> Gathers(k, ks[i].0, ks[i].1, f, ts[i], ts[i + 1])
    modifies dump
    ensures dump.Valid() && dump.address == old(dump.address) && dump.Written() == base + Joined(f, ts[|ks|].done)
    ensures current == ts[|ks|].current && registries == ts[|ks|].registries
  {
    current, registries := [], [];
    for i := 0 to |ks|
      invariant dump.Valid() && dump.address == old(dump.address) && dump.Written() == base + Joined(f, ts[i].done)
      invariant current == ts[i].current && registries == ts[i].registries
    {
      current, registries := ChecksumStep(k, dump, ks[i].0, ks[i].1, current, registries, f, base, ts[i], ts[i + 1]);
    }
  }

  /** Walks the entries in order, flushing a group when the checksum changes and at the end. */
  method WalkChecksums(k: Keccak, dump: Dump, ks: seq<(Str, nat)>, ghost f: Str -> seq<Write>,
                       ghost less: (Str, Str) -> bool, ghost lessId: (nat, nat) -> bool)
    requires dump.Valid() && StrictOrder(less) && PairAscending(ks, less, lessId) && WritesGroups(k, ks, f)
    modifies dump
    ensures dump.Valid() && dump.address == old(dump.address)
    ensures dump.Written() == old(dump.Written()) + Joined(f, Firsts(ks, |ks|))
  {
    ghost var base := dump.Written();
    ghost var ts := Gatherings(k, ks, f, less, lessId);
    var current, registries := EmitChecksums(k, dump, ks, f, base, ts);
    if |registries| != 0 {
      FlushChecksum(k, dump, current, registries, f, ts[|ks|].done, base);
    }
  }

  method MigrateChecksumIndex(k: Keccak, s: State, dump: Dump, ghost f: Str -> seq<Write>)
    requires dump.Valid() && WritesChecksums(k, s, f)
    modifies dump
    ensures dump.Valid() && dump.address == old(dump.address)
    ensures dump.Written() == old(dump.Written()) + Joined(f, WalkStrs(Checksums(s)))
  {
    ChecksumGroups(s);
    OrdersAreStrict();
    WalkChecksums(k, dump, WalkStrIds(s.idBySumReg.Keys), f, StrLess, IdLess);
  }

  // ---- roles ----

  lemma RoleGroups(s: State)
    ensures var ks := WalkMembers(s.roleMembers.Keys);
            && PairAscending(ks, HashLess, StrLess)
            && Firsts(ks, |ks|) == WalkHashes(RolesInUse(s))
            && (forall i :: 0 <= i < |ks| ==> ks[i] in s.roleMembers)
            && forall role :: Seconds(ks, |ks|, role) == WalkStrs(MembersOf(s, role))
  {
    var keys := s.roleMembers.Keys;
    var ks := WalkMembers(keys);
    WalkMembersExact(keys);
    forall i, j | 0 <= i < j < |ks|
      ensures HashLess(ks[i].0, ks[j].0) || (ks[i].0 == ks[j].0 && StrLess(ks[i].1, ks[j].1))
    {
      assert MemberLess(ks[i], ks[j]);
    }
    forall i | 0 <= i < |ks| ensures ks[i] in s.roleMembers {
      assert ks[i] in keys;
    }
    RoleFirsts(s, ks);
    forall role ensures Seconds(ks, |ks|, role) == WalkStrs(MembersOf(s, role)) {
      RoleSeconds(s, ks, role);
    }
  }

  lemma RoleFirsts(s: State, ks: seq<(Role, Addr)>)
    requires PairAscending(ks, HashLess, StrLess) && IsWalk(ks, s.roleMembers.Keys, MemberLess)
    ensures Firsts(ks, |ks|) == WalkHashes(RolesInUse(s))
  {
    OrdersAreStrict();
    FirstsFacts(ks, |ks|, HashLess, StrLess);
    var firsts := Firsts(ks, |ks|);
    forall role ensures role in firsts <==> role in RolesInUse(s) {
      if role in firsts {
        var i :| 0 <= i < |ks| && ks[i].0 == role;
        assert ks[i] in s.roleMembers.Keys;
      }
      if role in RolesInUse(s) {
        var p :| p in s.roleMembers && p.0 == role;
        assert p in ks;
      }
    }
    WalkHashesExact(RolesInUse(s));
    WalkIsUnique(firsts, WalkHashes(RolesInUse(s)), RolesInUse(s), HashLess);
  }

  lemma RoleSeconds(s: State, ks: seq<(Role, Addr)>, role: Role)
    requires PairAscending(ks, HashLess, StrLess) && IsWalk(ks, s.roleMembers.Keys, MemberLess)
    ensures Seconds(ks, |ks|, role) == WalkStrs(MembersOf(s, role))
  {
    OrdersAreStrict();
    SecondsFacts(ks, |ks|, role, HashLess, StrLess);
    var members := MembersOf(s, role);
    var seconds := Seconds(ks, |ks|, role);
    forall a ensures a in seconds <==> a in members {
      if a in seconds {
        var i :| 0 <= i < |ks| && ks[i] == (role, a);
        assert ks[i] in s.roleMembers.Keys;
        assert (role, a).1 in members;
      }
      if a in members {
        assert (role, a) in s.roleMembers.Keys;
        assert (role, a) in ks;
      }
    }
    WalkStrsExact(members);
    WalkIsUnique(seconds, WalkStrs(members), members, StrLess);
  }

  ghost function CountWrites(k: Keccak, role: Role, members: nat): seq<Write> {
    NonZero([Write(MapHash(k, role, Word(ROLE_MEMBER_COUNT)), Word(members))])
  }

  ghost function MemberWrites(k: Keccak, role: Role, a: Addr): seq<Write> {
    NonZero([Write(MapHash(k, ToHash(a), MapHash(k, role, Word(ROLE_MEMBERS))), Word(1))])
  }

  /** A role is its members' writes, then their number. */
  ghost function RoleWrites(k: Keccak, ks: seq<(Role, Addr)>, member: Role -> Addr -> seq<Write>,
                            role: Role): seq<Write> {
    Joined(member(role), Seconds(ks, |ks|, role))
    + CountWrites(k, role, |Seconds(ks, |ks|, role)|)
  }

  ghost predicate ClosesRoles(k: Keccak, ks: seq<(Role, Addr)>, member: Role -> Addr -> seq<Write>,
                              f: Role -> seq<Write>) {
    forall i :: 0 <= i < |ks| ==> f(ks[i].0) == RoleWrites(k, ks, member, ks[i].0)
  }

  ghost predicate WritesPairs(k: Keccak, ks: seq<(Role, Addr)>, member: Role -> Addr -> seq<Write>) {
    forall i :: 0 <= i < |ks| ==> member(ks[i].0)(ks[i].1) == MemberWrites(k, ks[i].0, ks[i].1)
  }

  /** A walk's account of itself: the role it is in and its members so far, the roles closed, and what both wrote. */
  datatype Tally = Tally(current: Role, members: nat, done: seq<Role>, before: seq<Write>, accounts: seq<Addr>,
                         part: seq<Write>)

  ghost predicate Closed(base: seq<Write>, f: Role -> seq<Write>, done: seq<Role>, before: seq<Write>) {
    before == base + Joined(f, done)
  }

  ghost predicate Listed(member: Role -> Addr -> seq<Write>, role: Role, accounts: seq<Addr>, part: seq<Write>) {
    part == Joined(member(role), accounts)
  }

  ghost predicate Stands(ks: seq<(Role, Addr)>, i: nat, member: Role -> Addr -> seq<Write>, f: Role -> seq<Write>,
                         base: seq<Write>, t: Tally)
    requires i <= |ks|
  {
    && Standing(ks, i, t.done, t.current, t.accounts) && t.members == |t.accounts|
    && Closed(base, f, t.done, t.before) && Listed(member, t.current, t.accounts, t.part)
  }

  lemma CloseRole(base: seq<Write>, f: Role -> seq<Write>, done: seq<Role>, before: seq<Write>, role: Role)
    requires Closed(base, f, done, before)
    ensures Closed(base, f, done + [role], before + f(role))
  {
    JoinedMore(f, done, role, base);
  }

  lemma ListMember(member: Role -> Addr -> seq<Write>, role: Role, accounts: seq<Addr>, part: seq<Write>, a: Addr)
    requires Listed(member, role, accounts, part)
    ensures Listed(member, role, accounts + [a], part + member(role)(a))
  {
    JoinedSnoc(member(role), accounts, a);
  }

  /** flushCount: a finished group's size closes its role. */
  method FlushCount(k: Keccak, dump: Dump, current: Role, members: nat, ghost before: seq<Write>,
                    ghost part: seq<Write>,
                    ghost whole: seq<Write>)
    requires dump.Valid() && dump.Written() == before + part
    requires whole == part + CountWrites(k, current, members)
    modifies dump
    ensures dump.Valid() && dump.address == old(dump.address) && dump.Written() == before + whole
  {
    EmitOne(dump, Write(MapHash(k, current, Word(ROLE_MEMBER_COUNT)), Word(members)));
    Assoc(before, part, CountWrites(k, current, members));
  }

  method EmitMember(k: Keccak, dump: Dump, role: Role, a: Addr, ghost before: seq<Write>, ghost part: seq<Write>,
                    ghost out: seq<Write>)
    requires dump.Valid() && dump.Written() == before + part
    requires out == MemberWrites(k, role, a)
    modifies dump
    ensures dump.Valid() && dump.address == old(dump.address) && dump.Written() == before + (part + out)
  {
    EmitOne(dump, Write(MapHash(k, ToHash(a), MapHash(k, role, Word(ROLE_MEMBERS))), Word(1)));
    Assoc(before, part, out);
  }

  /** A complete group's members are all its role has. */
  lemma GroupComplete(k: Keccak, ks: seq<(Role, Addr)>, i: nat, member: Role -> Addr -> seq<Write>,
                      f: Role -> seq<Write>,
                      role: Role, accounts: seq<Addr>, part: seq<Write>)
    requires i < |ks| && ks[i].0 == role && ClosesRoles(k, ks, member, f)
    requires accounts == Seconds(ks, |ks|, role) && Listed(member, role, accounts, part)
    ensures f(role) == part + CountWrites(k, role, |accounts|)
  {
  }

  /** The role of the next member: the one before it is closed first when the role changes. */
  method TurnToRole(k: Keccak, dump: Dump, role: Role, current: Role, members0: nat, ghost whole: seq<Write>,
                    ghost before0: seq<Write>, ghost part0: seq<Write>)
    returns (members: nat, ghost before: seq<Write>, ghost part: seq<Write>)
    requires dump.Valid() && dump.Written() == before0 + part0 && (members0 == 0 ==> part0 == [])
    requires role != current && members0 != 0 ==> whole == part0 + CountWrites(k, current, members0)
    modifies dump
    ensures dump.Valid() && dump.address == old(dump.address) && dump.Written() == before + part
    ensures before == (if role != current && members0 != 0 then before0 + whole else before0)
    ensures members == (if role != current then 0 else members0) && part == (if role != current then [] else part0)
  {
    members, before, part := members0, before0, part0;
    if role != current {
      if members != 0 {
        FlushCount(k, dump, current, members, before, part, whole);
        before, part := before + whole, [];
      }
      members := 0;
    }
  }

  /** What a walk over the members relies on. */
  ghost predicate RoleWalk(k: Keccak, ks: seq<(Role, Addr)>, member: Role -> Addr -> seq<Write>, f: Role -> seq<Write>,
                           less: (Role, Role) -> bool, lessAddr: (Addr, Addr) -> bool) {
    && StrictOrder(less) && PairAscending(ks, less, lessAddr)
    && WritesPairs(k, ks, member) && ClosesRoles(k, ks, member, f)
  }

  /** From one account to the next: the role before is closed when the role changes, then the member is listed. */
  ghost predicate Advances(k: Keccak, role: Role, a: Addr, f: Role -> seq<Write>, t0: Tally, t: Tally) {
    var turns := role != t0.current;
    && t.current == role && t.members == (if turns then 0 else t0.members) + 1
    && (t0.members == 0 ==> t0.part == [])
    && (turns && t0.members != 0 ==> f(t0.current) == t0.part + CountWrites(k, t0.current, t0.members))
    && t.before == (if turns && t0.members != 0 then t0.before + f(t0.current) else t0.before)
    && t.part == (if turns then [] else t0.part) + MemberWrites(k, role, a)
  }

  /** Turning to a role closes the one before, when it has members; the rest of the account stays. */
  lemma TurnTally(role: Role, member: Role -> Addr -> seq<Write>, f: Role -> seq<Write>, base: seq<Write>,
                  t0: Tally, done: seq<Role>, accounts: seq<Addr>) returns (t: Tally)
    requires Closed(base, f, t0.done, t0.before) && Listed(member, t0.current, t0.accounts, t0.part)
    requires t0.members == |t0.accounts|
    requires done == (if role != t0.current && t0.accounts != [] then t0.done + [t0.current] else t0.done)
    requires accounts == (if role != t0.current then [] else t0.accounts)
    ensures t.current == role && t.members == |accounts| && t.done == done && t.accounts == accounts
    ensures Closed(base, f, t.done, t.before) && Listed(member, t.current, t.accounts, t.part)
    ensures t.before == (if role != t0.current && t0.members != 0 then t0.before + f(t0.current) else t0.before)
    ensures t.part == (if role != t0.current then [] else t0.part)
  {
    t := t0.(current := role, members := |accounts|, done := done, accounts := accounts);
    if role != t0.current {
      t := t.(part := []);
      if t0.members != 0 {
        CloseRole(base, f, t0.done, t0.before, t0.current);
        t := t.(before := t0.before + f(t0.current));
      }
    }
  }

  /** Listing the member completes the account. */
  lemma JoinTally(k: Keccak, role: Role, a: Addr, member: Role -> Addr -> seq<Write>, f: Role -> seq<Write>,
                  base: seq<Write>, t0: Tally, mid: Tally) returns (t: Tally)
    requires member(role)(a) == MemberWrites(k, role, a) && mid.current == role
    requires Closed(base, f, mid.done, mid.before) && Listed(member, role, mid.accounts, mid.part)
    requires mid.members == |mid.accounts| && mid.members == (if role != t0.current then 0 else t0.members)
    requires mid.before == (if role != t0.current && t0.members != 0 then t0.before + f(t0.current) else t0.before)
    requires mid.part == (if role != t0.current then [] else t0.part) && (t0.members == 0 ==> t0.part == [])
    requires role != t0.current && t0.members != 0 ==>
      f(t0.current) == t0.part + CountWrites(k, t0.current, t0.members)
    ensures t.current == role && t.done == mid.done && t.accounts == mid.accounts + [a] && t.members == |t.accounts|
    ensures Closed(base, f, t.done, t.before) && Listed(member, t.current, t.accounts, t.part)
    ensures Advances(k, role, a, f, t0, t)
  {
    ListMember(member, role, mid.accounts, mid.part, a);
    t := mid.(members := mid.members + 1, accounts := mid.accounts + [a], part := mid.part + member(role)(a));
  }

  /** The account after the i-th member. */
  lemma NextTally(k: Keccak, ks: seq<(Role, Addr)>, i: nat, member: Role -> Addr -> seq<Write>, f: Role -> seq<Write>,
                  base: seq<Write>, t0: Tally, less: (Role, Role) -> bool, lessAddr: (Addr, Addr) -> bool)
    returns (t: Tally)
    requires RoleWalk(k, ks, member, f, less, lessAddr) && i < |ks| && Stands(ks, i, member, f, base, t0)
    ensures Stands(ks, i + 1, member, f, base, t) && Advances(k, ks[i].0, ks[i].1, f, t0, t)
  {
    var done, accounts := StandingNext(ks, i, t0.done, t0.current, t0.accounts, less, lessAddr);
    if ks[i].0 != t0.current && t0.members != 0 {
      GroupComplete(k, ks, i - 1, member, f, t0.current, t0.accounts, t0.part);
    }
    var mid := TurnTally(ks[i].0, member, f, base, t0, done, accounts);
    t := JoinTally(k, ks[i].0, ks[i].1, member, f, base, t0, mid);
  }

  const NO_ROLE: Role := ZERO

  /** The accounts at every point of the walk. */
  lemma Tallies(k: Keccak, ks: seq<(Role, Addr)>, member: Role -> Addr -> seq<Write>, f: Role -> seq<Write>,
                base: seq<Write>, less: (Role, Role) -> bool, lessAddr: (Addr, Addr) -> bool) returns (ts: seq<Tally>)
    requires RoleWalk(k, ks, member, f, less, lessAddr)
    ensures |ts| == |ks| + 1 && ts[0] == Tally(NO_ROLE, 0, [], base, [], [])
    ensures Stands(ks, |ks|, member, f, base, ts[|ks|])
    ensures forall i :: 0 <= i < |ks| ==> Advances(k, ks[i].0, ks[i].1, f, ts[i], ts[i + 1])
  {
    var inv := (i: nat, t: Tally) => i <= |ks| && Stands(ks, i, member, f, base, t);
    var step := (i: nat, t0: Tally, t: Tally) => i < |ks| && Advances(k, ks[i].0, ks[i].1, f, t0, t);
    forall i: nat, t0 | i < |ks| && inv(i, t0) ensures exists t :: step(i, t0, t) && inv(i + 1, t) {
      var t := NextTally(k, ks, i, member, f, base, t0, less, lessAddr);
      assert step(i, t0, t) && inv(i + 1, t);
    }
    ts := Chain(Tally(NO_ROLE, 0, [], base, [], []), |ks|, inv, step);
    forall i | 0 <= i < |ks| ensures Advances(k, ks[i].0, ks[i].1, f, ts[i], ts[i + 1]) {
      assert step(i, ts[i], ts[i + 1]);
    }
  }

  /** The last group is complete when the walk ends. */
  lemma LastTally(k: Keccak, ks: seq<(Role, Addr)>, member: Role -> Addr -> seq<Write>, f: Role -> seq<Write>,
                  base: seq<Write>, t: Tally)
    requires ks != [] && ClosesRoles(k, ks, member, f) && Stands(ks, |ks|, member, f, base, t)
    ensures f(t.current) == t.part + CountWrites(k, t.current, t.members)
    ensures t.before + f(t.current) == base + Joined(f, Firsts(ks, |ks|))
  {
    GroupComplete(k, ks, |ks| - 1, member, f, t.current, t.accounts, t.part);
    CloseRole(base, f, t.done, t.before, t.current);
  }

  /** One member of the walk: the role before it is closed first when the role changes. */
  method MemberStep(k: Keccak, dump: Dump, role: Role, a: Addr, current0: Role, members0: nat,
                    ghost f: Role -> seq<Write>, ghost t0: Tally, ghost t: Tally)
    returns (current: Role, members: nat)
    requires dump.Valid() && dump.Written() == t0.before + t0.part && current0 == t0.current && members0 == t0.members
    requires Advances(k, role, a, f, t0, t)
    modifies dump
    ensures dump.Valid() && dump.address == old(dump.address) && dump.Written() == t.before + t.part
    ensures current == t.current && members == t.members
  {
    ghost var before, part;
    members, before, part := TurnToRole(k, dump, role, current0, members0, f(current0), t0.before, t0.part);
    current, members := role, members + 1;
    EmitMember(k, dump, role, a, before, part, MemberWrites(k, role, a));
  }

  /** The members' walk up to its last entry. */
  method EmitMembers(k: Keccak, dump: Dump, ks: seq<(Role, Addr)>, ghost f: Role -> seq<Write>, ghost ts: seq<Tally>)
    returns (current: Role, members: nat)
    requires dump.Valid() && |ts| == |ks| + 1 && ts[0].current == NO_ROLE && ts[0].members == 0
    requires dump.Written() == ts[0].before + ts[0].part
    requires forall i :: 0 <= i < |ks| ==> Advances(k, ks[i].0, ks[i].1, f, ts[i], ts[i + 1])
    modifies dump
    ensures dump.Valid() && dump.address == old(dump.address) && dump.Written() == ts[|ks|].before + ts[|ks|].part
    ensures current == ts[|ks|].current && members == ts[|ks|].members
  {
    current, members := NO_ROLE, 0;
    for i := 0 to |ks|
      invariant dump.Valid() && dump.address == old(dump.address) && dump.Written() == ts[i].before + ts[i].part
      invariant current == ts[i].current && members == ts[i].members
    {
      current, members := MemberStep(k, dump, ks[i].0, ks[i].1, current, members, f, ts[i], ts[i + 1]);
    }
  }

  /** The members' walk: emits each member, and each role's count when its group ends. */
  method WalkRoleMembers(k: Keccak, dump: Dump, ks: seq<(Role, Addr)>, ghost member: Role -> Addr -> seq<Write>,
                         ghost f: Role -> seq<Write>, ghost less: (Role, Role) -> bool,
                         ghost lessAddr: (Addr, Addr) -> bool)
    requires dump.Valid() && RoleWalk(k, ks, member, f, less, lessAddr)
    modifies dump
    ensures dump.Valid() && dump.address == old(dump.address)
    ensures dump.Written() == old(dump.Written()) + Joined(f, Firsts(ks, |ks|))
  {
    ghost var base := dump.Written();
    ghost var ts := Tallies(k, ks, member, f, base, less, lessAddr);
    ghost var t := ts[|ks|];
    var current, members := EmitMembers(k, dump, ks, f, ts);
    if members != 0 {
      LastTally(k, ks, member, f, base, t);
      FlushCount(k, dump, current, members, t.before, t.part, f(current));
    }
  }

  /** The walk meets the roles in use, each with its members. */
  lemma RolesWalked(k: Keccak, s: State, member: Role -> Addr -> seq<Write>, f: Role -> seq<Write>)
    requires WritesMembers(k, s, member) && WritesRoles(k, s, member, f)
    ensures var ks := WalkMembers(s.roleMembers.Keys);
            RoleWalk(k, ks, member, f, HashLess, StrLess) && Firsts(ks, |ks|) == WalkHashes(RolesInUse(s))
  {
    RoleGroups(s);
    OrdersAreStrict();
    var ks := WalkMembers(s.roleMembers.Keys);
    forall role ensures f(role) == RoleWrites(k, ks, member, role) {
      WalkStrsExact(MembersOf(s, role));
    }
  }

  method MigrateRoles(k: Keccak, s: State, dump: Dump, ghost admins: Role -> seq<Write>,
                      ghost member: Role -> Addr -> seq<Write>, ghost f: Role -> seq<Write>)
    requires dump.Valid() && WritesAdmins(k, s, admins) && WritesMembers(k, s, member) && WritesRoles(k, s, member, f)
    modifies dump
    ensures dump.Valid() && dump.address == old(dump.address)
    ensures dump.Written()
         == old(dump.Written()) + Joined(admins, WalkHashes(s.roleAdmins.Keys)) + Joined(f, WalkHashes(RolesInUse(s)))
  {
    MigrateRoleAdmins(k, s, dump, admins);
    RolesWalked(k, s, member, f);
    WalkRoleMembers(k, dump, WalkMembers(s.roleMembers.Keys), member, f, HashLess, StrLess);
  }

  // ---- the whole migration ----

  lemma FiveParts(base: seq<Write>, a: seq<Write>, b: seq<Write>, c: seq<Write>, d: seq<Write>, e: seq<Write>)
    ensures base + a + b + c + d + e == base + (a + b + c + d + e)
  {
  }

  /** Steps one to four: registries with their names, record counts, records, latest indexes. */
  method MigrateFirst(k: Keccak, s: State, dump: Dump, ghost admin: Addr, ghost fs: Steps) returns (ok: bool)
    requires dump.Valid() && Follows(k, s, admin, fs)
    modifies dump
    ensures dump.Valid() && dump.address == old(dump.address)
    ensures ok <==> IdsDense(s)
    ensures ok ==> dump.Written() == old(dump.Written()) + FirstHalf(s, fs)
  {
    ghost var base := dump.Written();
    ok := MigrateRegistries(k, s, dump, fs.registry, fs.name);
    if !ok {
      return;
    }
    MigrateRecordCounts(k, s, dump, fs.count);
    MigrateRecords(k, s, dump, fs.record);
    MigrateLatestIndexes(k, s, dump, fs.latest);
    FiveParts(base, Joined(fs.registry, WalkIds(s.registries.Keys)), Joined(fs.name, WalkStrs(FoldedNames(s))),
              Joined(fs.count, WalkIds(s.recordCounts.Keys)), Joined(fs.record, WalkTriples(s.records.Keys)),
              Joined(fs.latest, WalkPairs(s.latest.Keys)));
  }

  /** Steps five to eight: checksum lookup, header, checksum index, roles. */
  method MigrateRest(env: Env, s: State, dump: Dump, ghost admin: Addr, ghost fs: Steps) returns (o: Result<Addr>)
    requires dump.Valid() && Follows(env.keccak, s, admin, fs)
    requires env.Account(s.params.admin).Some? ==> admin == env.Account(s.params.admin).value
    modifies dump
    ensures dump.Valid() && dump.address == old(dump.address)
    ensures o.Ok? <==> env.Account(s.params.admin).Some?
    ensures o.Ok? ==> o.value == admin && dump.Written() == old(dump.Written()) + SecondHalf(s, fs)
  {
    var k := env.keccak;
    ghost var base := dump.Written();
    MigrateRecordIds(k, s, dump, fs.recordId);
    match env.Account(s.params.admin) {
      case None =>
        return Err(InvalidAddress);
      case Some(account) =>
        MigrateHeader(s, dump, account, fs.header);
        MigrateChecksumIndex(k, s, dump, fs.checksum);
        MigrateRoles(k, s, dump, fs.admin, fs.member, fs.role);
        FiveParts(base, Joined(fs.recordId, WalkIdStrs(s.idByRegSum.Keys)), fs.header,
                  Joined(fs.checksum, WalkStrs(Checksums(s))), Joined(fs.admin, WalkHashes(s.roleAdmins.Keys)),
                  Joined(fs.role, WalkHashes(RolesInUse(s))));
        return Ok(account);
    }
  }

  /** Migrate: fails on a gap in the ids, a wrong count or an unreadable admin address. */
  method Migrate(env: Env, s: State, dump: Dump) returns (o: Result<Addr>)
    requires dump.Valid()
    modifies dump
    ensures dump.Valid() && dump.address == old(dump.address)
    ensures o.Ok? <==> IdsDense(s) && env.Account(s.params.admin).Some?
    ensures o.Ok? ==> o.value == env.Account(s.params.admin).value
                      && dump.Written() == old(dump.Written()) + Emit(env.keccak, Plan(s, o.value))
  {
    ghost var admin := match env.Account(s.params.admin) case None => [] case Some(a) => a;
    ghost var base := dump.Written();
    ghost var fs := StepsExist(env.keccak, s, admin);
    var ok := MigrateFirst(env.keccak, s, dump, admin, fs);
    if !ok {
      return Err(InvalidRequest);
    }
    o := MigrateRest(env, s, dump, admin, fs);
    Assoc(base, FirstHalf(s, fs), SecondHalf(s, fs));
  }
}
