/** InitGenesis of ExportGenesis is the identity on every reachable store. */
module GenesisRoundTrip {
  import opened Bytes
  import opened Walks
  import opened Types
  import opened Messages
  import opened Bookkeeping
  import opened Genesis

  type Key = (nat, nat, nat)

  // ---- registries ----

  lemma {:induction false} RegistriesImport(env: Env, s: State, g: Genesis, order: seq<nat>)
    requires RegistriesDense(env, s.registries, s.registryCount, s.recordCounts)
    requires g.registries == s.registries && (forall i :: 0 <= i < |order| ==> order[i] in g.registries)
    ensures var o := ImportRegistries(env, g, order);
            && o.Ok?
            && o.value == EmptyState(g.params).(registries := o.value.registries, recordCounts := o.value.recordCounts,
                                                registryCount := o.value.registryCount)
            && (forall r :: r in o.value.registries <==> r in order)
            && (forall r :: r in o.value.recordCounts <==> r in order)
            && (forall r :: r in order ==> o.value.registries[r] == s.registries[r] && o.value.recordCounts[r] == 0)
            && (forall r :: r in order ==> r <= o.value.registryCount)
            && (o.value.registryCount == 0 || o.value.registryCount in order)
  {
    if order != [] {
      var n := |order| - 1;
      RegistriesImport(env, s, g, order[..n]);
      assert order == order[..n] + [order[n]];
    }
  }

  // ---- records: what the store looks like after the records with keys `done` ----

  ghost predicate RecordsSoFar(s: State, done: set<Key>, records: Records) {
    && (forall t :: t in records <==> t in done)
    && (forall t :: t in records ==> t in s.records && records[t] == s.records[t])
  }

  ghost predicate LatestSoFar(done: set<Key>, latest: Latest) {
    && (forall r, i, k :: (r, i, k) in done ==> (r, i) in latest && k <= latest[(r, i)])
    && (forall r, i :: (r, i) in latest ==> (r, i, latest[(r, i)]) in done)
  }

  ghost predicate ByRegSoFar(s: State, done: set<Key>, byReg: ByRegSum) {
    && (forall t :: t in done && t in s.records ==> (t.0, s.records[t].checksum) in byReg)
    && (forall p :: p in byReg ==> p in s.idByRegSum && byReg[p] == s.idByRegSum[p])
  }

  ghost predicate BySumSoFar(s: State, done: set<Key>, bySum: BySumReg) {
    && (forall t :: t in done && t in s.records ==> (s.records[t].checksum, t.0) in bySum)
    && (forall p :: p in bySum ==> p in s.idBySumReg && bySum[p] == s.idBySumReg[p])
  }

  ghost predicate CountsSoFar(s: State, done: set<Key>, counts: Counts) {
    && (forall r :: r in counts <==> r in s.registries)
    && (forall t :: t in done ==> t.0 in counts && t.1 <= counts[t.0])
    && (forall r :: r in counts ==> r in s.recordCounts && counts[r] <= s.recordCounts[r])
  }

  /** A version group saw each version once: its mark is counted exactly when the latest is in. */
  ghost predicate GroupFits(s: State, done: set<Key>, r: nat, i: nat, g: Group)
    requires (r, i) in s.latest
  {
    && (g.maxIndex != 0 ==> (r, i, g.maxIndex) in done)
    && (forall k :: (r, i, k) in done ==> k <= g.maxIndex)
    && (if (r, i, s.latest[(r, i)]) in done
        then g.latestCount == 1 && g.latestIndex == s.latest[(r, i)]
        else g.latestCount == 0)
  }

  ghost predicate GroupsSoFar(s: State, done: set<Key>, groups: Groups) {
    forall r, i :: (r, i) in groups ==> (r, i) in s.latest && GroupFits(s, done, r, i, groups[(r, i)])
  }

  /** (r, i) has no version in `done` unless it has a group. */
  ghost predicate GroupsCover(done: set<Key>, groups: Groups) {
    forall r, i, k :: (r, i, k) in done ==> (r, i) in groups
  }

  lemma LatestNext(done: set<Key>, latest: Latest, e: Record)
    requires LatestSoFar(done, latest)
    ensures LatestSoFar(done + {(e.registryId, e.recordId, e.index)}, BumpLatest(latest, e))
  {
  }

  lemma CountsNext(s: State, done: set<Key>, counts: Counts, e: Record)
    requires CountsSoFar(s, done, counts) && e.registryId in counts && e.recordId <= s.recordCounts[e.registryId]
    ensures CountsSoFar(s, done + {(e.registryId, e.recordId, e.index)}, BumpCount(counts, e))
  {
  }

  lemma GroupNext(s: State, done: set<Key>, r: nat, i: nat, g: Group, e: Record)
    requires (r, i) in s.latest && GroupFits(s, done, r, i, g)
    requires e.registryId == r && e.recordId == i && e.index > 0 && (e.isLatest <==> e.index == s.latest[(r, i)])
    requires (r, i, e.index) !in done
    ensures GroupFits(s, done + {(r, i, e.index)}, r, i, AddToGroup(g, e))
  {
  }

  lemma GroupsNext(s: State, done: set<Key>, groups: Groups, e: Record)
    requires GroupsSoFar(s, done, groups) && GroupsCover(done, groups)
    requires (e.registryId, e.recordId) in s.latest && e.index > 0
    requires e.isLatest <==> e.index == s.latest[(e.registryId, e.recordId)]
    requires (e.registryId, e.recordId, e.index) !in done
    ensures GroupsSoFar(s, done + {(e.registryId, e.recordId, e.index)}, BumpGroup(groups, e))
    ensures GroupsCover(done + {(e.registryId, e.recordId, e.index)}, BumpGroup(groups, e))
  {
    var key := (e.registryId, e.recordId, e.index);
    var p := (e.registryId, e.recordId);
    var g := if p in groups then groups[p] else Group(0, 0, 0);
    assert GroupFits(s, done, p.0, p.1, g);
    GroupNext(s, done, p.0, p.1, g, e);
    forall r, i | (r, i) in BumpGroup(groups, e)
      ensures (r, i) in s.latest && GroupFits(s, done + {key}, r, i, BumpGroup(groups, e)[(r, i)])
    {
      if (r, i) != p {
        assert GroupFits(s, done, r, i, groups[(r, i)]);
      }
    }
  }

  /** Everything import has rebuilt so far. */
  ghost predicate SoFar(s: State, done: set<Key>, st: State, groups: Groups) {
    && st.registries == s.registries
    && RecordsSoFar(s, done, st.records) && LatestSoFar(done, st.latest)
    && ByRegSoFar(s, done, st.idByRegSum) && BySumSoFar(s, done, st.idBySumReg)
    && CountsSoFar(s, done, st.recordCounts)
    && GroupsSoFar(s, done, groups) && GroupsCover(done, groups)
  }

  /** The record under a key, as import meets it. */
  ghost predicate Listed(s: State, t: Key, e: Record) {
    t in s.records && e == s.records[t] && t == (e.registryId, e.recordId, e.index)
  }

  lemma IndexesNext(env: Env, s: State, done: set<Key>, st: State, t: Key, e: Record)
    requires Consistent(env, s) && Listed(s, t, e)
    requires ByRegSoFar(s, done, st.idByRegSum) && BySumSoFar(s, done, st.idBySumReg)
    ensures ByRegSoFar(s, done + {t}, st.idByRegSum[(e.registryId, e.checksum) := e.recordId])
    ensures BySumSoFar(s, done + {t}, st.idBySumReg[(e.checksum, e.registryId) := e.recordId])
  {
    assert VersionFits(s.latest, s.idByRegSum, t.0, t.1, t.2, e);
    assert (e.checksum, e.registryId) in s.idBySumReg;
  }

  /** Import of records leaves parameters, the registry count and roles alone. */
  ghost predicate FrameKept(st: State, st1: State) {
    st1.params == st.params && st1.registryCount == st.registryCount
    && st1.roleAdmins == st.roleAdmins && st1.roleMembers == st.roleMembers
  }

  /** Each record of the store is accepted, once. */
  lemma RecordAccepted(env: Env, s: State, done: set<Key>, st: State, groups: Groups, t: Key, e: Record)
    requires Consistent(env, s) && Listed(s, t, e) && t !in done
    requires st.registries == s.registries && RecordsSoFar(s, done, st.records) && CountsSoFar(s, done, st.recordCounts)
    ensures ImportRecord(st, groups, e).Ok?
    ensures (t.0, t.1) in s.latest && e.index > 0 && (e.isLatest <==> e.index == s.latest[(t.0, t.1)])
    ensures e.registryId in st.recordCounts && e.recordId <= s.recordCounts[e.registryId]
  {
    assert VersionFits(s.latest, s.idByRegSum, t.0, t.1, t.2, e);
    assert (t.0, t.1) in s.latest;
  }

  lemma RecordsNext(s: State, done: set<Key>, records: Records, t: Key, e: Record)
    requires RecordsSoFar(s, done, records) && Listed(s, t, e)
    ensures RecordsSoFar(s, done + {t}, records[t := e])
  {
  }

  /** Importing an accepted record adds its key to everything rebuilt. */
  lemma AcceptedNext(s: State, done: set<Key>, st: State, groups: Groups, t: Key, e: Record)
    requires SoFar(s, done, st, groups) && Listed(s, t, e) && t !in done && ImportRecord(st, groups, e).Ok?
    requires (t.0, t.1) in s.latest && e.index > 0 && (e.isLatest <==> e.index == s.latest[(t.0, t.1)])
    requires e.recordId <= s.recordCounts[e.registryId]
    requires ByRegSoFar(s, done + {t}, st.idByRegSum[(e.registryId, e.checksum) := e.recordId])
    requires BySumSoFar(s, done + {t}, st.idBySumReg[(e.checksum, e.registryId) := e.recordId])
    ensures var (st1, groups1) := ImportRecord(st, groups, e).value;
            SoFar(s, done + {t}, st1, groups1) && FrameKept(st, st1)
  {
    RecordsNext(s, done, st.records, t, e);
    LatestNext(done, st.latest, e);
    CountsNext(s, done, st.recordCounts, e);
    GroupsNext(s, done, groups, e);
  }

  lemma RecordNext(env: Env, s: State, done: set<Key>, st: State, groups: Groups, t: Key, e: Record)
    requires Consistent(env, s) && Listed(s, t, e) && t !in done && SoFar(s, done, st, groups)
    ensures var o := ImportRecord(st, groups, e);
            o.Ok? && SoFar(s, done + {t}, o.value.0, o.value.1) && FrameKept(st, o.value.0)
  {
    RecordAccepted(env, s, done, st, groups, t, e);
    IndexesNext(env, s, done, st, t, e);
    AcceptedNext(s, done, st, groups, t, e);
  }

  // ---- the whole list of records ----

  function KeyOf(e: Record): Key { (e.registryId, e.recordId, e.index) }

  function KeySet(records: seq<Record>): set<Key> {
    set e | e in records :: KeyOf(e)
  }

  /** records lists the store's records, each once, in any order. */
  ghost predicate IsListing(s: State, records: seq<Record>) {
    && NoDup(records)
    && (forall i :: 0 <= i < |records| ==> Listed(s, KeyOf(records[i]), records[i]))
    && (forall t :: t in s.records ==> s.records[t] in records)
  }

  lemma NextKey(s: State, records: seq<Record>, n: nat)
    requires IsListing(s, records) && 0 < n <= |records|
    ensures KeyOf(records[n - 1]) !in KeySet(records[..n - 1])
    ensures KeySet(records[..n]) == KeySet(records[..n - 1]) + {KeyOf(records[n - 1])}
  {
    var e := records[n - 1];
    forall d | d in records[..n - 1] ensures KeyOf(d) != KeyOf(e) {
      var j :| 0 <= j < n - 1 && records[j] == d;
      assert Listed(s, KeyOf(d), d) && Listed(s, KeyOf(e), e);
    }
    assert records[..n] == records[..n - 1] + [e];
  }

  /** What one record keeps, a whole listing keeps. */
  lemma {:induction false} FoldRecords(s: State, st: State, records: seq<Record>, n: nat,
                                       p: (set<Key>, State, Groups) -> bool)
    requires IsListing(s, records) && n <= |records| && p({}, st, map[])
    requires forall done, st1, groups, t, e :: p(done, st1, groups) && Listed(s, t, e) && t !in done ==>
               && ImportRecord(st1, groups, e).Ok?
               && p(done + {t}, ImportRecord(st1, groups, e).value.0, ImportRecord(st1, groups, e).value.1)
    ensures var o := ImportRecords(st, records[..n]);
            o.Ok? && p(KeySet(records[..n]), o.value.0, o.value.1)
  {
    if n == 0 {
      assert KeySet(records[..n]) == {};
    } else {
      FoldRecords(s, st, records, n - 1, p);
      assert records[..n][..n - 1] == records[..n - 1];
      NextKey(s, records, n);
      assert Listed(s, KeyOf(records[n - 1]), records[n - 1]);
    }
  }

  ghost function Kept(s: State, st: State): (set<Key>, State, Groups) -> bool {
    (done: set<Key>, st1: State, groups: Groups) => SoFar(s, done, st1, groups) && FrameKept(st, st1)
  }

  lemma KeptNext(env: Env, s: State, st: State, done: set<Key>, st1: State, groups: Groups, t: Key, e: Record)
    requires Consistent(env, s) && Kept(s, st)(done, st1, groups) && Listed(s, t, e) && t !in done
    ensures var o := ImportRecord(st1, groups, e);
            o.Ok? && Kept(s, st)(done + {t}, o.value.0, o.value.1)
  {
    RecordNext(env, s, done, st1, groups, t, e);
    var (st2, groups2) := ImportRecord(st1, groups, e).value;
    KeptIs(s, st, done + {t}, st2, groups2);
  }

  lemma KeptIs(s: State, st: State, done: set<Key>, st1: State, groups: Groups)
    requires SoFar(s, done, st1, groups) && FrameKept(st, st1)
    ensures Kept(s, st)(done, st1, groups)
  {
  }

  lemma RecordsImport(env: Env, s: State, st: State, records: seq<Record>)
    requires Consistent(env, s) && IsListing(s, records) && Kept(s, st)({}, st, map[])
    ensures var o := ImportRecords(st, records);
            o.Ok? && Kept(s, st)(KeySet(records), o.value.0, o.value.1)
  {
    forall done, st1, groups, t, e | Kept(s, st)(done, st1, groups) && Listed(s, t, e) && t !in done
      ensures ImportRecord(st1, groups, e).Ok?
      ensures Kept(s, st)(done + {t}, ImportRecord(st1, groups, e).value.0, ImportRecord(st1, groups, e).value.1)
    {
      KeptNext(env, s, st, done, st1, groups, t, e);
    }
    FoldRecords(s, st, records, |records|, Kept(s, st));
    assert records[..|records|] == records;
  }

  lemma RecordsRebuilt(s: State, records: Records)
    requires RecordsSoFar(s, s.records.Keys, records)
    ensures records == s.records
  {
    forall t | t in s.records ensures t in records { assert t in s.records.Keys; }
  }

  lemma LatestRebuilt(env: Env, s: State, latest: Latest)
    requires Consistent(env, s) && LatestSoFar(s.records.Keys, latest)
    ensures latest == s.latest
  {
    forall r, i
      ensures ((r, i) in latest <==> (r, i) in s.latest) && ((r, i) in latest ==> latest[(r, i)] == s.latest[(r, i)])
    {
      if (r, i) in s.latest {
        assert (r, i, s.latest[(r, i)]) in s.records.Keys;
      }
      if (r, i) in latest {
        assert (r, i, latest[(r, i)]) in s.records.Keys;
      }
    }
    assert forall p :: p in latest <==> (p.0, p.1) in s.latest;
  }

  lemma CountsRebuilt(env: Env, s: State, counts: Counts)
    requires Consistent(env, s) && CountsSoFar(s, s.records.Keys, counts)
    ensures counts == s.recordCounts
  {
    forall r | r in counts ensures counts[r] == s.recordCounts[r] {
      if s.recordCounts[r] > 0 {
        assert (r, s.recordCounts[r]) in s.latest;
        assert (r, s.recordCounts[r], 1) in s.records.Keys;
      }
    }
  }

  lemma ByRegRebuilt(env: Env, s: State, byReg: ByRegSum, bySum: BySumReg)
    requires Consistent(env, s) && ByRegSoFar(s, s.records.Keys, byReg) && BySumSoFar(s, s.records.Keys, bySum)
    ensures byReg == s.idByRegSum && bySum == s.idBySumReg
  {
    forall p | p in s.idByRegSum ensures p in byReg && (p.1, p.0) in bySum {
      var id := s.idByRegSum[(p.0, p.1)];
      assert (p.0, id) in s.latest && (p.0, id, 1) in s.records;
      assert VersionFits(s.latest, s.idByRegSum, p.0, id, 1, s.records[(p.0, id, 1)]);
      assert s.records[(p.0, id, 1)].checksum == p.1;
      assert (p.0, id, 1) in s.records.Keys;
    }
    forall q | q in s.idBySumReg ensures q in bySum {
      assert (q.1, q.0) in s.idByRegSum;
    }
  }

  lemma GroupsRebuilt(env: Env, s: State, groups: Groups)
    requires Consistent(env, s) && GroupsSoFar(s, s.records.Keys, groups)
    ensures GroupsOk(groups)
  {
    forall p | p in groups ensures GroupOk(groups[p]) {
      var r, i := p.0, p.1;
      assert (r, i) in groups;
      assert GroupFits(s, s.records.Keys, r, i, groups[(r, i)]);
      assert (r, i, s.latest[(r, i)]) in s.records.Keys;
    }
  }

  // ---- roles ----

  lemma {:induction false} AdminsImport(st: State, admins: map<Str, Str>, order: seq<Str>)
    requires forall i :: 0 <= i < |order| ==> order[i] in admins && |order[i]| == 32
    ensures var t := ImportAdmins(st, admins, order);
            && t == st.(roleAdmins := t.roleAdmins)
            && (forall role :: role in t.roleAdmins <==> role in order || role in st.roleAdmins)
            && (forall role :: role in order ==> t.roleAdmins[role] == admins[role])
  {
    if order != [] {
      var n := |order| - 1;
      AdminsImport(st, admins, order[..n]);
      assert order == order[..n] + [order[n]];
    }
  }

  /** The member entries under these keys, over what was there. */
  function MemberMap(base: map<(Role, Addr), Str>, members: map<Str, Str>, order: seq<Str>): map<(Role, Addr), Str>
    requires forall i :: 0 <= i < |order| ==> order[i] in members && |order[i]| >= 32
    decreases |order|
  {
    if order == [] then base else
      var key := order[|order| - 1];
      var role: Role := key[..32];
      MemberMap(base, members, order[..|order| - 1])[(role, key[32..]) := members[key]]
  }

  lemma {:induction false} MembersImport(st: State, members: map<Str, Str>, order: seq<Str>)
    requires forall i :: 0 <= i < |order| ==> order[i] in members && |order[i]| >= 32
    ensures ImportMembers(st, members, order) == Ok(st.(roleMembers := MemberMap(st.roleMembers, members, order)))
    decreases |order|
  {
    if order != [] { MembersImport(st, members, order[..|order| - 1]); }
  }

  lemma {:induction false} MemberMapHolds(members: map<Str, Str>, order: seq<Str>, m: (Role, Addr))
    requires forall i :: 0 <= i < |order| ==> order[i] in members && |order[i]| >= 32
    ensures m in MemberMap(map[], members, order) <==> EncodeMember(m) in order
    ensures EncodeMember(m) in order ==> MemberMap(map[], members, order)[m] == members[EncodeMember(m)]
    decreases |order|
  {
    if order != [] {
      var most, key := order[..|order| - 1], order[|order| - 1];
      MemberMapHolds(members, most, m);
      assert order == most + [key];
      MemberKeyRoundTrip(m);
      assert EncodeMember((key[..32], key[32..])) == key;
    }
  }

  // ---- the round trip ----

  /** The registries' import is a store with no record yet. */
  lemma RegistriesDone(env: Env, s: State, g: Genesis, order: seq<nat>)
    requires Consistent(env, s) && g.registries == s.registries && IsOrder(order, g.registries.Keys)
    requires forall i :: 0 <= i < |order| ==> order[i] in g.registries
    ensures var o := ImportRegistries(env, g, order);
            && o.Ok? && Kept(s, o.value)({}, o.value, map[])
            && o.value.params == g.params && o.value.registryCount == s.registryCount
            && o.value.roleAdmins == map[] && o.value.roleMembers == map[]
  {
    RegistriesImport(env, s, g, order);
    var st := ImportRegistries(env, g, order).value;
    assert st.registries == s.registries;
    assert s.registryCount > 0 ==> s.registryCount in order;
    assert SoFar(s, {}, st, map[]) && FrameKept(st, st);
  }

  lemma ListingKeys(env: Env, s: State, records: seq<Record>)
    requires Consistent(env, s) && IsListing(s, records)
    ensures KeySet(records) == s.records.Keys
  {
    forall t | t in s.records ensures t in KeySet(records) {
      assert (t.0, t.1, t.2) in s.records;
      assert VersionFits(s.latest, s.idByRegSum, t.0, t.1, t.2, s.records[(t.0, t.1, t.2)]);
      assert KeyOf(s.records[t]) == t;
    }
    forall t | t in KeySet(records) ensures t in s.records {
      var e :| e in records && KeyOf(e) == t;
      var i :| 0 <= i < |records| && records[i] == e;
      assert Listed(s, KeyOf(records[i]), records[i]);
    }
  }

  /** All records in: every index is rebuilt. */
  lemma RecordsDone(env: Env, s: State, st: State, groups: Groups)
    requires Consistent(env, s) && SoFar(s, s.records.Keys, st, groups)
    ensures st == s.(params := st.params, registryCount := st.registryCount,
                     roleAdmins := st.roleAdmins, roleMembers := st.roleMembers)
    ensures GroupsOk(groups)
  {
    RecordsRebuilt(s, st.records);
    LatestRebuilt(env, s, st.latest);
    CountsRebuilt(env, s, st.recordCounts);
    ByRegRebuilt(env, s, st.idByRegSum, st.idBySumReg);
    GroupsRebuilt(env, s, groups);
  }

  /** The exported maps, entry by entry. */
  ghost predicate AdminsExported(s: State, admins: map<Str, Str>) {
    && (forall role :: role in s.roleAdmins ==> role in admins && admins[role] == s.roleAdmins[role])
    && (forall b :: b in admins ==> |b| == 32 && b in s.roleAdmins)
  }

  ghost predicate MembersExported(s: State, members: map<Str, Str>) {
    && (forall m :: m in s.roleMembers ==> EncodeMember(m) in members && members[EncodeMember(m)] == s.roleMembers[m])
    && (forall b :: b in members ==> |b| >= 32 && (b[..32], b[32..]) in s.roleMembers)
  }

  lemma ExportedRoles(s: State)
    ensures AdminsExported(s, Export(s).roleAdmins) && MembersExported(s, Export(s).roleMembers)
  {
    var g := Export(s);
    MemberKeysDistinct();
    forall b | b in g.roleMembers ensures |b| >= 32 && (b[..32], b[32..]) in s.roleMembers {
      var m :| m in s.roleMembers && EncodeMember(m) == b;
      MemberKeyRoundTrip(m);
    }
  }

  lemma AdminsDone(s: State, st: State, admins: map<Str, Str>, order: seq<Str>)
    requires AdminsExported(s, admins) && IsOrder(order, admins.Keys) && st.roleAdmins == map[]
    ensures forall i :: 0 <= i < |order| ==> order[i] in admins
    ensures ImportAdmins(st, admins, order) == st.(roleAdmins := s.roleAdmins)
  {
    assert forall i :: 0 <= i < |order| ==> order[i] in admins.Keys;
    AdminsImport(st, admins, order);
    assert ImportAdmins(st, admins, order).roleAdmins == s.roleAdmins;
  }

  lemma AllVisited(s: State, members: map<Str, Str>, order: seq<Str>)
    requires MembersExported(s, members) && IsOrder(order, members.Keys)
    ensures forall i :: 0 <= i < |order| ==>
      order[i] in members && |order[i]| >= 32 && (order[i][..32], order[i][32..]) in s.roleMembers
    ensures forall m :: m in s.roleMembers ==> EncodeMember(m) in order
  {
    forall i | 0 <= i < |order| ensures order[i] in members { assert order[i] in members.Keys; }
    forall m | m in s.roleMembers ensures EncodeMember(m) in order { assert EncodeMember(m) in members.Keys; }
  }

  lemma MembersDone(s: State, st: State, members: map<Str, Str>, order: seq<Str>)
    requires MembersExported(s, members) && IsOrder(order, members.Keys) && st.roleMembers == map[]
    ensures forall i :: 0 <= i < |order| ==> order[i] in members
    ensures ImportMembers(st, members, order) == Ok(st.(roleMembers := s.roleMembers))
  {
    AllVisited(s, members, order);
    MembersImport(st, members, order);
    var got := MemberMap(map[], members, order);
    forall m ensures (m in got <==> m in s.roleMembers) && (m in got ==> got[m] == s.roleMembers[m]) {
      MemberMapHolds(members, order, m);
      if EncodeMember(m) in order {
        var i :| 0 <= i < |order| && order[i] == EncodeMember(m);
        MemberKeyRoundTrip(m);
        assert (order[i][..32], order[i][32..]) == m;
      }
    }
    assert got == s.roleMembers;
  }

  /** Registries and records together rebuild all but the roles. */
  lemma BooksDone(env: Env, s: State, g: Genesis, order: seq<nat>)
    requires Consistent(env, s) && g.registries == s.registries && g.params == s.params && IsListing(s, g.records)
    requires IsOrder(order, g.registries.Keys) && (forall i :: 0 <= i < |order| ==> order[i] in g.registries)
    ensures var st := ImportRegistries(env, g, order);
            && st.Ok?
            && var o := ImportRecords(st.value, g.records);
            o.Ok? && GroupsOk(o.value.1) && o.value.0 == s.(roleAdmins := map[], roleMembers := map[])
  {
    RegistriesDone(env, s, g, order);
    var st := ImportRegistries(env, g, order).value;
    RecordsImport(env, s, st, g.records);
    var (st1, groups) := ImportRecords(st, g.records).value;
    ListingKeys(env, s, g.records);
    RecordsDone(env, s, st1, groups);
  }

  /** g holds what s exports, with the records in any order. */
  ghost predicate Describes(s: State, g: Genesis) {
    && g.params == s.params && g.registries == s.registries && IsListing(s, g.records)
    && AdminsExported(s, g.roleAdmins) && MembersExported(s, g.roleMembers)
  }

  lemma OrderIsDomain<K(!new), V>(order: seq<K>, m: map<K, V>)
    requires IsOrder(order, m.Keys)
    ensures forall i :: 0 <= i < |order| ==> order[i] in m
  {
    forall i | 0 <= i < |order| ensures order[i] in m {
      assert order[i] in m.Keys;
    }
  }

  /** For every order of maps and records, import gives the store back. */
  lemma ImportRebuilds(env: Env, s: State, g: Genesis, o: Orders)
    requires Consistent(env, s) && Describes(s, g) && OrdersOf(o, g)
    ensures Import(env, g, o) == Ok(s)
  {
    OrderIsDomain(o.registries, g.registries);
    BooksDone(env, s, g, o.registries);
    var st1 := s.(roleAdmins := map[], roleMembers := map[]);
    AdminsDone(s, st1, g.roleAdmins, o.admins);
    MembersDone(s, st1.(roleAdmins := s.roleAdmins), g.roleMembers, o.members);
  }

  /** A consistent store's record stands under its own key. */
  lemma StoredIsListed(env: Env, s: State, t: Key)
    requires Consistent(env, s) && t in s.records
    ensures Listed(s, t, s.records[t])
  {
    assert (t.0, t.1, t.2) in s.records;
    assert VersionFits(s.latest, s.idByRegSum, t.0, t.1, t.2, s.records[(t.0, t.1, t.2)]);
  }

  /** The records under the keys of a walk, each listed once. */
  lemma WalkIsListing(s: State, ks: seq<Key>)
    requires NoDup(ks) && (forall t :: t in ks <==> t in s.records)
    requires forall t :: t in s.records ==> Listed(s, t, s.records[t])
    ensures (forall i :: 0 <= i < |ks| ==> ks[i] in s.records) && IsListing(s, ExportRecords(s, ks))
  {
    forall i | 0 <= i < |ks| ensures ks[i] in s.records { assert ks[i] in ks; }
    var out := ExportRecords(s, ks);
    forall i | 0 <= i < |out| ensures Listed(s, KeyOf(out[i]), out[i]) && KeyOf(out[i]) == ks[i] {
      assert Listed(s, ks[i], out[i]);
    }
    forall i, j | 0 <= i < j < |out| ensures out[i] != out[j] {
      assert KeyOf(out[i]) == ks[i] && KeyOf(out[j]) == ks[j];
    }
    forall t | t in s.records ensures s.records[t] in out {
      assert t in ks;
      var i :| 0 <= i < |ks| && ks[i] == t;
      assert out[i] == s.records[t];
    }
  }

  /** The export lists the records once. */
  lemma ExportIsListing(env: Env, s: State)
    requires Consistent(env, s)
    ensures IsListing(s, Export(s).records)
  {
    WalkTriplesExact(s.records.Keys);
    forall t | t in s.records ensures Listed(s, t, s.records[t]) { StoredIsListed(env, s, t); }
    WalkIsListing(s, WalkTriples(s.records.Keys));
  }

  /** A permutation of a listing is a listing. */
  lemma ListingPermutes(s: State, out: seq<Record>, records: seq<Record>)
    requires IsListing(s, out) && multiset(records) == multiset(out)
    ensures IsListing(s, records)
  {
    PermutationNoDup(out, records);
    forall i | 0 <= i < |records| ensures Listed(s, KeyOf(records[i]), records[i]) {
      assert records[i] in multiset(records);
      assert records[i] in out;
    }
    forall t | t in s.records ensures s.records[t] in records {
      assert s.records[t] in multiset(out);
    }
  }

  lemma {:induction false} CountOnce<T(!new)>(xs: seq<T>, x: T)
    ensures NoDup(xs) ==> multiset(xs)[x] <= 1
    ensures x in xs <==> multiset(xs)[x] > 0
  {
    if xs != [] {
      var n := |xs| - 1;
      CountOnce(xs[..n], x);
      assert xs == xs[..n] + [xs[n]];
    }
  }

  lemma {:induction false} PermutationNoDup<T(!new)>(xs: seq<T>, ys: seq<T>)
    requires NoDup(xs) && multiset(xs) == multiset(ys)
    ensures NoDup(ys)
  {
    forall i, j | 0 <= i < j < |ys| ensures ys[i] != ys[j] {
      CountOnce(xs, ys[i]);
      CountOnce(ys[..j], ys[i]);
      assert ys[i] in ys[..j];
      assert ys == ys[..j] + [ys[j]] + ys[j + 1..];
      assert multiset(ys) == multiset(ys[..j]) + multiset{ys[j]} + multiset(ys[j + 1..]);
    }
  }

  /**
   For every run from the empty genesis: exporting, permuting the record list at will and
   importing with maps visited in any order rebuilds the identical store.
   */
  lemma RunsRoundTrip(env: Env, params: Params, txs: seq<Tx>, records: seq<Record>, o: Orders)
    requires multiset(records) == multiset(Export(Run(env, EmptyState(params), txs)).records)
    requires OrdersOf(o, Export(Run(env, EmptyState(params), txs)).(records := records))
    ensures var s := Run(env, EmptyState(params), txs);
            Import(env, Export(s).(records := records), o) == Ok(s)
  {
    var s := Run(env, EmptyState(params), txs);
    RunsAreConsistent(env, params, txs);
    ExportIsListing(env, s);
    ListingPermutes(s, Export(s).records, records);
    ExportedRoles(s);
    ImportRebuilds(env, s, Export(s).(records := records), o);
  }
}
