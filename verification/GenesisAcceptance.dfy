/** Exactly which genesis files are imported, whether or not they list a consistent store, and to what. */
module GenesisAcceptance {
  import opened Bytes
  import opened Walks
  import opened Types
  import opened Messages
  import opened Acceptance
  import opened Genesis

  type Key = (nat, nat, nat)

  function KeyOf(e: Record): Key { (e.registryId, e.recordId, e.index) }

  function PairOf(e: Record): (nat, nat) { (e.registryId, e.recordId) }

  // ---- what is asked of a genesis ----

  ghost predicate RegistryListed(env: Env, key: nat, reg: Registry) {
    && reg.id == key && key > 0 && Readable(env, reg.creator)
    && RegistryText(reg.name, reg.description, reg.metadata)
  }

  ghost predicate RegistriesListed(env: Env, g: Genesis) {
    forall key :: key in g.registries ==> RegistryListed(env, key, g.registries[key])
  }

  ghost predicate RecordListed(registries: set<nat>, e: Record) {
    RecordText(e) && e.registryId > 0 && e.recordId > 0 && e.index > 0 && e.registryId in registries
  }

  ghost predicate RecordsListed(registries: set<nat>, records: seq<Record>) {
    && (forall i :: 0 <= i < |records| ==> RecordListed(registries, records[i]))
    && (forall i, j :: 0 <= i < j < |records| ==> KeyOf(records[i]) != KeyOf(records[j]))
  }

  /** records[j] is the one marked version of p, and the highest. */
  ghost predicate LatestAt(records: seq<Record>, p: (nat, nat), j: nat) {
    && j < |records| && PairOf(records[j]) == p && records[j].isLatest
    && (forall i :: 0 <= i < |records| && PairOf(records[i]) == p ==>
          records[i].index <= records[j].index && (records[i].isLatest ==> i == j))
  }

  ghost predicate HasLatest(records: seq<Record>, p: (nat, nat)) {
    exists j: nat :: LatestAt(records, p, j)
  }

  ghost predicate MarksListed(records: seq<Record>) {
    forall i :: 0 <= i < |records| ==> HasLatest(records, PairOf(records[i]))
  }

  ghost predicate Importable(env: Env, g: Genesis) {
    && RegistriesListed(env, g) && RecordsListed(g.registries.Keys, g.records) && MarksListed(g.records)
    && (forall key :: key in g.roleMembers ==> |key| >= 32)
  }

  // ---- registries ----

  lemma RegistryAccepted(env: Env, key: nat, reg: Registry)
    ensures key == reg.id && ValidRegistry(env, reg) <==> RegistryListed(env, key, reg)
  {
  }

  /** What the registries' loop leaves. */
  ghost predicate RegistriesIn(g: Genesis, order: seq<nat>, st: State) {
    && st == EmptyState(g.params).(registries := st.registries, recordCounts := st.recordCounts,
                                   registryCount := st.registryCount)
    && (forall r :: r in st.registries <==> r in order)
    && (forall r :: r in st.registries ==> r in g.registries && st.registries[r] == g.registries[r])
    && (forall r :: r in st.recordCounts <==> r in order)
    && (forall r :: r in st.recordCounts ==> st.recordCounts[r] == 0)
    && (forall r :: r in order ==> r <= st.registryCount)
    && (st.registryCount == 0 || st.registryCount in order)
  }

  lemma RegistriesInNext(g: Genesis, order: seq<nat>, n: nat, st: State, reg: Registry)
    requires n < |order| && RegistriesIn(g, order[..n], st) && order[n] in g.registries
    requires reg == g.registries[order[n]] && reg.id == order[n]
    ensures RegistriesIn(g, order[..n + 1],
                         st.(registries := st.registries[reg.id := reg], recordCounts := st.recordCounts[reg.id := 0],
                             registryCount := if reg.id > st.registryCount then reg.id else st.registryCount))
  {
    assert order[..n + 1] == order[..n] + [order[n]];
  }

  ghost predicate AllListed(env: Env, g: Genesis, order: seq<nat>) {
    forall i :: 0 <= i < |order| ==> order[i] in g.registries && RegistryListed(env, order[i], g.registries[order[i]])
  }

  lemma AllListedNext(env: Env, g: Genesis, order: seq<nat>, n: nat)
    requires n < |order| && order[n] in g.registries
    ensures AllListed(env, g, order[..n + 1]) <==>
      AllListed(env, g, order[..n]) && RegistryListed(env, order[n], g.registries[order[n]])
  {
    var some, more := order[..n], order[..n + 1];
    assert more[n] == order[n] && forall i :: 0 <= i < n ==> more[i] == some[i];
  }

  /** The loop so far: it went through exactly when the registries up to here are listed, and left them in. */
  ghost predicate RegistriesThrough(env: Env, g: Genesis, order: seq<nat>, o: Result<State>) {
    (o.Ok? <==> AllListed(env, g, order)) && (o.Ok? ==> RegistriesIn(g, order, o.value))
  }

  /** One registry more, after what the loop has made so far. */
  function RegistryOn(env: Env, o: Result<State>, key: nat, reg: Registry): Result<State> {
    match o
    case Err(e) => Err(e)
    case Ok(st) =>
      if key != reg.id || !ValidRegistry(env, reg) then Err(InvalidGenesis) else
      Ok(st.(registries := st.registries[reg.id := reg], recordCounts := st.recordCounts[reg.id := 0],
             registryCount := if reg.id > st.registryCount then reg.id else st.registryCount))
  }

  lemma RegistriesMore(env: Env, g: Genesis, order: seq<nat>, n: nat)
    requires n < |order| && forall i :: 0 <= i < |order| ==> order[i] in g.registries
    ensures ImportRegistries(env, g, order[..n + 1])
         == RegistryOn(env, ImportRegistries(env, g, order[..n]), order[n], g.registries[order[n]])
  {
    assert order[..n + 1][..n] == order[..n] && order[..n + 1][n] == order[n];
  }

  lemma RegistriesThroughNext(env: Env, g: Genesis, order: seq<nat>, n: nat, o: Result<State>, next: Result<State>)
    requires n < |order| && order[n] in g.registries && RegistriesThrough(env, g, order[..n], o)
    requires next == RegistryOn(env, o, order[n], g.registries[order[n]])
    ensures RegistriesThrough(env, g, order[..n + 1], next)
  {
    AllListedNext(env, g, order, n);
    var reg := g.registries[order[n]];
    RegistryAccepted(env, order[n], reg);
    if next.Ok? { RegistriesInNext(g, order, n, o.value, reg); }
  }

  lemma {:induction false} RegistriesAccepted(env: Env, g: Genesis, order: seq<nat>, n: nat)
    requires n <= |order| && forall i :: 0 <= i < |order| ==> order[i] in g.registries
    ensures RegistriesThrough(env, g, order[..n], ImportRegistries(env, g, order[..n]))
    decreases n
  {
    if n > 0 {
      RegistriesAccepted(env, g, order, n - 1);
      RegistriesMore(env, g, order, n - 1);
      RegistriesThroughNext(env, g, order, n - 1, ImportRegistries(env, g, order[..n - 1]),
                            ImportRegistries(env, g, order[..n]));
    }
  }

  // ---- the records' loop ----

  lemma RecordAccepted(e: Record)
    ensures ValidRecord(e) <==> RecordText(e) && e.registryId > 0 && e.recordId > 0 && e.index > 0
  {
    RecordTextIsValid(e);
  }

  /** The highest index among p's versions, how many are marked, and the index of the last marked one. */
  function Highest(records: seq<Record>, p: (nat, nat)): nat {
    if records == [] then 0 else
      var n := |records| - 1;
      var before := Highest(records[..n], p);
      if PairOf(records[n]) == p && records[n].index > before then records[n].index else before
  }

  function Marks(records: seq<Record>, p: (nat, nat)): nat {
    if records == [] then 0 else
      var n := |records| - 1;
      Marks(records[..n], p) + if PairOf(records[n]) == p && records[n].isLatest then 1 else 0
  }

  function LastMark(records: seq<Record>, p: (nat, nat)): nat {
    if records == [] then 0 else
      var n := |records| - 1;
      if PairOf(records[n]) == p && records[n].isLatest then records[n].index else LastMark(records[..n], p)
  }

  ghost predicate Seen(records: seq<Record>, p: (nat, nat)) {
    exists i :: 0 <= i < |records| && PairOf(records[i]) == p
  }

  lemma SeenNext(records: seq<Record>, n: nat, p: (nat, nat))
    requires n < |records|
    ensures Seen(records[..n + 1], p) <==> Seen(records[..n], p) || PairOf(records[n]) == p
  {
    var some, more := records[..n], records[..n + 1];
    if Seen(some, p) {
      var i :| 0 <= i < |some| && PairOf(some[i]) == p;
      assert more[i] == some[i];
    }
    if PairOf(records[n]) == p { assert PairOf(more[n]) == p; }
    if Seen(more, p) {
      var i :| 0 <= i < |more| && PairOf(more[i]) == p;
      assert i < n ==> some[i] == more[i];
    }
  }

  /** Every version group tells its highest index, its marks and its last mark. */
  ghost predicate GroupsTell(records: seq<Record>, groups: Groups) {
    && (forall p :: p in groups <==> Seen(records, p))
    && (forall p :: p in groups ==> groups[p] == Group(Highest(records, p), LastMark(records, p), Marks(records, p)))
  }

  lemma {:induction false} Unseen(records: seq<Record>, p: (nat, nat))
    requires !Seen(records, p)
    ensures Highest(records, p) == 0 && Marks(records, p) == 0 && LastMark(records, p) == 0
    decreases |records|
  {
    if records != [] {
      var n := |records| - 1;
      assert records[..n + 1] == records;
      SeenNext(records, n, p);
      Unseen(records[..n], p);
    }
  }

  lemma GroupsNext(records: seq<Record>, n: nat, groups: Groups)
    requires n < |records| && GroupsTell(records[..n], groups)
    ensures GroupsTell(records[..n + 1], BumpGroup(groups, records[n]))
  {
    var e, some, more := records[n], records[..n], records[..n + 1];
    assert more[..n] == some && more[n] == e;
    var after := BumpGroup(groups, e);
    forall p ensures p in after <==> Seen(more, p) { SeenNext(records, n, p); }
    forall p | p in after ensures after[p] == Group(Highest(more, p), LastMark(more, p), Marks(more, p)) {
      if p !in groups { Unseen(some, p); }
    }
  }

  /** The records of the list, each under its key. */
  ghost predicate RecordsIn(records: seq<Record>, stored: map<Key, Record>) {
    && (forall i :: 0 <= i < |records| ==> KeyOf(records[i]) in stored && stored[KeyOf(records[i])] == records[i])
    && (forall k :: k in stored ==> exists i :: 0 <= i < |records| && KeyOf(records[i]) == k)
  }

  ghost predicate LatestIn(records: seq<Record>, latest: map<(nat, nat), nat>) {
    && (forall p :: p in latest <==> Seen(records, p))
    && (forall p :: p in latest ==> latest[p] == Highest(records, p))
  }

  /** Some record of registry r has this id. */
  ghost predicate HasId(records: seq<Record>, r: nat, id: nat) {
    exists i :: 0 <= i < |records| && records[i].registryId == r && records[i].recordId == id
  }

  /** Each registry's counter is its highest record id, zero without records. */
  ghost predicate CountsIn(registries: set<nat>, records: seq<Record>, counts: map<nat, nat>) {
    && (forall r :: r in counts <==> r in registries)
    && (forall i :: 0 <= i < |records| && records[i].registryId in counts ==>
          records[i].recordId <= counts[records[i].registryId])
    && (forall r :: r in counts ==> counts[r] == 0 || HasId(records, r, counts[r]))
  }

  /** The id of the last record of the list with this registry and checksum, if there is one. */
  function LastId(records: seq<Record>, r: nat, checksum: Str): Option<nat> {
    if records == [] then None else
      var n := |records| - 1;
      if records[n].registryId == r && records[n].checksum == checksum then Some(records[n].recordId)
      else LastId(records[..n], r, checksum)
  }

  ghost predicate IdsIn(records: seq<Record>, byReg: map<(nat, Str), nat>, bySum: map<(Str, nat), nat>) {
    && (forall r: nat, c: Str :: LastId(records, r, c) == if (r, c) in byReg then Some(byReg[(r, c)]) else None)
    && (forall r: nat, c: Str :: LastId(records, r, c) == if (c, r) in bySum then Some(bySum[(c, r)]) else None)
  }

  /** What the records' loop leaves after these records. */
  ghost predicate Loaded(st: State, records: seq<Record>, t: State, groups: Groups) {
    && t == st.(records := t.records, latest := t.latest, recordCounts := t.recordCounts,
                idByRegSum := t.idByRegSum, idBySumReg := t.idBySumReg)
    && RecordsIn(records, t.records) && LatestIn(records, t.latest)
    && CountsIn(st.registries.Keys, records, t.recordCounts)
    && IdsIn(records, t.idByRegSum, t.idBySumReg) && GroupsTell(records, groups)
  }

  /** The registries' loop's result, which the records' loop starts from. */
  ghost predicate Fresh(st: State) {
    && st.records == map[] && st.latest == map[] && st.idByRegSum == map[] && st.idBySumReg == map[]
    && (forall r :: r in st.recordCounts <==> r in st.registries)
    && (forall r :: r in st.recordCounts ==> st.recordCounts[r] == 0)
  }

  lemma NothingLoaded(st: State)
    requires Fresh(st)
    ensures Loaded(st, [], st, map[])
  {
  }

  lemma RecordsInNext(records: seq<Record>, n: nat, stored: map<Key, Record>)
    requires n < |records| && RecordsIn(records[..n], stored) && KeyOf(records[n]) !in stored
    ensures RecordsIn(records[..n + 1], stored[KeyOf(records[n]) := records[n]])
  {
    var some, more, after := records[..n], records[..n + 1], stored[KeyOf(records[n]) := records[n]];
    forall i | 0 <= i < |more| ensures KeyOf(more[i]) in after && after[KeyOf(more[i])] == more[i] {
      if i < n { assert some[i] == more[i]; }
    }
    forall k | k in after ensures exists i :: 0 <= i < |more| && KeyOf(more[i]) == k {
      if k == KeyOf(records[n]) {
        assert KeyOf(more[n]) == k;
      } else {
        var i :| 0 <= i < |some| && KeyOf(some[i]) == k;
        assert KeyOf(more[i]) == k;
      }
    }
  }

  lemma LatestInNext(records: seq<Record>, n: nat, latest: map<(nat, nat), nat>)
    requires n < |records| && LatestIn(records[..n], latest) && records[n].index > 0
    ensures LatestIn(records[..n + 1], BumpLatest(latest, records[n]))
  {
    var some, more, after := records[..n], records[..n + 1], BumpLatest(latest, records[n]);
    assert more[..n] == some && more[n] == records[n];
    forall p ensures p in after <==> Seen(more, p) { SeenNext(records, n, p); }
    forall p | p in after ensures after[p] == Highest(more, p) {
      if p !in latest { Unseen(some, p); }
    }
  }

  lemma HasIdNext(records: seq<Record>, n: nat, r: nat, id: nat)
    requires n < |records| && (HasId(records[..n], r, id) || (records[n].registryId == r && records[n].recordId == id))
    ensures HasId(records[..n + 1], r, id)
  {
    var some, more := records[..n], records[..n + 1];
    assert more[n] == records[n];
    if HasId(some, r, id) {
      var i :| 0 <= i < |some| && some[i].registryId == r && some[i].recordId == id;
      assert more[i] == some[i];
    }
  }

  lemma CountsInNext(registries: set<nat>, records: seq<Record>, n: nat, counts: map<nat, nat>)
    requires n < |records| && CountsIn(registries, records[..n], counts) && records[n].registryId in registries
    ensures records[n].registryId in counts
    ensures CountsIn(registries, records[..n + 1], BumpCount(counts, records[n]))
  {
    var some, more, after := records[..n], records[..n + 1], BumpCount(counts, records[n]);
    assert more[n] == records[n] && forall i :: 0 <= i < n ==> more[i] == some[i];
    forall r | r in after ensures after[r] == 0 || HasId(more, r, after[r]) {
      if after[r] != 0 { HasIdNext(records, n, r, after[r]); }
    }
  }

  lemma IdsInNext(records: seq<Record>, n: nat, byReg: map<(nat, Str), nat>, bySum: map<(Str, nat), nat>)
    requires n < |records| && IdsIn(records[..n], byReg, bySum)
    ensures var e := records[n];
      IdsIn(records[..n + 1], byReg[(e.registryId, e.checksum) := e.recordId],
            bySum[(e.checksum, e.registryId) := e.recordId])
  {
    assert records[..n + 1][..n] == records[..n] && records[..n + 1][n] == records[n];
  }

  /** One more record: accepted exactly when it is well formed, at home and new. */
  lemma LoadedNext(st: State, records: seq<Record>, n: nat, t: State, groups: Groups)
    requires n < |records| && Loaded(st, records[..n], t, groups)
    ensures var e, o := records[n], ImportRecord(t, groups, records[n]);
      && (o.Ok? <==> RecordListed(st.registries.Keys, e) && KeyOf(e) !in t.records)
      && (o.Ok? ==> Loaded(st, records[..n + 1], o.value.0, o.value.1))
  {
    var e := records[n];
    RecordAccepted(e);
    if RecordListed(st.registries.Keys, e) && KeyOf(e) !in t.records {
      RecordsInNext(records, n, t.records);
      LatestInNext(records, n, t.latest);
      CountsInNext(st.registries.Keys, records, n, t.recordCounts);
      IdsInNext(records, n, t.idByRegSum, t.idBySumReg);
      GroupsNext(records, n, groups);
    }
  }

  lemma KeysNext(registries: set<nat>, records: seq<Record>, n: nat, stored: map<Key, Record>)
    requires n < |records| && RecordsListed(registries, records[..n]) && RecordsIn(records[..n], stored)
    ensures RecordsListed(registries, records[..n + 1]) <==>
      RecordListed(registries, records[n]) && KeyOf(records[n]) !in stored
  {
    var some, more := records[..n], records[..n + 1];
    assert more[n] == records[n] && forall i :: 0 <= i < n ==> more[i] == some[i];
    if KeyOf(records[n]) in stored {
      var i :| 0 <= i < |some| && KeyOf(some[i]) == KeyOf(records[n]);
      assert KeyOf(more[i]) == KeyOf(more[n]);
    }
  }

  lemma ListedPrefix(registries: set<nat>, records: seq<Record>, n: nat)
    requires n <= |records| && RecordsListed(registries, records)
    ensures RecordsListed(registries, records[..n])
  {
  }

  /** The loop so far: it went through exactly when the records up to here are listed, and left them loaded. */
  ghost predicate Through(st: State, records: seq<Record>, o: Result<(State, Groups)>) {
    && (o.Ok? <==> RecordsListed(st.registries.Keys, records))
    && (o.Ok? ==> Loaded(st, records, o.value.0, o.value.1))
  }

  function RecordOn(o: Result<(State, Groups)>, e: Record): Result<(State, Groups)> {
    match o
    case Err(error) => Err(error)
    case Ok((t, groups)) => ImportRecord(t, groups, e)
  }

  lemma ThroughNext(st: State, records: seq<Record>, n: nat, o: Result<(State, Groups)>, next: Result<(State, Groups)>)
    requires n < |records| && Through(st, records[..n], o)
    requires next == RecordOn(o, records[n])
    ensures Through(st, records[..n + 1], next)
  {
    if o.Ok? {
      LoadedNext(st, records, n, o.value.0, o.value.1);
      KeysNext(st.registries.Keys, records, n, o.value.0.records);
    } else if RecordsListed(st.registries.Keys, records[..n + 1]) {
      assert records[..n + 1][..n] == records[..n];
      ListedPrefix(st.registries.Keys, records[..n + 1], n);
    }
  }

  lemma ImportMore(st: State, records: seq<Record>, n: nat)
    requires n < |records|
    ensures ImportRecords(st, records[..n + 1]) == RecordOn(ImportRecords(st, records[..n]), records[n])
  {
    assert records[..n + 1][..n] == records[..n] && records[..n + 1][n] == records[n];
  }

  lemma {:induction false} RecordsAccepted(st: State, records: seq<Record>, n: nat)
    requires Fresh(st) && n <= |records|
    ensures Through(st, records[..n], ImportRecords(st, records[..n]))
    decreases n
  {
    if n == 0 {
      NothingLoaded(st);
      assert records[..0] == [];
    } else {
      RecordsAccepted(st, records, n - 1);
      ImportMore(st, records, n - 1);
      ThroughNext(st, records, n - 1, ImportRecords(st, records[..n - 1]), ImportRecords(st, records[..n]));
    }
  }

  // ---- the marks ----

  lemma {:induction false} HighestIsMax(records: seq<Record>, p: (nat, nat))
    ensures forall i :: 0 <= i < |records| && PairOf(records[i]) == p ==> records[i].index <= Highest(records, p)
    decreases |records|
  {
    if records != [] {
      var n := |records| - 1;
      HighestIsMax(records[..n], p);
      forall i | 0 <= i < |records| && PairOf(records[i]) == p ensures records[i].index <= Highest(records, p) {
        assert i < n ==> records[..n][i] == records[i];
      }
    }
  }

  lemma {:induction false} HighestIsThere(records: seq<Record>, p: (nat, nat)) returns (i: nat)
    requires Highest(records, p) > 0
    ensures i < |records| && PairOf(records[i]) == p && records[i].index == Highest(records, p)
    decreases |records|
  {
    var n := |records| - 1;
    if PairOf(records[n]) == p && records[n].index > Highest(records[..n], p) {
      i := n;
    } else {
      i := HighestIsThere(records[..n], p);
    }
  }

  lemma {:induction false} NoMarks(records: seq<Record>, p: (nat, nat))
    ensures Marks(records, p) == 0 <==>
      forall i :: 0 <= i < |records| ==> !(PairOf(records[i]) == p && records[i].isLatest)
    decreases |records|
  {
    if records != [] {
      var n := |records| - 1;
      NoMarks(records[..n], p);
      assert forall i :: 0 <= i < n ==> records[..n][i] == records[i];
      if Marks(records, p) == 0 {
        forall i | 0 <= i < |records| ensures !(PairOf(records[i]) == p && records[i].isLatest) {
          assert i < n ==> records[..n][i] == records[i];
        }
      }
    }
  }

  /** Record j is p's one mark. */
  ghost predicate OnlyMark(records: seq<Record>, p: (nat, nat), j: nat) {
    && j < |records| && PairOf(records[j]) == p && records[j].isLatest
    && (forall i :: 0 <= i < |records| && PairOf(records[i]) == p && records[i].isLatest ==> i == j)
  }

  lemma {:induction false} OneMark(records: seq<Record>, p: (nat, nat)) returns (j: nat)
    requires Marks(records, p) == 1
    ensures OnlyMark(records, p, j) && LastMark(records, p) == records[j].index
    decreases |records|
  {
    var n := |records| - 1;
    if PairOf(records[n]) == p && records[n].isLatest {
      NoMarks(records[..n], p);
      j := n;
      assert forall i :: 0 <= i < n ==> records[..n][i] == records[i];
    } else {
      j := OneMark(records[..n], p);
      assert records[..n][j] == records[j];
      forall i | 0 <= i < |records| && PairOf(records[i]) == p && records[i].isLatest ensures i == j {
        assert i < n ==> records[..n][i] == records[i];
      }
    }
  }

  lemma {:induction false} MarkedOnce(records: seq<Record>, p: (nat, nat), j: nat)
    requires OnlyMark(records, p, j)
    ensures Marks(records, p) == 1 && LastMark(records, p) == records[j].index
    decreases |records|
  {
    var n := |records| - 1;
    assert forall i :: 0 <= i < n ==> records[..n][i] == records[i];
    if j == n {
      NoMarks(records[..n], p);
    } else {
      assert !(PairOf(records[n]) == p && records[n].isLatest);
      MarkedOnce(records[..n], p, j);
    }
  }

  /** A group passes exactly when one version is marked, and it is the highest. */
  lemma GroupPasses(records: seq<Record>, p: (nat, nat))
    requires forall i :: 0 <= i < |records| ==> records[i].index > 0
    requires Seen(records, p)
    ensures GroupOk(Group(Highest(records, p), LastMark(records, p), Marks(records, p))) <==>
      HasLatest(records, p)
  {
    HighestIsMax(records, p);
    if Marks(records, p) == 1 && LastMark(records, p) == Highest(records, p) {
      var j := OneMark(records, p);
      assert LatestAt(records, p, j);
    }
    if j: nat :| LatestAt(records, p, j) {
      MarkedOnce(records, p, j);
      var i := HighestIsThere(records, p);
      assert records[i].index <= records[j].index;
    }
  }

  lemma GroupsAccepted(records: seq<Record>, groups: Groups)
    requires GroupsTell(records, groups) && forall i :: 0 <= i < |records| ==> records[i].index > 0
    ensures GroupsOk(groups) <==> MarksListed(records)
  {
    if GroupsOk(groups) {
      forall i | 0 <= i < |records| ensures HasLatest(records, PairOf(records[i])) {
        var p := PairOf(records[i]);
        assert Seen(records, p) && p in groups && GroupOk(groups[p]);
        GroupPasses(records, p);
      }
    }
    if MarksListed(records) {
      forall p | p in groups ensures GroupOk(groups[p]) {
        var i :| 0 <= i < |records| && PairOf(records[i]) == p;
        GroupPasses(records, p);
      }
    }
  }

  // ---- roles ----

  /** Every admin entry is some exported one, under the role its key names. */
  ghost predicate AdminsIn(admins: map<Str, Str>, order: seq<Str>, stored: map<Role, Str>) {
    && (forall i :: 0 <= i < |order| ==> ToHash(order[i]) in stored)
    && (forall role :: role in stored ==>
          exists key :: key in order && key in admins && ToHash(key) == role && stored[role] == admins[key])
  }

  lemma AdminsInNext(admins: map<Str, Str>, order: seq<Str>, n: nat, before: map<Role, Str>, t: map<Role, Str>)
    requires n == |order| - 1 && order[n] in admins && AdminsIn(admins, order[..n], before)
    requires t == before[ToHash(order[n]) := admins[order[n]]]
    ensures AdminsIn(admins, order, t)
  {
    forall i | 0 <= i < |order| ensures ToHash(order[i]) in t {
      assert i < n ==> order[..n][i] == order[i];
    }
    forall role | role in t
      ensures exists key :: key in order && key in admins && ToHash(key) == role && t[role] == admins[key]
    {
      if role == ToHash(order[n]) {
        assert order[n] in order;
      } else {
        var key :| key in order[..n] && key in admins && ToHash(key) == role && before[role] == admins[key];
        assert key in order;
      }
    }
  }

  lemma {:induction false} AdminsAccepted(st: State, admins: map<Str, Str>, order: seq<Str>)
    requires st.roleAdmins == map[] && forall i :: 0 <= i < |order| ==> order[i] in admins
    ensures var t := ImportAdmins(st, admins, order);
      t == st.(roleAdmins := t.roleAdmins) && AdminsIn(admins, order, t.roleAdmins)
    decreases |order|
  {
    if order != [] {
      var n := |order| - 1;
      AdminsAccepted(st, admins, order[..n]);
      AdminsInNext(admins, order, n, ImportAdmins(st, admins, order[..n]).roleAdmins,
                   ImportAdmins(st, admins, order).roleAdmins);
    }
  }

  /** The first 32 bytes of a key are the role, the rest the account. */
  function Cut(key: Str): (Role, Addr)
    requires |key| >= 32
  {
    var role: Role := key[..32];
    (role, key[32..])
  }

  ghost predicate MembersIn(members: map<Str, Str>, order: seq<Str>, stored: map<(Role, Addr), Str>) {
    && (forall i :: 0 <= i < |order| ==>
          && |order[i]| >= 32 && order[i] in members && Cut(order[i]) in stored
          && stored[Cut(order[i])] == members[order[i]])
    && (forall m :: m in stored ==> m.0 + m.1 in order)
  }

  ghost predicate LongKeys(order: seq<Str>) {
    forall i :: 0 <= i < |order| ==> |order[i]| >= 32
  }

  lemma LongKeysNext(order: seq<Str>, n: nat)
    requires n == |order| - 1
    ensures LongKeys(order) <==> LongKeys(order[..n]) && |order[n]| >= 32
  {
    assert forall i :: 0 <= i < n ==> order[..n][i] == order[i];
  }

  /** What importing members in this order gives. */
  ghost predicate MembersThrough(st: State, members: map<Str, Str>, order: seq<Str>, o: Result<State>) {
    && (o.Ok? <==> LongKeys(order))
    && (o.Ok? ==> o.value == st.(roleMembers := o.value.roleMembers) && MembersIn(members, order, o.value.roleMembers))
  }

  function MemberOn(o: Result<State>, key: Str, value: Str): Result<State> {
    match o
    case Err(e) => Err(e)
    case Ok(t) =>
      match DecodeMember(key)
      case None => Err(InvalidGenesis)
      case Some(m) => Ok(t.(roleMembers := t.roleMembers[m := value]))
  }

  lemma MembersThroughNext(st: State, members: map<Str, Str>, order: seq<Str>, key: Str, o: Result<State>,
                           next: Result<State>)
    requires order != [] && NoDup(order) && key == order[|order| - 1] && key in members
    requires MembersThrough(st, members, order[..|order| - 1], o)
    requires next == MemberOn(o, key, members[key])
    ensures MembersThrough(st, members, order, next)
  {
    LongKeysNext(order, |order| - 1);
    if next.Ok? { MembersInNext(members, order, o.value.roleMembers); }
  }

  lemma {:induction false} MembersAccepted(st: State, members: map<Str, Str>, order: seq<Str>)
    requires st.roleMembers == map[] && NoDup(order) && forall i :: 0 <= i < |order| ==> order[i] in members
    ensures MembersThrough(st, members, order, ImportMembers(st, members, order))
    decreases |order|
  {
    if order != [] {
      var n := |order| - 1;
      MembersAccepted(st, members, order[..n]);
      MembersThroughNext(st, members, order, order[n], ImportMembers(st, members, order[..n]),
                         ImportMembers(st, members, order));
    }
  }

  lemma MembersInNext(members: map<Str, Str>, order: seq<Str>, stored: map<(Role, Addr), Str>)
    requires order != [] && NoDup(order) && order[|order| - 1] in members && |order[|order| - 1]| >= 32
    requires MembersIn(members, order[..|order| - 1], stored)
    ensures var key := order[|order| - 1];
      ToHash(key[..32]) == key[..32] && MembersIn(members, order, stored[Cut(key) := members[key]])
  {
    var n := |order| - 1;
    var key := order[n];
    var m, t := Cut(key), stored[Cut(key) := members[key]];
    HashOfHash(key[..32]);
    forall i | 0 <= i < |order|
      ensures && |order[i]| >= 32 && order[i] in members && Cut(order[i]) in t
              && t[Cut(order[i])] == members[order[i]]
    {
      if i < n {
        assert order[..n][i] == order[i] && order[i] != key;
        assert order[i] == order[i][..32] + order[i][32..] && key == key[..32] + key[32..];
      }
    }
    forall x | x in t ensures x.0 + x.1 in order {
      if x == m {
        assert x.0 + x.1 == key && key in order;
      } else {
        assert x.0 + x.1 in order[..n];
      }
    }
  }

  // ---- the whole import ----

  /** Everything the import of g leaves, whatever order its maps are visited in. */
  ghost predicate Imported(g: Genesis, t: State) {
    && t.params == g.params && t.registries == g.registries
    && (forall r :: r in g.registries ==> r <= t.registryCount)
    && (t.registryCount == 0 || t.registryCount in g.registries)
    && RecordsIn(g.records, t.records) && LatestIn(g.records, t.latest)
    && CountsIn(g.registries.Keys, g.records, t.recordCounts) && IdsIn(g.records, t.idByRegSum, t.idBySumReg)
    && (forall key :: key in g.roleAdmins ==> ToHash(key) in t.roleAdmins)
    && (forall role :: role in t.roleAdmins ==>
          exists key :: key in g.roleAdmins && ToHash(key) == role && t.roleAdmins[role] == g.roleAdmins[key])
    && (forall key :: key in g.roleMembers ==>
          && |key| >= 32 && Cut(key) in t.roleMembers
          && t.roleMembers[Cut(key)] == g.roleMembers[key])
    && (forall m :: m in t.roleMembers ==> m.0 + m.1 in g.roleMembers)
  }

  lemma FreshRegistries(env: Env, g: Genesis, order: seq<nat>)
    requires IsOrder(order, g.registries.Keys) && forall i :: 0 <= i < |order| ==> order[i] in g.registries
    ensures ImportRegistries(env, g, order).Ok? <==> RegistriesListed(env, g)
    ensures var o := ImportRegistries(env, g, order);
      o.Ok? ==> Fresh(o.value) && o.value.registries == g.registries && RegistriesIn(g, order, o.value)
  {
    assert order[..|order|] == order;
    RegistriesAccepted(env, g, order, |order|);
    if ImportRegistries(env, g, order).Ok? {
      forall key | key in g.registries ensures RegistryListed(env, key, g.registries[key]) {
        assert key in order;
      }
    }
  }

  lemma OrderMeets<V>(order: seq<Str>, m: map<Str, V>)
    requires IsOrder(order, m.Keys)
    ensures forall i :: 0 <= i < |order| ==> order[i] in m
  {
    forall i | 0 <= i < |order| ensures order[i] in m { assert order[i] in m.Keys; }
  }

  lemma RolesAccepted(g: Genesis, o: Orders, st: State)
    requires IsOrder(o.admins, g.roleAdmins.Keys) && IsOrder(o.members, g.roleMembers.Keys)
    requires st.roleAdmins == map[] && st.roleMembers == map[]
    ensures (forall i :: 0 <= i < |o.admins| ==> o.admins[i] in g.roleAdmins)
         && (forall i :: 0 <= i < |o.members| ==> o.members[i] in g.roleMembers)
    ensures var a := ImportAdmins(st, g.roleAdmins, o.admins);
      var r := ImportMembers(a, g.roleMembers, o.members);
      && (r.Ok? <==> forall key :: key in g.roleMembers ==> |key| >= 32)
      && (r.Ok? ==>
            && r.value == st.(roleAdmins := r.value.roleAdmins, roleMembers := r.value.roleMembers)
            && AdminsIn(g.roleAdmins, o.admins, r.value.roleAdmins)
            && MembersIn(g.roleMembers, o.members, r.value.roleMembers))
  {
    OrderMeets(o.admins, g.roleAdmins);
    OrderMeets(o.members, g.roleMembers);
    AdminsAccepted(st, g.roleAdmins, o.admins);
    MembersAccepted(ImportAdmins(st, g.roleAdmins, o.admins), g.roleMembers, o.members);
    if forall i :: 0 <= i < |o.members| ==> |o.members[i]| >= 32 {
      forall key | key in g.roleMembers ensures |key| >= 32 { assert key in o.members; }
    }
  }

  lemma ImportedAll(g: Genesis, o: Orders, st: State, t: State, groups: Groups, u: State)
    requires OrdersOf(o, g) && RegistriesIn(g, o.registries, st) && st.registries == g.registries
    requires Loaded(st, g.records, t, groups)
    requires u == t.(roleAdmins := u.roleAdmins, roleMembers := u.roleMembers)
    requires AdminsIn(g.roleAdmins, o.admins, u.roleAdmins) && MembersIn(g.roleMembers, o.members, u.roleMembers)
    ensures Imported(g, u)
  {
    forall key | key in g.roleAdmins ensures ToHash(key) in u.roleAdmins { assert key in o.admins; }
    forall key | key in g.roleMembers
      ensures && |key| >= 32 && Cut(key) in u.roleMembers
              && u.roleMembers[Cut(key)] == g.roleMembers[key]
    {
      assert key in o.members;
    }
  }

  /**
   A genesis is imported, in any order of its maps, exactly when its registries and records are well formed
   and at home, no record key comes twice, each record has one marked version, the highest, and member keys
   hold a role. The store then holds what the lists say.
   */
  lemma ImportAccepted(env: Env, g: Genesis, o: Orders)
    requires OrdersOf(o, g)
    ensures Import(env, g, o).Ok? <==> Importable(env, g)
    ensures Import(env, g, o).Ok? ==> Imported(g, Import(env, g, o).value)
  {
    forall i | 0 <= i < |o.registries| ensures o.registries[i] in g.registries {
      assert o.registries[i] in g.registries.Keys;
    }
    FreshRegistries(env, g, o.registries);
    var r := ImportRegistries(env, g, o.registries);
    if r.Ok? { RestAccepted(env, g, o, r.value); }
  }

  /** Once the records are in: the marks decide, and then the member keys. */
  lemma MarksAndRoles(g: Genesis, o: Orders, st: State, t: State, groups: Groups)
    requires OrdersOf(o, g) && RegistriesIn(g, o.registries, st) && st.registries == g.registries
    requires Loaded(st, g.records, t, groups) && RecordsListed(g.registries.Keys, g.records)
    ensures (forall i :: 0 <= i < |o.admins| ==> o.admins[i] in g.roleAdmins)
         && (forall i :: 0 <= i < |o.members| ==> o.members[i] in g.roleMembers)
    ensures GroupsOk(groups) <==> MarksListed(g.records)
    ensures var r := ImportMembers(ImportAdmins(t, g.roleAdmins, o.admins), g.roleMembers, o.members);
      && (r.Ok? <==> forall key :: key in g.roleMembers ==> |key| >= 32)
      && (r.Ok? ==> Imported(g, r.value))
  {
    GroupsAccepted(g.records, groups);
    RolesAccepted(g, o, t);
    var r := ImportMembers(ImportAdmins(t, g.roleAdmins, o.admins), g.roleMembers, o.members);
    if r.Ok? { ImportedAll(g, o, st, t, groups, r.value); }
  }

  /** From the registries on. */
  lemma RestAccepted(env: Env, g: Genesis, o: Orders, st: State)
    requires OrdersOf(o, g) && (forall i :: 0 <= i < |o.registries| ==> o.registries[i] in g.registries)
    requires ImportRegistries(env, g, o.registries) == Ok(st)
    requires Fresh(st) && st.registries == g.registries && RegistriesIn(g, o.registries, st)
    ensures Import(env, g, o).Ok? <==>
      && RecordsListed(g.registries.Keys, g.records) && MarksListed(g.records)
      && (forall key :: key in g.roleMembers ==> |key| >= 32)
    ensures Import(env, g, o).Ok? ==> Imported(g, Import(env, g, o).value)
  {
    assert g.records[..|g.records|] == g.records;
    RecordsAccepted(st, g.records, |g.records|);
    var s := ImportRecords(st, g.records);
    if s.Ok? { MarksAndRoles(g, o, st, s.value.0, s.value.1); }
  }
}
