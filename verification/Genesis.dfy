/**
 Genesis export and import. Import rebuilds every index from the records alone; the round trip
 gives the store back whatever order maps and records arrive in.
 */
module Genesis {
  import opened Bytes
  import opened Walks
  import opened Types
  import opened Messages
  import opened Bookkeeping

  datatype Genesis = Genesis(
    params: Params,
    registries: map<nat, Registry>,
    records: seq<Record>,
    roleAdmins: map<Str, Str>,
    roleMembers: map<Str, Str>)

  // ---- role keys ----

  /** RoleCodec: a role is its 32 bytes, in the middle of a key as at its end. */
  function EncodeRole(role: Role): Str { role }

  function DecodeRole(b: Str): Role { ToHash(b) }

  function EncodeMember(m: (Role, Addr)): Str { m.0 + m.1 }

  /** The role takes the first 32 bytes, the account the rest. */
  function DecodeMember(b: Str): Option<(Role, Addr)> {
    if |b| < 32 then None else Some((ToHash(b[..32]), b[32..]))
  }

  lemma MemberKeyRoundTrip(m: (Role, Addr))
    ensures DecodeMember(EncodeMember(m)) == Some(m) && DecodeRole(EncodeRole(m.0)) == m.0
    ensures EncodeMember(m)[..32] == m.0 && EncodeMember(m)[32..] == m.1
  {
    assert EncodeMember(m)[..32] == m.0 && EncodeMember(m)[32..] == m.1;
  }

  lemma MemberKeysDistinct()
    ensures forall m: (Role, Addr), n: (Role, Addr) :: EncodeMember(m) == EncodeMember(n) ==> m == n
  {
    forall m: (Role, Addr), n: (Role, Addr) | EncodeMember(m) == EncodeMember(n) ensures m == n {
      MemberKeyRoundTrip(m);
      MemberKeyRoundTrip(n);
    }
  }

  // ---- export ----

  function ExportRecords(s: State, ks: seq<(nat, nat, nat)>): seq<Record>
    requires forall i :: 0 <= i < |ks| ==> ks[i] in s.records
  {
    seq(|ks|, i requires 0 <= i < |ks| => s.records[ks[i]])
  }

  lemma WalkedRecords(s: State)
    ensures forall i :: 0 <= i < |WalkTriples(s.records.Keys)| ==> WalkTriples(s.records.Keys)[i] in s.records
  {
    var ks := WalkTriples(s.records.Keys);
    WalkTriplesExact(s.records.Keys);
    forall i | 0 <= i < |ks| ensures ks[i] in s.records {
      assert ks[i] in s.records.Keys;
    }
  }

  function ExportAdmins(admins: map<Role, Str>): map<Str, Str> {
    map role | role in admins :: EncodeRole(role) := admins[role]
  }

  function ExportMembers(members: map<(Role, Addr), Str>): map<Str, Str> {
    MemberKeysDistinct();
    map m | m in members :: EncodeMember(m) := members[m]
  }

  function Export(s: State): Genesis {
    WalkedRecords(s);
    Genesis(s.params, s.registries, ExportRecords(s, WalkTriples(s.records.Keys)),
            ExportAdmins(s.roleAdmins), ExportMembers(s.roleMembers))
  }

  // ---- import ----

  /** RecordVersionGroup. */
  datatype Group = Group(maxIndex: nat, latestIndex: nat, latestCount: nat)

  function AddToGroup(g: Group, e: Record): Group {
    var g1 := if e.index > g.maxIndex then g.(maxIndex := e.index) else g;
    if e.isLatest then g1.(latestIndex := e.index, latestCount := g1.latestCount + 1) else g1
  }

  /** ValidateIsLatest: one version is marked, and it is the highest. */
  predicate GroupOk(g: Group) {
    g.latestCount == 1 && g.latestIndex == g.maxIndex
  }

  type Groups = map<(nat, nat), Group>

  /** The registries in `order`, with the highest id as count. */
  function ImportRegistries(env: Env, g: Genesis, order: seq<nat>): Result<State>
    requires forall i :: 0 <= i < |order| ==> order[i] in g.registries
  {
    if order == [] then Ok(EmptyState(g.params)) else
    var key := order[|order| - 1];
    match ImportRegistries(env, g, order[..|order| - 1])
    case Err(e) => Err(e)
    case Ok(st) =>
      var reg := g.registries[key];
      if key != reg.id || !ValidRegistry(env, reg) then Err(InvalidGenesis) else
      Ok(st.(registries := st.registries[reg.id := reg],
             recordCounts := st.recordCounts[reg.id := 0],
             registryCount := if reg.id > st.registryCount then reg.id else st.registryCount))
  }

  function BumpLatest(latest: Latest, e: Record): Latest {
    var p := (e.registryId, e.recordId);
    if p !in latest || e.index > latest[p] then latest[p := e.index] else latest
  }

  function BumpCount(counts: Counts, e: Record): Counts
    requires e.registryId in counts
  {
    if e.recordId > counts[e.registryId] then counts[e.registryId := e.recordId] else counts
  }

  function BumpGroup(groups: Groups, e: Record): Groups {
    var p := (e.registryId, e.recordId);
    groups[p := AddToGroup(if p in groups then groups[p] else Group(0, 0, 0), e)]
  }

  function ImportRecord(st: State, groups: Groups, e: Record): Result<(State, Groups)> {
    if !ValidRecord(e) then Err(InvalidRequest) else
    if e.registryId !in st.registries then Err(NotFound) else
    var key := (e.registryId, e.recordId, e.index);
    if key in st.records then Err(DuplicateRecordKey) else
    if e.registryId !in st.recordCounts then Err(NotFound) else
    Ok((st.(latest := BumpLatest(st.latest, e),
            records := st.records[key := e],
            idByRegSum := st.idByRegSum[(e.registryId, e.checksum) := e.recordId],
            idBySumReg := st.idBySumReg[(e.checksum, e.registryId) := e.recordId],
            recordCounts := BumpCount(st.recordCounts, e)),
        BumpGroup(groups, e)))
  }

  function ImportRecords(st: State, records: seq<Record>): Result<(State, Groups)> {
    if records == [] then Ok((st, map[])) else
    match ImportRecords(st, records[..|records| - 1])
    case Err(e) => Err(e)
    case Ok((st1, groups)) => ImportRecord(st1, groups, records[|records| - 1])
  }

  predicate GroupsOk(groups: Groups) {
    forall p :: p in groups ==> GroupOk(groups[p])
  }

  function ImportAdmins(st: State, admins: map<Str, Str>, order: seq<Str>): State
    requires forall i :: 0 <= i < |order| ==> order[i] in admins
  {
    if order == [] then st else
      var key := order[|order| - 1];
      var st1 := ImportAdmins(st, admins, order[..|order| - 1]);
      st1.(roleAdmins := st1.roleAdmins[DecodeRole(key) := admins[key]])
  }

  function ImportMembers(st: State, members: map<Str, Str>, order: seq<Str>): Result<State>
    requires forall i :: 0 <= i < |order| ==> order[i] in members
  {
    if order == [] then Ok(st) else
    var key := order[|order| - 1];
    match ImportMembers(st, members, order[..|order| - 1])
    case Err(e) => Err(e)
    case Ok(st1) =>
      match DecodeMember(key)
      case None => Err(InvalidGenesis)
      case Some(m) => Ok(st1.(roleMembers := st1.roleMembers[m := members[key]]))
  }

  /** The orders in which the three maps of a genesis are visited. */
  datatype Orders = Orders(registries: seq<nat>, admins: seq<Str>, members: seq<Str>)

  ghost predicate IsOrder<K(!new)>(order: seq<K>, keys: set<K>) {
    NoDup(order) && forall k :: k in order <==> k in keys
  }

  ghost predicate OrdersOf(o: Orders, g: Genesis) {
    && IsOrder(o.registries, g.registries.Keys)
    && IsOrder(o.admins, g.roleAdmins.Keys)
    && IsOrder(o.members, g.roleMembers.Keys)
  }

  /** InitGenesis on an empty store. */
  function Import(env: Env, g: Genesis, o: Orders): Result<State>
    requires OrdersOf(o, g)
  {
    match ImportRegistries(env, g, o.registries)
    case Err(e) => Err(e)
    case Ok(st) =>
      match ImportRecords(st, g.records)
      case Err(e) => Err(e)
      case Ok((st1, groups)) =>
        if !GroupsOk(groups) then Err(InvalidGenesis) else
        ImportMembers(ImportAdmins(st1, g.roleAdmins, o.admins), g.roleMembers, o.members)
  }
}
