/** InitGenesis and ExportGenesis as the keeper's loops over its collections. */
module GenesisKeeper {
  import opened Bytes
  import opened Walks
  import opened Types
  import opened Genesis
  import opened Keepers

  /** The registries' loop; the count is stored after it. */
  method InitRegistries(k: Keeper, g: Genesis, order: seq<nat>) returns (ok: bool)
    requires k.View() == EmptyState(g.params) && (forall i :: 0 <= i < |order| ==> order[i] in g.registries)
    modifies k
    ensures ok <==> ImportRegistries(k.env, g, order).Ok?
    ensures ok ==> k.View() == ImportRegistries(k.env, g, order).value
  {
    var registryCount := 0;
    for i := 0 to |order|
      invariant ImportRegistries(k.env, g, order[..i]).Ok?
      invariant registryCount == ImportRegistries(k.env, g, order[..i]).value.registryCount
      invariant k.View() == ImportRegistries(k.env, g, order[..i]).value.(registryCount := 0)
    {
      assert order[..i + 1][..i] == order[..i];
      var mapKey := order[i];
      var registry := g.registries[mapKey];
      if mapKey != registry.id || !ValidRegistry(k.env, registry) {
        RegistriesStuck(k.env, g, order, i + 1);
        return false;
      }
      k.registries := k.registries[registry.id := registry];
      k.recordCounts := k.recordCounts[registry.id := 0];
      if registry.id > registryCount {
        registryCount := registry.id;
      }
    }
    assert order[..|order|] == order;
    k.registryCount := registryCount;
    return true;
  }

  /** A failed prefix fails the whole list. */
  lemma {:induction false} RegistriesStuck(env: Env, g: Genesis, order: seq<nat>, n: nat)
    requires n <= |order| && (forall i :: 0 <= i < |order| ==> order[i] in g.registries)
    requires ImportRegistries(env, g, order[..n]).Err?
    ensures ImportRegistries(env, g, order).Err?
    decreases |order| - n
  {
    if n == |order| {
      assert order[..n] == order;
    } else {
      assert order[..n + 1][..n] == order[..n];
      RegistriesStuck(env, g, order, n + 1);
    }
  }

  /** The record, its latest index and both checksum entries. */
  method StoreRecord(k: Keeper, e: Record)
    modifies k
    ensures k.View() == old(k.View()).(
              latest := BumpLatest(old(k.latest), e),
              records := old(k.records)[(e.registryId, e.recordId, e.index) := e],
              idByRegSum := old(k.idByRegSum)[(e.registryId, e.checksum) := e.recordId],
              idBySumReg := old(k.idBySumReg)[(e.checksum, e.registryId) := e.recordId])
  {
    var pair := (e.registryId, e.recordId);
    if pair !in k.latest || e.index > k.latest[pair] {
      k.latest := k.latest[pair := e.index];
    }
    k.records := k.records[(e.registryId, e.recordId, e.index) := e];
    k.idByRegSum := k.idByRegSum[(e.registryId, e.checksum) := e.recordId];
    k.idBySumReg := k.idBySumReg[(e.checksum, e.registryId) := e.recordId];
  }

  method InitRecord(k: Keeper, e: Record, groups: Groups) returns (o: Result<Groups>)
    modifies k
    ensures var spec := ImportRecord(old(k.View()), groups, e);
            && (o.Ok? <==> spec.Ok?)
            && (spec.Ok? ==> k.View() == spec.value.0 && o.value == spec.value.1)
  {
    if !ValidRecord(e) {
      return Err(InvalidRequest);
    }
    var r := e.registryId;
    if r !in k.registries {
      return Err(NotFound);
    }
    if (r, e.recordId, e.index) in k.records {
      return Err(DuplicateRecordKey);
    }
    StoreRecord(k, e);
    if r !in k.recordCounts {
      return Err(NotFound);
    }
    if e.recordId > k.recordCounts[r] {
      k.recordCounts := k.recordCounts[r := e.recordId];
    }
    var pair := (r, e.recordId);
    var group := AddVersion(if pair in groups then groups[pair] else Group(0, 0, 0), e);
    return Ok(groups[pair := group]);
  }

  /** RecordVersionGroup.Add. */
  method AddVersion(group: Group, e: Record) returns (g: Group)
    ensures g == AddToGroup(group, e)
  {
    g := group;
    if e.index > g.maxIndex {
      g := g.(maxIndex := e.index);
    }
    if e.isLatest {
      g := g.(latestIndex := e.index, latestCount := g.latestCount + 1);
    }
  }

  lemma {:induction false} RecordsStuck(st: State, records: seq<Record>, n: nat)
    requires n <= |records| && ImportRecords(st, records[..n]).Err?
    ensures ImportRecords(st, records).Err?
    decreases |records| - n
  {
    if n == |records| {
      assert records[..n] == records;
    } else {
      assert records[..n + 1][..n] == records[..n];
      RecordsStuck(st, records, n + 1);
    }
  }

  method InitRecords(k: Keeper, records: seq<Record>) returns (o: Result<Groups>)
    modifies k
    ensures var spec := ImportRecords(old(k.View()), records);
            && (o.Ok? <==> spec.Ok?)
            && (spec.Ok? ==> k.View() == spec.value.0 && o.value == spec.value.1)
  {
    ghost var st := k.View();
    var groups: Groups := map[];
    for i := 0 to |records|
      invariant ImportRecords(st, records[..i]) == Ok((k.View(), groups))
    {
      assert records[..i + 1][..i] == records[..i];
      var next := InitRecord(k, records[i], groups);
      if next.Err? {
        RecordsStuck(st, records, i + 1);
        return next;
      }
      groups := next.value;
    }
    assert records[..|records|] == records;
    return Ok(groups);
  }

  /** The groups are visited in any order. */
  method CheckGroups(groups: Groups) returns (ok: bool)
    ensures ok <==> GroupsOk(groups)
  {
    var left := groups.Keys;
    while left != {}
      invariant left <= groups.Keys
      invariant forall p :: p in groups.Keys - left ==> GroupOk(groups[p])
      decreases |left|
    {
      var p :| p in left;
      if !GroupOk(groups[p]) {
        return false;
      }
      left := left - {p};
    }
    return true;
  }

  method InitRoles(k: Keeper, g: Genesis, admins: seq<Str>, members: seq<Str>) returns (ok: bool)
    requires forall i :: 0 <= i < |admins| ==> admins[i] in g.roleAdmins
    requires forall i :: 0 <= i < |members| ==> members[i] in g.roleMembers
    modifies k
    ensures var spec := ImportMembers(ImportAdmins(old(k.View()), g.roleAdmins, admins), g.roleMembers, members);
            (ok <==> spec.Ok?) && (ok ==> k.View() == spec.value)
  {
    ghost var st := k.View();
    for i := 0 to |admins|
      invariant k.View() == ImportAdmins(st, g.roleAdmins, admins[..i])
    {
      assert admins[..i + 1][..i] == admins[..i];
      k.roleAdmins := k.roleAdmins[DecodeRole(admins[i]) := g.roleAdmins[admins[i]]];
    }
    assert admins[..|admins|] == admins;
    ghost var st1 := k.View();
    for i := 0 to |members|
      invariant ImportMembers(st1, g.roleMembers, members[..i]) == Ok(k.View())
    {
      assert members[..i + 1][..i] == members[..i];
      match DecodeMember(members[i]) {
        case None =>
          MembersStuck(st1, g.roleMembers, members, i + 1);
          return false;
        case Some(m) =>
          k.roleMembers := k.roleMembers[m := g.roleMembers[members[i]]];
      }
    }
    assert members[..|members|] == members;
    return true;
  }

  lemma {:induction false} MembersStuck(st: State, members: map<Str, Str>, order: seq<Str>, n: nat)
    requires n <= |order| && (forall i :: 0 <= i < |order| ==> order[i] in members)
    requires ImportMembers(st, members, order[..n]).Err?
    ensures ImportMembers(st, members, order).Err?
    decreases |order| - n
  {
    if n == |order| {
      assert order[..n] == order;
    } else {
      assert order[..n + 1][..n] == order[..n];
      MembersStuck(st, members, order, n + 1);
    }
  }

  method InitGenesis(k: Keeper, g: Genesis, o: Orders) returns (ok: bool)
    requires k.View() == EmptyState(k.params) && OrdersOf(o, g)
    modifies k
    ensures ok <==> Import(k.env, g, o).Ok?
    ensures ok ==> k.View() == Import(k.env, g, o).value
  {
    k.params := g.params;
    assert forall i :: 0 <= i < |o.registries| ==> o.registries[i] in g.registries.Keys;
    assert forall i :: 0 <= i < |o.admins| ==> o.admins[i] in g.roleAdmins.Keys;
    assert forall i :: 0 <= i < |o.members| ==> o.members[i] in g.roleMembers.Keys;
    ok := InitRegistries(k, g, o.registries);
    if !ok {
      return;
    }
    var groups := InitRecords(k, g.records);
    if groups.Err? {
      return false;
    }
    ok := CheckGroups(groups.value);
    if !ok {
      return;
    }
    ok := InitRoles(k, g, o.admins, o.members);
  }

  method WalkRegistries(k: Keeper) returns (out: map<nat, Registry>)
    ensures out == k.registries
  {
    var ids := WalkIds(k.registries.Keys);
    WalkIdsExact(k.registries.Keys);
    out := map[];
    for i := 0 to |ids|
      invariant forall r :: r in out <==> r in ids[..i]
      invariant forall r :: r in out ==> r in k.registries && out[r] == k.registries[r]
    {
      assert ids[i] in k.registries.Keys;
      out := out[ids[i] := k.registries[ids[i]]];
    }
    assert ids[..|ids|] == ids;
    assert out.Keys == k.registries.Keys;
  }

  method WalkRecords(k: Keeper, ks: seq<(nat, nat, nat)>) returns (out: seq<Record>)
    requires forall i :: 0 <= i < |ks| ==> ks[i] in k.records
    ensures out == ExportRecords(k.View(), ks)
  {
    out := [];
    for i := 0 to |ks|
      invariant out == ExportRecords(k.View(), ks)[..i]
    {
      out := out + [k.records[ks[i]]];
    }
  }

  method WalkAdmins(k: Keeper) returns (out: map<Str, Str>)
    ensures out == ExportAdmins(k.roleAdmins)
  {
    var roles := WalkHashes(k.roleAdmins.Keys);
    WalkHashesExact(k.roleAdmins.Keys);
    out := map[];
    for i := 0 to |roles|
      invariant forall b :: b in out <==> b in roles[..i]
      invariant forall b :: b in out ==> b in k.roleAdmins && out[b] == k.roleAdmins[b]
    {
      assert roles[i] in k.roleAdmins.Keys;
      out := out[EncodeRole(roles[i]) := k.roleAdmins[roles[i]]];
    }
    assert roles[..|roles|] == roles;
  }

  lemma MemberKeyParts(m: (Role, Addr))
    ensures |EncodeMember(m)| >= 32 && (EncodeMember(m)[..32], EncodeMember(m)[32..]) == m
  {
    MemberKeyRoundTrip(m);
  }

  method WalkMemberKeys(k: Keeper, ks: seq<(Role, Addr)>) returns (out: map<Str, Str>)
    requires NoDup(ks) && (forall i :: 0 <= i < |ks| ==> ks[i] in k.roleMembers)
    ensures forall i :: 0 <= i < |ks| ==> EncodeMember(ks[i]) in out && out[EncodeMember(ks[i])] == k.roleMembers[ks[i]]
    ensures forall b :: b in out ==> |b| >= 32 && (b[..32], b[32..]) in k.roleMembers
  {
    out := map[];
    for i := 0 to |ks|
      invariant forall j :: 0 <= j < i ==>
        EncodeMember(ks[j]) in out && out[EncodeMember(ks[j])] == k.roleMembers[ks[j]]
      invariant forall b :: b in out ==> |b| >= 32 && (b[..32], b[32..]) in k.roleMembers
    {
      MemberKeyParts(ks[i]);
      forall j | 0 <= j < i ensures EncodeMember(ks[j]) != EncodeMember(ks[i]) {
        MemberKeyParts(ks[j]);
      }
      out := out[EncodeMember(ks[i]) := k.roleMembers[ks[i]]];
    }
  }

  lemma MembersMap(members: map<(Role, Addr), Str>, ks: seq<(Role, Addr)>, out: map<Str, Str>)
    requires forall m :: m in members ==> m in ks
    requires forall i :: 0 <= i < |ks| ==>
      ks[i] in members && EncodeMember(ks[i]) in out && out[EncodeMember(ks[i])] == members[ks[i]]
    requires forall b :: b in out ==> |b| >= 32 && (b[..32], b[32..]) in members
    ensures out == ExportMembers(members)
  {
    var want := ExportMembers(members);
    forall b | b in want ensures b in out {
      var m :| m in members && EncodeMember(m) == b;
      assert m in ks;
    }
    forall b | b in out ensures b in want && out[b] == want[b] {
      var m := (b[..32], b[32..]);
      assert EncodeMember(m) == b && m in ks;
    }
  }

  method ExportGenesis(k: Keeper) returns (g: Genesis)
    ensures g == Export(k.View())
  {
    var registries := WalkRegistries(k);
    WalkedRecords(k.View());
    var records := WalkRecords(k, WalkTriples(k.records.Keys));
    var admins := WalkAdmins(k);
    WalkMembersExact(k.roleMembers.Keys);
    var ks := WalkMembers(k.roleMembers.Keys);
    assert forall i :: 0 <= i < |ks| ==> ks[i] in k.roleMembers.Keys;
    var members := WalkMemberKeys(k, ks);
    MembersMap(k.roleMembers, ks, members);
    g := Genesis(k.params, registries, records, admins, members);
  }
}
