/** The off-chain name index: a table that follows committed blocks, misses some, and is backfilled. */
module NameIndex {
  import opened Bytes
  import opened Walks
  import opened Types
  import opened LiteralSearch
  import Protobuf

  /** Lower-casing a name and reading it as runes. */
  type Fold = Str -> Runes

  datatype Row = Row(nameLower: Runes, nameRevLower: Runes, data: Str)

  type Rows = map<nat, Row>

  /** The codec the store was opened with. */
  datatype Codec = Codec(marshal: Registry -> Str, unmarshal: Str -> Option<Registry>)

  function Marshalled(reg: Registry): Str {
    Protobuf.Encode(Protobuf.Fields(Protobuf.RegistryDoc(reg)), 0)
  }

  const BLANK := Protobuf.RegistryDoc(NO_REGISTRY)

  function Unmarshalled(value: Str): Option<Registry> {
    match Protobuf.Parse(BLANK, value, 0)
    case Got(doc) => if doc.RegistryDoc? then Some(doc.registry) else None
    case Bad(_) => None
  }

  const PROTO := Codec(Marshalled, Unmarshalled)

  function RowOf(fold: Fold, cdc: Codec, reg: Registry): Row {
    Row(fold(reg.name), Reverse(fold(reg.name)), cdc.marshal(reg))
  }

  /** How a registry becomes a row. */
  function RowMaker(fold: Fold, cdc: Codec): Registry -> Row {
    (reg: Registry) => RowOf(fold, cdc, reg)
  }

  type ToRow = Registry -> Row

  /** The table a complete index holds. */
  function Full(toRow: ToRow, registries: map<nat, Registry>): Rows {
    map id | id in registries :: toRow(registries[id])
  }

  function Upserted(toRow: ToRow, rows: Rows, regs: seq<Registry>): Rows
    decreases |regs|
  {
    if regs == [] then rows
    else
      var last := regs[|regs| - 1];
      Upserted(toRow, rows, regs[..|regs| - 1])[last.id := toRow(last)]
  }

  /** A store write as the committed changeset lists it. */
  datatype Pair = Pair(storeKey: Str, deleted: bool, key: Str, value: Str)

  /** "anchoring". */
  const STORE_KEY: Str := [97, 110, 99, 104, 111, 114, 105, 110, 103]
  const REGISTRIES_PREFIX: Str := [1]

  predicate IsRegistryWrite(p: Pair) {
    p.storeKey == STORE_KEY && !p.deleted && REGISTRIES_PREFIX <= p.key
  }

  /** The registries written, in order; None when one does not decode. */
  function Written(cdc: Codec, pairs: seq<Pair>): Option<seq<Registry>>
    decreases |pairs|
  {
    if pairs == [] then Some([]) else
      var last := pairs[|pairs| - 1];
      match Written(cdc, pairs[..|pairs| - 1])
      case None => None
      case Some(regs) =>
        if !IsRegistryWrite(last) then Some(regs)
        else match cdc.unmarshal(last.value)
          case None => None
          case Some(reg) => Some(regs + [reg])
  }

  function Listened(toRow: ToRow, cdc: Codec, rows: Rows, pairs: seq<Pair>, commits: bool): Rows {
    match Written(cdc, pairs)
    case None => rows
    case Some(regs) => if commits then Upserted(toRow, rows, regs) else rows
  }

  function Backfilled(toRow: ToRow, rows: Rows, registries: map<nat, Registry>, count: nat, commits: bool): Rows {
    if |rows| == count || !commits then rows else rows + Full(toRow, registries)
  }

  /** The table behind a node's index; a batch lands whole, when it commits, or not at all. */
  class Store {
    var rows: Rows
    const cdc: Codec
    const toRow: ToRow

    constructor (fold: Fold, cdc: Codec)
      ensures rows == map[] && this.cdc == cdc && toRow == RowMaker(fold, cdc)
    {
      rows := map[];
      this.cdc := cdc;
      toRow := RowMaker(fold, cdc);
    }

    /** Decodes and collects every registry write, then upserts them in one batch. */
    method ListenCommit(pairs: seq<Pair>, commits: bool) returns (ok: bool)
      modifies this
      ensures rows == Listened(toRow, cdc, old(rows), pairs, commits)
      ensures ok <==> Written(cdc, pairs).Some? && (Written(cdc, pairs).value == [] || commits)
      ensures !ok ==> rows == old(rows)
    {
      var regs: seq<Registry> := [];
      for i := 0 to |pairs|
        invariant Written(cdc, pairs[..i]) == Some(regs)
        invariant rows == old(rows)
      {
        assert pairs[..i + 1][..i] == pairs[..i];
        if IsRegistryWrite(pairs[i]) {
          var reg := cdc.unmarshal(pairs[i].value);
          if reg.None? {
            WrittenFails(cdc, pairs, i + 1);
            return false;
          }
          regs := regs + [reg.value];
        }
      }
      assert pairs[..|pairs|] == pairs;
      if regs == [] { return true; }
      var batch := rows;
      for i := 0 to |regs|
        invariant batch == Upserted(toRow, old(rows), regs[..i])
        invariant rows == old(rows)
      {
        assert regs[..i + 1][..i] == regs[..i];
        batch := batch[regs[i].id := toRow(regs[i])];
      }
      assert regs[..|regs|] == regs;
      ok := commits;
      if commits { rows := batch; }
    }

    /** Skips the work when the counts agree; otherwise upserts every registry in one batch. */
    method Backfill(registries: map<nat, Registry>, count: nat, commits: bool) returns (ok: bool)
      requires forall id :: id in registries ==> registries[id].id == id
      modifies this
      ensures rows == Backfilled(toRow, old(rows), registries, count, commits)
      ensures ok <==> |old(rows)| == count || commits
      ensures !ok || |old(rows)| == count ==> rows == old(rows)
      ensures commits && |old(rows)| != count ==>
        && (forall id :: id in registries ==> id in rows && rows[id] == toRow(registries[id]))
        && (forall id :: id !in registries ==> (id in rows <==> id in old(rows)))
        && (forall id :: id !in registries && id in rows ==> rows[id] == old(rows)[id])
    {
      if |rows| == count { return true; }
      var ids := WalkIds(registries.Keys);
      WalkIdsExact(registries.Keys);
      AllListed(registries, ids);
      var batch := UpsertWalk(toRow, rows, registries, ids);
      UpsertedAll(toRow, rows, Listed(registries, ids), registries);
      ok := commits;
      if commits { rows := batch; }
    }
  }

  function Listed(registries: map<nat, Registry>, ids: seq<nat>): seq<Registry>
    requires forall i :: 0 <= i < |ids| ==> ids[i] in registries
  {
    seq(|ids|, i requires 0 <= i < |ids| => registries[ids[i]])
  }

  /** Every registry is listed, under its own id. */
  ghost predicate Lists(regs: seq<Registry>, registries: map<nat, Registry>) {
    && (forall i :: 0 <= i < |regs| ==> regs[i].id in registries && registries[regs[i].id] == regs[i])
    && (forall id :: id in registries ==> registries[id].id == id && registries[id] in regs)
  }

  lemma AllListed(registries: map<nat, Registry>, ids: seq<nat>)
    requires IsExactWalk(ids, registries.Keys, IdLess) && forall id :: id in registries ==> registries[id].id == id
    ensures (forall i :: 0 <= i < |ids| ==> ids[i] in registries) && Lists(Listed(registries, ids), registries)
  {
    assert forall i :: 0 <= i < |ids| ==> ids[i] in registries.Keys;
    var regs := Listed(registries, ids);
    forall id | id in registries ensures registries[id] in regs {
      assert id in ids;
      var i :| 0 <= i < |ids| && ids[i] == id;
      assert regs[i] == registries[id];
    }
  }

  method UpsertWalk(toRow: ToRow, rows: Rows, registries: map<nat, Registry>, ids: seq<nat>) returns (batch: Rows)
    requires forall i :: 0 <= i < |ids| ==> ids[i] in registries
    ensures batch == Upserted(toRow, rows, Listed(registries, ids))
  {
    ghost var regs := Listed(registries, ids);
    batch := rows;
    for i := 0 to |ids|
      invariant batch == Upserted(toRow, rows, regs[..i])
    {
      assert regs[..i + 1][..i] == regs[..i];
      batch := batch[registries[ids[i]].id := toRow(registries[ids[i]])];
    }
    assert regs[..|regs|] == regs;
  }

  /** Upserting registries under their own ids adds their rows and touches no other. */
  lemma {:induction false} UpsertedRows(toRow: ToRow, rows: Rows, regs: seq<Registry>, registries: map<nat, Registry>)
    requires forall i :: 0 <= i < |regs| ==> regs[i].id in registries && registries[regs[i].id] == regs[i]
    ensures var u := Upserted(toRow, rows, regs);
      && (forall id :: id in u ==> id in rows || (id in registries && registries[id] in regs))
      && (forall id :: id in u ==>
            (id in registries && u[id] == toRow(registries[id])) || (id in rows && u[id] == rows[id]))
      && (forall id :: id in rows ==> id in u)
      && (forall reg :: reg in regs ==> reg.id in u && u[reg.id] == toRow(reg))
    decreases |regs|
  {
    if regs != [] {
      var most := regs[..|regs| - 1];
      UpsertedRows(toRow, rows, most, registries);
      assert regs == most + [regs[|regs| - 1]];
    }
  }

  lemma UpsertedAll(toRow: ToRow, rows: Rows, regs: seq<Registry>, registries: map<nat, Registry>)
    requires Lists(regs, registries)
    ensures Upserted(toRow, rows, regs) == rows + Full(toRow, registries)
  {
    UpsertedRows(toRow, rows, regs, registries);
    var u, want := Upserted(toRow, rows, regs), rows + Full(toRow, registries);
    forall id ensures id in u <==> id in want {
      if id in registries { assert registries[id] in regs; }
    }
    forall id | id in u ensures u[id] == want[id] {
      if id in registries { assert registries[id] in regs; }
    }
  }

  lemma {:induction false} WrittenFails(cdc: Codec, pairs: seq<Pair>, i: nat)
    requires i <= |pairs| && Written(cdc, pairs[..i]).None?
    ensures Written(cdc, pairs).None?
    decreases |pairs|
  {
    if i == |pairs| {
      assert pairs[..i] == pairs;
    } else {
      var most := pairs[..|pairs| - 1];
      assert most[..i] == pairs[..i];
      WrittenFails(cdc, most, i);
    }
  }
}
