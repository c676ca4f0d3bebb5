/** What a committed block hands to its listeners: the writes of all stores, the module's own among them. */
module Changesets {
  import opened Bytes
  import opened Types
  import opened Messages
  import opened Bookkeeping
  import opened NameIndex
  import opened StoreWrites

  ghost predicate Grows(before: map<nat, Registry>, after: map<nat, Registry>) {
    forall id :: id in before ==> id in after && after[id] == before[id]
  }

  /** The registry writes among pairs are stored registries, and every new registry is among them. */
  ghost predicate IsChangeset(cdc: Codec, before: map<nat, Registry>, after: map<nat, Registry>, pairs: seq<Pair>) {
    && (forall i :: 0 <= i < |pairs| && IsRegistryWrite(pairs[i]) ==> Carries(cdc, pairs[i], after))
    && (forall id :: id in after && id !in before ==> Announced(cdc, pairs, after[id]))
  }

  ghost predicate Carries(cdc: Codec, p: Pair, after: map<nat, Registry>) {
    exists id :: id in after && p.value == cdc.marshal(after[id])
  }

  ghost predicate Announced(cdc: Codec, pairs: seq<Pair>, reg: Registry) {
    exists i :: 0 <= i < |pairs| && IsRegistryWrite(pairs[i]) && pairs[i].value == cdc.marshal(reg)
  }

  // ---- a block's changeset ----

  /** How the other collections write keys, after their prefix, and values. */
  datatype Codes = Codes(key: Place -> Str, value: Op -> Str)

  /** A write as the changeset lists it. */
  function PairOf(cdc: Codec, codes: Codes, op: Op): Pair {
    if op.SetRegistry? then
      Pair(STORE_KEY, false, [Prefix(Where(op))] + BigEndian(op.id, 8), cdc.marshal(op.registry))
    else
      Pair(STORE_KEY, op.RemoveMember?, [Prefix(Where(op))] + codes.key(Where(op)), codes.value(op))
  }

  /** A piece of a changeset: a write of the module's store, or of another. */
  datatype Piece = Own(op: Op) | Other(pair: Pair)

  /**
   pieces is what a flush may make of the module's writes: in any order and merged, so that of the writes to
   one place only the last need be there, among any writes of other stores.
   */
  ghost predicate Flushes(ops: seq<Op>, pieces: seq<Piece>) {
    && (forall x :: x in pieces ==> if x.Own? then x.op in ops else x.pair.storeKey != STORE_KEY)
    && (forall i :: 0 <= i < |ops| && LastAt(ops, i) ==> Own(ops[i]) in pieces)
  }

  ghost predicate LastAt(ops: seq<Op>, i: nat)
    requires i < |ops|
  {
    forall j :: i < j < |ops| ==> Where(ops[j]) != Where(ops[i])
  }

  function Listing(cdc: Codec, codes: Codes, pieces: seq<Piece>): seq<Pair> {
    seq(|pieces|, i requires 0 <= i < |pieces| =>
      match pieces[i] case Own(op) => PairOf(cdc, codes, op) case Other(pair) => pair)
  }

  function InOrder(ops: seq<Op>): seq<Piece> {
    seq(|ops|, i requires 0 <= i < |ops| => Own(ops[i]))
  }

  /** The block's writes as flushed; pieces that are no flush of them stand for the writes in order. */
  ghost function Changeset(env: Env, cdc: Codec, codes: Codes, s: State, txs: seq<Tx>, pieces: seq<Piece>): seq<Pair> {
    var ops := BlockOps(env, s, txs);
    Listing(cdc, codes, if Flushes(ops, pieces) then pieces else InOrder(ops))
  }

  lemma InOrderFlushes(ops: seq<Op>)
    ensures Flushes(ops, InOrder(ops))
  {
    forall i | 0 <= i < |ops| ensures Own(ops[i]) in InOrder(ops) { assert InOrder(ops)[i] == Own(ops[i]); }
  }

  // ---- what the listener takes of it ----

  /** Of the module's writes the listener takes those to the registries collection, and no others. */
  lemma ListenerTakes(cdc: Codec, codes: Codes, op: Op)
    ensures IsRegistryWrite(PairOf(cdc, codes, op)) <==> op.SetRegistry?
  {
    var key := PairOf(cdc, codes, op).key;
    assert REGISTRIES_PREFIX <= key <==> key[0] == 1;
  }

  /** Of any store's writes it takes those of the anchoring store, no deletions, whose key starts with byte 1. */
  lemma ListenerLeaves(p: Pair)
    ensures IsRegistryWrite(p) <==>
              && p.storeKey == [97, 110, 99, 104, 111, 114, 105, 110, 103] && !p.deleted
              && |p.key| > 0 && p.key[0] == 1
  {
    assert |p.key| > 0 ==> p.key == [p.key[0]] + p.key[1..];
  }

  // ---- registries over a block ----

  /** The registry writes of ops are those of after's registries beyond `from`, each once. */
  ghost predicate RegistriesWritten(ops: seq<Op>, from: nat, count: nat, after: map<nat, Registry>) {
    && (forall i :: 0 <= i < |ops| && ops[i].SetRegistry? ==>
          && from < ops[i].id <= count && ops[i].id in after && after[ops[i].id] == ops[i].registry)
    && (forall i, j :: 0 <= i < j < |ops| && ops[i].SetRegistry? && ops[j].SetRegistry? ==> ops[i].id < ops[j].id)
    && (forall id :: id in after && id > from ==> SetRegistry(id, after[id]) in ops)
  }

  lemma RecordOpsWriteNone(now: Str, s: State, e: Record)
    ensures forall i :: 0 <= i < |RecordOps(now, s, e)| ==> !RecordOps(now, s, e)[i].SetRegistry?
  {
  }

  lemma OthersWriteNone(env: Env, s: State, tx: Tx)
    requires tx.msg.AddRegistry? ==> Handle(env, s, tx).Err?
    ensures forall i :: 0 <= i < |TxOps(env, s, tx)| ==> !TxOps(env, s, tx)[i].SetRegistry?
  {
    if tx.msg.AddRecord? && Handle(env, s, tx).Ok? { RecordOpsWriteNone(tx.now, s, tx.msg.record); }
  }

  lemma AppliedKeepsRegistries(s: State, op: Op)
    requires !op.SetRegistry?
    ensures Applied(s, op).registries == s.registries
  {
  }

  lemma {:induction false} ReplayKeepsRegistries(s: State, ops: seq<Op>)
    requires forall i :: 0 <= i < |ops| ==> !ops[i].SetRegistry?
    ensures Replayed(s, ops).registries == s.registries
    decreases |ops|
  {
    if ops != [] {
      var n := |ops| - 1;
      ReplayKeepsRegistries(s, ops[..n]);
      AppliedKeepsRegistries(Replayed(s, ops[..n]), ops[n]);
    }
  }

  lemma TxWrites(env: Env, s: State, tx: Tx)
    requires Consistent(env, s)
    ensures var t := Deliver(env, s, tx);
      && Grows(s.registries, t.registries) && s.registryCount <= t.registryCount
      && RegistriesWritten(TxOps(env, s, tx), s.registryCount, t.registryCount, t.registries)
  {
    DeliverKeeps(env, s, tx);
    if tx.msg.AddRegistry? && Handle(env, s, tx).Ok? {
      AddRegistryWrites(env, s, tx);
    } else {
      OthersWriteNone(env, s, tx);
      TxReplays(env, s, tx);
      ReplayKeepsRegistries(s, TxOps(env, s, tx));
      SameRegistriesSameCount(env, s, Deliver(env, s, tx));
    }
  }

  lemma SameRegistriesSameCount(env: Env, s: State, t: State)
    requires Consistent(env, s) && Consistent(env, t) && s.registries == t.registries
    ensures s.registryCount == t.registryCount
  {
    assert s.registryCount >= 1 ==> s.registryCount in t.registries;
    assert t.registryCount >= 1 ==> t.registryCount in s.registries;
  }

  lemma AddRegistryWrites(env: Env, s: State, tx: Tx)
    requires Consistent(env, s) && tx.msg.AddRegistry? && Handle(env, s, tx).Ok?
    ensures var t := Deliver(env, s, tx);
      && Grows(s.registries, t.registries) && t.registryCount == s.registryCount + 1
      && RegistriesWritten(TxOps(env, s, tx), s.registryCount, t.registryCount, t.registries)
  {
    var ops, t := TxOps(env, s, tx), Deliver(env, s, tx);
    assert ops[0] == SetRegistry(s.registryCount + 1, t.registries[s.registryCount + 1]);
    assert !ops[1].SetRegistry? && !ops[2].SetRegistry? && !ops[3].SetRegistry? && !ops[4].SetRegistry?;
  }

  lemma WrittenJoins(a: seq<Op>, b: seq<Op>, from: nat, mid: nat, count: nat, m: map<nat, Registry>,
                     after: map<nat, Registry>)
    requires from <= mid <= count && Grows(m, after)
    requires RegistriesWritten(a, from, mid, m) && RegistriesWritten(b, mid, count, after)
    requires forall id :: id in after && id <= mid ==> id in m
    ensures RegistriesWritten(a + b, from, count, after)
  {
    var ops := a + b;
    forall i | 0 <= i < |ops| && ops[i].SetRegistry?
      ensures from < ops[i].id <= count && ops[i].id in after && after[ops[i].id] == ops[i].registry
    {
      assert ops[i] == if i < |a| then a[i] else b[i - |a|];
    }
    forall i, j | 0 <= i < j < |ops| && ops[i].SetRegistry? && ops[j].SetRegistry? ensures ops[i].id < ops[j].id {
      assert ops[i] == if i < |a| then a[i] else b[i - |a|];
      assert ops[j] == if j < |a| then a[j] else b[j - |a|];
    }
    forall id | id in after && id > from ensures SetRegistry(id, after[id]) in ops {
      if id <= mid { assert SetRegistry(id, m[id]) in a; }
    }
  }

  /** Over a block registries are only added, each with one write, and every registry write is of a stored registry. */
  lemma {:induction false} BlockWrites(env: Env, s: State, txs: seq<Tx>)
    requires Consistent(env, s)
    ensures var t := Run(env, s, txs);
      && Consistent(env, t) && Grows(s.registries, t.registries) && s.registryCount <= t.registryCount
      && RegistriesWritten(BlockOps(env, s, txs), s.registryCount, t.registryCount, t.registries)
    decreases |txs|
  {
    if txs != [] {
      var most, last := txs[..|txs| - 1], txs[|txs| - 1];
      var mid := Run(env, s, most);
      BlockWrites(env, s, most);
      DeliverKeeps(env, mid, last);
      TxWrites(env, mid, last);
      var t := Deliver(env, mid, last);
      WrittenJoins(BlockOps(env, s, most), TxOps(env, mid, last), s.registryCount, mid.registryCount, t.registryCount,
                   mid.registries, t.registries);
    }
  }

  // ---- it is a changeset ----

  lemma OwnIsTaken(cdc: Codec, codes: Codes, ops: seq<Op>, pieces: seq<Piece>, i: nat, from: nat, count: nat,
                   after: map<nat, Registry>)
    requires Flushes(ops, pieces) && RegistriesWritten(ops, from, count, after) && i < |pieces|
    requires IsRegistryWrite(Listing(cdc, codes, pieces)[i])
    ensures Carries(cdc, Listing(cdc, codes, pieces)[i], after)
  {
    var x := pieces[i];
    assert x in pieces;
    if x.Own? {
      ListenerTakes(cdc, codes, x.op);
      var j :| 0 <= j < |ops| && ops[j] == x.op;
      assert Listing(cdc, codes, pieces)[i].value == cdc.marshal(after[x.op.id]);
    }
  }

  lemma NewIsAnnounced(cdc: Codec, codes: Codes, ops: seq<Op>, pieces: seq<Piece>, id: nat, from: nat, count: nat,
                       after: map<nat, Registry>)
    requires Flushes(ops, pieces) && RegistriesWritten(ops, from, count, after) && id in after && id > from
    ensures Announced(cdc, Listing(cdc, codes, pieces), after[id])
  {
    var op := SetRegistry(id, after[id]);
    var j :| 0 <= j < |ops| && ops[j] == op;
    forall l | j < l < |ops| ensures Where(ops[l]) != Where(ops[j]) {
      if ops[l].SetRegistry? { assert ops[j].id < ops[l].id; }
    }
    assert LastAt(ops, j);
    var i :| 0 <= i < |pieces| && pieces[i] == Own(op);
    ListenerTakes(cdc, codes, op);
    assert Listing(cdc, codes, pieces)[i] == PairOf(cdc, codes, op);
  }

  lemma FlushIsChangeset(cdc: Codec, codes: Codes, ops: seq<Op>, pieces: seq<Piece>, from: nat, count: nat,
                         before: map<nat, Registry>, after: map<nat, Registry>)
    requires Flushes(ops, pieces) && RegistriesWritten(ops, from, count, after)
    requires forall id :: id in after && id !in before ==> id > from
    ensures IsChangeset(cdc, before, after, Listing(cdc, codes, pieces))
  {
    var pairs := Listing(cdc, codes, pieces);
    forall i | 0 <= i < |pairs| && IsRegistryWrite(pairs[i]) ensures Carries(cdc, pairs[i], after) {
      OwnIsTaken(cdc, codes, ops, pieces, i, from, count, after);
    }
    forall id | id in after && id !in before ensures Announced(cdc, pairs, after[id]) {
      NewIsAnnounced(cdc, codes, ops, pieces, id, from, count, after);
    }
  }

  /** Every block's changeset, however flushed, carries for the listener just the registries its transactions added. */
  lemma ChangesetHolds(env: Env, cdc: Codec, codes: Codes, s: State, txs: seq<Tx>, pieces: seq<Piece>)
    requires Consistent(env, s)
    ensures IsChangeset(cdc, s.registries, Run(env, s, txs).registries, Changeset(env, cdc, codes, s, txs, pieces))
  {
    var ops, t := BlockOps(env, s, txs), Run(env, s, txs);
    BlockWrites(env, s, txs);
    InOrderFlushes(ops);
    FlushIsChangeset(cdc, codes, ops, if Flushes(ops, pieces) then pieces else InOrder(ops), s.registryCount,
                     t.registryCount, s.registries, t.registries);
  }
}
