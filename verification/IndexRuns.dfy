/** The index beside the chain, over every interleaving of blocks, failed batches and restarts. */
module IndexRuns {
  import opened Bytes
  import opened Types
  import opened Walks
  import opened Messages
  import opened Bookkeeping
  import opened NameIndex
  import opened Changesets
  import Protobuf
  import ProtobufRoundTrip

  datatype World = World(chain: State, rows: Rows)

  /**
   * A committed block with how its writes were flushed and the fate of its batch, or a restart with its backfill.
   */
  datatype Event = Block(txs: seq<Tx>, codes: Codes, pieces: seq<Piece>, commits: bool) | Restart(commits: bool)

  ghost function Next(env: Env, toRow: ToRow, cdc: Codec, w: World, e: Event): World {
    match e
    case Block(txs, codes, pieces, commits) =>
      var pairs := Changeset(env, cdc, codes, w.chain, txs, pieces);
      World(Run(env, w.chain, txs), Listened(toRow, cdc, w.rows, pairs, commits))
    case Restart(commits) =>
      World(w.chain, Backfilled(toRow, w.rows, w.chain.registries, w.chain.registryCount, commits))
  }

  ghost function After(env: Env, toRow: ToRow, cdc: Codec, params: Params, events: seq<Event>): World
    decreases |events|
  {
    if events == [] then World(EmptyState(params), map[])
    else Next(env, toRow, cdc, After(env, toRow, cdc, params, events[..|events| - 1]), events[|events| - 1])
  }

  /** Every stored registry survives the codec. */
  ghost predicate Survives(cdc: Codec, registries: map<nat, Registry>) {
    forall id :: id in registries ==> cdc.unmarshal(cdc.marshal(registries[id])) == Some(registries[id])
  }

  /** Every row is the row of a stored registry. */
  ghost predicate Sound(toRow: ToRow, rows: Rows, registries: map<nat, Registry>) {
    forall id :: id in rows ==> id in registries && rows[id] == toRow(registries[id])
  }

  // ---- the chain only adds ----

  lemma SurvivesBefore(cdc: Codec, before: map<nat, Registry>, after: map<nat, Registry>)
    requires Grows(before, after) && Survives(cdc, after)
    ensures Survives(cdc, before)
  {
    forall id | id in before ensures cdc.unmarshal(cdc.marshal(before[id])) == Some(before[id]) {
      assert id in after;
    }
  }

  // ---- one listened block ----

  /** The listener decodes what the block stored. */
  lemma {:induction false} WrittenAreStored(cdc: Codec, pairs: seq<Pair>, after: map<nat, Registry>)
    requires Survives(cdc, after) && forall id :: id in after ==> after[id].id == id
    requires forall i :: 0 <= i < |pairs| && IsRegistryWrite(pairs[i]) ==> Carries(cdc, pairs[i], after)
    ensures Written(cdc, pairs).Some?
    ensures forall i :: 0 <= i < |Written(cdc, pairs).value| ==>
      var reg := Written(cdc, pairs).value[i]; reg.id in after && after[reg.id] == reg
    decreases |pairs|
  {
    if pairs != [] {
      var n := |pairs| - 1;
      var most, last := pairs[..n], pairs[n];
      WrittenAreStored(cdc, most, after);
      if IsRegistryWrite(last) {
        assert Carries(cdc, pairs[n], after);
        var id :| id in after && last.value == cdc.marshal(after[id]);
      }
    }
  }

  lemma {:induction false} AnnouncedAreWritten(cdc: Codec, pairs: seq<Pair>, reg: Registry)
    requires cdc.unmarshal(cdc.marshal(reg)) == Some(reg) && Written(cdc, pairs).Some? && Announced(cdc, pairs, reg)
    ensures reg in Written(cdc, pairs).value
    decreases |pairs|
  {
    var n := |pairs| - 1;
    var i :| 0 <= i < |pairs| && IsRegistryWrite(pairs[i]) && pairs[i].value == cdc.marshal(reg);
    if i < n {
      assert pairs[..n][i] == pairs[i];
      AnnouncedAreWritten(cdc, pairs[..n], reg);
    }
  }

  lemma ListenedIsSound(toRow: ToRow, cdc: Codec, rows: Rows, before: map<nat, Registry>, after: map<nat, Registry>,
                        pairs: seq<Pair>, commits: bool)
    requires Sound(toRow, rows, before) && Grows(before, after) && Survives(cdc, after)
    requires IsChangeset(cdc, before, after, pairs) && forall id :: id in after ==> after[id].id == id
    ensures Sound(toRow, Listened(toRow, cdc, rows, pairs, commits), after)
  {
    WrittenAreStored(cdc, pairs, after);
    UpsertedRows(toRow, rows, Written(cdc, pairs).value, after);
  }

  lemma IsFull(toRow: ToRow, u: Rows, after: map<nat, Registry>)
    requires forall id :: id in u ==> id in after
    requires forall id :: id in after ==> id in u && u[id] == toRow(after[id])
    ensures u == Full(toRow, after)
  {
    var full := Full(toRow, after);
    assert u.Keys == full.Keys;
  }

  lemma UpsertedAt(toRow: ToRow, rows: Rows, regs: seq<Registry>, after: map<nat, Registry>, id: nat)
    requires forall i :: 0 <= i < |regs| ==> regs[i].id in after && after[regs[i].id] == regs[i]
    requires id in after && after[id].id == id && (after[id] in regs || (id in rows && rows[id] == toRow(after[id])))
    ensures var u := Upserted(toRow, rows, regs); id in u && u[id] == toRow(after[id])
  {
    UpsertedRows(toRow, rows, regs, after);
    assert after[id] in regs ==> after[id].id in Upserted(toRow, rows, regs);
  }

  /** Upserting every registry that is new completes a complete index. */
  lemma UpsertedIsFull(toRow: ToRow, before: map<nat, Registry>, after: map<nat, Registry>, regs: seq<Registry>)
    requires Grows(before, after) && forall id :: id in after ==> after[id].id == id
    requires forall i :: 0 <= i < |regs| ==> regs[i].id in after && after[regs[i].id] == regs[i]
    requires forall id :: id in after && id !in before ==> after[id] in regs
    ensures Upserted(toRow, Full(toRow, before), regs) == Full(toRow, after)
  {
    var rows := Full(toRow, before);
    var u := Upserted(toRow, rows, regs);
    forall id | id in u ensures id in after { UpsertedRows(toRow, rows, regs, after); }
    forall id | id in after ensures id in u && u[id] == toRow(after[id]) { UpsertedAt(toRow, rows, regs, after, id); }
    IsFull(toRow, u, after);
  }

  lemma ListenedIsFull(toRow: ToRow, cdc: Codec, before: map<nat, Registry>, after: map<nat, Registry>,
                       pairs: seq<Pair>)
    requires Grows(before, after) && Survives(cdc, after)
    requires IsChangeset(cdc, before, after, pairs) && forall id :: id in after ==> after[id].id == id
    ensures Listened(toRow, cdc, Full(toRow, before), pairs, true) == Full(toRow, after)
  {
    WrittenAreStored(cdc, pairs, after);
    forall id | id in after && id !in before ensures after[id] in Written(cdc, pairs).value {
      AnnouncedAreWritten(cdc, pairs, after[id]);
    }
    UpsertedIsFull(toRow, before, after, Written(cdc, pairs).value);
  }

  // ---- whole runs ----

  /**
   * In every run the chain is consistent and, as long as its registries survive the codec, the index holds
   * only what it holds.
   */
  lemma {:induction false} IndexIsSubmap(env: Env, toRow: ToRow, cdc: Codec, params: Params, events: seq<Event>)
    ensures var w := After(env, toRow, cdc, params, events);
      Consistent(env, w.chain) && (Survives(cdc, w.chain.registries) ==> Sound(toRow, w.rows, w.chain.registries))
    decreases |events|
  {
    if events == [] {
      RunsAreConsistent(env, params, []);
    } else {
      var most, last := events[..|events| - 1], events[|events| - 1];
      IndexIsSubmap(env, toRow, cdc, params, most);
      var w := After(env, toRow, cdc, params, most);
      if last.Block? {
        BlockIsSound(env, toRow, cdc, w, last.txs, last.codes, last.pieces, last.commits);
      }
    }
  }

  lemma BlockIsSound(env: Env, toRow: ToRow, cdc: Codec, w: World, txs: seq<Tx>, codes: Codes, pieces: seq<Piece>,
                     commits: bool)
    requires Consistent(env, w.chain)
    requires (Survives(cdc, w.chain.registries) ==> Sound(toRow, w.rows, w.chain.registries))
    ensures var v := Next(env, toRow, cdc, w, Block(txs, codes, pieces, commits));
      && Consistent(env, v.chain)
      && (Survives(cdc, v.chain.registries) ==> Sound(toRow, v.rows, v.chain.registries))
      && (Survives(cdc, v.chain.registries) && commits && w.rows == Full(toRow, w.chain.registries) ==>
            v.rows == Full(toRow, v.chain.registries))
  {
    var after := Run(env, w.chain, txs);
    BlockWrites(env, w.chain, txs);
    if Survives(cdc, after.registries) {
      SurvivesBefore(cdc, w.chain.registries, after.registries);
      ChangesetHolds(env, cdc, codes, w.chain, txs, pieces);
      var pairs := Changeset(env, cdc, codes, w.chain, txs, pieces);
      ListenedIsSound(toRow, cdc, w.rows, w.chain.registries, after.registries, pairs, commits);
      ListenedIsFull(toRow, cdc, w.chain.registries, after.registries, pairs);
    }
  }

  lemma {:induction false} DenseKeys(n: nat, keys: set<nat>)
    requires forall i :: i in keys <==> 1 <= i <= n
    ensures |keys| == n
  {
    if n == 0 {
      assert keys == {};
    } else {
      DenseKeys(n - 1, keys - {n});
    }
  }

  lemma EqualSize<K>(a: set<K>, b: set<K>)
    requires a <= b && |a| == |b|
    ensures a == b
  {
    if b - a != {} {
      var k :| k in b - a;
      SubsetSize(a, b - {k});
      assert false;
    }
    assert forall k :: k in b ==> k in a || k in b - a;
  }

  /** Ids are dense and rows are sound, so a row count equal to the registry count means the index is complete. */
  lemma EqualCountsAgree(env: Env, toRow: ToRow, s: State, rows: Rows)
    requires Consistent(env, s) && Sound(toRow, rows, s.registries)
    ensures |rows| == s.registryCount <==> rows == Full(toRow, s.registries)
  {
    var full := Full(toRow, s.registries);
    DenseKeys(s.registryCount, s.registries.Keys);
    assert full.Keys == s.registries.Keys;
    assert |rows| == |rows.Keys| && |full| == |full.Keys|;
    if |rows| == s.registryCount {
      EqualSize(rows.Keys, s.registries.Keys);
      assert rows == full;
    }
  }

  lemma AfterOneMore(env: Env, toRow: ToRow, cdc: Codec, params: Params, events: seq<Event>, e: Event)
    ensures After(env, toRow, cdc, params, events + [e])
         == Next(env, toRow, cdc, After(env, toRow, cdc, params, events), e)
  {
    assert (events + [e])[..|events|] == events;
  }

  lemma BackfilledIsFull(toRow: ToRow, rows: Rows, registries: map<nat, Registry>, count: nat)
    requires Sound(toRow, rows, registries) && (|rows| == count <==> rows == Full(toRow, registries))
    ensures Backfilled(toRow, rows, registries, count, true) == Full(toRow, registries)
  {
    assert rows + Full(toRow, registries) == Full(toRow, registries);
  }

  /** Whatever was missed before, a restart whose backfill succeeds leaves the index equal to the chain. */
  lemma BackfillCompletes(env: Env, toRow: ToRow, cdc: Codec, params: Params, events: seq<Event>)
    requires Survives(cdc, After(env, toRow, cdc, params, events).chain.registries)
    ensures var w := After(env, toRow, cdc, params, events + [Restart(true)]);
      Consistent(env, w.chain) && w.rows == Full(toRow, w.chain.registries)
  {
    IndexIsSubmap(env, toRow, cdc, params, events);
    var w := After(env, toRow, cdc, params, events);
    EqualCountsAgree(env, toRow, w.chain, w.rows);
    AfterOneMore(env, toRow, cdc, params, events, Restart(true));
    BackfilledIsFull(toRow, w.rows, w.chain.registries, w.chain.registryCount);
  }

  /** From a complete index, a block whose batch commits keeps it complete. */
  lemma ListeningKeepsUp(env: Env, toRow: ToRow, cdc: Codec, params: Params, events: seq<Event>, block: Event)
    requires block.Block? && block.commits
    requires Survives(cdc, After(env, toRow, cdc, params, events + [block]).chain.registries)
    requires var w := After(env, toRow, cdc, params, events); w.rows == Full(toRow, w.chain.registries)
    ensures var w := After(env, toRow, cdc, params, events + [block]); w.rows == Full(toRow, w.chain.registries)
  {
    IndexIsSubmap(env, toRow, cdc, params, events);
    AfterOneMore(env, toRow, cdc, params, events, block);
    BlockIsSound(env, toRow, cdc, After(env, toRow, cdc, params, events), block.txs, block.codes, block.pieces,
                 true);
  }

  /** The protobuf codec carries every registry with a uint64 id whose encoding fits a Go slice. */
  lemma ProtobufSurvives(registries: map<nat, Registry>)
    requires forall id :: id in registries ==> ProtobufRoundTrip.Fits(Protobuf.RegistryDoc(registries[id]))
    ensures Survives(PROTO, registries)
  {
    forall id | id in registries ensures PROTO.unmarshal(PROTO.marshal(registries[id])) == Some(registries[id]) {
      ProtobufRoundTrip.WireRoundTrip(Protobuf.RegistryDoc(registries[id]));
    }
  }
}
