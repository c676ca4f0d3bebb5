/** The whole way: a run of messages, its migration, the dump file, the loader, the contract. */
module MigrationExport {
  import opened Bytes
  import opened Types
  import opened Messages
  import opened Bookkeeping
  import opened Slots
  import opened MigrationPlan
  import opened MigrationStorage
  import opened Migration
  import opened MigrationReads
  import opened Migrator
  import opened Dumps

  lemma DeliverKeepsAdmin(env: Env, s: State, tx: Tx)
    ensures var t := Deliver(env, s, tx);
            t.params == s.params || env.Account(t.params.admin).Some?
  {
  }

  lemma {:induction false} RunKeepsAdminReadable(env: Env, params: Params, txs: seq<Tx>)
    requires env.Account(params.admin).Some?
    ensures env.Account(Run(env, EmptyState(params), txs).params.admin).Some?
    decreases |txs|
  {
    if txs != [] {
      RunKeepsAdminReadable(env, params, txs[..|txs| - 1]);
      DeliverKeepsAdmin(env, Run(env, EmptyState(params), txs[..|txs| - 1]), txs[|txs| - 1]);
    }
  }

  /** Writes the migration of s as a dump file for `address`. */
  method Export(env: Env, s: State, address: Str) returns (o: Result<Str>)
    requires |address| == 20
    ensures o.Ok? <==> IdsDense(s) && env.Account(s.params.admin).Some?
    ensures o.Ok? ==> var blocks := Parse(address, o.value);
                      && blocks.Some?
                      && StorageOf(Flatten(blocks.value)) == Migrated(env.keccak, s, env.Account(s.params.admin).value)
  {
    var dump := new Dump(address);
    var r := Migrate(env, s, dump);
    if r.Err? {
      return Err(r.error);
    }
    ghost var ws := dump.Written();
    assert ws == Emit(env.keccak, Plan(s, r.value));
    dump.Close();
    DumpReadsBack(address, ws);
    return Ok(dump.out);
  }

  /**
   For every run from the empty genesis the migration succeeds, writes no slot twice, and the
   contract that loads it answers every getter as the keeper's store does.
   */
  lemma RunsMigrate(env: Env, params: Params, txs: seq<Tx>, preimages: set<Str>, span: nat, item: Item)
    requires env.Account(params.admin).Some?
    requires var s := Run(env, EmptyState(params), txs);
             var account := env.Account(s.params.admin);
             account.Some? ==> Fits(s, account.value) && KeccakOk(env.keccak, s, account.value, preimages, span)
    requires Askable(item) && InPlay(env.keccak, OwnerLoc(item), preimages, span)
    ensures var s := Run(env, EmptyState(params), txs);
            && IdsDense(s) && env.Account(s.params.admin).Some?
            && var admin := env.Account(s.params.admin).value;
            var ws := Emit(env.keccak, Plan(s, admin));
            && (forall i, j :: 0 <= i < j < |ws| ==> ws[i].slot != ws[j].slot)
            && ReadsBack(env.keccak, Migrated(env.keccak, s, admin), s, admin, item)
  {
    var s := Run(env, EmptyState(params), txs);
    RunKeepsAdminReadable(env, params, txs);
    var admin := env.Account(s.params.admin).value;
    RunsAreConsistent(env, params, txs);
    MigrationWritesOnce(env, env.keccak, s, admin, preimages, span);
    MigrationReadsBack(env, env.keccak, s, admin, preimages, span, item);
  }
}
