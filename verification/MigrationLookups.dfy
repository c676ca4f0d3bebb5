/** What the contract's two list getters find, said of the keeper's names and checksums. */
module MigrationLookups {
  import opened Bytes
  import opened Walks
  import opened Types
  import opened Messages
  import opened Slots
  import opened Layout
  import opened MigrationPlan
  import opened Migration
  import opened MigrationReads
  import opened MigrationExport

  ghost predicate Capital(b: byte) { 65 <= b <= 90 }

  /** a and b differ at most in the case of A to Z. */
  ghost predicate SameUpToCase(a: Str, b: Str) {
    && |a| == |b|
    && forall i :: 0 <= i < |a| ==>
         a[i] == b[i] || (Capital(a[i]) && b[i] == a[i] + 32) || (Capital(b[i]) && a[i] == b[i] + 32)
  }

  ghost predicate NoCapitals(a: Str) {
    forall i :: 0 <= i < |a| ==> !Capital(a[i])
  }

  ghost predicate Rising(ids: seq<nat>) {
    forall i, j :: 0 <= i < j < |ids| ==> ids[i] < ids[j]
  }

  lemma WalksRise(keys: set<nat>)
    ensures Rising(WalkIds(keys))
  {
    WalkIdsExact(keys);
    var ids := WalkIds(keys);
    forall i, j | 0 <= i < j < |ids| ensures ids[i] < ids[j] { assert IdLess(ids[i], ids[j]); }
  }

  /** Folding removes capitals and nothing else, so names fold alike exactly when they are the same up to case. */
  lemma FoldIsCase(a: Str, b: Str)
    ensures NoCapitals(AsciiLower(a)) && SameUpToCase(a, AsciiLower(a))
    ensures AsciiLower(a) == AsciiLower(b) <==> SameUpToCase(a, b)
  {
    if AsciiLower(a) == AsciiLower(b) {
      forall i | 0 <= i < |a|
        ensures a[i] == b[i] || (Capital(a[i]) && b[i] == a[i] + 32) || (Capital(b[i]) && a[i] == b[i] + 32)
      {
        assert AsciiLower(a)[i] == AsciiLower(b)[i];
      }
    }
  }

  lemma FoldedIsItself(q: Str)
    requires NoCapitals(q)
    ensures AsciiLower(q) == q
  {
  }

  /** The ids under a folded name are the registries' whose name is that name up to case, ascending. */
  lemma NamesListed(s: State, q: Str, r: nat)
    ensures Rising(IdsByName(s, q))
    ensures r in IdsByName(s, q) <==> r in s.registries && NoCapitals(q) && SameUpToCase(q, s.registries[r].name)
  {
    var keys := set x | x in s.registries && AsciiLower(s.registries[x].name) == q;
    WalkIdsExact(keys);
    WalksRise(keys);
    if r in s.registries {
      FoldIsCase(s.registries[r].name, q);
      if NoCapitals(q) { FoldedIsItself(q); }
    }
  }

  /** The ids under a checksum are the registries that hold it, ascending. */
  lemma ChecksumsListed(s: State, checksum: Str, r: nat)
    ensures Rising(RegistriesOf(s, checksum))
    ensures r in RegistriesOf(s, checksum) <==> (checksum, r) in s.idBySumReg
  {
    var keys := set k | k in s.idBySumReg && k.0 == checksum :: k.1;
    WalkIdsExact(keys);
    WalksRise(keys);
    if (checksum, r) in s.idBySumReg { assert (checksum, r).1 in keys; }
  }

  /** What a name lookup finds in a storage that reads back as the keeper's store. */
  ghost predicate FindsNames(k: Keccak, st: Storage, s: State, q: Str) {
    && Rising(SolRegistriesByName(k, st, q))
    && forall r :: r in SolRegistriesByName(k, st, q) <==>
         r in s.registries && NoCapitals(q) && SameUpToCase(q, s.registries[r].name)
  }

  ghost predicate FindsChecksums(k: Keccak, st: Storage, s: State, checksum: Str) {
    && Rising(SolRegistriesByChecksum(k, st, checksum))
    && forall r :: r in SolRegistriesByChecksum(k, st, checksum) <==> (checksum, r) in s.idBySumReg
  }

  lemma NamesFound(k: Keccak, st: Storage, s: State, admin: Addr, q: Str)
    requires ReadsBack(k, st, s, admin, NameItem(q))
    ensures FindsNames(k, st, s, q)
  {
    NamesListed(s, q, 0);
    forall r ensures r in SolRegistriesByName(k, st, q) <==>
        r in s.registries && NoCapitals(q) && SameUpToCase(q, s.registries[r].name)
    {
      NamesListed(s, q, r);
    }
  }

  lemma ChecksumsFound(k: Keccak, st: Storage, s: State, admin: Addr, checksum: Str)
    requires ReadsBack(k, st, s, admin, ChecksumItem(checksum))
    ensures FindsChecksums(k, st, s, checksum)
  {
    ChecksumsListed(s, checksum, 0);
    forall r ensures r in SolRegistriesByChecksum(k, st, checksum) <==> (checksum, r) in s.idBySumReg {
      ChecksumsListed(s, checksum, r);
    }
  }

  /**
   After the migration of any run, the contract finds under a name exactly the registries with that name
   up to case, if it is asked without capitals, and under a checksum exactly those that hold it.
   */
  lemma RunsLookUp(env: Env, params: Params, txs: seq<Tx>, preimages: set<Str>, span: nat, q: Str)
    requires env.Account(params.admin).Some?
    requires var s := Run(env, EmptyState(params), txs);
             var account := env.Account(s.params.admin);
             account.Some? ==> Fits(s, account.value) && KeccakOk(env.keccak, s, account.value, preimages, span)
    requires InPlay(env.keccak, OwnerLoc(NameItem(q)), preimages, span)
    requires InPlay(env.keccak, OwnerLoc(ChecksumItem(q)), preimages, span)
    ensures var s := Run(env, EmptyState(params), txs);
            && env.Account(s.params.admin).Some?
            && var st := Migrated(env.keccak, s, env.Account(s.params.admin).value);
            FindsNames(env.keccak, st, s, q) && FindsChecksums(env.keccak, st, s, q)
  {
    RunsMigrate(env, params, txs, preimages, span, NameItem(q));
    RunsMigrate(env, params, txs, preimages, span, ChecksumItem(q));
    var s := Run(env, EmptyState(params), txs);
    var admin := env.Account(s.params.admin).value;
    NamesFound(env.keccak, Migrated(env.keccak, s, admin), s, admin, q);
    ChecksumsFound(env.keccak, Migrated(env.keccak, s, admin), s, admin, q);
  }
}
