/** What the Records query answers, said of the stored versions themselves. */
module RecordsAnswers {
  import opened Bytes
  import opened Walks
  import opened Types
  import opened Bookkeeping
  import opened Paging
  import opened RecordsQuery

  // ---- refusals and single versions ----

  lemma {:induction false} ListsNeverRefuse(s: State, ks: seq<(nat, nat)>)
    ensures LatestVersions(s, ks) != Err(InvalidRequest)
    decreases |ks|
  {
    if ks != [] { ListsNeverRefuse(s, ks[..|ks| - 1]); }
  }

  /** A record id needs its registry, an index its registry and a record or checksum; nothing else is refused. */
  lemma RefusedExactly(s: State, req: Request)
    ensures Answer(s, req) == Err(InvalidRequest) <==>
      || (req.recordId != 0 && req.registryId == 0)
      || (req.index != 0 && (req.registryId == 0 || (req.recordId == 0 && req.checksum == [])))
  {
    var p := Sanitized(req.pagination);
    ListsNeverRefuse(s, Page(ListKeys(s, req), p.offset, p.limit));
    ListsNeverRefuse(s, Page(InRegistry(s, req.registryId), p.offset, p.limit));
  }

  /** The version the request names in its registry: by record id or by checksum, at the index or the latest. */
  ghost predicate Names(req: Request, e: Record) {
    && e.registryId == req.registryId
    && (if req.recordId != 0 then e.recordId == req.recordId else e.checksum == req.checksum)
    && (if req.index != 0 then e.index == req.index else e.isLatest)
  }

  ghost predicate Stored(s: State, e: Record) {
    && (e.registryId, e.recordId, e.index) in s.records
    && s.records[(e.registryId, e.recordId, e.index)] == e
  }

  lemma StoredFits(env: Env, s: State, e: Record)
    requires Consistent(env, s) && Stored(s, e)
    ensures VersionFits(s.latest, s.idByRegSum, e.registryId, e.recordId, e.index, e) && e.recordId >= 1
  {
    assert (e.registryId, e.recordId, e.index) in s.records;
    assert VersionFits(s.latest, s.idByRegSum, e.registryId, e.recordId, e.index,
                       s.records[(e.registryId, e.recordId, e.index)]);
  }

  lemma AtKey(env: Env, s: State, k: (nat, nat, nat))
    requires Consistent(env, s) && k in s.records
    ensures Stored(s, s.records[k]) && VersionFits(s.latest, s.idByRegSum, k.0, k.1, k.2, s.records[k])
  {
    assert (k.0, k.1, k.2) in s.records;
    assert VersionFits(s.latest, s.idByRegSum, k.0, k.1, k.2, s.records[(k.0, k.1, k.2)]);
  }

  /** At most one stored version answers to a request. */
  lemma NamedOnce(env: Env, s: State, req: Request, d: Record, e: Record)
    requires Consistent(env, s) && (req.recordId != 0 || req.checksum != [])
    requires Stored(s, d) && Stored(s, e) && Names(req, d) && Names(req, e)
    ensures d == e
  {
    StoredFits(env, s, d);
    StoredFits(env, s, e);
  }

  /** A request for one version is answered with the stored version it names, and with no other. */
  lemma VersionAnswered(env: Env, s: State, req: Request, e: Record)
    requires Consistent(env, s) && req.registryId != 0 && (req.recordId != 0 || req.checksum != [])
    ensures Answer(s, req) == Ok([e]) <==> Stored(s, e) && Names(req, e)
    ensures Answer(s, req) == Err(NotFound) || exists d :: Answer(s, req) == Ok([d]) && Stored(s, d) && Names(req, d)
  {
    if req.recordId != 0 || (req.registryId, req.checksum) in s.idByRegSum {
      var id := if req.recordId == 0 then s.idByRegSum[(req.registryId, req.checksum)] else req.recordId;
      FoundAt(env, s, req, id);
    }
    if Stored(s, e) && Names(req, e) {
      StoredFits(env, s, e);
      if exists d :: Answer(s, req) == Ok([d]) && Stored(s, d) && Names(req, d) {
        var d :| Answer(s, req) == Ok([d]) && Stored(s, d) && Names(req, d);
        NamedOnce(env, s, req, d, e);
      }
    }
  }

  lemma FoundAt(env: Env, s: State, req: Request, id: nat)
    requires Consistent(env, s) && req.registryId != 0 && (req.recordId != 0 || req.checksum != [])
    requires if req.recordId != 0 then id == req.recordId
             else (req.registryId, req.checksum) in s.idByRegSum && id == s.idByRegSum[(req.registryId, req.checksum)]
    ensures var r := req.registryId;
      var found := if req.index != 0 then (r, id, req.index) in s.records else (r, id) in s.latest;
      var k := if req.index != 0 then req.index else if (r, id) in s.latest then s.latest[(r, id)] else 0;
      if !found then Answer(s, req) == Err(NotFound)
      else (r, id, k) in s.records && Answer(s, req) == Ok([s.records[(r, id, k)]])
           && Stored(s, s.records[(r, id, k)]) && Names(req, s.records[(r, id, k)])
  {
    var r := req.registryId;
    assert id != 0;
    if req.index != 0 {
      if (r, id, req.index) in s.records { AtKey(env, s, (r, id, req.index)); }
    } else if (r, id) in s.latest {
      assert (r, id, s.latest[(r, id)]) in s.records;
      AtKey(env, s, (r, id, s.latest[(r, id)]));
    }
  }

  // ---- lists ----

  /** The key ranges over the registry asked for, over the checksum asked for, or over everything. */
  ghost predicate InRange(s: State, req: Request, k: (nat, nat)) {
    if req.registryId != 0 then k in s.latest && k.0 == req.registryId
    else if req.checksum != [] then (req.checksum, k.0) in s.idBySumReg && s.idBySumReg[(req.checksum, k.0)] == k.1
    else k in s.latest
  }

  ghost predicate KeysAscend(ks: seq<(nat, nat)>) {
    forall i, j :: 0 <= i < j < |ks| ==> ks[i].0 < ks[j].0 || (ks[i].0 == ks[j].0 && ks[i].1 < ks[j].1)
  }

  lemma PairsWalked(keys: set<(nat, nat)>, k: (nat, nat))
    ensures KeysAscend(WalkPairs(keys)) && (k in WalkPairs(keys) <==> k in keys)
  {
    WalkPairsExact(keys);
    var ks := WalkPairs(keys);
    forall i, j | 0 <= i < j < |ks|
      ensures ks[i].0 < ks[j].0 || (ks[i].0 == ks[j].0 && ks[i].1 < ks[j].1)
    {
      assert PairLess(ks[i], ks[j]);
    }
  }

  lemma ChecksumsWalked(s: State, checksum: Str, k: (nat, nat))
    ensures KeysAscend(WithChecksum(s, checksum))
    ensures k in WithChecksum(s, checksum) <==> (checksum, k.0) in s.idBySumReg && s.idBySumReg[(checksum, k.0)] == k.1
  {
    var keys := set x | x in s.idBySumReg && x.0 == checksum;
    WalkStrIdsExact(keys);
    ChecksumKeysStored(s, checksum);
    var ks, out := ChecksumKeys(s, checksum), WithChecksum(s, checksum);
    forall i | 0 <= i < |ks| ensures ks[i].0 == checksum { assert ks[i] in keys; }
    forall i, j | 0 <= i < j < |out|
      ensures out[i].0 < out[j].0 || (out[i].0 == out[j].0 && out[i].1 < out[j].1)
    {
      assert StrIdLess(ks[i], ks[j]);
      BelowTotal(checksum, checksum);
    }
    if (checksum, k.0) in s.idBySumReg && s.idBySumReg[(checksum, k.0)] == k.1 {
      assert (checksum, k.0) in ks;
      var i :| 0 <= i < |ks| && ks[i] == (checksum, k.0);
      assert out[i] == k;
    }
    if k in out {
      var i :| 0 <= i < |out| && out[i] == k;
      assert ks[i] == (checksum, k.0);
    }
  }

  /** A list ranges over exactly those keys, in ascending order. */
  lemma ListKeysExact(s: State, req: Request, k: (nat, nat))
    ensures KeysAscend(ListKeys(s, req)) && (k in ListKeys(s, req) <==> InRange(s, req, k))
  {
    if req.registryId != 0 {
      var keys := set x | x in s.latest && x.0 == req.registryId;
      PairsWalked(keys, k);
    } else if req.checksum != [] {
      ChecksumsWalked(s, req.checksum, k);
    } else {
      PairsWalked(s.latest.Keys, k);
    }
  }

  /** A latest version of the registry or checksum asked for, if one is. */
  ghost predicate Wanted(s: State, req: Request, e: Record) {
    && Stored(s, e) && e.isLatest
    && (req.registryId != 0 ==> e.registryId == req.registryId) && (req.checksum != [] ==> e.checksum == req.checksum)
  }

  ghost predicate RecordsAscend(all: seq<Record>) {
    forall i, j :: 0 <= i < j < |all| ==>
      || all[i].registryId < all[j].registryId
      || (all[i].registryId == all[j].registryId && all[i].recordId < all[j].recordId)
  }

  lemma LatestAtKey(env: Env, s: State, req: Request, k: (nat, nat))
    requires Consistent(env, s) && IsList(req) && InRange(s, req, k)
    ensures LatestVersion(s, k).Ok?
    ensures var e := LatestRecord(s, k); (e.registryId, e.recordId) == k && Wanted(s, req, e)
  {
    if req.registryId == 0 && req.checksum != [] { assert (k.0, req.checksum) in s.idByRegSum; }
    assert (k.0, k.1) in s.latest;
    assert (k.0, k.1, s.latest[k]) in s.records;
    AtKey(env, s, (k.0, k.1, s.latest[k]));
  }

  lemma WantedInRange(env: Env, s: State, req: Request, e: Record)
    requires Consistent(env, s) && IsList(req) && Wanted(s, req, e)
    ensures InRange(s, req, (e.registryId, e.recordId)) && LatestVersion(s, (e.registryId, e.recordId)) == Ok(e)
  {
    StoredFits(env, s, e);
    assert (e.registryId, e.checksum) in s.idByRegSum;
    assert (e.checksum, e.registryId) in s.idBySumReg;
  }

  /** A list is the asked-for page of exactly the wanted latest versions, by ascending registry and record id. */
  lemma ListAnswered(env: Env, s: State, req: Request) returns (all: seq<Record>)
    requires Consistent(env, s) && req.recordId == 0 && req.index == 0 && (req.registryId == 0 || req.checksum == [])
    ensures RecordsAscend(all) && (forall e :: e in all <==> Wanted(s, req, e))
    ensures var p := Sanitized(req.pagination); Answer(s, req) == Ok(Page(all, p.offset, p.limit))
  {
    ListsArePages(env, s, req);
    var ks := ListKeys(s, req);
    all := Fetched(s, ks);
    ListKeysExact(s, req, (0, 0));
    forall i | 0 <= i < |ks| ensures (all[i].registryId, all[i].recordId) == ks[i] && Wanted(s, req, all[i]) {
      ListKeysExact(s, req, ks[i]);
      LatestAtKey(env, s, req, ks[i]);
    }
    forall i, j | 0 <= i < j < |all|
      ensures || all[i].registryId < all[j].registryId
              || (all[i].registryId == all[j].registryId && all[i].recordId < all[j].recordId)
    {
      assert (all[i].registryId, all[i].recordId) == ks[i] && (all[j].registryId, all[j].recordId) == ks[j];
    }
    forall e | Wanted(s, req, e) ensures e in all {
      var k := (e.registryId, e.recordId);
      WantedInRange(env, s, req, e);
      ListKeysExact(s, req, k);
      var i :| 0 <= i < |ks| && ks[i] == k;
      assert all[i] == e;
    }
  }
}
