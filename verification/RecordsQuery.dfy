/** The Records query: one version, or a page of latest versions in key order. */
module RecordsQuery {
  import opened Bytes
  import opened Walks
  import opened Types
  import opened Messages
  import opened Bookkeeping
  import opened Paging

  datatype Request = Request(registryId: nat, checksum: Str, recordId: nat, index: nat, pagination: Option<PageRequest>)

  // ---- what it answers ----

  function Version(s: State, r: nat, i: nat, index: nat): Result<Record> {
    if (r, i, index) in s.records then Ok(s.records[(r, i, index)]) else Err(NotFound)
  }

  function LatestVersion(s: State, k: (nat, nat)): Result<Record> {
    if k in s.latest then Version(s, k.0, k.1, s.latest[k]) else Err(NotFound)
  }

  /** The latest versions under these keys; the first one missing is the answer instead. */
  function LatestVersions(s: State, ks: seq<(nat, nat)>): Result<seq<Record>>
    decreases |ks|
  {
    if ks == [] then Ok([]) else
      match LatestVersions(s, ks[..|ks| - 1])
      case Err(e) => Err(e)
      case Ok(rs) =>
        match LatestVersion(s, ks[|ks| - 1])
        case Err(e) => Err(e)
        case Ok(r) => Ok(rs + [r])
  }

  function InRegistry(s: State, r: nat): seq<(nat, nat)> {
    WalkPairs(set k | k in s.latest && k.0 == r)
  }

  function Everywhere(s: State): seq<(nat, nat)> {
    WalkPairs(s.latest.Keys)
  }

  function ChecksumKeys(s: State, checksum: Str): seq<(Str, nat)> {
    WalkStrIds(set k | k in s.idBySumReg && k.0 == checksum)
  }

  /** Registry and record of each entry of the checksum, by registry. */
  function Under(s: State, ks: seq<(Str, nat)>): seq<(nat, nat)>
    requires forall i :: 0 <= i < |ks| ==> ks[i] in s.idBySumReg
  {
    seq(|ks|, i requires 0 <= i < |ks| => (ks[i].1, s.idBySumReg[ks[i]]))
  }

  lemma ChecksumKeysStored(s: State, checksum: Str)
    ensures forall i :: 0 <= i < |ChecksumKeys(s, checksum)| ==> ChecksumKeys(s, checksum)[i] in s.idBySumReg
  {
    var keys := set k | k in s.idBySumReg && k.0 == checksum;
    WalkStrIdsExact(keys);
    var ks := ChecksumKeys(s, checksum);
    forall i | 0 <= i < |ks| ensures ks[i] in s.idBySumReg {
      assert ks[i] in ks;
    }
  }

  function WithChecksum(s: State, checksum: Str): seq<(nat, nat)> {
    ChecksumKeysStored(s, checksum);
    Under(s, ChecksumKeys(s, checksum))
  }

  /** The keys a list request ranges over. */
  function ListKeys(s: State, req: Request): seq<(nat, nat)> {
    if req.registryId != 0 then InRegistry(s, req.registryId)
    else if req.checksum != [] then WithChecksum(s, req.checksum)
    else Everywhere(s)
  }

  predicate Malformed(req: Request) {
    || (req.recordId != 0 && req.registryId == 0)
    || (req.index != 0 && (req.registryId == 0 || (req.recordId == 0 && req.checksum == [])))
  }

  predicate IsList(req: Request) {
    req.registryId == 0 || (req.recordId == 0 && req.checksum == [])
  }

  function Answer(s: State, req: Request): Result<seq<Record>> {
    if Malformed(req) then Err(InvalidRequest)
    else if IsList(req) then
      var p := Sanitized(req.pagination);
      LatestVersions(s, Page(ListKeys(s, req), p.offset, p.limit))
    else if req.recordId == 0 && (req.registryId, req.checksum) !in s.idByRegSum then Err(NotFound)
    else
      var id := if req.recordId == 0 then s.idByRegSum[(req.registryId, req.checksum)] else req.recordId;
      var p := Sanitized(req.pagination);
      if id == 0 then LatestVersions(s, Page(InRegistry(s, req.registryId), p.offset, p.limit))
      else
        match (if req.index == 0 then LatestVersion(s, (req.registryId, id))
               else Version(s, req.registryId, id, req.index))
        case Err(e) => Err(e)
        case Ok(r) => Ok([r])
  }

  // ---- how it walks ----

  class Paginator {
    var offset: nat
    var limit: nat
    var seen: nat
    var collected: nat

    constructor (pagination: Option<PageRequest>)
      ensures offset == Sanitized(pagination).offset && limit == Sanitized(pagination).limit
      ensures seen == 0 && collected == 0
    {
      var p := Sanitized(pagination);
      offset, limit, seen, collected := p.offset, p.limit, 0, 0;
    }

    /** n keys passed without a stop: those from the offset on were included, and the page is not full. */
    ghost predicate At(n: nat)
      reads this
    {
      seen == n && limit >= 1 && collected == (if n < offset then 0 else n - offset) && collected < limit
    }

    /**
     * Counts one key: skip it before the offset, take it while there is room, stop on the last; a full page
     * stops at once.
     */
    method Step() returns (take: bool, stop: bool)
      modifies `seen, `collected
      ensures take <==> offset <= old(seen) && old(collected) < limit
      ensures stop <==> offset <= old(seen) && limit <= old(collected) + 1
      ensures collected == old(collected) + (if take then 1 else 0)
      ensures seen == old(seen) + (if old(seen) < offset || take then 1 else 0)
      ensures old(At(seen)) ==> (take <==> offset <= old(seen)) && (stop <==> offset + limit <= old(seen) + 1)
      ensures old(At(seen)) ==> seen == old(seen) + 1 && (!stop ==> At(seen))
    {
      if seen < offset {
        seen := seen + 1;
        return false, false;
      }
      if collected < limit {
        seen := seen + 1;
        collected := collected + 1;
        if collected == limit { return true, true; }
        return true, false;
      }
      return false, true;
    }
  }

  lemma PageGrows<T>(xs: seq<T>, n: nat, offset: nat, limit: nat)
    requires n < |xs| && limit >= 1 && n < offset + limit
    ensures Page(xs[..n + 1], offset, limit) == Page(xs[..n], offset, limit) + (if offset <= n then [xs[n]] else [])
    ensures n + 1 >= offset + limit ==> Page(xs[..n + 1], offset, limit) == Page(xs, offset, limit)
  {
    if offset <= n { assert xs[..n + 1][offset..] == xs[..n][offset..] + [xs[n]]; }
  }

  lemma LatestVersionsMore(s: State, ks: seq<(nat, nat)>, k: (nat, nat))
    ensures LatestVersions(s, ks + [k]) ==
      (match LatestVersions(s, ks)
       case Err(e) => Err(e)
       case Ok(rs) => match LatestVersion(s, k) case Err(e) => Err(e) case Ok(r) => Ok(rs + [r]))
  {
    assert (ks + [k])[..|ks|] == ks;
  }

  lemma {:induction false} LatestVersionsFail(s: State, ks: seq<(nat, nat)>, n: nat)
    requires n <= |ks| && LatestVersions(s, ks[..n]).Err?
    ensures LatestVersions(s, ks) == LatestVersions(s, ks[..n])
    decreases |ks|
  {
    if n < |ks| {
      var most := ks[..|ks| - 1];
      assert most[..n] == ks[..n];
      LatestVersionsFail(s, most, n);
    } else {
      assert ks[..n] == ks;
    }
  }

  /** Keys of the page among the first n are a prefix of the page. */
  lemma PagePrefix<T>(xs: seq<T>, n: nat, offset: nat, limit: nat)
    requires n <= |xs|
    ensures Page(xs[..n], offset, limit) <= Page(xs, offset, limit)
  {
  }

  /** The walk so far has fetched the page's keys among the first n. */
  ghost predicate Collected(s: State, ks: seq<(nat, nat)>, n: nat, offset: nat, limit: nat, records: seq<Record>) {
    n <= |ks| && LatestVersions(s, Page(ks[..n], offset, limit)) == Ok(records)
  }

  lemma CollectedNext(s: State, ks: seq<(nat, nat)>, n: nat, offset: nat, limit: nat, records: seq<Record>)
    requires Collected(s, ks, n, offset, limit, records) && n < |ks| && limit >= 1 && n < offset + limit
    ensures n < offset ==> Collected(s, ks, n + 1, offset, limit, records)
    ensures offset <= n && LatestVersion(s, ks[n]).Ok? ==>
      Collected(s, ks, n + 1, offset, limit, records + [LatestVersion(s, ks[n]).value])
    ensures offset <= n && LatestVersion(s, ks[n]).Err? ==>
      LatestVersions(s, Page(ks, offset, limit)) == Err(LatestVersion(s, ks[n]).error)
    ensures n + 1 >= offset + limit ==> Page(ks[..n + 1], offset, limit) == Page(ks, offset, limit)
  {
    var before := Page(ks[..n], offset, limit);
    PageGrows(ks, n, offset, limit);
    LatestVersionsMore(s, before, ks[n]);
    if n < offset { assert before + [] == before; }
    if offset <= n && LatestVersion(s, ks[n]).Err? {
      PagePrefix(ks, n + 1, offset, limit);
      var page, done := Page(ks, offset, limit), Page(ks[..n + 1], offset, limit);
      assert page[..|done|] == done;
      LatestVersionsFail(s, page, |done|);
    }
  }

  /** Walks the latest-version index, fetching as it goes. */
  method CollectLatest(s: State, ks: seq<(nat, nat)>, pagination: Option<PageRequest>) returns (r: Result<seq<Record>>)
    ensures r == LatestVersions(s, Page(ks, Sanitized(pagination).offset, Sanitized(pagination).limit))
  {
    var p := new Paginator(pagination);
    ghost var offset, limit := p.offset, p.limit;
    var records: seq<Record>, i := [], 0;
    while i < |ks|
      invariant 0 <= i <= |ks| && p.At(i) && p.offset == offset && p.limit == limit
      invariant Collected(s, ks, i, offset, limit, records)
    {
      CollectedNext(s, ks, i, offset, limit, records);
      var take, stop := p.Step();
      if take {
        var record := LatestVersion(s, ks[i]);
        if record.Err? { return Err(record.error); }
        records := records + [record.value];
      }
      i := i + 1;
      if stop { return Ok(records); }
    }
    assert ks[..i] == ks;
    r := Ok(records);
  }

  /** Walks the checksum index, selecting first and fetching afterwards. */
  method SelectKeys<T>(ks: seq<T>, pagination: Option<PageRequest>) returns (selected: seq<T>)
    ensures selected == Page(ks, Sanitized(pagination).offset, Sanitized(pagination).limit)
  {
    var p := new Paginator(pagination);
    var i := 0;
    selected := [];
    while i < |ks|
      invariant 0 <= i <= |ks| && p.At(i) && p.offset == Sanitized(pagination).offset
      invariant p.limit == Sanitized(pagination).limit
      invariant selected == Page(ks[..i], p.offset, p.limit)
    {
      var take, stop := p.Step();
      PageGrows(ks, i, p.offset, p.limit);
      if take { selected := selected + [ks[i]]; }
      i := i + 1;
      if stop { return; }
    }
    assert ks[..i] == ks;
  }

  method FetchLatest(s: State, ks: seq<(nat, nat)>) returns (r: Result<seq<Record>>)
    ensures r == LatestVersions(s, ks)
  {
    var records: seq<Record> := [];
    for i := 0 to |ks|
      invariant LatestVersions(s, ks[..i]) == Ok(records)
    {
      assert ks[..i + 1] == ks[..i] + [ks[i]];
      LatestVersionsMore(s, ks[..i], ks[i]);
      var record := LatestVersion(s, ks[i]);
      if record.Err? {
        LatestVersionsFail(s, ks, i + 1);
        return Err(record.error);
      }
      records := records + [record.value];
    }
    assert ks[..|ks|] == ks;
    r := Ok(records);
  }

  method Records(s: State, req: Request) returns (r: Result<seq<Record>>)
    ensures r == Answer(s, req)
  {
    if req.recordId != 0 && req.registryId == 0 { return Err(InvalidRequest); }
    if req.index != 0 && (req.registryId == 0 || (req.recordId == 0 && req.checksum == [])) {
      return Err(InvalidRequest);
    }
    var id := req.recordId;
    if id == 0 && req.checksum != [] && req.registryId != 0 {
      if (req.registryId, req.checksum) !in s.idByRegSum { return Err(NotFound); }
      id := s.idByRegSum[(req.registryId, req.checksum)];
    }
    if req.registryId != 0 && id != 0 {
      var record := if req.index == 0 then LatestVersion(s, (req.registryId, id))
                    else Version(s, req.registryId, id, req.index);
      if record.Err? { return Err(record.error); }
      return Ok([record.value]);
    }
    if req.registryId != 0 {
      r := CollectLatest(s, InRegistry(s, req.registryId), req.pagination);
      return;
    }
    if req.checksum != [] {
      ChecksumKeysStored(s, req.checksum);
      var ks := ChecksumKeys(s, req.checksum);
      var selected := SelectKeys(Under(s, ks), req.pagination);
      r := FetchLatest(s, selected);
      return;
    }
    r := CollectLatest(s, Everywhere(s), req.pagination);
  }

  // ---- in every reachable state ----

  /** The record a key's latest version stands for. */
  function LatestRecord(s: State, k: (nat, nat)): Record
    requires LatestVersion(s, k).Ok?
  {
    LatestVersion(s, k).value
  }

  ghost predicate AllStored(s: State, ks: seq<(nat, nat)>) {
    forall i :: 0 <= i < |ks| ==> LatestVersion(s, ks[i]).Ok?
  }

  function Fetched(s: State, ks: seq<(nat, nat)>): seq<Record>
    requires AllStored(s, ks)
  {
    seq(|ks|, i requires 0 <= i < |ks| => LatestRecord(s, ks[i]))
  }

  lemma {:induction false} StoredVersionsFetch(s: State, ks: seq<(nat, nat)>)
    requires AllStored(s, ks)
    ensures LatestVersions(s, ks) == Ok(Fetched(s, ks))
    decreases |ks|
  {
    if ks != [] {
      var most, last := ks[..|ks| - 1], ks[|ks| - 1];
      StoredVersionsFetch(s, most);
      assert Fetched(s, ks) == Fetched(s, most) + [LatestRecord(s, last)];
    }
  }

  lemma LatestIsStored(env: Env, s: State, k: (nat, nat))
    requires Consistent(env, s) && k in s.latest
    ensures LatestVersion(s, k).Ok? && LatestRecord(s, k).isLatest
    ensures LatestRecord(s, k).registryId == k.0 && LatestRecord(s, k).recordId == k.1
  {
    assert (k.0, k.1, s.latest[k]) in s.records;
  }

  /** Every key a list ranges over has a latest version. */
  lemma ListKeysStored(env: Env, s: State, req: Request)
    requires Consistent(env, s) && IsList(req)
    ensures AllStored(s, ListKeys(s, req))
  {
    var ks := ListKeys(s, req);
    if req.registryId != 0 {
      WalkPairsExact(set k | k in s.latest && k.0 == req.registryId);
      forall i | 0 <= i < |ks| ensures LatestVersion(s, ks[i]).Ok? {
        assert ks[i] in ks;
        LatestIsStored(env, s, ks[i]);
      }
    } else if req.checksum != [] {
      ChecksumKeysStored(s, req.checksum);
      forall i | 0 <= i < |ks| ensures LatestVersion(s, ks[i]).Ok? {
        var c := ChecksumKeys(s, req.checksum)[i];
        assert (c.1, c.0) in s.idByRegSum;
        LatestIsStored(env, s, ks[i]);
      }
    } else {
      WalkPairsExact(s.latest.Keys);
      forall i | 0 <= i < |ks| ensures LatestVersion(s, ks[i]).Ok? {
        assert ks[i] in ks;
        LatestIsStored(env, s, ks[i]);
      }
    }
  }

  /** A checksum within a registry finds its record's latest version, and an unknown one nothing. */
  lemma ChecksumFindsLatest(env: Env, s: State, r: nat, checksum: Str, pagination: Option<PageRequest>)
    requires Consistent(env, s) && r != 0 && checksum != []
    ensures var a := Answer(s, Request(r, checksum, 0, 0, pagination));
      if (r, checksum) in s.idByRegSum
      then
        && a.Ok? && |a.value| == 1 && a.value[0].isLatest
        && a.value[0].registryId == r && a.value[0].checksum == checksum
      else a == Err(NotFound)
  {
    if (r, checksum) in s.idByRegSum {
      var k := (r, s.idByRegSum[(r, checksum)]);
      LatestIsStored(env, s, k);
      var e := LatestRecord(s, k);
      assert VersionFits(s.latest, s.idByRegSum, k.0, k.1, s.latest[k], e);
    }
  }

  lemma PageOfFetched(s: State, ks: seq<(nat, nat)>, offset: nat, limit: nat)
    requires AllStored(s, ks)
    ensures AllStored(s, Page(ks, offset, limit))
    ensures Fetched(s, Page(ks, offset, limit)) == Page(Fetched(s, ks), offset, limit)
  {
  }

  /** A list never fails, and is the asked-for page of all the latest versions in key order. */
  lemma ListsArePages(env: Env, s: State, req: Request)
    requires Consistent(env, s) && IsList(req) && !Malformed(req)
    ensures AllStored(s, ListKeys(s, req))
    ensures var p := Sanitized(req.pagination);
            Answer(s, req) == Ok(Page(Fetched(s, ListKeys(s, req)), p.offset, p.limit))
  {
    var p := Sanitized(req.pagination);
    ListKeysStored(env, s, req);
    PageOfFetched(s, ListKeys(s, req), p.offset, p.limit);
    StoredVersionsFetch(s, Page(ListKeys(s, req), p.offset, p.limit));
  }

  /** The same request for another page. */
  function AtOffset(req: Request, offset: nat, limit: nat): Request {
    req.(pagination := Some(Sanitized(req.pagination).(offset := offset, limit := limit)))
  }

  /** The records of list requests at offsets 0, limit, 2 * limit and so on, put end to end. */
  function Paged(s: State, req: Request, limit: nat, pages: nat): Result<seq<Record>> {
    if pages == 0 then Ok([]) else
      match Paged(s, req, limit, pages - 1)
      case Err(e) => Err(e)
      case Ok(rs) =>
        match Answer(s, AtOffset(req, limit * (pages - 1), limit))
        case Err(e) => Err(e)
        case Ok(more) => Ok(rs + more)
  }

  /** One page of a list, at an offset and with a limit the server takes. */
  lemma PageAnswered(env: Env, s: State, req: Request, offset: nat, limit: nat, all: seq<Record>)
    requires Consistent(env, s) && IsList(req) && !Malformed(req) && 1 <= limit <= MAX_LIMIT
    requires AllStored(s, ListKeys(s, req)) && all == Fetched(s, ListKeys(s, req))
    ensures Answer(s, AtOffset(req, offset, limit)) == Ok(Page(all, offset, limit))
  {
    ListsArePages(env, s, AtOffset(req, offset, limit));
  }

  lemma {:induction false} PagedTiles(s: State, req: Request, limit: nat, pages: nat, all: seq<Record>)
    requires forall offset :: Answer(s, AtOffset(req, offset, limit)) == Ok(Page(all, offset, limit))
    ensures Paged(s, req, limit, pages) == Ok(Tiled(all, limit, pages))
    decreases pages
  {
    if pages > 0 { PagedTiles(s, req, limit, pages - 1, all); }
  }

  /** In every run from empty genesis, enough consecutive pages are the full list: no gap, no repeat. */
  lemma RunsTile(env: Env, params: Params, txs: seq<Tx>, req: Request, limit: nat, pages: nat)
    requires IsList(req) && !Malformed(req) && 1 <= limit <= MAX_LIMIT
    requires |ListKeys(Run(env, EmptyState(params), txs), req)| <= limit * pages
    ensures var s := Run(env, EmptyState(params), txs);
      AllStored(s, ListKeys(s, req)) && Paged(s, req, limit, pages) == Ok(Fetched(s, ListKeys(s, req)))
  {
    var s := Run(env, EmptyState(params), txs);
    RunsAreConsistent(env, params, txs);
    ListKeysStored(env, s, req);
    var all := Fetched(s, ListKeys(s, req));
    forall offset ensures Answer(s, AtOffset(req, offset, limit)) == Ok(Page(all, offset, limit)) {
      PageAnswered(env, s, req, offset, limit, all);
    }
    PagedTiles(s, req, limit, pages, all);
    PagesTile(all, limit, pages);
  }
}
