/** Page requests as the queries take them. */
module Paging {
  import opened Bytes
  import opened Types

  const DEFAULT_LIMIT: nat := 50
  const MAX_LIMIT: nat := 200

  /** No request, or a zero limit, asks for the default; no limit passes the maximum; totals are never counted. */
  function Sanitized(pr: Option<PageRequest>): (p: PageRequest)
    ensures 1 <= p.limit <= MAX_LIMIT
    ensures !p.countTotal
    ensures pr.Some? ==> p.key == pr.value.key && p.offset == pr.value.offset && p.reverse == pr.value.reverse
    ensures pr.Some? && 1 <= pr.value.limit <= MAX_LIMIT ==> p.limit == pr.value.limit
    ensures pr.Some? && pr.value.limit == 0 ==> p.limit == 50
    ensures pr.Some? && pr.value.limit > MAX_LIMIT ==> p.limit == 200
    ensures pr.None? ==> p == PageRequest([], 0, 50, false, false)
  {
    var asked := if pr.Some? then pr.value else PageRequest([], 0, 0, false, false);
    var limit := if asked.limit == 0 then DEFAULT_LIMIT else asked.limit;
    asked.(limit := if limit > MAX_LIMIT then MAX_LIMIT else limit, countTotal := false)
  }

  /** xs[offset..offset + limit], cut to what there is. */
  function Page<T>(xs: seq<T>, offset: nat, limit: nat): seq<T> {
    if offset >= |xs| then [] else if offset + limit >= |xs| then xs[offset..] else xs[offset..offset + limit]
  }

  /** A page starts at the offset, holds no more than the limit, and less only at the end of the list. */
  lemma PageIs<T>(xs: seq<T>, offset: nat, limit: nat)
    ensures var page := Page(xs, offset, limit);
      && |page| == (if offset >= |xs| then 0 else if |xs| - offset < limit then |xs| - offset else limit)
      && (forall i :: 0 <= i < |page| ==> page[i] == xs[offset + i])
  {
  }

  /** Pages taken at consecutive offsets, put end to end. */
  function Tiled<T>(xs: seq<T>, limit: nat, pages: nat): seq<T> {
    if pages == 0 then [] else Tiled(xs, limit, pages - 1) + Page(xs, limit * (pages - 1), limit)
  }

  /** They give the list from its start, without gap or repeat, and all of it once they reach its end. */
  lemma {:induction false} PagesTile<T>(xs: seq<T>, limit: nat, pages: nat)
    ensures Tiled(xs, limit, pages) == Page(xs, 0, limit * pages)
    ensures |xs| <= limit * pages ==> Tiled(xs, limit, pages) == xs
  {
    if pages > 0 {
      var k := limit * (pages - 1);
      PagesTile(xs, limit, pages - 1);
      assert limit * pages == k + limit;
      if k >= |xs| {
        assert Tiled(xs, limit, pages) == xs;
      } else if k + limit >= |xs| {
        assert xs[..k] + xs[k..] == xs;
      } else {
        assert xs[..k] + xs[k..k + limit] == xs[..k + limit];
      }
    }
  }
}
