/** Searching the index by name: what matches, one page at a time, and that the pages are everything. */
module NameSearch {
  import opened Bytes
  import opened Walks
  import opened Types
  import opened LiteralSearch
  import opened NameIndex
  import opened Paging

  datatype Mode = Exact | Prefix | Suffix | Contains

  const MIN_CONTAINS := 3
  const MAX_INT64: nat := 0x7fff_ffff_ffff_ffff

  ghost predicate Within(q: Runes, s: Runes) {
    exists k :: 0 <= k <= |s| && q <= s[k..]
  }

  /** The statement's WHERE clause; a phrase finds the names that hold its text in one piece. */
  ghost predicate RowMatches(mode: Mode, lower: Runes, row: Row) {
    match mode
    case Exact => row.nameLower == lower
    case Prefix => Like(EscapeLike(lower) + [PERCENT], row.nameLower)
    case Suffix => Like(EscapeLike(Reverse(lower)) + [PERCENT], row.nameRevLower)
    case Contains => Unquote(FtsPhrase(lower)).Phrase? && Within(Unquote(FtsPhrase(lower)).text, row.nameLower)
  }

  /** What the mode promises about a folded name. */
  ghost predicate NameMatches(mode: Mode, lower: Runes, name: Runes) {
    match mode
    case Exact => name == lower
    case Prefix => lower <= name
    case Suffix => IsSuffix(lower, name)
    case Contains => Within(lower, name)
  }

  /** Every mode finds a name by the whole of it. */
  lemma OwnNameMatches(mode: Mode, name: Runes)
    ensures NameMatches(mode, name, name)
  {
    assert name[0..] == name;
    assert name[|name| - |name|..] == name;
  }

  /** No rune of the query acts as a wildcard, escape or operator. */
  lemma SearchIsLiteral(fold: Fold, cdc: Codec, mode: Mode, lower: Runes, reg: Registry)
    ensures RowMatches(mode, lower, RowOf(fold, cdc, reg)) <==> NameMatches(mode, lower, fold(reg.name))
  {
    PrefixPattern(lower, fold(reg.name));
    SuffixPattern(lower, fold(reg.name));
    PhraseMeansQuery(lower);
  }

  // ---- one page ----

  /** The index as a query sees it: its ids, which of them a mode and name select, and the stored registries. */
  datatype View = View(
    ids: set<nat>, hit: (Mode, Str) -> nat -> bool, data: nat -> Option<Registry>, runeCount: Str -> nat)

  ghost function HitSet(ids: set<nat>, hit: nat -> bool, start: nat): set<nat> {
    set id | id in ids && hit(id) && id >= start
  }

  /** The matching ids from start on, in order. */
  ghost function Hits(ids: set<nat>, hit: nat -> bool, start: nat): seq<nat> {
    WalkIds(HitSet(ids, hit, start))
  }

  datatype Found = Found(ids: seq<nat>, next: nat)

  function Min(a: nat, b: nat): nat { if a < b then a else b }

  /** The page, and the id of the first match after it, 0 when there is none. */
  function FoundIn(rows: seq<nat>, limit: nat): Found {
    if |rows| > limit then Found(rows[..limit], rows[limit]) else Found(rows, 0)
  }

  /** Search: numbers clamped to what the database takes, then LIMIT limit + 1 OFFSET offset. */
  ghost function Search(ids: set<nat>, hit: nat -> bool, start: nat, limit: nat, offset: nat): Found {
    var lim := Min(limit, MAX_INT64 - 1);
    FoundIn(Page(Hits(ids, hit, Min(start, MAX_INT64)), Min(offset, MAX_INT64), lim + 1), lim)
  }

  function Stored(data: nat -> Option<Registry>, ids: seq<nat>): seq<Registry> {
    seq(|ids|, i requires 0 <= i < |ids| => if data(ids[i]).Some? then data(ids[i]).value else NO_REGISTRY)
  }

  predicate Decodes(data: nat -> Option<Registry>, ids: seq<nat>) {
    forall i :: 0 <= i < |ids| ==> data(ids[i]).Some?
  }

  /** Decodes rows up to the limit; the row past it gives the next start. */
  method ReadRows(rows: seq<nat>, limit: nat, data: nat -> Option<Registry>)
    returns (results: Option<seq<Registry>>, next: nat)
    ensures var f := FoundIn(rows, limit);
      && (Decodes(data, f.ids) ==> results == Some(Stored(data, f.ids)) && next == f.next)
      && (!Decodes(data, f.ids) ==> results == None)
  {
    var regs: seq<Registry> := [];
    next := 0;
    var i := 0;
    while i < |rows|
      invariant 0 <= i <= |rows| && i <= limit && next == 0
      invariant Decodes(data, rows[..i]) && regs == Stored(data, rows[..i])
    {
      if |regs| == limit {
        next := rows[i];
        break;
      }
      ghost var f := FoundIn(rows, limit);
      assert f.ids[i] == rows[i];
      var reg := data(rows[i]);
      if reg.None? { return None, 0; }
      regs := regs + [reg.value];
      i := i + 1;
    }
    assert rows[..i] == FoundIn(rows, limit).ids;
    results := Some(regs);
  }

  // ---- following next ----

  ghost predicate Indexable(ids: set<nat>) {
    forall id :: id in ids ==> 1 <= id <= MAX_INT64
  }

  lemma HitsAreWalk(ids: set<nat>, hit: nat -> bool, start: nat)
    ensures IsExactWalk(Hits(ids, hit, start), HitSet(ids, hit, start), IdLess)
  {
    WalkIdsExact(HitSet(ids, hit, start));
  }

  /** The tail of a walk is the walk of the keys from there on. */
  lemma WalkTail(hs: seq<nat>, keys: set<nat>, k: nat, id: nat)
    requires IsWalk(hs, keys, IdLess) && k < |hs|
    ensures id in hs[k..] <==> id in keys && id >= hs[k]
  {
    if id in hs[k..] {
      var i :| 0 <= i < |hs[k..]| && hs[k..][i] == id;
      assert hs[k + i] == id && id in hs;
      assert i > 0 ==> IdLess(hs[k], hs[k + i]);
    }
    if id in keys && id >= hs[k] {
      assert id in hs;
      var i :| 0 <= i < |hs| && hs[i] == id;
      assert i < k ==> IdLess(hs[i], hs[k]);
      assert hs[k..][i - k] == id;
    }
  }

  /** The matches from the k-th match on are the rest of the list. */
  lemma HitsFrom(ids: set<nat>, hit: nat -> bool, start: nat, k: nat)
    requires k < |Hits(ids, hit, start)|
    ensures Hits(ids, hit, Hits(ids, hit, start)[k]) == Hits(ids, hit, start)[k..]
  {
    var hs := Hits(ids, hit, start);
    var next := hs[k];
    HitsAreWalk(ids, hit, start);
    HitsAreWalk(ids, hit, next);
    assert next in hs;
    forall id ensures id in hs[k..] <==> id in HitSet(ids, hit, next) {
      WalkTail(hs, HitSet(ids, hit, start), k, id);
    }
    TailAscends(hs, k);
    OrdersAreStrict();
    WalkIsUnique(hs[k..], Hits(ids, hit, next), HitSet(ids, hit, next), IdLess);
  }

  lemma TailAscends(hs: seq<nat>, k: nat)
    requires Ascending(hs, IdLess) && k <= |hs|
    ensures Ascending(hs[k..], IdLess)
  {
    forall i, j | 0 <= i < j < |hs[k..]| ensures IdLess(hs[k..][i], hs[k..][j]) {
      assert IdLess(hs[k + i], hs[k + j]);
    }
  }

  lemma HitsAreIds(ids: set<nat>, hit: nat -> bool, start: nat, i: nat)
    requires i < |Hits(ids, hit, start)|
    ensures Hits(ids, hit, start)[i] in ids
  {
    HitsAreWalk(ids, hit, start);
    assert Hits(ids, hit, start)[i] in Hits(ids, hit, start);
  }

  // ---- the clamps ----

  lemma {:induction false} AscendsFromOne(hs: seq<nat>, i: nat)
    requires Ascending(hs, IdLess) && i < |hs| && hs[0] >= 1
    ensures hs[i] >= i + 1
  {
    if i > 0 {
      AscendsFromOne(hs, i - 1);
      assert IdLess(hs[i - 1], hs[i]);
    }
  }

  /** There are no more matches than ids the database can hold. */
  lemma HitsAreFew(ids: set<nat>, hit: nat -> bool, start: nat)
    requires Indexable(ids)
    ensures |Hits(ids, hit, start)| <= MAX_INT64
    ensures forall i :: 0 <= i < |Hits(ids, hit, start)| ==> Hits(ids, hit, start)[i] >= 1
  {
    var hs := Hits(ids, hit, start);
    HitsAreWalk(ids, hit, start);
    forall i | 0 <= i < |hs| ensures 1 <= hs[i] <= MAX_INT64 { HitsAreIds(ids, hit, start, i); }
    if hs != [] { AscendsFromOne(hs, |hs| - 1); }
  }

  /** Past the largest id nothing matches; at it, only itself can. */
  lemma LastHits(ids: set<nat>, hit: nat -> bool, start: nat)
    requires Indexable(ids) && start > MAX_INT64
    ensures Hits(ids, hit, start) == []
    ensures Hits(ids, hit, MAX_INT64) == if MAX_INT64 in ids && hit(MAX_INT64) then [MAX_INT64] else []
  {
    HitsAreWalk(ids, hit, start);
    assert HitSet(ids, hit, start) == {};
    HitsAreWalk(ids, hit, MAX_INT64);
    var hs := Hits(ids, hit, MAX_INT64);
    forall i | 0 <= i < |hs| ensures hs[i] == MAX_INT64 { assert hs[i] in hs; }
    if MAX_INT64 in ids && hit(MAX_INT64) {
      assert MAX_INT64 in hs;
      assert |hs| > 1 ==> IdLess(hs[0], hs[1]);
    }
  }

  /** A start beyond the largest id is lowered to it; that shows only if that id matches and is not skipped. */
  ghost predicate StartKept(ids: set<nat>, hit: nat -> bool, start: nat, offset: nat) {
    start <= MAX_INT64 || offset > 0 || !(MAX_INT64 in ids && hit(MAX_INT64))
  }

  /** The offset clamp is never seen, the start clamp exactly where StartKept says. */
  lemma StartClamp(ids: set<nat>, hit: nat -> bool, start: nat, limit: nat, offset: nat)
    requires Indexable(ids)
    ensures var lim := Min(limit, MAX_INT64 - 1);
      Search(ids, hit, start, limit, offset) == FoundIn(Page(Hits(ids, hit, start), offset, lim + 1), lim)
      <==> StartKept(ids, hit, start, offset)
  {
    HitsAreFew(ids, hit, Min(start, MAX_INT64));
    if start > MAX_INT64 { LastHits(ids, hit, start); }
  }

  lemma LimitClamp(hs: seq<nat>, limit: nat, offset: nat)
    requires |hs| <= MAX_INT64 && forall i :: 0 <= i < |hs| ==> hs[i] >= 1
    ensures var lim := Min(limit, MAX_INT64 - 1);
      FoundIn(Page(hs, offset, lim + 1), lim) == FoundIn(Page(hs, offset, limit + 1), limit)
      <==> limit < MAX_INT64 || offset > 0 || |hs| < MAX_INT64
  {
    if limit >= MAX_INT64 {
      assert Page(hs, offset, MAX_INT64) == Page(hs, offset, limit + 1);
    }
  }

  /**
   * Search with clamped numbers is search with the numbers asked for, exactly when start and limit are not
   * seen to change.
   */
  lemma ClampsExactly(ids: set<nat>, hit: nat -> bool, start: nat, limit: nat, offset: nat)
    requires Indexable(ids)
    ensures Search(ids, hit, start, limit, offset) == FoundIn(Page(Hits(ids, hit, start), offset, limit + 1), limit)
      <==> && StartKept(ids, hit, start, offset)
           && (limit < MAX_INT64 || offset > 0 || |Hits(ids, hit, start)| < MAX_INT64)
  {
    StartClamp(ids, hit, start, limit, offset);
    HitsAreFew(ids, hit, start);
    LimitClamp(Hits(ids, hit, start), limit, offset);
    if !StartKept(ids, hit, start, offset) { LastHits(ids, hit, start); }
  }

  // ---- a page and the rest ----

  /** What a request asks for: the matches from start on, the first `offset` of them skipped. */
  ghost function Asked(ids: set<nat>, hit: nat -> bool, start: nat, offset: nat): seq<nat> {
    var hs := Hits(ids, hit, start);
    hs[Min(offset, |hs|)..]
  }

  /** The page is the head of what was asked for, and what `next` starts is the rest. */
  ghost predicate PageSplits(ids: set<nat>, hit: nat -> bool, start: nat, limit: nat, offset: nat) {
    var f, all := Search(ids, hit, start, limit, offset), Asked(ids, hit, start, offset);
    if f.next == 0 then f.ids == all
    else
      && |f.ids| == Min(limit, MAX_INT64 - 1) < |all|
      && f.next <= MAX_INT64 && f.ids + Asked(ids, hit, f.next, 0) == all
  }

  lemma FoundSplits(ids: set<nat>, hit: nat -> bool, start: nat, lim: nat, offset: nat)
    requires Indexable(ids)
    ensures var f, all := FoundIn(Page(Hits(ids, hit, start), offset, lim + 1), lim), Asked(ids, hit, start, offset);
      if f.next == 0 then f.ids == all
      else |f.ids| == lim < |all| && f.next <= MAX_INT64 && f.ids + Asked(ids, hit, f.next, 0) == all
  {
    var hs, all := Hits(ids, hit, start), Asked(ids, hit, start, offset);
    HitsAreFew(ids, hit, start);
    if |all| > lim {
      assert Page(hs, offset, lim + 1)[lim] == hs[offset + lim];
      HitsAreIds(ids, hit, start, offset + lim);
      HitsFrom(ids, hit, start, offset + lim);
      assert all == hs[offset..offset + lim] + hs[offset + lim..];
    }
  }

  /**
   * For every start, limit and offset: a page and what `next` starts are what was asked for, exactly when the
   * start is kept.
   */
  lemma PageAndRest(ids: set<nat>, hit: nat -> bool, start: nat, limit: nat, offset: nat)
    requires Indexable(ids) && limit >= 1
    ensures PageSplits(ids, hit, start, limit, offset) <==> StartKept(ids, hit, start, offset)
  {
    StartClamp(ids, hit, start, limit, offset);
    FoundSplits(ids, hit, start, Min(limit, MAX_INT64 - 1), offset);
    if !StartKept(ids, hit, start, offset) { LastHits(ids, hit, start); }
  }

  // ---- the query ----

  datatype Status = NotEnabled | NameMissing | BothOffsetAndKey | InvalidKey | TooShort | Internal

  datatype Response = Refused(status: Status) | Registries(registries: seq<Registry>, nextKey: Str)

  function StartOf(key: Str): nat { if key == [] then 0 else Num(key) }

  ghost function Query(index: Option<View>, mode: Mode, name: Str, pagination: Option<PageRequest>): Response {
    if index.None? then Refused(NotEnabled)
    else if name == [] then Refused(NameMissing)
    else
      var p, view := Sanitized(pagination), index.value;
      if p.key != [] && p.offset != 0 then Refused(BothOffsetAndKey)
      else if p.key != [] && |p.key| != 8 then Refused(InvalidKey)
      else if mode == Contains && view.runeCount(name) < MIN_CONTAINS then Refused(TooShort)
      else
        var f := Search(view.ids, view.hit(mode, name), StartOf(p.key), p.limit, p.offset);
        if !Decodes(view.data, f.ids) then Refused(Internal)
        else Registries(Stored(view.data, f.ids), if f.next == 0 then [] else BigEndian(f.next, 8))
  }

  /** The name can be asked for, and every row decodes. */
  ghost predicate Answers(view: View, mode: Mode, name: Str) {
    && Indexable(view.ids) && name != []
    && (mode == Contains ==> view.runeCount(name) >= MIN_CONTAINS)
    && (forall id :: id in view.ids ==> view.data(id).Some?)
  }

  /** A key the server takes, with the offset it then allows. */
  predicate Takes(p: PageRequest) {
    p.key == [] || (|p.key| == 8 && p.offset == 0)
  }

  /** The key is none, or one the server gives out. */
  predicate Given(key: Str) {
    key == [] || (|key| == 8 && Num(key) <= MAX_INT64)
  }

  lemma RowsDecode(view: View, mode: Mode, name: Str, start: nat, limit: nat, offset: nat)
    requires forall id :: id in view.ids ==> view.data(id).Some?
    ensures Decodes(view.data, Search(view.ids, view.hit(mode, name), start, limit, offset).ids)
  {
    var hit, from := view.hit(mode, name), Min(start, MAX_INT64);
    var hs, f := Hits(view.ids, hit, from), Search(view.ids, hit, start, limit, offset);
    forall i | 0 <= i < |f.ids| ensures view.data(f.ids[i]).Some? {
      var at := Min(offset, MAX_INT64) + i;
      assert f.ids[i] == hs[at];
      HitsAreIds(view.ids, hit, from, at);
    }
  }

  /**
   * On a node with an index whose rows decode, a search is answered exactly when a name is given, of three runes
   * or more for CONTAINS, with no key or with one of 8 bytes and no offset; without an index it never is.
   */
  lemma AnsweredExactly(index: Option<View>, mode: Mode, name: Str, pagination: Option<PageRequest>)
    requires index.Some? ==> forall id :: id in index.value.ids ==> index.value.data(id).Some?
    ensures var r := Query(index, mode, name, pagination);
      && (r.Registries? <==>
            && index.Some? && name != [] && (mode == Contains ==> index.value.runeCount(name) >= 3)
            && (pagination.Some? && pagination.value.key != [] ==>
                  |pagination.value.key| == 8 && pagination.value.offset == 0))
      && (r == Refused(NotEnabled) <==> index.None?)
      && (r == Refused(NameMissing) <==> index.Some? && name == [])
      && (r == Refused(TooShort) ==> mode == Contains && index.value.runeCount(name) < 3)
  {
    if index.Some? {
      var view, p := index.value, Sanitized(pagination);
      RowsDecode(view, mode, name, StartOf(p.key), p.limit, p.offset);
    }
  }

  lemma StoredJoins(data: nat -> Option<Registry>, a: seq<nat>, b: seq<nat>)
    ensures Stored(data, a + b) == Stored(data, a) + Stored(data, b)
  {
  }

  /** What a request asks of the view. */
  ghost function AskedBy(view: View, mode: Mode, name: Str, p: PageRequest): seq<nat> {
    Asked(view.ids, view.hit(mode, name), StartOf(p.key), p.offset)
  }

  /** The clamp of the request's start is not seen. */
  ghost predicate Kept(view: View, mode: Mode, name: Str, p: PageRequest) {
    StartKept(view.ids, view.hit(mode, name), StartOf(p.key), p.offset)
  }

  /** The answer's registries are the head of what was asked for, and its next key asks for the rest. */
  ghost predicate QuerySplits(view: View, mode: Mode, name: Str, p: PageRequest) {
    var r, all := Query(Some(view), mode, name, Some(p)), AskedBy(view, mode, name, p);
    && r.Registries? && Given(r.nextKey)
    && if r.nextKey == [] then r.registries == Stored(view.data, all)
       else
         var rest := Asked(view.ids, view.hit(mode, name), StartOf(r.nextKey), 0);
         |rest| < |all| && r.registries + Stored(view.data, rest) == Stored(view.data, all)
  }

  lemma QueryIsSearch(view: View, mode: Mode, name: Str, p: PageRequest) returns (f: Found, n: nat)
    requires Answers(view, mode, name) && Takes(p)
    ensures 1 <= n <= MAX_LIMIT && f == Search(view.ids, view.hit(mode, name), StartOf(p.key), n, p.offset)
    ensures Query(Some(view), mode, name, Some(p))
         == Registries(Stored(view.data, f.ids), if f.next == 0 then [] else BigEndian(f.next, 8))
  {
    n := Sanitized(Some(p)).limit;
    f := Search(view.ids, view.hit(mode, name), StartOf(p.key), n, p.offset);
    RowsDecode(view, mode, name, StartOf(p.key), n, p.offset);
  }

  lemma SplitsCarry(view: View, mode: Mode, name: Str, p: PageRequest)
    requires Answers(view, mode, name) && Takes(p) && Kept(view, mode, name, p)
    ensures QuerySplits(view, mode, name, p)
  {
    var hit := view.hit(mode, name);
    var f, n := QueryIsSearch(view, mode, name, p);
    PageAndRest(view.ids, hit, StartOf(p.key), n, p.offset);
    if f.next != 0 {
      Pow256Eight();
      NumOfBigEndian(f.next, 8);
      StoredJoins(view.data, f.ids, Asked(view.ids, hit, f.next, 0));
    }
  }

  /** A key beyond the largest id is answered with that id's registry, if it matches: nothing was asked for. */
  lemma PastTheEndAnswered(view: View, mode: Mode, name: Str, p: PageRequest)
    requires Answers(view, mode, name) && Takes(p) && p.key != [] && Num(p.key) > MAX_INT64
    requires MAX_INT64 in view.ids && view.hit(mode, name)(MAX_INT64)
    ensures AskedBy(view, mode, name, p) == []
    ensures Query(Some(view), mode, name, Some(p)) == Registries([view.data(MAX_INT64).value], [])
  {
    var f, n := QueryIsSearch(view, mode, name, p);
    LastHits(view.ids, view.hit(mode, name), StartOf(p.key));
    assert f == Found([MAX_INT64], 0);
    assert Stored(view.data, [MAX_INT64]) == [view.data(MAX_INT64).value];
  }

  /**
   * For every request the server takes: its answer and its next key split what was asked for, exactly when
   * the start is kept.
   */
  lemma QueryPages(view: View, mode: Mode, name: Str, p: PageRequest)
    requires Answers(view, mode, name) && Takes(p)
    ensures QuerySplits(view, mode, name, p) <==> Kept(view, mode, name, p)
  {
    if Kept(view, mode, name, p) {
      SplitsCarry(view, mode, name, p);
    } else {
      PastTheEndAnswered(view, mode, name, p);
    }
  }

  // ---- following next ----

  /** A first request whose pages can be followed. */
  ghost predicate Starts(view: View, mode: Mode, name: Str, p: PageRequest) {
    Answers(view, mode, name) && Takes(p) && Kept(view, mode, name, p)
  }

  /** Everything a client collects by sending each next key back, with any limit on each request. */
  ghost function Followed(view: View, mode: Mode, name: Str, p: PageRequest, limits: nat -> nat, n: nat): seq<Registry>
    requires Starts(view, mode, name, p)
    decreases |AskedBy(view, mode, name, p)|
  {
    QueryPages(view, mode, name, p);
    var r := Query(Some(view), mode, name, Some(p));
    if r.nextKey == [] then r.registries
    else r.registries + Followed(view, mode, name, p.(key := r.nextKey, offset := 0, limit := limits(n)), limits, n + 1)
  }

  /** Following next keys ends, and returns every match past the offset once, in ascending order of id. */
  lemma {:induction false} FollowingFindsAll(view: View, mode: Mode, name: Str, p: PageRequest, limits: nat -> nat,
                                             n: nat)
    requires Starts(view, mode, name, p)
    ensures Followed(view, mode, name, p, limits, n) == Stored(view.data, AskedBy(view, mode, name, p))
    decreases |AskedBy(view, mode, name, p)|
  {
    QueryPages(view, mode, name, p);
    var r := Query(Some(view), mode, name, Some(p));
    if r.nextKey != [] {
      FollowingFindsAll(view, mode, name, p.(key := r.nextKey, offset := 0, limit := limits(n)), limits, n + 1);
    }
  }
}
