/** Store walks: the keys of a collection, each once, in ascending order. */
module Walks {
  import opened Bytes

  ghost predicate StrictOrder<K(!new)>(less: (K, K) -> bool) {
    && (forall a: K :: !less(a, a))
    && (forall a: K, b: K :: less(a, b) || a == b || less(b, a))
    && (forall a: K, b: K, c: K :: less(a, b) && less(b, c) ==> less(a, c))
  }

  ghost predicate Ascending<K>(ks: seq<K>, less: (K, K) -> bool) {
    forall i, j :: 0 <= i < j < |ks| ==> less(ks[i], ks[j])
  }

  /** ks visits exactly `keys`, in ascending order. */
  ghost predicate IsWalk<K(!new)>(ks: seq<K>, keys: set<K>, less: (K, K) -> bool) {
    Ascending(ks, less) && forall k :: k in ks <==> k in keys
  }

  ghost predicate NoDup<T(!new)>(xs: seq<T>) {
    forall i, j :: 0 <= i < j < |xs| ==> xs[i] != xs[j]
  }

  lemma {:induction false} LeastExists<K(!new)>(keys: set<K>, less: (K, K) -> bool)
    requires StrictOrder(less) && keys != {}
    ensures exists m :: m in keys && forall k :: k in keys && k != m ==> less(m, k)
    decreases |keys|
  {
    var x :| x in keys;
    if keys != {x} {
      var rest := keys - {x};
      LeastExists(rest, less);
      var m :| m in rest && forall k :: k in rest && k != m ==> less(m, k);
      var least := if less(x, m) then x else m;
      assert forall k :: k in keys && k != least ==> k in rest || k == x;
      assert forall k :: k in keys && k != least ==> less(least, k);
    }
  }

  /** The walk over `keys`. */
  function Sorted<K(==, !new)>(keys: set<K>, less: (K, K) -> bool): (ks: seq<K>)
    requires StrictOrder(less)
    decreases |keys|
  {
    if keys == {} then [] else
      LeastExists(keys, less);
      var m :| m in keys && forall k :: k in keys && k != m ==> less(m, k);
      [m] + Sorted(keys - {m}, less)
  }

  ghost predicate IsExactWalk<K(!new)>(ks: seq<K>, keys: set<K>, less: (K, K) -> bool) {
    IsWalk(ks, keys, less) && NoDup(ks) && |ks| == |keys|
  }

  lemma ConsWalk<K(!new)>(m: K, rest: seq<K>, keys: set<K>, less: (K, K) -> bool)
    requires StrictOrder(less) && m in keys && (forall k :: k in keys && k != m ==> less(m, k))
    requires IsExactWalk(rest, keys - {m}, less)
    ensures IsExactWalk([m] + rest, keys, less)
  {
    var ks := [m] + rest;
    forall k ensures k in ks <==> k in keys {
      if k in keys && k != m { assert k in rest; }
      if k in rest { assert k in keys - {m}; }
    }
    forall i, j | 0 <= i < j < |ks| ensures less(ks[i], ks[j]) && ks[i] != ks[j] {
      assert ks[j] == rest[j - 1] && rest[j - 1] in rest && rest[j - 1] in keys - {m};
      if i > 0 { assert ks[i] == rest[i - 1]; }
    }
  }

  lemma {:induction false} SortedIsWalk<K(!new)>(keys: set<K>, less: (K, K) -> bool)
    requires StrictOrder(less)
    ensures IsExactWalk(Sorted(keys, less), keys, less)
    decreases |keys|
  {
    if keys != {} {
      LeastExists(keys, less);
      var m :| m in keys && forall k :: k in keys && k != m ==> less(m, k);
      assert Sorted(keys, less) == [m] + Sorted(keys - {m}, less);
      SortedIsWalk(keys - {m}, less);
      ConsWalk(m, Sorted(keys - {m}, less), keys, less);
    }
  }

  lemma {:induction false} WalkIsUnique<K(!new)>(a: seq<K>, b: seq<K>, keys: set<K>, less: (K, K) -> bool)
    requires StrictOrder(less) && IsWalk(a, keys, less) && IsWalk(b, keys, less)
    ensures a == b
    decreases |a|
  {
    assert a != [] ==> a[0] in keys;
    assert b != [] ==> b[0] in keys;
    if a != [] {
      assert a[0] == b[0];
      var rest := keys - {a[0]};
      TailIsWalk(a, keys, less);
      TailIsWalk(b, keys, less);
      WalkIsUnique(a[1..], b[1..], rest, less);
      assert a == [a[0]] + a[1..] && b == [b[0]] + b[1..];
    }
  }

  lemma TailIsWalk<K(!new)>(a: seq<K>, keys: set<K>, less: (K, K) -> bool)
    requires StrictOrder(less) && IsWalk(a, keys, less) && a != []
    ensures IsWalk(a[1..], keys - {a[0]}, less)
  {
    assert a == [a[0]] + a[1..];
    forall i, j | 0 <= i < j < |a[1..]|
      ensures less(a[1..][i], a[1..][j])
    {
      assert less(a[i + 1], a[j + 1]);
    }
    forall k
      ensures k in a[1..] <==> k in keys - {a[0]}
    {
      if k in a[1..] {
        var i :| 0 <= i < |a[1..]| && a[1..][i] == k;
        assert less(a[0], a[i + 1]);
        assert a[i + 1] in a;
      }
      if k in keys && k != a[0] {
        assert k in a;
      }
    }
  }

  function IdLess(a: nat, b: nat): bool { a < b }

  function PairLess(a: (nat, nat), b: (nat, nat)): bool {
    a.0 < b.0 || (a.0 == b.0 && a.1 < b.1)
  }

  function TripleLess(a: (nat, nat, nat), b: (nat, nat, nat)): bool {
    a.0 < b.0 || (a.0 == b.0 && (a.1 < b.1 || (a.1 == b.1 && a.2 < b.2)))
  }

  function StrLess(a: Str, b: Str): bool { Below(a, b) }

  function IdStrLess(a: (nat, Str), b: (nat, Str)): bool {
    a.0 < b.0 || (a.0 == b.0 && Below(a.1, b.1))
  }

  function StrIdLess(a: (Str, nat), b: (Str, nat)): bool {
    Below(a.0, b.0) || (a.0 == b.0 && a.1 < b.1)
  }

  function HashLess(a: Hash, b: Hash): bool { Below(a, b) }

  function MemberLess(a: (Hash, Str), b: (Hash, Str)): bool {
    Below(a.0, b.0) || (a.0 == b.0 && Below(a.1, b.1))
  }

  lemma BelowIsOrder()
    ensures forall a: Str :: !Below(a, a)
    ensures forall a: Str, b: Str :: Below(a, b) || a == b || Below(b, a)
    ensures forall a: Str, b: Str, c: Str :: Below(a, b) && Below(b, c) ==> Below(a, c)
  {
    forall a: Str, b: Str ensures (Below(a, b) || a == b || Below(b, a)) && !Below(a, a) {
      BelowTotal(a, b);
    }
    forall a: Str, b: Str, c: Str | Below(a, b) && Below(b, c) ensures Below(a, c) {
      BelowTransitive(a, b, c);
    }
  }

  /** Every key order in use is a strict total order, so every walk is determined. */
  lemma OrdersAreStrict()
    ensures StrictOrder(IdLess) && StrictOrder(PairLess) && StrictOrder(TripleLess)
    ensures StrictOrder(StrLess) && StrictOrder(IdStrLess) && StrictOrder(StrIdLess)
    ensures StrictOrder(HashLess) && StrictOrder(MemberLess)
  {
    BelowIsOrder();
  }

  function WalkIds(keys: set<nat>): seq<nat> {
    OrdersAreStrict();
    Sorted(keys, IdLess)
  }

  lemma WalkIdsExact(keys: set<nat>)
    ensures IsExactWalk(WalkIds(keys), keys, IdLess)
  {
    OrdersAreStrict();
    SortedIsWalk(keys, IdLess);
  }

  function WalkPairs(keys: set<(nat, nat)>): seq<(nat, nat)> {
    OrdersAreStrict();
    Sorted(keys, PairLess)
  }

  lemma WalkPairsExact(keys: set<(nat, nat)>)
    ensures IsExactWalk(WalkPairs(keys), keys, PairLess)
  {
    OrdersAreStrict();
    SortedIsWalk(keys, PairLess);
  }

  function WalkTriples(keys: set<(nat, nat, nat)>): seq<(nat, nat, nat)> {
    OrdersAreStrict();
    Sorted(keys, TripleLess)
  }

  lemma WalkTriplesExact(keys: set<(nat, nat, nat)>)
    ensures IsExactWalk(WalkTriples(keys), keys, TripleLess)
  {
    OrdersAreStrict();
    SortedIsWalk(keys, TripleLess);
  }

  function WalkStrs(keys: set<Str>): seq<Str> {
    OrdersAreStrict();
    Sorted(keys, StrLess)
  }

  lemma WalkStrsExact(keys: set<Str>)
    ensures IsExactWalk(WalkStrs(keys), keys, StrLess)
  {
    OrdersAreStrict();
    SortedIsWalk(keys, StrLess);
  }

  function WalkIdStrs(keys: set<(nat, Str)>): seq<(nat, Str)> {
    OrdersAreStrict();
    Sorted(keys, IdStrLess)
  }

  lemma WalkIdStrsExact(keys: set<(nat, Str)>)
    ensures IsExactWalk(WalkIdStrs(keys), keys, IdStrLess)
  {
    OrdersAreStrict();
    SortedIsWalk(keys, IdStrLess);
  }

  function WalkStrIds(keys: set<(Str, nat)>): seq<(Str, nat)> {
    OrdersAreStrict();
    Sorted(keys, StrIdLess)
  }

  lemma WalkStrIdsExact(keys: set<(Str, nat)>)
    ensures IsExactWalk(WalkStrIds(keys), keys, StrIdLess)
  {
    OrdersAreStrict();
    SortedIsWalk(keys, StrIdLess);
  }

  function WalkHashes(keys: set<Hash>): seq<Hash> {
    OrdersAreStrict();
    Sorted(keys, HashLess)
  }

  lemma WalkHashesExact(keys: set<Hash>)
    ensures IsExactWalk(WalkHashes(keys), keys, HashLess)
  {
    OrdersAreStrict();
    SortedIsWalk(keys, HashLess);
  }

  function WalkMembers(keys: set<(Hash, Str)>): seq<(Hash, Str)> {
    OrdersAreStrict();
    Sorted(keys, MemberLess)
  }

  lemma WalkMembersExact(keys: set<(Hash, Str)>)
    ensures IsExactWalk(WalkMembers(keys), keys, MemberLess)
  {
    OrdersAreStrict();
    SortedIsWalk(keys, MemberLess);
  }

  // ---- sizes ----

  lemma {:induction false} SubsetSize<T>(a: set<T>, b: set<T>)
    requires a <= b
    ensures |a| <= |b|
    decreases |a|
  {
    if a != {} {
      var x :| x in a;
      SubsetSize(a - {x}, b - {x});
    }
  }

  // ---- chains ----

  /** From start, n steps that keep an invariant. */
  lemma {:induction false} Chain<T(!new)>(start: T, n: nat, inv: (nat, T) -> bool, step: (nat, T, T) -> bool)
    returns (ts: seq<T>)
    requires inv(0, start) && forall i: nat, t :: i < n && inv(i, t) ==> exists u :: step(i, t, u) && inv(i + 1, u)
    ensures |ts| == n + 1 && ts[0] == start && inv(n, ts[n])
    ensures forall i :: 0 <= i < n ==> step(i, ts[i], ts[i + 1])
    decreases n
  {
    if n == 0 {
      ts := [start];
    } else {
      ts := Chain(start, n - 1, inv, step);
      var u :| step(n - 1, ts[n - 1], u) && inv(n - 1 + 1, u);
      ts := ts + [u];
    }
  }
}
