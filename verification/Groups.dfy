/** Walks over pair keys: equal first parts arrive together, with their second parts ascending. */
module Groups {
  import opened Walks

  /** ks ascends by first part, then by second. */
  ghost predicate PairAscending<G(!new), X(!new)>(ks: seq<(G, X)>, lessG: (G, G) -> bool, lessX: (X, X) -> bool) {
    forall i, j :: 0 <= i < j < |ks| ==>
      lessG(ks[i].0, ks[j].0) || (ks[i].0 == ks[j].0 && lessX(ks[i].1, ks[j].1))
  }

  /** The distinct first parts of ks[..n], in order of arrival. */
  function Firsts<G(==), X>(ks: seq<(G, X)>, n: nat): seq<G>
    requires n <= |ks|
  {
    if n == 0 then [] else
    if n >= 2 && ks[n - 2].0 == ks[n - 1].0 then Firsts(ks, n - 1) else Firsts(ks, n - 1) + [ks[n - 1].0]
  }

  /** The second parts of the pairs in ks[..n] whose first part is g. */
  function Seconds<G(==), X>(ks: seq<(G, X)>, n: nat, g: G): seq<X>
    requires n <= |ks|
  {
    if n == 0 then [] else Seconds(ks, n - 1, g) + if ks[n - 1].0 == g then [ks[n - 1].1] else []
  }

  lemma {:induction false} FirstsFacts<G(!new), X(!new)>(ks: seq<(G, X)>, n: nat, lessG: (G, G) -> bool,
                                                         lessX: (X, X) -> bool)
    requires n <= |ks| && StrictOrder(lessG) && PairAscending(ks, lessG, lessX)
    ensures n > 0 ==> Firsts(ks, n) != [] && Firsts(ks, n)[|Firsts(ks, n)| - 1] == ks[n - 1].0
    ensures Ascending(Firsts(ks, n), lessG)
    ensures forall g :: g in Firsts(ks, n) <==> exists i :: 0 <= i < n && ks[i].0 == g
  {
    if n > 0 {
      FirstsFacts(ks, n - 1, lessG, lessX);
      var before := Firsts(ks, n - 1);
      if n >= 2 && ks[n - 2].0 == ks[n - 1].0 {
      } else {
        assert forall i :: 0 <= i < |before| ==> before[i] in before;
        assert n >= 2 ==> lessG(ks[n - 2].0, ks[n - 1].0);
      }
    }
  }

  lemma {:induction false} SecondsFacts<G(!new), X(!new)>(ks: seq<(G, X)>, n: nat, g: G, lessG: (G, G) -> bool,
                                                          lessX: (X, X) -> bool)
    requires n <= |ks| && StrictOrder(lessG) && PairAscending(ks, lessG, lessX)
    ensures Ascending(Seconds(ks, n, g), lessX)
    ensures forall x :: x in Seconds(ks, n, g) <==> exists i :: 0 <= i < n && ks[i] == (g, x)
  {
    if n > 0 {
      SecondsFacts(ks, n - 1, g, lessG, lessX);
      var before := Seconds(ks, n - 1, g);
      assert forall i :: 0 <= i < |before| ==> before[i] in before;
      if ks[n - 1].0 == g {
        var after := before + [ks[n - 1].1];
        forall i, j | 0 <= i < j < |after| ensures lessX(after[i], after[j]) {
          if j == |before| {
            assert before[i] in before;
            var m :| 0 <= m < n - 1 && ks[m] == (g, before[i]);
          }
        }
        forall x ensures x in after <==> exists i :: 0 <= i < n && ks[i] == (g, x) {
          if x == ks[n - 1].1 {
            assert ks[n - 1] == (g, x);
          }
        }
      }
    }
  }

  /** Once the walk has left a group, its second parts are all there. */
  lemma {:induction false} SecondsStop<G, X>(ks: seq<(G, X)>, n: nat, m: nat, g: G)
    requires n <= m <= |ks| && (forall i :: n <= i < m ==> ks[i].0 != g)
    ensures Seconds(ks, m, g) == Seconds(ks, n, g)
  {
    if n < m {
      SecondsStop(ks, n, m - 1, g);
    }
  }

  /** When the walk enters a new group, nothing of it was seen and the last one is complete. */
  lemma NewGroup<G(!new), X(!new)>(ks: seq<(G, X)>, i: nat, lessG: (G, G) -> bool, lessX: (X, X) -> bool)
    requires i < |ks| && StrictOrder(lessG) && PairAscending(ks, lessG, lessX)
    requires i == 0 || ks[i - 1].0 != ks[i].0
    ensures Seconds(ks, i, ks[i].0) == []
    ensures i > 0 ==> Seconds(ks, |ks|, ks[i - 1].0) == Seconds(ks, i, ks[i - 1].0)
  {
    forall j | 0 <= j < i ensures ks[j].0 != ks[i].0 {
      assert i > 0 && lessG(ks[i - 1].0, ks[i].0);
      assert j < i - 1 ==> lessG(ks[j].0, ks[i - 1].0) || ks[j].0 == ks[i - 1].0;
    }
    SecondsStop(ks, 0, i, ks[i].0);
    if i > 0 {
      forall j | i <= j < |ks| ensures ks[j].0 != ks[i - 1].0 {
        assert lessG(ks[i - 1].0, ks[i].0);
        assert i < j ==> lessG(ks[i].0, ks[j].0) || ks[i].0 == ks[j].0;
      }
      SecondsStop(ks, i, |ks|, ks[i - 1].0);
    }
  }

  /** Where a grouping walk stands after ks[..i]: the finished groups, the current one, its members. */
  ghost predicate Standing<G(!new), X(!new)>(ks: seq<(G, X)>, i: nat, done: seq<G>, current: G, members: seq<X>)
    requires i <= |ks|
  {
    if i == 0 then done == [] && members == []
    else
      && current == ks[i - 1].0 && done + [current] == Firsts(ks, i)
      && members == Seconds(ks, i, current) && members != []
  }

  lemma StandingStays<G(!new), X(!new)>(ks: seq<(G, X)>, i: nat, done: seq<G>, current: G, members: seq<X>)
    requires i < |ks| && Standing(ks, i, done, current, members) && (i > 0 ==> ks[i].0 == current)
    ensures Standing(ks, i + 1, done, ks[i].0, members + [ks[i].1])
  {
  }

  lemma StandingMoves<G(!new), X(!new)>(ks: seq<(G, X)>, i: nat, done: seq<G>, current: G, members: seq<X>,
                                        lessG: (G, G) -> bool, lessX: (X, X) -> bool)
    requires StrictOrder(lessG) && PairAscending(ks, lessG, lessX)
    requires 0 < i < |ks| && Standing(ks, i, done, current, members) && ks[i].0 != current
    ensures members == Seconds(ks, |ks|, current)
    ensures Standing(ks, i + 1, done + [current], ks[i].0, [] + [ks[i].1])
  {
    NewGroup(ks, i, lessG, lessX);
    assert Seconds(ks, i + 1, ks[i].0) == [] + [ks[i].1];
  }

  /** The next entry: it stays in its group, or the group before it is complete. */
  lemma StandingNext<G(!new), X(!new)>(ks: seq<(G, X)>, i: nat, done: seq<G>, current: G, members: seq<X>,
                                       lessG: (G, G) -> bool, lessX: (X, X) -> bool)
    returns (closed: seq<G>, kept: seq<X>)
    requires StrictOrder(lessG) && PairAscending(ks, lessG, lessX)
    requires i < |ks| && Standing(ks, i, done, current, members)
    ensures Standing(ks, i + 1, closed, ks[i].0, kept + [ks[i].1])
    ensures closed == (if ks[i].0 != current && members != [] then done + [current] else done)
    ensures kept == (if ks[i].0 != current then [] else members)
    ensures members != [] ==> i > 0 && ks[i - 1].0 == current
    ensures ks[i].0 != current && members != [] ==> members == Seconds(ks, |ks|, current)
  {
    if ks[i].0 != current && members != [] {
      StandingMoves(ks, i, done, current, members, lessG, lessX);
      closed, kept := done + [current], [];
    } else {
      StandingStays(ks, i, done, current, members);
      closed, kept := done, members;
    }
  }
}
