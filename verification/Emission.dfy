/** The migration's sink: writes go to the dump unless they are zero, and lists of them add up. */
module Emission {
  import opened Bytes
  import opened Layout
  import opened Slots
  import opened MigrationPlan
  import opened MigrationStorage
  import opened LayoutWrites
  import opened Dumps

  /** The writes that are not zero words. */
  function NonZero(ws: seq<Write>): seq<Write> {
    if ws == [] then [] else
      NonZero(ws[..|ws| - 1]) + if ws[|ws| - 1].value == ZERO then [] else [ws[|ws| - 1]]
  }

  /** What f makes of each element, put end to end. */
  ghost function Joined<T>(f: T -> seq<Write>, xs: seq<T>): seq<Write> {
    if xs == [] then [] else Joined(f, xs[..|xs| - 1]) + f(xs[|xs| - 1])
  }

  lemma {:induction false} EmitIsNonZero(k: Keccak, puts: seq<Put>)
    ensures Emit(k, puts) == NonZero(ToWrites(k, puts))
  {
    if puts != [] {
      var n := |puts| - 1;
      EmitIsNonZero(k, puts[..n]);
      assert ToWrites(k, puts)[..n] == ToWrites(k, puts[..n]);
    }
  }

  lemma JoinedNext<T>(f: T -> seq<Write>, xs: seq<T>, i: nat)
    requires i < |xs|
    ensures Joined(f, xs[..i + 1]) == Joined(f, xs[..i]) + f(xs[i])
  {
    assert xs[..i + 1][..i] == xs[..i];
  }

  lemma JoinedSnoc<T>(f: T -> seq<Write>, xs: seq<T>, x: T)
    ensures Joined(f, xs + [x]) == Joined(f, xs) + f(x)
  {
    assert (xs + [x])[..|xs|] == xs;
  }

  lemma {:induction false} JoinedConcat<T>(f: T -> seq<Write>, xs: seq<T>, ys: seq<T>)
    ensures Joined(f, xs + ys) == Joined(f, xs) + Joined(f, ys)
    decreases |ys|
  {
    if ys == [] {
      assert xs + ys == xs;
    } else {
      var n := |ys| - 1;
      JoinedConcat(f, xs, ys[..n]);
      JoinedSnoc(f, xs + ys[..n], ys[n]);
      assert xs + ys[..n] + [ys[n]] == xs + ys;
      Assoc(Joined(f, xs), Joined(f, ys[..n]), f(ys[n]));
    }
  }

  lemma {:induction false} JoinedMap<T, U>(f: T -> seq<Write>, xs: seq<T>, g: U -> seq<Write>, ys: seq<U>)
    requires |xs| == |ys| && forall i :: 0 <= i < |xs| ==> f(xs[i]) == g(ys[i])
    ensures Joined(f, xs) == Joined(g, ys)
    decreases |xs|
  {
    if xs != [] { JoinedMap(f, xs[..|xs| - 1], g, ys[..|ys| - 1]); }
  }

  /** The puts of a list of items are emitted item by item. */
  lemma {:induction false} FlatIsJoined(k: Keccak, p: Item -> seq<Put>, f: Item -> seq<Write>, items: seq<Item>)
    requires forall x :: f(x) == Emit(k, p(x))
    ensures Emit(k, Flat(p, items)) == Joined(f, items)
    decreases |items|
  {
    if items != [] {
      var n := |items| - 1;
      FlatIsJoined(k, p, f, items[..n]);
      EmitConcat(k, Flat(p, items[..n]), p(items[n]));
    }
  }

  lemma {:induction false} EmitConcat(k: Keccak, a: seq<Put>, b: seq<Put>)
    ensures Emit(k, a + b) == Emit(k, a) + Emit(k, b)
  {
    if b == [] {
      assert a + b == a;
    } else {
      var most, p := b[..|b| - 1], b[|b| - 1];
      EmitConcat(k, a, most);
      EmitSnoc(k, most, p);
      EmitSnoc(k, a + most, p);
      assert most + [p] == b && (a + most) + [p] == a + b;
      Assoc(Emit(k, a), Emit(k, most), Emit(k, [p]));
    }
  }

  lemma EmitSnoc(k: Keccak, puts: seq<Put>, p: Put)
    ensures Emit(k, puts + [p]) == Emit(k, puts) + Emit(k, [p])
  {
    assert (puts + [p])[..|puts|] == puts;
    assert [p][..0] == [];
  }

  // ---- the sink ----

  /** skipZero: an unwritten slot already reads as zero. */
  method EmitOne(dump: Dump, w: Write)
    requires dump.Valid()
    modifies dump
    ensures dump.Valid() && dump.address == old(dump.address)
    ensures dump.Written() == old(dump.Written()) + NonZero([w])
  {
    assert NonZero([w]) == if w.value == ZERO then [] else [w];
    if w.value != ZERO {
      dump.Put(w);
    }
  }

  lemma NonZeroNext(ws: seq<Write>, i: nat)
    requires i < |ws|
    ensures NonZero(ws[..i + 1]) == NonZero(ws[..i]) + NonZero([ws[i]])
  {
    assert ws[..i + 1][..i] == ws[..i];
    assert [ws[i]][..0] == [];
  }

  method EmitAll(dump: Dump, ws: seq<Write>)
    requires dump.Valid()
    modifies dump
    ensures dump.Valid() && dump.address == old(dump.address)
    ensures dump.Written() == old(dump.Written()) + NonZero(ws)
  {
    ghost var base := dump.Written();
    for i := 0 to |ws|
      invariant dump.Valid() && dump.address == old(dump.address)
      invariant dump.Written() == base + NonZero(ws[..i])
    {
      EmitOne(dump, ws[i]);
      NonZeroNext(ws, i);
      Assoc(base, NonZero(ws[..i]), NonZero([ws[i]]));
    }
    assert ws[..|ws|] == ws;
  }

  lemma Whole<T>(xs: seq<T>)
    ensures xs[..|xs|] == xs
  {
  }

  /** What was written up to the i-th of a list, and the i-th. */
  lemma Advance<T>(f: T -> seq<Write>, xs: seq<T>, i: nat, base: seq<Write>)
    requires i < |xs|
    ensures base + Joined(f, xs[..i]) + f(xs[i]) == base + Joined(f, xs[..i + 1])
  {
    JoinedNext(f, xs, i);
    Assoc(base, Joined(f, xs[..i]), f(xs[i]));
  }

  lemma JoinedMore<T>(f: T -> seq<Write>, done: seq<T>, x: T, base: seq<Write>)
    ensures base + Joined(f, done) + f(x) == base + Joined(f, done + [x])
  {
    JoinedSnoc(f, done, x);
    Assoc(base, Joined(f, done), f(x));
  }

  /** Emits the i-th of a list, whose writes f describes. */
  method EmitNext<T>(dump: Dump, w: Write, ghost f: T -> seq<Write>, ghost xs: seq<T>, ghost i: nat,
                     ghost base: seq<Write>)
    requires dump.Valid() && i < |xs| && f(xs[i]) == NonZero([w])
    requires dump.Written() == base + Joined(f, xs[..i])
    modifies dump
    ensures dump.Valid() && dump.address == old(dump.address)
    ensures dump.Written() == base + Joined(f, xs[..i + 1])
  {
    EmitOne(dump, w);
    Advance(f, xs, i, base);
  }
}
