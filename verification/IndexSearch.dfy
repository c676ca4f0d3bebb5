/** A search on a node whose index was just backfilled, against the chain itself. */
module IndexSearch {
  import opened Bytes
  import opened Walks
  import opened Types
  import opened Bookkeeping
  import opened NameIndex
  import opened IndexRuns
  import opened NameSearch
  import Protobuf
  import ProtobufRoundTrip
  import Varints

  /** What a query reads of the table. */
  ghost function ViewOf(fold: Fold, cdc: Codec, rows: Rows, runeCount: Str -> nat): View {
    View(
      rows.Keys,
      (mode: Mode, name: Str) => (id: nat) => id in rows && RowMatches(mode, fold(name), rows[id]),
      (id: nat) => if id in rows then cdc.unmarshal(rows[id].data) else None,
      runeCount)
  }

  /** The chain's registries whose name the mode selects. */
  ghost function Selected(fold: Fold, registries: map<nat, Registry>, mode: Mode, name: Str): set<nat> {
    set id | id in registries && NameMatches(mode, fold(name), fold(registries[id].name))
  }

  lemma FullMatches(fold: Fold, cdc: Codec, registries: map<nat, Registry>, runeCount: Str -> nat, mode: Mode,
                    name: Str)
    ensures var v := ViewOf(fold, cdc, Full(RowMaker(fold, cdc), registries), runeCount);
      HitSet(v.ids, v.hit(mode, name), 0) == Selected(fold, registries, mode, name)
  {
    var rows := Full(RowMaker(fold, cdc), registries);
    var v := ViewOf(fold, cdc, rows, runeCount);
    forall id | id in registries
      ensures v.hit(mode, name)(id) <==> NameMatches(mode, fold(name), fold(registries[id].name))
    {
      SearchIsLiteral(fold, cdc, mode, fold(name), registries[id]);
      assert rows[id] == RowOf(fold, cdc, registries[id]);
    }
    assert v.ids == registries.Keys;
  }

  lemma FullDecodes(fold: Fold, cdc: Codec, registries: map<nat, Registry>, runeCount: Str -> nat, id: nat)
    requires id in registries && Survives(cdc, registries)
    ensures ViewOf(fold, cdc, Full(RowMaker(fold, cdc), registries), runeCount).data(id) == Some(registries[id])
  {
    assert Full(RowMaker(fold, cdc), registries)[id] == RowOf(fold, cdc, registries[id]);
  }

  lemma FullAnswers(fold: Fold, cdc: Codec, registries: map<nat, Registry>, runeCount: Str -> nat, mode: Mode,
                    name: Str)
    requires Survives(cdc, registries) && Indexable(registries.Keys)
    requires name != [] && (mode == Contains ==> runeCount(name) >= MIN_CONTAINS)
    ensures Answers(ViewOf(fold, cdc, Full(RowMaker(fold, cdc), registries), runeCount), mode, name)
  {
    var v := ViewOf(fold, cdc, Full(RowMaker(fold, cdc), registries), runeCount);
    assert v.ids == registries.Keys;
    forall id | id in v.ids ensures v.data(id).Some? { FullDecodes(fold, cdc, registries, runeCount, id); }
  }

  /**
   * A client that follows next keys gets the chain's selected registries past the offset, once each, by
   * ascending id.
   */
  ghost predicate FindsAll(fold: Fold, cdc: Codec, registries: map<nat, Registry>, rows: Rows, runeCount: Str -> nat,
                           mode: Mode, name: Str, p: PageRequest, limits: nat -> nat) {
    var v, ids := ViewOf(fold, cdc, rows, runeCount), WalkIds(Selected(fold, registries, mode, name));
    && p.key == [] && Answers(v, mode, name)
    && (forall i :: 0 <= i < |ids| ==> ids[i] in registries)
    && Followed(v, mode, name, p, limits, 0) == Listed(registries, ids[Min(p.offset, |ids|)..])
  }

  lemma SelectedAreStored(fold: Fold, registries: map<nat, Registry>, mode: Mode, name: Str, ids: seq<nat>)
    requires ids == WalkIds(Selected(fold, registries, mode, name))
    ensures forall i :: 0 <= i < |ids| ==> ids[i] in registries
  {
    WalkIdsExact(Selected(fold, registries, mode, name));
    forall i | 0 <= i < |ids| ensures ids[i] in registries { assert ids[i] in ids; }
  }

  /** A view that answers from the registries returns them. */
  lemma ViewFindsAll(v: View, mode: Mode, name: Str, p: PageRequest, limits: nat -> nat, registries: map<nat, Registry>,
                     ids: seq<nat>)
    requires p.key == [] && Answers(v, mode, name) && ids == Hits(v.ids, v.hit(mode, name), 0)
    requires forall i :: 0 <= i < |ids| ==> ids[i] in registries && v.data(ids[i]) == Some(registries[ids[i]])
    ensures Followed(v, mode, name, p, limits, 0) == Listed(registries, ids[Min(p.offset, |ids|)..])
  {
    FollowingFindsAll(v, mode, name, p, limits, 0);
    var asked := ids[Min(p.offset, |ids|)..];
    assert Stored(v.data, asked) == Listed(registries, asked);
  }

  lemma CompleteIndexFindsAll(fold: Fold, cdc: Codec, registries: map<nat, Registry>, runeCount: Str -> nat,
                              mode: Mode, name: Str, p: PageRequest, limits: nat -> nat)
    requires Survives(cdc, registries) && Indexable(registries.Keys)
    requires p.key == [] && name != [] && (mode == Contains ==> runeCount(name) >= MIN_CONTAINS)
    ensures FindsAll(fold, cdc, registries, Full(RowMaker(fold, cdc), registries), runeCount, mode, name, p, limits)
  {
    var v := ViewOf(fold, cdc, Full(RowMaker(fold, cdc), registries), runeCount);
    var ids := WalkIds(Selected(fold, registries, mode, name));
    FullAnswers(fold, cdc, registries, runeCount, mode, name);
    FullMatches(fold, cdc, registries, runeCount, mode, name);
    SelectedAreStored(fold, registries, mode, name, ids);
    forall i | 0 <= i < |ids| ensures v.data(ids[i]) == Some(registries[ids[i]]) {
      FullDecodes(fold, cdc, registries, runeCount, ids[i]);
    }
    ViewFindsAll(v, mode, name, p, limits, registries, ids);
  }

  lemma ChainIsIndexable(env: Env, s: State)
    requires Consistent(env, s) && s.registryCount <= MAX_INT64
    ensures Indexable(s.registries.Keys)
  {
  }

  /**
   * Whatever blocks were missed, after a successful backfill a client that follows next keys gets
   * exactly the chain's registries whose folded name the query selects, once each, by ascending id.
   */
  lemma SearchAfterBackfill(env: Env, fold: Fold, cdc: Codec, params: Params, events: seq<Event>,
                            runeCount: Str -> nat, mode: Mode, name: Str, p: PageRequest, limits: nat -> nat)
    requires p.key == [] && name != [] && (mode == Contains ==> runeCount(name) >= MIN_CONTAINS)
    requires var chain := After(env, RowMaker(fold, cdc), cdc, params, events).chain;
      Survives(cdc, chain.registries) && chain.registryCount <= MAX_INT64
    ensures var w := After(env, RowMaker(fold, cdc), cdc, params, events + [Restart(true)]);
      FindsAll(fold, cdc, w.chain.registries, w.rows, runeCount, mode, name, p, limits)
  {
    var toRow := RowMaker(fold, cdc);
    AfterOneMore(env, toRow, cdc, params, events, Restart(true));
    BackfillCompletes(env, toRow, cdc, params, events);
    var chain := After(env, toRow, cdc, params, events).chain;
    ChainIsIndexable(env, chain);
    CompleteIndexFindsAll(fold, cdc, chain.registries, runeCount, mode, name, p, limits);
  }

  /** The protobuf codec carries the registries of a consistent chain whose encodings fit a Go slice. */
  lemma ChainSurvivesProtobuf(env: Env, s: State)
    requires Consistent(env, s) && s.registryCount <= MAX_INT64
    requires forall id :: id in s.registries ==> |Marshalled(s.registries[id])| < Varints.TWO63
    ensures Survives(PROTO, s.registries)
  {
    forall id | id in s.registries ensures ProtobufRoundTrip.Fits(Protobuf.RegistryDoc(s.registries[id])) {
      assert s.registries[id].id == id;
    }
    ProtobufSurvives(s.registries);
  }

  /** The same with the codec the node opens its store with. */
  lemma SearchWithProtobuf(env: Env, fold: Fold, params: Params, events: seq<Event>, runeCount: Str -> nat,
                           mode: Mode, name: Str, p: PageRequest, limits: nat -> nat)
    requires p.key == [] && name != [] && (mode == Contains ==> runeCount(name) >= MIN_CONTAINS)
    requires var chain := After(env, RowMaker(fold, PROTO), PROTO, params, events).chain;
      && chain.registryCount <= MAX_INT64
      && forall id :: id in chain.registries ==> |Marshalled(chain.registries[id])| < Varints.TWO63
    ensures var w := After(env, RowMaker(fold, PROTO), PROTO, params, events + [Restart(true)]);
      FindsAll(fold, PROTO, w.chain.registries, w.rows, runeCount, mode, name, p, limits)
  {
    IndexIsSubmap(env, RowMaker(fold, PROTO), PROTO, params, events);
    ChainSurvivesProtobuf(env, After(env, RowMaker(fold, PROTO), PROTO, params, events).chain);
    SearchAfterBackfill(env, fold, PROTO, params, events, runeCount, mode, name, p, limits);
  }

  /**
   * The failing request, eight 0xff bytes: a complete index of a chain whose only registry has the largest id
   * answers with that registry, by its own name in every mode, although nothing was asked for.
   */
  lemma AllOnesKeyFails(fold: Fold, cdc: Codec, reg: Registry, runeCount: Str -> nat, mode: Mode, p: PageRequest)
    requires reg.id == MAX_INT64 && reg.name != [] && (mode == Contains ==> runeCount(reg.name) >= MIN_CONTAINS)
    requires cdc.unmarshal(cdc.marshal(reg)) == Some(reg)
    requires p.key == BigEndian(TWO64 - 1, 8) && p.offset == 0
    ensures var view := ViewOf(fold, cdc, Full(RowMaker(fold, cdc), map[reg.id := reg]), runeCount);
      && Query(Some(view), mode, reg.name, Some(p)) == Registries([reg], [])
      && AskedBy(view, mode, reg.name, p) == []
  {
    var registries := map[reg.id := reg];
    var view := ViewOf(fold, cdc, Full(RowMaker(fold, cdc), registries), runeCount);
    FullAnswers(fold, cdc, registries, runeCount, mode, reg.name);
    FullDecodes(fold, cdc, registries, runeCount, reg.id);
    OwnNameMatches(mode, fold(reg.name));
    SearchIsLiteral(fold, cdc, mode, fold(reg.name), reg);
    Pow256Eight();
    NumOfBigEndian(TWO64 - 1, 8);
    PastTheEndAnswered(view, mode, reg.name, p);
  }
}
