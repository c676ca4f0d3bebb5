/**
 The storage a migration leaves behind: no location is put twice, no slot is written twice, and
 loading a slot gives back what was put there, or zero.
 */
module MigrationStorage {
  import opened Bytes
  import opened Walks
  import opened Types
  import opened Messages
  import opened Slots
  import opened Layout
  import opened MigrationPlan

  datatype Write = Write(slot: Hash, value: Hash)

  /** The writes of some puts; zero words are dropped. */
  function Emit(k: Keccak, puts: seq<Put>): seq<Write> {
    if puts == [] then [] else
      var p := puts[|puts| - 1];
      Emit(k, puts[..|puts| - 1]) + if p.value == ZERO then [] else [Write(Slot(k, p.loc), p.value)]
  }

  function StorageOf(ws: seq<Write>): Storage {
    if ws == [] then map[] else
      StorageOf(ws[..|ws| - 1])[ws[|ws| - 1].slot := ws[|ws| - 1].value]
  }

  ghost predicate DistinctLocs(puts: seq<Put>) {
    forall i, j :: 0 <= i < j < |puts| ==> puts[i].loc != puts[j].loc
  }

  /** What some puts leave at a location. */
  function ValueAt(puts: seq<Put>, l: Loc): Hash {
    if puts == [] then ZERO else
    if puts[|puts| - 1].loc == l then puts[|puts| - 1].value else ValueAt(puts[..|puts| - 1], l)
  }

  lemma {:induction false} ValueOfPut(puts: seq<Put>, i: nat)
    requires DistinctLocs(puts) && i < |puts|
    ensures ValueAt(puts, puts[i].loc) == puts[i].value
  {
    if i < |puts| - 1 {
      ValueOfPut(puts[..|puts| - 1], i);
    }
  }

  lemma {:induction false} ValueOfNothing(puts: seq<Put>, l: Loc)
    requires forall i :: 0 <= i < |puts| ==> puts[i].loc != l
    ensures ValueAt(puts, l) == ZERO
  {
    if puts != [] {
      ValueOfNothing(puts[..|puts| - 1], l);
    }
  }

  ghost predicate AllInPlay(k: Keccak, puts: seq<Put>, preimages: set<Str>, span: nat) {
    forall i :: 0 <= i < |puts| ==> InPlay(k, puts[i].loc, preimages, span)
  }

  lemma LoadAfter(ws: seq<Write>, w: Write, slot: Hash)
    ensures Load(StorageOf(ws + [w]), slot) == if slot == w.slot then w.value else Load(StorageOf(ws), slot)
  {
    assert (ws + [w])[..|ws|] == ws;
  }

  lemma {:induction false} LoadGivesValue(k: Keccak, puts: seq<Put>, l: Loc, preimages: set<Str>, span: nat)
    requires DistinctLocs(puts) && AllInPlay(k, puts, preimages, span)
    requires Spread(k, preimages, span) && InPlay(k, l, preimages, span)
    ensures Load(StorageOf(Emit(k, puts)), Slot(k, l)) == ValueAt(puts, l)
  {
    if puts != [] {
      var n := |puts| - 1;
      var rest, p := puts[..n], puts[n];
      assert AllInPlay(k, rest, preimages, span) && InPlay(k, p.loc, preimages, span);
      LoadGivesValue(k, rest, l, preimages, span);
      if p.loc == l { ValueOfNothing(rest, l); }
      if p.value == ZERO {
        assert Emit(k, puts) == Emit(k, rest);
      } else {
        assert Emit(k, puts) == Emit(k, rest) + [Write(Slot(k, p.loc), p.value)];
        LoadAfter(Emit(k, rest), Write(Slot(k, p.loc), p.value), Slot(k, l));
        if Slot(k, p.loc) == Slot(k, l) { SlotInjective(k, p.loc, l, preimages, span); }
      }
    }
  }

  lemma {:induction false} EmittedFrom(k: Keccak, puts: seq<Put>, j: nat) returns (i: nat)
    requires j < |Emit(k, puts)|
    ensures i < |puts| && Emit(k, puts)[j] == Write(Slot(k, puts[i].loc), puts[i].value) && puts[i].value != ZERO
  {
    var n := |puts| - 1;
    if j < |Emit(k, puts[..n])| {
      i := EmittedFrom(k, puts[..n], j);
    } else {
      i := n;
    }
  }

  /** No slot is written twice. */
  lemma {:induction false} SlotsWrittenOnce(k: Keccak, puts: seq<Put>, preimages: set<Str>, span: nat)
    requires DistinctLocs(puts) && AllInPlay(k, puts, preimages, span) && Spread(k, preimages, span)
    ensures forall i, j :: 0 <= i < j < |Emit(k, puts)| ==> Emit(k, puts)[i].slot != Emit(k, puts)[j].slot
  {
    if puts != [] {
      var n := |puts| - 1;
      var rest, p := puts[..n], puts[n];
      assert AllInPlay(k, rest, preimages, span);
      SlotsWrittenOnce(k, rest, preimages, span);
      if p.value != ZERO {
        forall i | 0 <= i < |Emit(k, rest)|
          ensures Emit(k, rest)[i].slot != Slot(k, p.loc)
        {
          var m := EmittedFrom(k, rest, i);
          if Slot(k, rest[m].loc) == Slot(k, p.loc) {
            SlotInjective(k, rest[m].loc, p.loc, preimages, span);
          }
        }
      }
    }
  }

  // ---- every item keeps to its own locations ----

  /** The mapping entry a location belongs to, past any array data and field offset. */
  function Owner(l: Loc): Loc {
    match l
    case Root(_) => l
    case Cell(key, parent, _) =>
      if key == [] && parent.Cell? then Cell(parent.key, parent.parent, 0) else Cell(key, parent, 0)
  }

  /** The struct field a location belongs to. */
  function Field(l: Loc): nat {
    match l
    case Root(_) => 0
    case Cell(key, parent, off) => if key == [] && parent.Cell? then parent.off else off
  }

  /** Distinct locations, all in fields lo..hi of one owner. */
  ghost predicate Tidy(puts: seq<Put>, owner: Loc, lo: nat, hi: nat) {
    && DistinctLocs(puts)
    && forall i :: 0 <= i < |puts| ==> Owner(puts[i].loc) == owner && lo <= Field(puts[i].loc) < hi
  }

  lemma TidyConcat(a: seq<Put>, b: seq<Put>, owner: Loc, lo: nat, mid: nat, hi: nat)
    requires Tidy(a, owner, lo, mid) && Tidy(b, owner, mid, hi) && lo <= mid <= hi
    ensures Tidy(a + b, owner, lo, hi)
  {
  }

  lemma StringTidy(key: Str, parent: Loc, field: nat, s: Str)
    requires key != []
    ensures Tidy(StringPuts(Cell(key, parent, field), s), Cell(key, parent, 0), field, field + 1)
  {
  }

  lemma IdsTidy(key: Str, parent: Loc, list: seq<nat>)
    requires key != []
    ensures Tidy(IdsPuts(Cell(key, parent, 0), list), Cell(key, parent, 0), 0, 1)
  {
  }

  lemma RegistryTidy(r: nat, reg: Registry)
    ensures Tidy(RegistryPuts(r, reg), RegistryLoc(r, 0), 0, 6)
  {
    var key, parent, owner := Word(r), Root(REGISTRIES), RegistryLoc(r, 0);
    var a := [Put(RegistryLoc(r, 0), Word(reg.id))];
    StringTidy(key, parent, 1, reg.name);
    var b := StringPuts(RegistryLoc(r, 1), reg.name);
    TidyConcat(a, b, owner, 0, 1, 2);
    StringTidy(key, parent, 2, reg.description);
    var c := StringPuts(RegistryLoc(r, 2), reg.description);
    TidyConcat(a + b, c, owner, 0, 2, 3);
    StringTidy(key, parent, 3, reg.creator);
    var d := StringPuts(RegistryLoc(r, 3), reg.creator);
    TidyConcat(a + b + c, d, owner, 0, 3, 4);
    StringTidy(key, parent, 4, reg.createdAt);
    var e := StringPuts(RegistryLoc(r, 4), reg.createdAt);
    TidyConcat(a + b + c + d, e, owner, 0, 4, 5);
    StringTidy(key, parent, 5, reg.metadata);
    TidyConcat(a + b + c + d + e, StringPuts(RegistryLoc(r, 5), reg.metadata), owner, 0, 5, 6);
  }

  lemma RecordTidy(r: nat, id: nat, index: nat, rec: Record)
    ensures Tidy(RecordPuts(r, id, index, rec), RecordLoc(r, id, index, 0), 0, 7)
  {
    var key, owner := Word(index), RecordLoc(r, id, index, 0);
    var parent := owner.parent;
    StringTidy(key, parent, 0, rec.uri);
    var a := StringPuts(RecordLoc(r, id, index, 0), rec.uri);
    StringTidy(key, parent, 1, rec.checksum);
    var b := StringPuts(RecordLoc(r, id, index, 1), rec.checksum);
    TidyConcat(a, b, owner, 0, 1, 2);
    StringTidy(key, parent, 2, rec.checksumAlgo);
    var c := StringPuts(RecordLoc(r, id, index, 2), rec.checksumAlgo);
    TidyConcat(a + b, c, owner, 0, 2, 3);
    StringTidy(key, parent, 3, rec.metadata);
    var d := StringPuts(RecordLoc(r, id, index, 3), rec.metadata);
    TidyConcat(a + b + c, d, owner, 0, 3, 4);
    StringTidy(key, parent, 4, rec.timestamp);
    var e := StringPuts(RecordLoc(r, id, index, 4), rec.timestamp);
    TidyConcat(a + b + c + d, e, owner, 0, 4, 5);
    StringTidy(key, parent, 5, rec.status);
    var f := StringPuts(RecordLoc(r, id, index, 5), rec.status);
    TidyConcat(a + b + c + d + e, f, owner, 0, 5, 6);
    TidyConcat(a + b + c + d + e + f,
               [Put(RecordLoc(r, id, index, 6), PackRecord(rec.recordId, rec.index, rec.isLatest, rec.registryId))],
               owner, 0, 6, 7);
  }

  /** A getter can be asked for the item: ids fit in 64 bits, accounts are 20 bytes, string keys are any bytes. */
  ghost predicate Askable(item: Item) {
    match item
    case RegistryItem(r) => r < TWO64
    case CountItem(r) => r < TWO64
    case RecordItem(r, id, index) => r < TWO64 && id < TWO64 && index < TWO64
    case LatestItem(r, id) => r < TWO64 && id < TWO64
    case RecordIdItem(r, _) => r < TWO64
    case MemberItem(_, account) => |account| == 20
    case _ => true
  }

  /** What a store can hold: as above, and no string key is empty. */
  ghost predicate ItemFits(item: Item) {
    && Askable(item)
    && (item.NameItem? ==> item.name != [])
    && (item.RecordIdItem? || item.ChecksumItem? ==> item.checksum != [])
  }

  lemma ItemTidy(s: State, admin: Addr, item: Item)
    requires ItemFits(item)
    ensures Tidy(ItemPuts(s, admin, item), OwnerLoc(item), 0, 7)
  {
    match item
    case RegistryItem(r) => if r in s.registries { RegistryTidy(r, s.registries[r]); }
    case NameItem(name) => IdsTidy(name, Root(REGISTRIES_BY_NAME), IdsByName(s, name));
    case RecordItem(r, id, index) =>
      if (r, id, index) in s.records { RecordTidy(r, id, index, s.records[(r, id, index)]); }
    case ChecksumItem(checksum) => IdsTidy(checksum, Root(REGISTRIES_BY_CHECKSUM), RegistriesOf(s, checksum));
    case _ =>
  }

  function RootOf(l: Loc): nat {
    match l
    case Root(n) => n
    case Cell(_, parent, _) => RootOf(parent)
  }

  function Variable(item: Item): nat {
    match item
    case RegistryItem(_) => REGISTRIES
    case NameItem(_) => REGISTRIES_BY_NAME
    case CountItem(_) => RECORD_COUNT
    case RecordItem(_, _, _) => RECORDS
    case LatestItem(_, _) => LATEST_INDEX
    case RecordIdItem(_, _) => RECORD_ID_BY_CHECKSUM
    case HeaderItem => HEADER
    case ChecksumItem(_) => REGISTRIES_BY_CHECKSUM
    case AdminItem(_) => ROLE_ADMIN
    case MemberItem(_, _) => ROLE_MEMBERS
    case MemberCountItem(_) => ROLE_MEMBER_COUNT
  }

  lemma RootOfOwner(item: Item)
    ensures RootOf(OwnerLoc(item)) == Variable(item)
  {
    var l := OwnerLoc(item);
    if l.Cell? && l.parent.Cell? {
      var p := l.parent.parent;
      assert RootOf(l) == RootOf(l.parent) == RootOf(p);
      if p.Cell? { assert RootOf(p) == RootOf(p.parent); }
    }
  }

  /** Padding merges no two 20-byte accounts. */
  lemma AccountPadding(a: Addr, b: Addr)
    requires |a| == 20 && |b| == 20 && ToHash(a) == ToHash(b)
    ensures a == b
  {
    assert ToHash(a)[12..] == a && ToHash(b)[12..] == b;
  }

  /** Different items own different locations. */
  lemma OwnerInjective(x: Item, y: Item)
    requires Askable(x) && Askable(y) && OwnerLoc(x) == OwnerLoc(y)
    ensures x == y
  {
    RootOfOwner(x);
    RootOfOwner(y);
    assert Variable(x) == Variable(y);
    match x
    case RegistryItem(r) => WordInjective(r, y.r);
    case CountItem(r) => WordInjective(r, y.r);
    case RecordItem(r, id, index) =>
      WordInjective(r, y.r);
      WordInjective(id, y.id);
      WordInjective(index, y.index);
    case LatestItem(r, id) =>
      WordInjective(r, y.r);
      WordInjective(id, y.id);
    case RecordIdItem(r, _) => WordInjective(r, y.r);
    case MemberItem(_, account) => AccountPadding(account, y.account);
    case _ =>
  }

  /** l is one of the item's own words, or array data under one. */
  ghost predicate Belongs(l: Loc, item: Item) {
    Owner(l) == OwnerLoc(item) || (l.Cell? && Cell(l.key, l.parent, 0) == OwnerLoc(item))
  }

  /**
   * No item a store holds shares a location with another item one can ask for. With an empty key the
   * entry of a mapping and the data of an array are hashed alike; the array would have to stand where
   * the outer mapping's entry does, and no item does.
   */
  lemma OwnersApart(x: Item, y: Item, l: Loc)
    requires ItemFits(x) && Askable(y) && Owner(l) == OwnerLoc(x) && Belongs(l, y)
    ensures x == y
  {
    RootOfOwner(x);
    RootOfOwner(y);
    if OwnerLoc(x) == OwnerLoc(y) { OwnerInjective(x, y); }
  }

  ghost predicate AllFit(items: seq<Item>) {
    forall x :: x in items ==> ItemFits(x)
  }

  /** What each item of a list puts, by any rule. */
  ghost function Flat(f: Item -> seq<Put>, items: seq<Item>): seq<Put> {
    if items == [] then [] else Flat(f, items[..|items| - 1]) + f(items[|items| - 1])
  }

  lemma {:induction false} PutsAreFlat(s: State, admin: Addr, f: Item -> seq<Put>, items: seq<Item>)
    requires forall x :: f(x) == ItemPuts(s, admin, x)
    ensures Puts(s, admin, items) == Flat(f, items)
    decreases |items|
  {
    if items != [] { PutsAreFlat(s, admin, f, items[..|items| - 1]); }
  }

  lemma ConcatAt<T>(a: seq<T>, b: seq<T>, i: nat)
    requires i < |a| + |b|
    ensures (a + b)[i] == if i < |a| then a[i] else b[i - |a|]
  {
  }

  lemma {:induction false} FlatHasOwner(f: Item -> seq<Put>, items: seq<Item>, i: nat) returns (x: Item)
    requires i < |Flat(f, items)|
    requires forall y, j :: y in items && 0 <= j < |f(y)| ==> Owner(f(y)[j].loc) == OwnerLoc(y)
    ensures x in items && Owner(Flat(f, items)[i].loc) == OwnerLoc(x)
    decreases |items|
  {
    var n := |items| - 1;
    var before, last := Flat(f, items[..n]), f(items[n]);
    ConcatAt(before, last, i);
    assert items[n] in items;
    if i < |before| {
      x := FlatHasOwner(f, items[..n], i);
    } else {
      x := items[n];
    }
  }

  lemma PutHasOwner(s: State, admin: Addr, items: seq<Item>, i: nat) returns (x: Item)
    requires AllFit(items) && i < |Puts(s, admin, items)|
    ensures x in items && Owner(Puts(s, admin, items)[i].loc) == OwnerLoc(x)
  {
    var f := (y: Item) => ItemPuts(s, admin, y);
    forall y, j | y in items && 0 <= j < |f(y)| ensures Owner(f(y)[j].loc) == OwnerLoc(y) {
      ItemTidy(s, admin, y);
    }
    PutsAreFlat(s, admin, f, items);
    x := FlatHasOwner(f, items, i);
  }

  /** No location is put twice over all items. */
  lemma {:induction false} PutsAreDistinct(s: State, admin: Addr, items: seq<Item>)
    requires AllFit(items) && NoDup(items)
    ensures DistinctLocs(Puts(s, admin, items))
  {
    if items != [] {
      var n := |items| - 1;
      var before, last := Puts(s, admin, items[..n]), items[n];
      assert last in items;
      PutsAreDistinct(s, admin, items[..n]);
      ItemTidy(s, admin, last);
      forall i, j | 0 <= i < |before| && 0 <= j < |ItemPuts(s, admin, last)|
        ensures before[i].loc != ItemPuts(s, admin, last)[j].loc
      {
        var x := PutHasOwner(s, admin, items[..n], i);
        if OwnerLoc(x) == OwnerLoc(last) {
          OwnerInjective(x, last);
        }
      }
    }
  }

  lemma {:induction false} FlatContains(f: Item -> seq<Put>, items: seq<Item>, x: Item)
    requires x in items
    ensures forall p :: p in f(x) ==> p in Flat(f, items)
    decreases |items|
  {
    var n := |items| - 1;
    if x != items[n] {
      assert x in items[..n];
      FlatContains(f, items[..n], x);
    }
  }

  lemma PutsContain(s: State, admin: Addr, items: seq<Item>, x: Item)
    requires x in items
    ensures forall p :: p in ItemPuts(s, admin, x) ==> p in Puts(s, admin, items)
  {
    var f := (y: Item) => ItemPuts(s, admin, y);
    PutsAreFlat(s, admin, f, items);
    FlatContains(f, items, x);
  }
}
