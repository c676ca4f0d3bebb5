/**
 How values lie in the contract's storage, and how Solidity reads them back.
 Layout: Solidity documentation, "Layout of State Variables in Storage".
 */
module Layout {
  import opened Bytes
  import opened Types
  import opened Slots

  /** A word at a symbolic location. */
  datatype Put = Put(loc: Loc, value: Hash)

  type Storage = map<Hash, Hash>

  /** An unwritten slot reads as zero. */
  function Load(st: Storage, slot: Hash): Hash {
    if slot in st then st[slot] else ZERO
  }

  /** Storage shows every put. */
  ghost predicate Holds(k: Keccak, st: Storage, puts: seq<Put>) {
    forall p :: p in puts ==> Load(st, Slot(k, p.loc)) == p.value
  }

  // ---- strings ----

  function Data(base: Loc, i: nat): Loc { Cell([], base, i) }

  function WordCount(n: nat): nat { (n + 31) / 32 }

  /** Bytes 32i..32i+32 of s, zero-padded. */
  function Chunk(s: Str, i: nat): Hash
    requires 32 * i < |s|
  {
    if |s| - 32 * i >= 32 then s[32 * i..32 * i + 32] else s[32 * i..] + Zeros(32 - (|s| - 32 * i))
  }

  function ShortWord(s: Str): Hash
    requires |s| < 32
  {
    s + Zeros(31 - |s|) + [2 * |s|]
  }

  function ChunkPuts(base: Loc, s: Str): seq<Put> {
    seq(WordCount(|s|), i requires 0 <= i < WordCount(|s|) => Put(Data(base, i), Chunk(s, i)))
  }

  /** A string under 32 bytes sits in its slot; a longer one leaves its length there. */
  function StringPuts(base: Loc, s: Str): seq<Put> {
    if |s| < 32 then [Put(base, ShortWord(s))]
    else [Put(base, Word(2 * |s| + 1))] + ChunkPuts(base, s)
  }

  function ReadWords(st: Storage, data: Hash, count: nat): (b: Str)
    ensures |b| == 32 * count
  {
    if count == 0 then [] else ReadWords(st, data, count - 1) + Load(st, At(data, count - 1))
  }

  /** The lowest bit of the slot tells the short form from the long one. */
  function ReadString(k: Keccak, st: Storage, base: Hash): Str {
    var w := Load(st, base);
    if w[31] % 2 == 0 then
      (if w[31] / 2 < 32 then w[..w[31] / 2] else w)
    else
      var n := Num(w) / 2;
      ReadWords(st, ArrayData(k, base), WordCount(n))[..n]
  }

  lemma DataSlot(k: Keccak, base: Loc, i: nat)
    ensures Slot(k, Data(base, i)) == At(ArrayData(k, Slot(k, base)), i)
  {
    assert [] + Slot(k, base) == Slot(k, base);
  }

  /** s followed by the padding of its last word. */
  function Padded(s: Str): Str {
    s + Zeros(32 * WordCount(|s|) - |s|)
  }

  lemma ChunkIsSlice(s: Str, i: nat, e: nat)
    requires 32 * i < |s| && e == 32 * i + 32
    ensures e <= |Padded(s)| && Chunk(s, i) == Padded(s)[32 * i..e]
  {
    if |s| - 32 * i >= 32 {
      assert Padded(s)[32 * i..e] == s[32 * i..e];
    } else {
      assert |Padded(s)| == e;
      assert Padded(s)[32 * i..e] == s[32 * i..] + Zeros(32 - (|s| - 32 * i));
    }
  }

  lemma TakeMore(t: Str, a: nat, b: nat)
    requires a <= b <= |t|
    ensures t[..a] + t[a..b] == t[..b]
  {
  }

  lemma ChunkHeld(k: Keccak, st: Storage, base: Loc, s: Str, i: nat)
    requires Holds(k, st, ChunkPuts(base, s)) && i < WordCount(|s|)
    ensures 32 * i < |s| && Load(st, At(ArrayData(k, Slot(k, base)), i)) == Chunk(s, i)
  {
    assert ChunkPuts(base, s)[i] == Put(Data(base, i), Chunk(s, i));
    DataSlot(k, base, i);
  }

  lemma {:induction false} ReadWordsBack(k: Keccak, st: Storage, base: Loc, s: Str, count: nat)
    requires Holds(k, st, ChunkPuts(base, s)) && count <= WordCount(|s|)
    ensures ReadWords(st, ArrayData(k, Slot(k, base)), count) == Padded(s)[..32 * count]
  {
    if count > 0 {
      var i, e := count - 1, 32 * count;
      ReadWordsBack(k, st, base, s, i);
      ChunkHeld(k, st, base, s, i);
      ChunkIsSlice(s, i, e);
      TakeMore(Padded(s), 32 * i, e);
    }
  }

  lemma ReadShortBack(k: Keccak, st: Storage, base: Loc, s: Str)
    requires |s| < 32 && Holds(k, st, StringPuts(base, s))
    ensures ReadString(k, st, Slot(k, base)) == s
  {
    assert Put(base, ShortWord(s)) in StringPuts(base, s);
    ShortWordParts(s, Load(st, Slot(k, base)));
  }

  lemma ShortWordParts(s: Str, w: Hash)
    requires |s| < 32 && w == ShortWord(s)
    ensures w[31] % 2 == 0 && w[31] / 2 == |s| && w[..w[31] / 2] == s
  {
    assert w[31] == 2 * |s|;
  }

  lemma OddWord(n: nat, m: nat)
    requires m == 2 * n + 1 && m < TWO64
    ensures Num(Word(m)) / 2 == n && Word(m)[31] % 2 == 1
  {
    NumOfWord(m);
    LastOfWord(m);
    assert m % 256 % 2 == m % 2;
  }

  lemma LastOfWord(m: nat)
    ensures Word(m)[31] == m % 256
  {
    var low: nat := 7;
    assert BigEndian(m, low + 1) == BigEndian(m / 256, low) + [m % 256];
  }

  lemma ReadLongBack(k: Keccak, st: Storage, base: Loc, s: Str)
    requires 32 <= |s| && 2 * |s| + 1 < TWO64 && Holds(k, st, ChunkPuts(base, s))
    requires Load(st, Slot(k, base)) == Word(2 * |s| + 1)
    ensures ReadString(k, st, Slot(k, base)) == s
  {
    OddWord(|s|, 2 * |s| + 1);
    var count := WordCount(|s|);
    ReadWordsBack(k, st, base, s, count);
    assert Padded(s)[..32 * count] == Padded(s);
    PaddedTake(s);
  }

  lemma PaddedTake(s: Str)
    ensures Padded(s)[..|s|] == s
  {
  }

  /** Solidity reads every string back, on both sides of the 31/32-byte boundary. */
  lemma ReadStringBack(k: Keccak, st: Storage, base: Loc, s: Str)
    requires 2 * |s| + 1 < TWO64 && Holds(k, st, StringPuts(base, s))
    ensures ReadString(k, st, Slot(k, base)) == s
  {
    if |s| < 32 {
      ReadShortBack(k, st, base, s);
    } else {
      var puts := StringPuts(base, s);
      assert puts[0] == Put(base, Word(2 * |s| + 1));
      assert forall p :: p in ChunkPuts(base, s) ==> p in puts;
      ReadLongBack(k, st, base, s);
    }
  }

  // ---- lists of uint64 ----

  function LaneCount(n: nat): nat { (n + 3) / 4 }

  function Lane(list: seq<nat>, j: nat): (b: Str)
    ensures |b| == 8
  {
    if j < |list| then BigEndian(list[j], 8) else Zeros(8)
  }

  /** Four ids to a word, the first in the low 8 bytes. */
  function IdsWord(list: seq<nat>, i: nat): Hash {
    Lane(list, 4 * i + 3) + Lane(list, 4 * i + 2) + Lane(list, 4 * i + 1) + Lane(list, 4 * i)
  }

  function LanePuts(base: Loc, list: seq<nat>): seq<Put> {
    seq(LaneCount(|list|), i requires 0 <= i => Put(Data(base, i), IdsWord(list, i)))
  }

  function IdsPuts(base: Loc, list: seq<nat>): seq<Put> {
    [Put(base, Word(|list|))] + LanePuts(base, list)
  }

  /** Lane j of a word, counted from the low end. */
  function ReadLane(w: Hash, j: nat): nat
    requires j < 4
  {
    Num(if j == 0 then w[24..32] else if j == 1 then w[16..24] else if j == 2 then w[8..16] else w[0..8])
  }

  function ReadIds(k: Keccak, st: Storage, slot: Hash): seq<nat> {
    var data := ArrayData(k, slot);
    seq(Num(Load(st, slot)), i requires 0 <= i => ReadLane(Load(st, At(data, i / 4)), i % 4))
  }

  lemma FourLanes(a: Str, b: Str, c: Str, d: Str)
    requires |a| == 8 && |b| == 8 && |c| == 8 && |d| == 8
    ensures var w := a + b + c + d; w[0..8] == a && w[8..16] == b && w[16..24] == c && w[24..32] == d
  {
    var ab := a + b;
    assert ab[0..8] == a && ab[8..16] == b;
    var abc := ab + c;
    assert abc[0..8] == ab[0..8] && abc[8..16] == ab[8..16] && abc[16..24] == c;
    var w := abc + d;
    assert w[0..8] == abc[0..8] && w[8..16] == abc[8..16] && w[16..24] == abc[16..24] && w[24..32] == d;
  }

  lemma ReadLaneBack(list: seq<nat>, q: nat, j: nat)
    requires j < 4 && 4 * q + j < |list| && list[4 * q + j] < TWO64
    ensures ReadLane(IdsWord(list, q), j) == list[4 * q + j]
  {
    var a, b, c, d := Lane(list, 4 * q + 3), Lane(list, 4 * q + 2), Lane(list, 4 * q + 1), Lane(list, 4 * q);
    FourLanes(a, b, c, d);
    LaneNum(list, 4 * q + j);
    if j == 0 {
      assert IdsWord(list, q)[24..32] == d;
    } else if j == 1 {
      assert IdsWord(list, q)[16..24] == c;
    } else if j == 2 {
      assert IdsWord(list, q)[8..16] == b;
    } else {
      assert IdsWord(list, q)[0..8] == a;
    }
  }

  lemma LaneNum(list: seq<nat>, i: nat)
    requires i < |list| && list[i] < TWO64
    ensures Num(Lane(list, i)) == list[i]
  {
    Pow256Eight();
    NumOfBigEndian(list[i], 8);
  }

  lemma LaneHeld(k: Keccak, st: Storage, base: Loc, list: seq<nat>, q: nat)
    requires Holds(k, st, IdsPuts(base, list)) && q < LaneCount(|list|)
    ensures Load(st, At(ArrayData(k, Slot(k, base)), q)) == IdsWord(list, q)
  {
    assert LanePuts(base, list)[q] == Put(Data(base, q), IdsWord(list, q));
    assert LanePuts(base, list)[q] in IdsPuts(base, list);
    DataSlot(k, base, q);
  }

  lemma LengthHeld(k: Keccak, st: Storage, base: Loc, list: seq<nat>)
    requires |list| < TWO64 && Holds(k, st, IdsPuts(base, list))
    ensures Num(Load(st, Slot(k, base))) == |list|
  {
    assert IdsPuts(base, list)[0] == Put(base, Word(|list|));
    NumOfWord(|list|);
  }

  lemma IdReadsBack(k: Keccak, st: Storage, base: Loc, list: seq<nat>, q: nat, j: nat)
    requires j < 4 && 4 * q + j < |list| && list[4 * q + j] < TWO64 && Holds(k, st, IdsPuts(base, list))
    ensures ReadLane(Load(st, At(ArrayData(k, Slot(k, base)), q)), j) == list[4 * q + j]
  {
    LaneHeld(k, st, base, list, q);
    ReadLaneBack(list, q, j);
  }

  /** Solidity reads every list of ids back. */
  lemma ReadIdsBack(k: Keccak, st: Storage, base: Loc, list: seq<nat>)
    requires |list| < TWO64 && (forall i :: 0 <= i < |list| ==> list[i] < TWO64)
    requires Holds(k, st, IdsPuts(base, list))
    ensures ReadIds(k, st, Slot(k, base)) == list
  {
    LengthHeld(k, st, base, list);
    var ids := ReadIds(k, st, Slot(k, base));
    forall i | 0 <= i < |list| ensures ids[i] == list[i] { IdReadsBack(k, st, base, list, i / 4, i % 4); }
  }

  // ---- structs ----

  /** A Record's last slot: recordId, index, isLatest and registryId from the low end. */
  function PackRecord(recordId: nat, index: nat, isLatest: bool, registryId: nat): Hash {
    Zeros(7) + BigEndian(registryId, 8) + [if isLatest then 1 else 0] + BigEndian(index, 8) + BigEndian(recordId, 8)
  }

  lemma UnpackRecord(recordId: nat, index: nat, isLatest: bool, registryId: nat)
    requires recordId < TWO64 && index < TWO64 && registryId < TWO64
    ensures var w := PackRecord(recordId, index, isLatest, registryId);
            && Num(w[24..32]) == recordId && Num(w[16..24]) == index
            && (w[15] != 0 <==> isLatest) && Num(w[7..15]) == registryId
  {
    var w := PackRecord(recordId, index, isLatest, registryId);
    Pow256Eight();
    NumOfBigEndian(recordId, 8);
    NumOfBigEndian(index, 8);
    NumOfBigEndian(registryId, 8);
    assert w[24..32] == BigEndian(recordId, 8);
    assert w[16..24] == BigEndian(index, 8);
    assert w[7..15] == BigEndian(registryId, 8);
  }

  function RegistryLoc(r: nat, field: nat): Loc { Cell(Word(r), Root(REGISTRIES), field) }

  function RecordLoc(r: nat, id: nat, index: nat, field: nat): Loc {
    Cell(Word(index), Cell(Word(id), Cell(Word(r), Root(RECORDS), 0), 0), field)
  }

  function RegistryPuts(r: nat, reg: Registry): seq<Put> {
    [Put(RegistryLoc(r, 0), Word(reg.id))]
    + StringPuts(RegistryLoc(r, 1), reg.name)
    + StringPuts(RegistryLoc(r, 2), reg.description)
    + StringPuts(RegistryLoc(r, 3), reg.creator)
    + StringPuts(RegistryLoc(r, 4), reg.createdAt)
    + StringPuts(RegistryLoc(r, 5), reg.metadata)
  }

  function RecordPuts(r: nat, id: nat, index: nat, rec: Record): seq<Put> {
    StringPuts(RecordLoc(r, id, index, 0), rec.uri)
    + StringPuts(RecordLoc(r, id, index, 1), rec.checksum)
    + StringPuts(RecordLoc(r, id, index, 2), rec.checksumAlgo)
    + StringPuts(RecordLoc(r, id, index, 3), rec.metadata)
    + StringPuts(RecordLoc(r, id, index, 4), rec.timestamp)
    + StringPuts(RecordLoc(r, id, index, 5), rec.status)
    + [Put(RecordLoc(r, id, index, 6), PackRecord(rec.recordId, rec.index, rec.isLatest, rec.registryId))]
  }

  function ReadRegistry(k: Keccak, st: Storage, r: nat): Registry {
    var b := RegistryBase(k, r);
    Registry(Num(Load(st, At(b, 0))[24..]), ReadString(k, st, At(b, 1)), ReadString(k, st, At(b, 2)),
             ReadString(k, st, At(b, 3)), ReadString(k, st, At(b, 4)), ReadString(k, st, At(b, 5)))
  }

  function ReadRecord(k: Keccak, st: Storage, r: nat, id: nat, index: nat): Record {
    var b := RecordBase(k, r, id, index);
    var w := Load(st, At(b, 6));
    Record(ReadString(k, st, At(b, 0)), ReadString(k, st, At(b, 1)), ReadString(k, st, At(b, 2)),
           ReadString(k, st, At(b, 3)), ReadString(k, st, At(b, 4)), ReadString(k, st, At(b, 5)),
           Num(w[24..32]), Num(w[16..24]), w[15] != 0, Num(w[7..15]))
  }

  lemma RegistrySlot(k: Keccak, r: nat, field: nat)
    ensures Slot(k, RegistryLoc(r, field)) == At(RegistryBase(k, r), field)
  {
  }

  lemma RecordSlot(k: Keccak, r: nat, id: nat, index: nat, field: nat)
    ensures Slot(k, RecordLoc(r, id, index, field)) == At(RecordBase(k, r, id, index), field)
  {
    var a := MapUint64(k, r, Word(RECORDS));
    AtZero(a);
    assert Slot(k, Cell(Word(r), Root(RECORDS), 0)) == a;
    AtZero(MapUint64(k, id, a));
  }

  ghost predicate RegistryFits(reg: Registry) {
    && reg.id < TWO64 && 2 * |reg.name| + 1 < TWO64 && 2 * |reg.description| + 1 < TWO64
    && 2 * |reg.creator| + 1 < TWO64 && 2 * |reg.createdAt| + 1 < TWO64 && 2 * |reg.metadata| + 1 < TWO64
  }

  ghost predicate RecordFits(rec: Record) {
    && 2 * |rec.uri| + 1 < TWO64 && 2 * |rec.checksum| + 1 < TWO64 && 2 * |rec.checksumAlgo| + 1 < TWO64
    && 2 * |rec.metadata| + 1 < TWO64 && 2 * |rec.timestamp| + 1 < TWO64 && 2 * |rec.status| + 1 < TWO64
    && rec.recordId < TWO64 && rec.index < TWO64 && rec.registryId < TWO64
  }

  lemma ReadFieldBack(k: Keccak, st: Storage, puts: seq<Put>, base: Loc, s: Str)
    requires Holds(k, st, puts) && 2 * |s| + 1 < TWO64
    requires forall p :: p in StringPuts(base, s) ==> p in puts
    ensures ReadString(k, st, Slot(k, base)) == s
  {
    ReadStringBack(k, st, base, s);
  }

  /** Solidity reads every registry struct back. */
  lemma ReadRegistryBack(k: Keccak, st: Storage, r: nat, reg: Registry)
    requires RegistryFits(reg) && Holds(k, st, RegistryPuts(r, reg))
    ensures ReadRegistry(k, st, r) == reg
  {
    var puts := RegistryPuts(r, reg);
    assert puts[0] == Put(RegistryLoc(r, 0), Word(reg.id));
    NumOfWord(reg.id);
    ReadFieldBack(k, st, puts, RegistryLoc(r, 1), reg.name);
    ReadFieldBack(k, st, puts, RegistryLoc(r, 2), reg.description);
    ReadFieldBack(k, st, puts, RegistryLoc(r, 3), reg.creator);
    ReadFieldBack(k, st, puts, RegistryLoc(r, 4), reg.createdAt);
    ReadFieldBack(k, st, puts, RegistryLoc(r, 5), reg.metadata);
  }

  /** Solidity reads every record struct back. */
  lemma ReadRecordBack(k: Keccak, st: Storage, r: nat, id: nat, index: nat, rec: Record)
    requires RecordFits(rec) && Holds(k, st, RecordPuts(r, id, index, rec))
    ensures ReadRecord(k, st, r, id, index) == rec
  {
    var puts := RecordPuts(r, id, index, rec);
    assert puts[|puts| - 1]
        == Put(RecordLoc(r, id, index, 6), PackRecord(rec.recordId, rec.index, rec.isLatest, rec.registryId));
    UnpackRecord(rec.recordId, rec.index, rec.isLatest, rec.registryId);
    RecordSlot(k, r, id, index, 6);
    RecordStringsBack(k, st, r, id, index, rec, puts);
  }

  lemma RecordStringsBack(k: Keccak, st: Storage, r: nat, id: nat, index: nat, rec: Record, puts: seq<Put>)
    requires RecordFits(rec) && puts == RecordPuts(r, id, index, rec) && Holds(k, st, puts)
    ensures var b := RecordBase(k, r, id, index);
            && ReadString(k, st, At(b, 0)) == rec.uri && ReadString(k, st, At(b, 1)) == rec.checksum
            && ReadString(k, st, At(b, 2)) == rec.checksumAlgo && ReadString(k, st, At(b, 3)) == rec.metadata
            && ReadString(k, st, At(b, 4)) == rec.timestamp && ReadString(k, st, At(b, 5)) == rec.status
  {
    RecordSlot(k, r, id, index, 0);
    RecordSlot(k, r, id, index, 1);
    RecordSlot(k, r, id, index, 2);
    RecordSlot(k, r, id, index, 3);
    RecordSlot(k, r, id, index, 4);
    RecordSlot(k, r, id, index, 5);
    ReadFieldBack(k, st, puts, RecordLoc(r, id, index, 0), rec.uri);
    ReadFieldBack(k, st, puts, RecordLoc(r, id, index, 1), rec.checksum);
    ReadFieldBack(k, st, puts, RecordLoc(r, id, index, 2), rec.checksumAlgo);
    ReadFieldBack(k, st, puts, RecordLoc(r, id, index, 3), rec.metadata);
    ReadFieldBack(k, st, puts, RecordLoc(r, id, index, 4), rec.timestamp);
    ReadFieldBack(k, st, puts, RecordLoc(r, id, index, 5), rec.status);
  }
}
