/** The loops of layout.go: they build exactly the writes of the symbolic layout. */
module LayoutWrites {
  import opened Bytes
  import opened Types
  import opened Slots
  import opened Layout
  import opened MigrationStorage

  function ToWrite(k: Keccak, p: Put): Write {
    Write(Slot(k, p.loc), p.value)
  }

  function ToWrites(k: Keccak, puts: seq<Put>): seq<Write> {
    seq(|puts|, i requires 0 <= i < |puts| => ToWrite(k, puts[i]))
  }

  lemma ToWritesConcat(k: Keccak, a: seq<Put>, b: seq<Put>)
    ensures ToWrites(k, a + b) == ToWrites(k, a) + ToWrites(k, b)
  {
  }

  lemma ChunkWrite(k: Keccak, loc: Loc, s: Str, q: nat)
    requires q < WordCount(|s|)
    ensures ToWrite(k, ChunkPuts(loc, s)[q]) == Write(At(ArrayData(k, Slot(k, loc)), q), Chunk(s, q))
  {
    DataSlot(k, loc, q);
  }

  method StringWrites(k: Keccak, base: Hash, s: Str, ghost loc: Loc) returns (ws: seq<Write>)
    requires base == Slot(k, loc)
    ensures ws == ToWrites(k, StringPuts(loc, s))
  {
    if |s| < 32 {
      var packed := s + Zeros(32 - |s|);
      packed := packed[31 := 2 * |s|];
      assert packed == ShortWord(s);
      ws := [Write(base, packed)];
    } else {
      ws := [Write(base, Word(2 * |s| + 1))];
      var more := ChunkWrites(k, base, s, loc);
      ws := ws + more;
      ToWritesConcat(k, [Put(loc, Word(2 * |s| + 1))], ChunkPuts(loc, s));
    }
  }

  lemma ChunkStep(k: Keccak, loc: Loc, s: Str, q: nat, i: nat, word: Str, chunks: seq<Put>)
    requires i == 32 * q && i < |s| && chunks == ChunkPuts(loc, s)
    requires word == if |s| - i >= 32 then s[i..i + 32] else s[i..] + Zeros(32 - (|s| - i))
    ensures |word| == 32 && i / 32 == q && q < |chunks|
    ensures ToWrites(k, chunks[..q + 1]) == ToWrites(k, chunks[..q]) + [Write(At(ArrayData(k, Slot(k, loc)), q), word)]
  {
    WordIsChunk(s, q, i, word);
    ChunkWrite(k, loc, s, q);
    ToWritesNext(k, chunks, q);
  }

  lemma WordIsChunk(s: Str, q: nat, i: nat, word: Str)
    requires i == 32 * q && i < |s| && word == if |s| - i >= 32 then s[i..i + 32] else s[i..] + Zeros(32 - (|s| - i))
    ensures |word| == 32 && i / 32 == q && q < WordCount(|s|) && word == Chunk(s, q)
  {
  }

  lemma ToWritesNext(k: Keccak, puts: seq<Put>, q: nat)
    requires q < |puts|
    ensures ToWrites(k, puts[..q + 1]) == ToWrites(k, puts[..q]) + [ToWrite(k, puts[q])]
  {
  }

  /** The words of a long string, from keccak(base). */
  method ChunkWrites(k: Keccak, base: Hash, s: Str, ghost loc: Loc) returns (ws: seq<Write>)
    requires base == Slot(k, loc)
    ensures ws == ToWrites(k, ChunkPuts(loc, s))
  {
    ws := [];
    var start := ArrayData(k, base);
    var i := 0;
    ghost var q := 0;
    ghost var chunks := ChunkPuts(loc, s);
    while i < |s|
      invariant i == 32 * q && q <= |chunks|
      invariant ws == ToWrites(k, chunks[..q])
    {
      var word := if |s| - i >= 32 then s[i..i + 32] else s[i..] + Zeros(32 - (|s| - i));
      ChunkStep(k, loc, s, q, i, word, chunks);
      ws := ws + [Write(At(start, i / 32), word)];
      i, q := i + 32, q + 1;
    }
    assert chunks[..q] == chunks;
  }

  /** Writes v big-endian into bytes at..at+8 of a word. */
  function PutUint64(w: Hash, at: nat, v: nat): Hash
    requires at + 8 <= 32
  {
    w[..at] + BigEndian(v, 8) + w[at + 8..]
  }

  lemma ReplaceLane(a: Str, b: Str, c: Str, d: Str, x: Str)
    requires |a| == 8 && |b| == 8 && |c| == 8 && |d| == 8 && |x| == 8
    ensures var w := a + b + c + d;
      && w[..24] + x + w[32..] == a + b + c + x && w[..16] + x + w[24..] == a + b + x + d
      && w[..8] + x + w[16..] == a + x + c + d && w[..0] + x + w[8..] == x + b + c + d
  {
    FourLanes(a, b, c, d);
    var w := a + b + c + d;
    assert w[..24] == a + b + c && w[32..] == [];
    assert w[..16] == a + b && w[24..] == d;
    assert w[..8] == a && w[16..] == c + d;
    assert w[..0] == [] && w[8..] == b + c + d;
  }

  lemma LanesOfMore(list: seq<nat>, i: nat, m: nat)
    requires i < |list|
    ensures Lane(list[..i + 1], m) == if m == i then BigEndian(list[i], 8) else Lane(list[..i], m)
  {
  }

  lemma FilledAt(list: seq<nat>, q: nat, j: nat, i: nat, w: Hash, at: nat)
    requires j < 4 && i == 4 * q + j && i < |list| && at == 24 - 8 * j
    requires w == if j == 0 then ZERO else IdsWord(list[..i], q)
    ensures PutUint64(w, at, list[i]) == IdsWord(list[..i + 1], q)
  {
    var was, q4 := list[..i], 4 * q;
    if j == 0 { NoLanes(was, q); }
    LanesOfMore(list, i, q4 + 3);
    LanesOfMore(list, i, q4 + 2);
    LanesOfMore(list, i, q4 + 1);
    LanesOfMore(list, i, q4);
    ReplaceLane(Lane(was, q4 + 3), Lane(was, q4 + 2), Lane(was, q4 + 1), Lane(was, q4), BigEndian(list[i], 8));
  }

  lemma NoLanes(list: seq<nat>, q: nat)
    requires |list| <= 4 * q
    ensures IdsWord(list, q) == ZERO
  {
    assert Zeros(8) + Zeros(8) + Zeros(8) + Zeros(8) == ZERO;
  }

  lemma LanesKept(list: seq<nat>, i: nat, m: nat)
    requires i < |list| && 4 * m + 3 < i
    ensures IdsWord(list[..i + 1], m) == IdsWord(list[..i], m)
  {
  }

  lemma LanesSoFar(q: nat, j: nat)
    requires j < 4
    ensures LaneCount(4 * q + j) == if j == 0 then q else q + 1
  {
  }

  lemma LaneWriteAt(k: Keccak, loc: Loc, list: seq<nat>, m: nat)
    requires m < LaneCount(|list|)
    ensures ToWrites(k, LanePuts(loc, list))[m] == Write(At(ArrayData(k, Slot(k, loc)), m), IdsWord(list, m))
  {
    DataSlot(k, loc, m);
  }

  lemma LaneWriteKept(k: Keccak, loc: Loc, list: seq<nat>, i: nat, m: nat)
    requires i < |list| && 4 * m + 3 < i
    ensures m < LaneCount(i)
    ensures ToWrites(k, LanePuts(loc, list[..i + 1]))[m] == ToWrites(k, LanePuts(loc, list[..i]))[m]
  {
    LanesKept(list, i, m);
    LaneWriteAt(k, loc, list[..i], m);
    LaneWriteAt(k, loc, list[..i + 1], m);
  }

  lemma SnocByElement<T>(a: seq<T>, b: seq<T>, q: nat)
    requires q <= |a| && |b| == q + 1 && (forall m :: 0 <= m < q ==> b[m] == a[m])
    ensures a[..q] + [b[q]] == b
  {
  }

  /** One more id changes the last word only. */
  lemma LaneStep(k: Keccak, loc: Loc, list: seq<nat>, q: nat, j: nat, i: nat, ws: seq<Write>, word: Write)
    requires j < 4 && i == 4 * q + j && i < |list| && ws == ToWrites(k, LanePuts(loc, list[..i]))
    requires word == Write(At(ArrayData(k, Slot(k, loc)), q), IdsWord(list[..i + 1], q))
    ensures q <= |ws| && ws[..q] + [word] == ToWrites(k, LanePuts(loc, list[..i + 1]))
  {
    LanesSoFar(q, j);
    LanesSoFar(if j == 3 then q + 1 else q, if j == 3 then 0 else j + 1);
    var more := ToWrites(k, LanePuts(loc, list[..i + 1]));
    LaneWriteAt(k, loc, list[..i + 1], q);
    forall m | 0 <= m < q ensures more[m] == ws[m] {
      LaneWriteKept(k, loc, list, i, m);
    }
    SnocByElement(ws, more, q);
  }

  method IdsWrites(k: Keccak, table: Hash, key: Str, list: seq<nat>, ghost loc: Loc) returns (ws: seq<Write>)
    requires MapString(k, key, table) == Slot(k, loc)
    ensures ws == ToWrites(k, IdsPuts(loc, list))
  {
    var lengthSlot := MapString(k, key, table);
    var words := LaneWrites(k, lengthSlot, list, loc);
    ws := [Write(lengthSlot, Word(|list|))] + words;
    ToWritesConcat(k, [Put(loc, Word(|list|))], LanePuts(loc, list));
  }

  /** The words of a list of ids, filled in place one id at a time. */
  method LaneWrites(k: Keccak, lengthSlot: Hash, list: seq<nat>, ghost loc: Loc) returns (ws: seq<Write>)
    requires lengthSlot == Slot(k, loc)
    ensures ws == ToWrites(k, LanePuts(loc, list))
  {
    ws := [];
    var data := ArrayData(k, lengthSlot);
    var i := 0;
    while i < |list|
      invariant 0 <= i <= |list|
      invariant ws == ToWrites(k, LanePuts(loc, list[..i]))
    {
      var q, j := i / 4, i % 4;
      ws := AddLane(k, data, list, i, q, j, ws, loc);
      i := i + 1;
    }
    assert list[..i] == list;
  }

  method SetValue(ws: seq<Write>, q: nat, word: Hash) returns (out: seq<Write>)
    requires |ws| == q + 1
    ensures out == ws[..q] + [Write(ws[q].slot, word)]
  {
    out := ws[q := ws[q].(value := word)];
  }

  /** Puts id 4q + j into its lane, opening a new word when j is 0. */
  method AddLane(k: Keccak, data: Hash, list: seq<nat>, i: nat, q: nat, j: nat, before: seq<Write>, ghost loc: Loc)
    returns (ws: seq<Write>)
    requires j < 4 && i == 4 * q + j && i < |list| && data == ArrayData(k, Slot(k, loc))
    requires before == ToWrites(k, LanePuts(loc, list[..i]))
    ensures ws == ToWrites(k, LanePuts(loc, list[..i + 1]))
  {
    ghost var w := if j == 0 then ZERO else IdsWord(list[..i], q);
    FilledAt(list, q, j, i, w, 24 - 8 * j);
    LaneStep(k, loc, list, q, j, i, before, Write(At(data, q), IdsWord(list[..i + 1], q)));
    LanesSoFar(q, j);
    ws := before;
    if j == 0 {
      ws := ws + [Write(At(data, q), ZERO)];
    } else {
      LaneWriteAt(k, loc, list[..i], q);
    }
    var last := |ws| - 1;
    assert last == q && ws[..q] == before[..q] && ws[q] == Write(At(data, q), w);
    var end := 32 - 8 * j;
    var word := PutUint64(ws[last].value, end - 8, list[i]);
    ws := SetValue(ws, last, word);
  }

  method PackRecordWord(recordId: nat, index: nat, isLatest: bool, registryId: nat) returns (h: Hash)
    ensures h == PackRecord(recordId, index, isLatest, registryId)
  {
    h := ZERO;
    h := PutUint64(h, 24, recordId);
    h := PutUint64(h, 16, index);
    if isLatest {
      h := h[15 := 1];
    }
    h := PutUint64(h, 7, registryId);
    assert h == PackRecord(recordId, index, isLatest, registryId);
  }

  method RegistryWrites(k: Keccak, r: nat, reg: Registry) returns (ws: seq<Write>)
    ensures ws == ToWrites(k, RegistryPuts(r, reg))
  {
    var base := RegistryBase(k, r);
    ws := [Write(At(base, 0), Word(reg.id))];
    ghost var puts := [Put(RegistryLoc(r, 0), Word(reg.id))];
    RegistrySlot(k, r, 0);
    assert ws == ToWrites(k, puts);
    var name := StringWrites(k, At(base, 1), reg.name, RegistryLoc(r, 1));
    ToWritesConcat(k, puts, StringPuts(RegistryLoc(r, 1), reg.name));
    ws, puts := ws + name, puts + StringPuts(RegistryLoc(r, 1), reg.name);
    var description := StringWrites(k, At(base, 2), reg.description, RegistryLoc(r, 2));
    ToWritesConcat(k, puts, StringPuts(RegistryLoc(r, 2), reg.description));
    ws, puts := ws + description, puts + StringPuts(RegistryLoc(r, 2), reg.description);
    var creator := StringWrites(k, At(base, 3), reg.creator, RegistryLoc(r, 3));
    ToWritesConcat(k, puts, StringPuts(RegistryLoc(r, 3), reg.creator));
    ws, puts := ws + creator, puts + StringPuts(RegistryLoc(r, 3), reg.creator);
    var createdAt := StringWrites(k, At(base, 4), reg.createdAt, RegistryLoc(r, 4));
    ToWritesConcat(k, puts, StringPuts(RegistryLoc(r, 4), reg.createdAt));
    ws, puts := ws + createdAt, puts + StringPuts(RegistryLoc(r, 4), reg.createdAt);
    var metadata := StringWrites(k, At(base, 5), reg.metadata, RegistryLoc(r, 5));
    ToWritesConcat(k, puts, StringPuts(RegistryLoc(r, 5), reg.metadata));
    ws, puts := ws + metadata, puts + StringPuts(RegistryLoc(r, 5), reg.metadata);
    assert puts == RegistryPuts(r, reg);
  }

  method RecordWrites(k: Keccak, r: nat, id: nat, index: nat, rec: Record) returns (ws: seq<Write>)
    ensures ws == ToWrites(k, RecordPuts(r, id, index, rec))
  {
    var base := RecordBase(k, r, id, index);
    ws := StringField(k, base, r, id, index, 0, rec.uri);
    ghost var puts := StringPuts(RecordLoc(r, id, index, 0), rec.uri);
    var checksum := StringField(k, base, r, id, index, 1, rec.checksum);
    ToWritesConcat(k, puts, StringPuts(RecordLoc(r, id, index, 1), rec.checksum));
    ws, puts := ws + checksum, puts + StringPuts(RecordLoc(r, id, index, 1), rec.checksum);
    var algo := StringField(k, base, r, id, index, 2, rec.checksumAlgo);
    ToWritesConcat(k, puts, StringPuts(RecordLoc(r, id, index, 2), rec.checksumAlgo));
    ws, puts := ws + algo, puts + StringPuts(RecordLoc(r, id, index, 2), rec.checksumAlgo);
    var metadata := StringField(k, base, r, id, index, 3, rec.metadata);
    ToWritesConcat(k, puts, StringPuts(RecordLoc(r, id, index, 3), rec.metadata));
    ws, puts := ws + metadata, puts + StringPuts(RecordLoc(r, id, index, 3), rec.metadata);
    var timestamp := StringField(k, base, r, id, index, 4, rec.timestamp);
    ToWritesConcat(k, puts, StringPuts(RecordLoc(r, id, index, 4), rec.timestamp));
    ws, puts := ws + timestamp, puts + StringPuts(RecordLoc(r, id, index, 4), rec.timestamp);
    var status := StringField(k, base, r, id, index, 5, rec.status);
    ToWritesConcat(k, puts, StringPuts(RecordLoc(r, id, index, 5), rec.status));
    ws, puts := ws + status, puts + StringPuts(RecordLoc(r, id, index, 5), rec.status);
    var packed := PackRecordWord(rec.recordId, rec.index, rec.isLatest, rec.registryId);
    RecordSlot(k, r, id, index, 6);
    ToWritesConcat(k, puts, [Put(RecordLoc(r, id, index, 6), packed)]);
    ws, puts := ws + [Write(At(base, 6), packed)], puts + [Put(RecordLoc(r, id, index, 6), packed)];
    assert puts == RecordPuts(r, id, index, rec);
  }

  method StringField(k: Keccak, base: Hash, r: nat, id: nat, index: nat, field: nat, s: Str) returns (ws: seq<Write>)
    requires base == RecordBase(k, r, id, index)
    ensures ws == ToWrites(k, StringPuts(RecordLoc(r, id, index, field), s))
  {
    RecordSlot(k, r, id, index, field);
    ws := StringWrites(k, At(base, field), s, RecordLoc(r, id, index, field));
  }
}
