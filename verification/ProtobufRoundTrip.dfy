/** A document survives the wire, and the reader accepts exactly the concatenations of single fields. */
module ProtobufRoundTrip {
  import opened Bytes
  import opened Types
  import opened Varints
  import opened Protobuf

  function Apply(doc: Doc, f: Field): Doc {
    match f.value
    case Uint(n) => SetUint(doc, f.tag / 8, n)
    case Flag(on) => SetFlag(doc, on)
    case Text(s) => SetText(doc, f.tag / 8, s)
  }

  /** The tag byte names a field the reader takes with this kind of value, and the value fits. */
  ghost predicate Known(doc: Doc, f: Field) {
    && 8 <= f.tag < 128
    && match f.value
      case Uint(n) => f.tag % 8 == 0 && KindOf(doc, f.tag / 8).UintKind? && n < TWO64
      case Flag(_) => f.tag % 8 == 0 && KindOf(doc, f.tag / 8).FlagKind?
      case Text(s) => f.tag % 8 == 2 && KindOf(doc, f.tag / 8).TextKind?
  }

  lemma TagReads(f: Field, rest: Str)
    requires 8 <= f.tag < 128
    ensures VarintAt([f.tag] + rest, 0) == Got((f.tag, 1)) && FieldNum(f.tag) == f.tag / 8
  {
    assert ([f.tag] + rest)[0..] == Varint(f.tag) + rest;
    VarintReadsBack([f.tag] + rest, 0, f.tag, rest);
  }

  lemma NumberReads(tag: byte, v: nat, rest: Str)
    requires v < TWO64
    ensures VarintAt([tag] + Varint(v) + rest, 1) == Got((v, 1 + |Varint(v)|))
  {
    var d := [tag] + Varint(v) + rest;
    assert d[1..] == Varint(v) + rest;
    VarintReadsBack(d, 1, v, rest);
  }

  lemma UintParses(doc: Doc, f: Field)
    requires Known(doc, f) && f.value.Uint?
    ensures Entry(doc, [f.tag] + Varint(f.value.n), 0) == Got((Apply(doc, f), 1 + |Varint(f.value.n)|))
  {
    TagReads(f, Varint(f.value.n));
    NumberReads(f.tag, f.value.n, []);
    assert [f.tag] + Varint(f.value.n) + [] == [f.tag] + Varint(f.value.n);
  }

  lemma FlagParses(doc: Doc, f: Field)
    requires Known(doc, f) && f.value == Flag(true)
    ensures Entry(doc, [f.tag, 1], 0) == Got((Apply(doc, f), 2))
  {
    TagReads(f, [1]);
    NumberReads(f.tag, 1, []);
    assert [f.tag] + Varint(1) + [] == [f.tag, 1] == [f.tag] + [1];
  }

  lemma TextParses(doc: Doc, f: Field)
    requires Known(doc, f) && f.value.Text? && |FieldBytes(f)| < TWO63 && f.value.s != []
    ensures Entry(doc, FieldBytes(f), 0) == Got((Apply(doc, f), |FieldBytes(f)|))
  {
    var s := f.value.s;
    var d := FieldBytes(f);
    TagReads(f, Varint(|s|) + s);
    NumberReads(f.tag, |s|, s);
    assert d == [f.tag] + (Varint(|s|) + s);
    var k := 1 + |Varint(|s|)|;
    assert d[k..k + |s|] == s;
  }

  /** One written field read on its own. */
  lemma FieldParses(doc: Doc, f: Field)
    requires Known(doc, f) && |FieldBytes(f)| < TWO63 && FieldBytes(f) != []
    ensures Entry(doc, FieldBytes(f), 0) == Got((Apply(doc, f), |FieldBytes(f)|))
  {
    match f.value
    case Uint(_) => UintParses(doc, f);
    case Flag(_) => FlagParses(doc, f);
    case Text(_) => TextParses(doc, f);
  }

  /** doc with only its first k fields, in writing order, filled in. */
  function Upto(doc: Doc, k: nat): Doc {
    match doc
    case RegistryDoc(r) =>
      RegistryDoc(Registry(
        if k > 0 then r.id else 0, if k > 1 then r.name else [], if k > 2 then r.description else [],
        if k > 3 then r.creator else [], if k > 4 then r.createdAt else [], if k > 5 then r.metadata else []))
    case RecordDoc(r) =>
      RecordDoc(Record(
        if k > 0 then r.uri else [], if k > 1 then r.checksum else [], if k > 2 then r.checksumAlgo else [],
        if k > 3 then r.metadata else [], if k > 4 then r.timestamp else [], if k > 5 then r.status else [],
        if k > 6 then r.recordId else 0, if k > 7 then r.index else 0, k > 8 && r.isLatest,
        if k > 9 then r.registryId else 0))
  }

  /** The numbers are uint64s and the encoding fits a Go slice. */
  ghost predicate Fits(doc: Doc) {
    && |Encode(Fields(doc), 0)| < TWO63
    && match doc
      case RegistryDoc(r) => r.id < TWO64
      case RecordDoc(r) => r.recordId < TWO64 && r.index < TWO64 && r.registryId < TWO64
  }

  lemma RegistryFieldIsKnown(r: Registry, k: nat)
    requires r.id < TWO64 && k < |Fields(RegistryDoc(r))|
    ensures Known(Upto(RegistryDoc(r), k), Fields(RegistryDoc(r))[k])
  {
  }

  lemma RecordFieldIsKnown(r: Record, k: nat)
    requires r.recordId < TWO64 && r.index < TWO64 && r.registryId < TWO64 && k < |Fields(RecordDoc(r))|
    ensures Known(Upto(RecordDoc(r), k), Fields(RecordDoc(r))[k])
  {
  }

  lemma FieldIsKnown(doc: Doc, k: nat)
    requires Fits(doc) && k < |Fields(doc)|
    ensures Known(Upto(doc, k), Fields(doc)[k])
  {
    match doc
    case RegistryDoc(r) => RegistryFieldIsKnown(r, k);
    case RecordDoc(r) => RecordFieldIsKnown(r, k);
  }

  lemma NextField(doc: Doc, k: nat)
    requires k < |Fields(doc)|
    ensures FieldBytes(Fields(doc)[k]) == [] ==> Upto(doc, k + 1) == Upto(doc, k)
    ensures FieldBytes(Fields(doc)[k]) != [] ==> Upto(doc, k + 1) == Apply(Upto(doc, k), Fields(doc)[k])
  {
  }

  lemma {:induction false} RestParses(doc: Doc, k: nat)
    requires Fits(doc) && k <= |Fields(doc)| && |Encode(Fields(doc), k)| < TWO63
    ensures Parse(Upto(doc, k), Encode(Fields(doc), k), 0) == Got(doc)
    decreases |Fields(doc)| - k
  {
    var fs := Fields(doc);
    if k < |fs| {
      var head, tail := FieldBytes(fs[k]), Encode(fs, k + 1);
      RestParses(doc, k + 1);
      NextField(doc, k);
      if head == [] {
        assert head + tail == tail;
      } else {
        FieldIsKnown(doc, k);
        FieldParses(Upto(doc, k), fs[k]);
        ConcatenationMerges(Upto(doc, k), head, 0, tail);
      }
    }
  }

  /** Unmarshalling what was marshalled, into a fresh document, gives the document back. */
  lemma WireRoundTrip(doc: Doc)
    requires Fits(doc)
    ensures Parse(Blank(doc), Encode(Fields(doc), 0), 0) == Got(doc)
  {
    RestParses(doc, 0);
    assert Upto(doc, 0) == Blank(doc);
  }

  // ---- what is accepted ----

  function Concat(cs: seq<Str>): Str {
    if cs == [] then [] else cs[0] + Concat(cs[1..])
  }

  /** Each chunk read alone, as exactly one field, one after the other. */
  function Fold(doc: Doc, cs: seq<Str>): Parsed<Doc>
    decreases |cs|
  {
    if cs == [] then Got(doc) else
      match Entry(doc, cs[0], 0)
      case Bad(e) => Bad(e)
      case Got((next, j)) => if j == |cs[0]| then Fold(next, cs[1..]) else Bad(UnexpectedEof)
  }

  lemma {:induction false} GroupsRestrict(d: Str, n: nat, from: nat, i: nat)
    requires from <= i && GroupsFrom(d, from, i).Got? && GroupsFrom(d, from, i).value.1 <= n <= |d|
    ensures GroupsFrom(d[..n], from, i) == GroupsFrom(d, from, i)
    decreases |d| - i
  {
    GroupsFromAdvance(d, from, i);
    if d[i] >= 128 { GroupsRestrict(d, n, from, i + 1); }
  }

  lemma VarintRestricts(d: Str, n: nat, i: nat)
    requires VarintAt(d, i).Got? && VarintAt(d, i).value.1 <= n <= |d|
    ensures VarintAt(d[..n], i) == VarintAt(d, i)
  {
    GroupsRestrict(d, n, i, i);
  }

  lemma {:induction false} SkipRestricts(d: Str, n: nat, i: nat, depth: nat)
    requires Skip(d, i, depth) == Got(n) && n <= |d|
    ensures Skip(d[..n], i, depth) == Got(n)
    decreases |d| - i
  {
    SkipAdvances(d, i, depth);
    var (wire, j) := VarintAt(d, i).value;
    VarintAdvances(d, i);
    var (k, inner) := SkipValue(d, wire % 8, j, depth).value;
    SkipValueAdvances(d, wire % 8, j, depth);
    if inner != 0 { SkipAdvances(d, k, inner); }
    VarintRestricts(d, n, i);
    if wire % 8 == 0 || wire % 8 == 2 {
      VarintAdvances(d, j);
      VarintRestricts(d, n, j);
    }
    if inner != 0 { SkipRestricts(d, n, k, inner); }
  }

  /** A field at the front is read the same with nothing after it. */
  lemma EntryRestricts(doc: Doc, d: Str)
    requires Entry(doc, d, 0).Got?
    ensures 0 < Entry(doc, d, 0).value.1 <= |d|
    ensures Entry(doc, d[..Entry(doc, d, 0).value.1], 0) == Entry(doc, d, 0)
  {
    var n := Entry(doc, d, 0).value.1;
    EntryAdvances(doc, d, 0);
    var (wire, j) := VarintAt(d, 0).value;
    VarintAdvances(d, 0);
    assert d[0..] == d && d[..n][0..] == d[..n];
    if KindOf(doc, FieldNum(wire)).Unknown? {
      SkipHead(d);
      SkipRestricts(d, n, 0, 0);
    } else {
      var (v, k) := VarintAt(d, j).value;
      VarintAdvances(d, j);
      VarintRestricts(d, n, j);
      assert k + v <= n ==> d[..n][k..k + v] == d[k..k + v];
    }
    VarintRestricts(d, n, 0);
  }

  /** A skipped field holds at least its tag. */
  lemma SkipHead(d: Str)
    requires Skip(d, 0, 0).Got? && VarintAt(d, 0).Got?
    ensures Skip(d, 0, 0).value >= VarintAt(d, 0).value.1
  {
    var (wire, j) := VarintAt(d, 0).value;
    var (k, inner) := SkipValue(d, wire % 8, j, 0).value;
    SkipValueAdvances(d, wire % 8, j, 0);
    if inner != 0 { SkipAdvances(d, k, inner); }
  }

  lemma {:induction false} ChunksParse(doc: Doc, cs: seq<Str>)
    requires Fold(doc, cs).Got? && |Concat(cs)| < TWO63
    ensures Parse(doc, Concat(cs), 0) == Fold(doc, cs)
    decreases |cs|
  {
    if cs != [] {
      var next := Entry(doc, cs[0], 0).value.0;
      ChunksParse(next, cs[1..]);
      OneFieldParses(doc, cs[0]);
      ConcatenationMerges(doc, cs[0], 0, Concat(cs[1..]));
    }
  }

  lemma OneFieldParses(doc: Doc, c: Str)
    requires Entry(doc, c, 0).Got? && Entry(doc, c, 0).value.1 == |c|
    ensures Parse(doc, c, 0) == Got(Entry(doc, c, 0).value.0)
  {
    EntryAdvances(doc, c, 0);
  }

  lemma ParseStep(doc: Doc, d: Str, i: nat, next: Doc, j: nat)
    requires i < |d| && Entry(doc, d, i) == Got((next, j))
    ensures i < j <= |d| && Parse(doc, d, i) == Parse(next, d, j)
  {
    EntryAdvances(doc, d, i);
  }

  lemma {:induction false} ParseUnshifts(doc: Doc, d: Str, e: Str, i: nat)
    requires i <= |e| && |d| + |e| < TWO63 && Parse(doc, d + e, |d| + i).Got?
    ensures Parse(doc, e, i) == Parse(doc, d + e, |d| + i)
    decreases |e| - i
  {
    if i < |e| {
      EntryUnshifts(doc, d, e, i);
      EntryShifts(doc, d, e, i);
      var (next, j) := Entry(doc, e, i).value;
      ParseStep(doc, e, i, next, j);
      ParseStep(doc, d + e, |d| + i, next, |d| + j);
      ParseUnshifts(next, d, e, j);
    }
  }

  lemma {:induction false} GroupsUnshift(d: Str, e: Str, from: nat, i: nat)
    requires from <= i && GroupsFrom(d + e, |d| + from, |d| + i).Got?
    ensures GroupsFrom(e, from, i).Got?
    decreases |e| - i
  {
    if e[i] >= 128 { GroupsUnshift(d, e, from, i + 1); }
  }

  lemma EntryUnshifts(doc: Doc, d: Str, e: Str, i: nat)
    requires i <= |e| && |d| + |e| < TWO63 && Entry(doc, d + e, |d| + i).Got?
    ensures Entry(doc, e, i).Got?
  {
    GroupsUnshift(d, e, i, i);
    VarintShifts(d, e, i);
    var (wire, j) := VarintAt(e, i).value;
    if KindOf(doc, FieldNum(wire)).Unknown? {
      assert (d + e)[|d| + i..] == e[i..];
    } else {
      GroupsUnshift(d, e, j, j);
      VarintShifts(d, e, j);
    }
  }

  lemma {:induction false} ParseSplits(doc: Doc, d: Str) returns (cs: seq<Str>)
    requires |d| < TWO63 && Parse(doc, d, 0).Got?
    ensures Concat(cs) == d && Fold(doc, cs) == Parse(doc, d, 0)
    decreases |d|
  {
    if d == [] {
      cs := [];
    } else {
      var (next, j) := Entry(doc, d, 0).value;
      EntryRestricts(doc, d);
      var head, tail := d[..j], d[j..];
      assert d == head + tail && |head| == j;
      ParseUnshifts(next, head, tail, 0);
      var rest := ParseSplits(next, tail);
      cs := [head] + rest;
      assert cs[1..] == rest;
    }
  }

  /** An input is accepted exactly when it is a concatenation of single fields, and reads as they do in turn. */
  lemma AcceptsConcatenations(doc: Doc, d: Str)
    requires |d| < TWO63
    ensures Parse(doc, d, 0).Got? <==> exists cs :: Concat(cs) == d && Fold(doc, cs).Got?
    ensures forall cs :: Concat(cs) == d && Fold(doc, cs).Got? ==> Fold(doc, cs) == Parse(doc, d, 0)
  {
    forall cs | Concat(cs) == d && Fold(doc, cs).Got? ensures Fold(doc, cs) == Parse(doc, d, 0) {
      ChunksParse(doc, cs);
    }
    if Parse(doc, d, 0).Got? {
      var cs := ParseSplits(doc, d);
      assert Concat(cs) == d && Fold(doc, cs).Got?;
    }
  }
}
