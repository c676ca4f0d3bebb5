/** Wire form of the stored documents: what is written, what is read, and that they agree. */
module Protobuf {
  import opened Bytes
  import opened Types
  import opened Varints

  datatype Doc = RegistryDoc(registry: Registry) | RecordDoc(record: Record)

  datatype Value = Uint(n: nat) | Flag(on: bool) | Text(s: Str)

  /** A written field: its tag byte and value. */
  datatype Field = Field(tag: byte, value: Value)

  function Fields(doc: Doc): seq<Field> {
    match doc
    case RegistryDoc(r) =>
      [Field(0x08, Uint(r.id)), Field(0x12, Text(r.name)), Field(0x1a, Text(r.description)),
       Field(0x22, Text(r.creator)), Field(0x2a, Text(r.createdAt)), Field(0x32, Text(r.metadata))]
    case RecordDoc(r) =>
      [Field(0x12, Text(r.uri)), Field(0x1a, Text(r.checksum)), Field(0x22, Text(r.checksumAlgo)),
       Field(0x2a, Text(r.metadata)), Field(0x32, Text(r.timestamp)), Field(0x3a, Text(r.status)),
       Field(0x40, Uint(r.recordId)), Field(0x48, Uint(r.index)), Field(0x50, Flag(r.isLatest)),
       Field(0x58, Uint(r.registryId))]
  }

  /** The bytes of one field; a zero, false or empty value is not written. */
  function FieldBytes(f: Field): Str {
    match f.value
    case Uint(n) => if n == 0 then [] else [f.tag] + Varint(n)
    case Flag(on) => if on then [f.tag, 1] else []
    case Text(s) => if s == [] then [] else [f.tag] + Varint(|s|) + s
  }

  /** The fields from the i-th on, in order. */
  function Encode(fs: seq<Field>, i: nat): Str
    decreases |fs| - i
  {
    if i >= |fs| then [] else FieldBytes(fs[i]) + Encode(fs, i + 1)
  }

  // ---- reading ----

  function Blank(doc: Doc): Doc {
    match doc
    case RegistryDoc(_) => RegistryDoc(NO_REGISTRY)
    case RecordDoc(_) => RecordDoc(Record([], [], [], [], [], [], 0, 0, false, 0))
  }

  datatype Kind = UintKind | FlagKind | TextKind | Unknown

  /** How the reader takes the field with this number. */
  function KindOf(doc: Doc, num: nat): Kind {
    match doc
    case RegistryDoc(_) => if num == 1 then UintKind else if 2 <= num <= 6 then TextKind else Unknown
    case RecordDoc(_) =>
      if 2 <= num <= 7 then TextKind
      else if num == 8 || num == 9 || num == 11 then UintKind
      else if num == 10 then FlagKind
      else Unknown
  }

  function SetUint(doc: Doc, num: nat, n: nat): Doc {
    match doc
    case RegistryDoc(r) => RegistryDoc(r.(id := n))
    case RecordDoc(r) =>
      RecordDoc(if num == 8 then r.(recordId := n) else if num == 9 then r.(index := n) else r.(registryId := n))
  }

  function SetFlag(doc: Doc, on: bool): Doc {
    match doc
    case RegistryDoc(_) => doc
    case RecordDoc(r) => RecordDoc(r.(isLatest := on))
  }

  function SetText(doc: Doc, num: nat, s: Str): Doc {
    match doc
    case RegistryDoc(r) =>
      RegistryDoc(
        if num == 2 then r.(name := s) else if num == 3 then r.(description := s)
        else if num == 4 then r.(creator := s) else if num == 5 then r.(createdAt := s)
        else r.(metadata := s))
    case RecordDoc(r) =>
      RecordDoc(
        if num == 2 then r.(uri := s) else if num == 3 then r.(checksum := s)
        else if num == 4 then r.(checksumAlgo := s) else if num == 5 then r.(metadata := s)
        else if num == 6 then r.(timestamp := s) else r.(status := s))
  }

  /** The end of the length-delimited text that starts at i, in an input of l bytes. */
  function TextEnd(i: nat, len: nat, l: nat): Parsed<nat> {
    if len >= TWO63 || i + len >= TWO63 then Bad(InvalidLength)
    else if i + len > l then Bad(UnexpectedEof)
    else Got(i + len)
  }

  /** After the tag at i with this wire type: the next index and the group depth. */
  function SkipValue(d: Str, wireType: nat, i: nat, depth: nat): Parsed<(nat, nat)> {
    if wireType == 0 then
      match VarintAt(d, i) case Bad(e) => Bad(e) case Got((_, j)) => Got((j, depth))
    else if wireType == 1 then Got((i + 8, depth))
    else if wireType == 2 then
      match VarintAt(d, i)
      case Bad(e) => Bad(e)
      case Got((len, j)) => if len >= TWO63 || j + len >= TWO63 then Bad(InvalidLength) else Got((j + len, depth))
    else if wireType == 3 then Got((i, depth + 1))
    else if wireType == 4 then (if depth == 0 then Bad(UnexpectedEndOfGroup) else Got((i, depth - 1)))
    else if wireType == 5 then Got((i + 4, depth))
    else Bad(IllegalWireType)
  }

  lemma SkipValueAdvances(d: Str, wireType: nat, i: nat, depth: nat)
    ensures SkipValue(d, wireType, i, depth).Got? ==> SkipValue(d, wireType, i, depth).value.0 >= i
  {
    VarintAdvances(d, i);
  }

  /** Length of the unknown field, groups included, that d starts with; may pass the end of d. */
  function Skip(d: Str, i: nat, depth: nat): Parsed<nat>
    decreases |d| - i
  {
    if i >= |d| then Bad(UnexpectedEof) else
      match VarintAt(d, i)
      case Bad(e) => Bad(e)
      case Got((wire, j)) =>
        match SkipValue(d, wire % 8, j, depth)
        case Bad(e) => Bad(e)
        case Got((k, inner)) =>
          VarintAdvances(d, i);
          SkipValueAdvances(d, wire % 8, j, depth);
          if k >= TWO63 then Bad(InvalidLength)
          else if inner == 0 then Got(k)
          else Skip(d, k, inner)
  }

  /** wire >> 3 as a 32-bit signed number; zero stands for every number that is not positive. */
  function FieldNum(wire: nat): nat {
    var n := wire / 8 % 0x1_0000_0000;
    if n < 0x8000_0000 then n else 0
  }

  /** A known field whose payload starts at j. */
  function Payload(doc: Doc, d: Str, num: nat, wireType: nat, j: nat): Parsed<(Doc, nat)> {
    if wireType != (if KindOf(doc, num).TextKind? then 2 else 0) then Bad(WrongWireType) else
      match VarintAt(d, j)
      case Bad(e) => Bad(e)
      case Got((v, k)) =>
        match KindOf(doc, num)
        case UintKind => Got((SetUint(doc, num, v), k))
        case FlagKind => Got((SetFlag(doc, v != 0), k))
        case _ =>
          match TextEnd(k, v, |d|)
          case Bad(e) => Bad(e)
          case Got(end) => if k <= end <= |d| then Got((SetText(doc, num, d[k..end]), end)) else Bad(UnexpectedEof)
  }

  /** The field at i: what it makes of the document, and the index after it. */
  function Entry(doc: Doc, d: Str, i: nat): Parsed<(Doc, nat)>
    requires i <= |d|
  {
    match VarintAt(d, i)
    case Bad(e) => Bad(e)
    case Got((wire, j)) =>
      if wire % 8 == 4 then Bad(EndGroup)
      else if FieldNum(wire) == 0 then Bad(IllegalTag)
      else if !KindOf(doc, FieldNum(wire)).Unknown? then Payload(doc, d, FieldNum(wire), wire % 8, j)
      else
        match Skip(d[i..], 0, 0)
        case Bad(e) => Bad(e)
        case Got(n) =>
          if i + n >= TWO63 then Bad(InvalidLength)
          else if i + n > |d| then Bad(UnexpectedEof)
          else Got((doc, i + n))
  }

  lemma {:induction false} SkipAdvances(d: Str, i: nat, depth: nat)
    ensures Skip(d, i, depth).Got? ==> Skip(d, i, depth).value > i
    decreases |d| - i
  {
    var r := VarintAt(d, i);
    if i < |d| && r.Got? {
      VarintAdvances(d, i);
      var v := SkipValue(d, r.value.0 % 8, r.value.1, depth);
      SkipValueAdvances(d, r.value.0 % 8, r.value.1, depth);
      if v.Got? { SkipAdvances(d, v.value.0, v.value.1); }
    }
  }

  lemma EntryAdvances(doc: Doc, d: Str, i: nat)
    requires i <= |d|
    ensures Entry(doc, d, i).Got? ==> i < Entry(doc, d, i).value.1 <= |d|
  {
    var r := VarintAt(d, i);
    VarintAdvances(d, i);
    if r.Got? {
      VarintAdvances(d, r.value.1);
      SkipAdvances(d[i..], 0, 0);
    }
  }

  /** Everything from i on, field by field; a field met again replaces the earlier value. */
  function Parse(doc: Doc, d: Str, i: nat): Parsed<Doc>
    requires i <= |d|
    decreases |d| - i
  {
    if i == |d| then Got(doc) else
      match Entry(doc, d, i)
      case Bad(e) => Bad(e)
      case Got((next, j)) => EntryAdvances(doc, d, i); Parse(next, d, j)
  }

  // ---- reading is local, so concatenation merges ----

  lemma {:induction false} SkipExtends(d: Str, e: Str, i: nat, depth: nat)
    requires Skip(d, i, depth).Got?
    ensures Skip(d + e, i, depth) == Skip(d, i, depth)
    decreases |d| - i
  {
    VarintExtends(d, e, i);
    var (wire, j) := VarintAt(d, i).value;
    VarintAdvances(d, i);
    if wire % 8 == 0 || wire % 8 == 2 { VarintExtends(d, e, j); }
    var (k, inner) := SkipValue(d, wire % 8, j, depth).value;
    SkipValueAdvances(d, wire % 8, j, depth);
    if inner != 0 { SkipExtends(d, e, k, inner); }
  }

  lemma PayloadExtends(doc: Doc, d: Str, e: Str, num: nat, wireType: nat, j: nat)
    requires Payload(doc, d, num, wireType, j).Got?
    ensures Payload(doc, d + e, num, wireType, j) == Payload(doc, d, num, wireType, j)
  {
    VarintExtends(d, e, j);
    var (v, k) := VarintAt(d, j).value;
    assert k + v <= |d| ==> (d + e)[k..k + v] == d[k..k + v];
  }

  lemma EntryExtends(doc: Doc, d: Str, e: Str, i: nat)
    requires i <= |d| && Entry(doc, d, i).Got?
    ensures Entry(doc, d + e, i) == Entry(doc, d, i)
  {
    VarintExtends(d, e, i);
    var (wire, j) := VarintAt(d, i).value;
    if KindOf(doc, FieldNum(wire)).Unknown? {
      SkipExtends(d[i..], e, 0, 0);
      assert (d + e)[i..] == d[i..] + e;
    } else {
      PayloadExtends(doc, d, e, FieldNum(wire), wire % 8, j);
    }
  }

  lemma PayloadShifts(doc: Doc, d: Str, e: Str, num: nat, wireType: nat, j: nat)
    requires |d| + |e| < TWO63 && Payload(doc, e, num, wireType, j).Got?
    ensures Payload(doc, d + e, num, wireType, |d| + j)
         == Got((Payload(doc, e, num, wireType, j).value.0, |d| + Payload(doc, e, num, wireType, j).value.1))
  {
    VarintShifts(d, e, j);
    var (v, k) := VarintAt(e, j).value;
    VarintAdvances(e, j);
    if k + v <= |e| { SliceShifts(d, e, k, k + v); }
  }

  lemma SliceShifts(d: Str, e: Str, a: nat, b: nat)
    requires a <= b <= |e|
    ensures (d + e)[|d| + a..|d| + b] == e[a..b]
  {
  }

  lemma EntryShifts(doc: Doc, d: Str, e: Str, i: nat)
    requires i <= |e| && |d| + |e| < TWO63 && Entry(doc, e, i).Got?
    ensures Entry(doc, d + e, |d| + i) == Got((Entry(doc, e, i).value.0, |d| + Entry(doc, e, i).value.1))
  {
    VarintShifts(d, e, i);
    var (wire, j) := VarintAt(e, i).value;
    if KindOf(doc, FieldNum(wire)).Unknown? {
      assert (d + e)[|d| + i..] == e[i..];
    } else {
      PayloadShifts(doc, d, e, FieldNum(wire), wire % 8, j);
    }
  }

  lemma {:induction false} ParseShifts(doc: Doc, d: Str, e: Str, i: nat)
    requires i <= |e| && |d| + |e| < TWO63 && Parse(doc, e, i).Got?
    ensures Parse(doc, d + e, |d| + i) == Parse(doc, e, i)
    decreases |e| - i
  {
    if i < |e| {
      EntryShifts(doc, d, e, i);
      EntryAdvances(doc, e, i);
      var (next, j) := Entry(doc, e, i).value;
      ParseShifts(next, d, e, j);
    }
  }

  /** Reading d and then e is reading d followed by e: later fields replace earlier ones. */
  lemma {:induction false} ConcatenationMerges(doc: Doc, d: Str, i: nat, e: Str)
    requires i <= |d| && |d| + |e| < TWO63
    requires Parse(doc, d, i).Got? && Parse(Parse(doc, d, i).value, e, 0).Got?
    ensures Parse(doc, d + e, i) == Parse(Parse(doc, d, i).value, e, 0)
    decreases |d| - i
  {
    if i < |d| {
      EntryExtends(doc, d, e, i);
      EntryAdvances(doc, d, i);
      var (next, j) := Entry(doc, d, i).value;
      ConcatenationMerges(next, d, j, e);
    } else {
      ParseShifts(doc, d, e, 0);
    }
  }
}
