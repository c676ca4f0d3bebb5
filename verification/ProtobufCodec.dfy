/** The generated marshal and unmarshal code, step by step. */
module ProtobufCodec {
  import opened Bytes
  import opened Types
  import opened Varints
  import opened Protobuf
  import opened ProtobufRoundTrip

  function FieldSize(v: Value): nat {
    match v
    case Uint(n) => if n == 0 then 0 else 1 + Sov(n)
    case Flag(on) => if on then 2 else 0
    case Text(s) => if s == [] then 0 else 1 + |s| + Sov(|s|)
  }

  lemma FieldSizeIsLength(f: Field)
    ensures FieldSize(f.value) == |FieldBytes(f)|
  {
    match f.value
    case Uint(n) => SovIsLength(n);
    case Flag(_) =>
    case Text(s) => SovIsLength(|s|);
  }

  lemma PatchTwice(s: Str, at: nat, b: Str, j: nat, c: Str, i: nat)
    requires at + |b| == j && j + |c| == i && i <= |s|
    ensures Patch(Patch(s, j, c, i), at, b, j) == Patch(s, at, b + c, i)
  {
    var t := Patch(s, j, c, i);
    assert t[..at] == s[..at] && t[j..] == c + s[i..];
  }

  method CopyBefore(a: array<byte>, i: nat, s: Str) returns (at: nat)
    requires |s| <= i <= a.Length
    modifies a
    ensures at == i - |s| && a[..] == Patch(old(a[..]), at, s, i)
  {
    at := i - |s|;
    forall k | 0 <= k < |s| { a[at + k] := s[k]; }
    assert a[at..i] == s;
    assert a[..] == a[..at] + a[at..i] + a[i..];
  }

  /** Writes a tag byte just before i. */
  method PutTag(a: array<byte>, i: nat, tag: byte) returns (at: nat)
    requires 0 < i <= a.Length
    modifies a
    ensures at == i - 1 && a[..] == Patch(old(a[..]), at, [tag], i)
  {
    at := i - 1;
    a[at] := tag;
  }

  method PutUint(a: array<byte>, i: nat, tag: byte, n: nat) returns (at: nat)
    requires |FieldBytes(Field(tag, Uint(n)))| <= i <= a.Length
    modifies a
    ensures at == i - |FieldBytes(Field(tag, Uint(n)))|
    ensures a[..] == Patch(old(a[..]), at, FieldBytes(Field(tag, Uint(n))), i)
  {
    at := i;
    if n != 0 {
      SovIsLength(n);
      var j := EncodeVarint(a, i, n);
      at := PutTag(a, j, tag);
      PatchTwice(old(a[..]), at, [tag], j, Varint(n), i);
    }
  }

  method PutFlag(a: array<byte>, i: nat, tag: byte, on: bool) returns (at: nat)
    requires |FieldBytes(Field(tag, Flag(on)))| <= i <= a.Length
    modifies a
    ensures at == i - |FieldBytes(Field(tag, Flag(on)))|
    ensures a[..] == Patch(old(a[..]), at, FieldBytes(Field(tag, Flag(on))), i)
  {
    at := i;
    if on {
      at := at - 1;
      a[at] := 1;
      at := at - 1;
      a[at] := tag;
    }
  }

  method PutLengthAndText(a: array<byte>, i: nat, s: Str) returns (at: nat)
    requires |Varint(|s|)| + |s| <= i <= a.Length
    modifies a
    ensures at == i - (|Varint(|s|)| + |s|) && a[..] == Patch(old(a[..]), at, Varint(|s|) + s, i)
  {
    SovIsLength(|s|);
    var k := CopyBefore(a, i, s);
    at := EncodeVarint(a, k, |s|);
    PatchTwice(old(a[..]), at, Varint(|s|), k, s, i);
  }

  method PutText(a: array<byte>, i: nat, tag: byte, s: Str) returns (at: nat)
    requires |FieldBytes(Field(tag, Text(s)))| <= i <= a.Length
    modifies a
    ensures at == i - |FieldBytes(Field(tag, Text(s)))|
    ensures a[..] == Patch(old(a[..]), at, FieldBytes(Field(tag, Text(s))), i)
  {
    at := i;
    if s != [] {
      SovIsLength(|s|);
      ghost var was := a[..];
      var j := PutLengthAndText(a, i, s);
      at := PutTag(a, j, tag);
      PatchTwice(was, at, [tag], j, Varint(|s|) + s, i);
      assert [tag] + (Varint(|s|) + s) == FieldBytes(Field(tag, Text(s)));
    }
  }

  /** rest stands at the end, the bytes before it are as they were. */
  ghost predicate Filled(now: Str, was: Str, i: int, rest: Str) {
    |now| == |was| && i == |was| - |rest| && 0 <= i && now == was[..i] + rest
  }

  lemma FilledNext(now: Str, was: Str, i: int, rest: Str, at: int, b: Str)
    requires Filled(now, was, i, rest) && at == i - |b| && 0 <= at
    ensures Filled(Patch(now, at, b, i), was, at, b + rest)
  {
    assert now[..at] == was[..at] && now[i..] == rest;
    assert was[..at] + b + rest == was[..at] + (b + rest);
  }

  /** One field more, in front of those already written. */
  method PutNext(a: array<byte>, i: nat, f: Field, ghost was: Str, ghost rest: Str) returns (at: nat, ghost more: Str)
    requires Filled(a[..], was, i, rest) && |FieldBytes(f)| + |rest| <= a.Length
    modifies a
    ensures more == FieldBytes(f) + rest && Filled(a[..], was, at, more)
  {
    FilledNext(a[..], was, i, rest, i - |FieldBytes(f)|, FieldBytes(f));
    match f.value {
      case Uint(n) => at := PutUint(a, i, f.tag, n);
      case Flag(on) => at := PutFlag(a, i, f.tag, on);
      case Text(s) => at := PutText(a, i, f.tag, s);
    }
    more := FieldBytes(f) + rest;
  }

  lemma {:induction false} EncodeShrinks(fs: seq<Field>, k: nat)
    requires k < |fs|
    ensures Encode(fs, k) == FieldBytes(fs[k]) + Encode(fs, k + 1) && |Encode(fs, k)| <= |Encode(fs, 0)|
  {
    if k > 0 { EncodeShrinks(fs, k - 1); }
  }

  method PutField(a: array<byte>, i: nat, f: Field, ghost was: Str, ghost fs: seq<Field>, ghost k: nat, ghost next: nat)
    returns (at: nat)
    requires k < |fs| && fs[k] == f && next == k + 1 && |Encode(fs, 0)| <= a.Length
    requires Filled(a[..], was, i, Encode(fs, next))
    modifies a
    ensures Filled(a[..], was, at, Encode(fs, k))
  {
    EncodeShrinks(fs, k);
    ghost var more;
    at, more := PutNext(a, i, f, was, Encode(fs, k + 1));
  }

  /** Fills the end of the buffer, last field first. */
  method MarshalRegistry(a: array<byte>, m: Registry) returns (n: nat)
    requires |Encode(Fields(RegistryDoc(m)), 0)| <= a.Length
    modifies a
    ensures n == |Encode(Fields(RegistryDoc(m)), 0)|
    ensures Filled(a[..], old(a[..]), a.Length - n, Encode(Fields(RegistryDoc(m)), 0))
  {
    ghost var fs, was := Fields(RegistryDoc(m)), a[..];
    var i := a.Length;
    i := PutField(a, i, Field(0x32, Text(m.metadata)), was, fs, 5, 6);
    i := PutField(a, i, Field(0x2a, Text(m.createdAt)), was, fs, 4, 5);
    i := PutField(a, i, Field(0x22, Text(m.creator)), was, fs, 3, 4);
    i := PutField(a, i, Field(0x1a, Text(m.description)), was, fs, 2, 3);
    i := PutField(a, i, Field(0x12, Text(m.name)), was, fs, 1, 2);
    i := PutField(a, i, Field(0x08, Uint(m.id)), was, fs, 0, 1);
    n := a.Length - i;
  }

  /** The numbers and the flag, which end the encoding. */
  method PutRecordNumbers(a: array<byte>, m: Record) returns (i: nat)
    requires |Encode(Fields(RecordDoc(m)), 0)| <= a.Length
    modifies a
    ensures Filled(a[..], old(a[..]), i, Encode(Fields(RecordDoc(m)), 6))
  {
    ghost var fs, was := Fields(RecordDoc(m)), a[..];
    i := a.Length;
    i := PutField(a, i, Field(0x58, Uint(m.registryId)), was, fs, 9, 10);
    i := PutField(a, i, Field(0x50, Flag(m.isLatest)), was, fs, 8, 9);
    i := PutField(a, i, Field(0x48, Uint(m.index)), was, fs, 7, 8);
    i := PutField(a, i, Field(0x40, Uint(m.recordId)), was, fs, 6, 7);
  }

  method MarshalRecord(a: array<byte>, m: Record) returns (n: nat)
    requires |Encode(Fields(RecordDoc(m)), 0)| <= a.Length
    modifies a
    ensures n == |Encode(Fields(RecordDoc(m)), 0)|
    ensures Filled(a[..], old(a[..]), a.Length - n, Encode(Fields(RecordDoc(m)), 0))
  {
    ghost var fs, was := Fields(RecordDoc(m)), a[..];
    var i := PutRecordNumbers(a, m);
    i := PutField(a, i, Field(0x3a, Text(m.status)), was, fs, 5, 6);
    i := PutField(a, i, Field(0x32, Text(m.timestamp)), was, fs, 4, 5);
    i := PutField(a, i, Field(0x2a, Text(m.metadata)), was, fs, 3, 4);
    i := PutField(a, i, Field(0x22, Text(m.checksumAlgo)), was, fs, 2, 3);
    i := PutField(a, i, Field(0x1a, Text(m.checksum)), was, fs, 1, 2);
    i := PutField(a, i, Field(0x12, Text(m.uri)), was, fs, 0, 1);
    n := a.Length - i;
  }

  /** Computed before writing, field by field. */
  function Size(doc: Doc): nat {
    match doc
    case RegistryDoc(m) =>
      FieldSize(Uint(m.id)) + FieldSize(Text(m.name)) + FieldSize(Text(m.description))
      + FieldSize(Text(m.creator)) + FieldSize(Text(m.createdAt)) + FieldSize(Text(m.metadata))
    case RecordDoc(m) =>
      FieldSize(Text(m.uri)) + FieldSize(Text(m.checksum)) + FieldSize(Text(m.checksumAlgo))
      + FieldSize(Text(m.metadata)) + FieldSize(Text(m.timestamp)) + FieldSize(Text(m.status))
      + FieldSize(Uint(m.recordId)) + FieldSize(Uint(m.index)) + FieldSize(Flag(m.isLatest))
      + FieldSize(Uint(m.registryId))
  }

  function SizeFrom(fs: seq<Field>, k: nat): nat
    decreases |fs| - k
  {
    if k >= |fs| then 0 else FieldSize(fs[k].value) + SizeFrom(fs, k + 1)
  }

  lemma {:induction false} SizeFromIsLength(fs: seq<Field>, k: nat)
    ensures SizeFrom(fs, k) == |Encode(fs, k)|
    decreases |fs| - k
  {
    if k < |fs| {
      FieldSizeIsLength(fs[k]);
      SizeFromIsLength(fs, k + 1);
    }
  }

  /** The size computed up front is exactly what marshalling writes. */
  lemma SizeIsExact(doc: Doc)
    ensures Size(doc) == |Encode(Fields(doc), 0)|
  {
    var fs := Fields(doc);
    SizeFromIsLength(fs, 0);
    match doc
    case RegistryDoc(_) =>
      assert SizeFrom(fs, 5) == FieldSize(fs[5].value);
      assert SizeFrom(fs, 4) == FieldSize(fs[4].value) + SizeFrom(fs, 5);
      assert SizeFrom(fs, 2) == FieldSize(fs[2].value) + FieldSize(fs[3].value) + SizeFrom(fs, 4);
    case RecordDoc(_) =>
      assert SizeFrom(fs, 9) == FieldSize(fs[9].value);
      assert SizeFrom(fs, 8) == FieldSize(fs[8].value) + SizeFrom(fs, 9);
      assert SizeFrom(fs, 6) == FieldSize(fs[6].value) + FieldSize(fs[7].value) + SizeFrom(fs, 8);
      assert SizeFrom(fs, 4) == FieldSize(fs[4].value) + FieldSize(fs[5].value) + SizeFrom(fs, 6);
      assert SizeFrom(fs, 2) == FieldSize(fs[2].value) + FieldSize(fs[3].value) + SizeFrom(fs, 4);
  }

  /** Allocates Size bytes and fills them all. */
  method Marshal(doc: Doc) returns (out: Str)
    ensures out == Encode(Fields(doc), 0) && |out| == Size(doc)
  {
    SizeIsExact(doc);
    var a := new byte[Size(doc)];
    var n;
    match doc {
      case RegistryDoc(m) => n := MarshalRegistry(a, m);
      case RecordDoc(m) => n := MarshalRecord(a, m);
    }
    assert a[0..] == a[..];
    out := a[..n];
  }

  /** Length of the unknown field d starts with, by walking nested groups with a depth counter. */
  method SkipDocument(d: Str) returns (r: Parsed<nat>)
    ensures r == Skip(d, 0, 0)
  {
    var i, depth := 0, 0;
    while i < |d|
      invariant 0 <= i && 0 <= depth && Skip(d, 0, 0) == Skip(d, i, depth)
      decreases |d| - i
    {
      ghost var i0, depth0 := i, depth;
      VarintAdvances(d, i);
      var tag := ReadVarint(d, i);
      if tag.Bad? { return Bad(tag.error); }
      var wireType := tag.value.0 % 8;
      i := tag.value.1;
      SkipValueAdvances(d, wireType, i, depth);
      if wireType == 0 {
        var v := ReadVarint(d, i);
        if v.Bad? { return Bad(v.error); }
        i := v.value.1;
      } else if wireType == 1 {
        i := i + 8;
      } else if wireType == 2 {
        var len := ReadVarint(d, i);
        if len.Bad? { return Bad(len.error); }
        if len.value.0 >= TWO63 { return Bad(InvalidLength); }
        i := len.value.1 + len.value.0;
      } else if wireType == 3 {
        depth := depth + 1;
      } else if wireType == 4 {
        if depth == 0 { return Bad(UnexpectedEndOfGroup); }
        depth := depth - 1;
      } else if wireType == 5 {
        i := i + 4;
      } else {
        return Bad(IllegalWireType);
      }
      if i >= TWO63 { return Bad(InvalidLength); }
      if depth == 0 { return Got(i); }
    }
    return Bad(UnexpectedEof);
  }

  method ReadText(d: Str, i: nat) returns (r: Parsed<(Str, nat)>)
    ensures match VarintAt(d, i)
      case Bad(e) => r == Bad(e)
      case Got((len, k)) =>
        match TextEnd(k, len, |d|)
        case Bad(e) => r == Bad(e)
        case Got(end) => k <= end <= |d| && r == Got((d[k..end], end))
  {
    VarintAdvances(d, i);
    var len := ReadVarint(d, i);
    if len.Bad? { return Bad(len.error); }
    var k := len.value.1;
    if len.value.0 >= TWO63 { return Bad(InvalidLength); }
    var postIndex := k + len.value.0;
    if postIndex >= TWO63 { return Bad(InvalidLength); }
    if postIndex > |d| { return Bad(UnexpectedEof); }
    return Got((d[k..postIndex], postIndex));
  }

  method ReadPayload(doc: Doc, d: Str, num: nat, wireType: nat, j: nat) returns (r: Parsed<(Doc, nat)>)
    requires !KindOf(doc, num).Unknown?
    ensures r == Payload(doc, d, num, wireType, j)
  {
    if KindOf(doc, num).TextKind? {
      if wireType != 2 { return Bad(WrongWireType); }
      var s := ReadText(d, j);
      if s.Bad? { return Bad(s.error); }
      return Got((SetText(doc, num, s.value.0), s.value.1));
    }
    if wireType != 0 { return Bad(WrongWireType); }
    var v := ReadVarint(d, j);
    if v.Bad? { return Bad(v.error); }
    if KindOf(doc, num).UintKind? {
      return Got((SetUint(doc, num, v.value.0), v.value.1));
    }
    return Got((SetFlag(doc, v.value.0 != 0), v.value.1));
  }

  /** The reader's loop; every index it uses lies in d and every turn moves it forward. */
  method Unmarshal(into: Doc, d: Str) returns (r: Parsed<Doc>)
    ensures r == Parse(into, d, 0)
  {
    var m, i := into, 0;
    while i < |d|
      invariant 0 <= i <= |d| && Parse(into, d, 0) == Parse(m, d, i)
      decreases |d| - i
    {
      var preIndex := i;
      EntryAdvances(m, d, i);
      var tag := ReadVarint(d, i);
      if tag.Bad? { return Bad(tag.error); }
      var num, wireType := FieldNum(tag.value.0), tag.value.0 % 8;
      if wireType == 4 { return Bad(EndGroup); }
      if num == 0 { return Bad(IllegalTag); }
      if KindOf(m, num).Unknown? {
        var skipped := SkipDocument(d[preIndex..]);
        if skipped.Bad? { return Bad(skipped.error); }
        if preIndex + skipped.value >= TWO63 { return Bad(InvalidLength); }
        if preIndex + skipped.value > |d| { return Bad(UnexpectedEof); }
        i := preIndex + skipped.value;
      } else {
        var got := ReadPayload(m, d, num, wireType, tag.value.1);
        if got.Bad? { return Bad(got.error); }
        m, i := got.value.0, got.value.1;
      }
    }
    return Got(m);
  }

  /** Marshal, then unmarshal into a fresh value. */
  method MarshalThenUnmarshal(doc: Doc) returns (back: Parsed<Doc>)
    requires Fits(doc)
    ensures back == Got(doc)
  {
    var bytes := Marshal(doc);
    WireRoundTrip(doc);
    back := Unmarshal(Blank(doc), bytes);
  }
}
