/** Fields a reader does not know: written by the wire rules, each is skipped whole and changes nothing. */
module UnknownFields {
  import opened Bytes
  import opened Varints
  import opened Protobuf
  import ProtobufRoundTrip

  /** A field's value by its wire type; a group holds fields of its own. */
  datatype Load = Number(n: nat) | Eight(bytes: Str) | Delimited(s: Str) | Group(inner: Extra) | Four(bytes: Str)

  datatype Extra = Nothing | Extra(num: nat, load: Load, rest: Extra)

  function WireType(load: Load): nat {
    match load
    case Number(_) => 0
    case Eight(_) => 1
    case Delimited(_) => 2
    case Group(_) => 3
    case Four(_) => 5
  }

  /** The value's bytes; a group is closed by a tag of wire type 4. */
  function LoadBytes(num: nat, load: Load): Str
    decreases load
  {
    match load
    case Number(n) => Varint(n)
    case Eight(bytes) => bytes
    case Delimited(s) => Varint(|s|) + s
    case Group(inner) => Written(inner) + Varint(8 * num + 4)
    case Four(bytes) => bytes
  }

  function Written(x: Extra): Str
    decreases x
  {
    match x
    case Nothing => []
    case Extra(num, load, rest) => Varint(8 * num + WireType(load)) + LoadBytes(num, load) + Written(rest)
  }

  ghost predicate LoadFits(load: Load) {
    match load
    case Number(n) => n < TWO64
    case Eight(bytes) => |bytes| == 8
    case Delimited(s) => |s| < TWO63
    case Group(inner) => Fits(inner)
    case Four(bytes) => |bytes| == 4
  }

  /** Field numbers from 1 to 2^29 - 1, values of their type's size. */
  ghost predicate Fits(x: Extra) {
    x.Extra? ==> 1 <= x.num < 0x2000_0000 && LoadFits(x.load) && Fits(x.rest)
  }

  // ---- skipping one ----

  /** Where the skipper stands after a field that ends at i. */
  function Onward(d: Str, i: nat, depth: nat): Parsed<nat> {
    if depth == 0 then Got(i) else Skip(d, i, depth)
  }

  lemma SkipStep(d: Str, i: nat, depth: nat, wire: nat, j: nat, k: nat, inner: nat)
    requires i < |d| < TWO63 && VarintAt(d, i) == Got((wire, j)) && SkipValue(d, wire % 8, j, depth) == Got((k, inner))
    requires k <= |d|
    ensures Skip(d, i, depth) == Onward(d, k, inner)
  {
  }

  /** The tag at i. */
  lemma TagRead(d: Str, i: nat, num: nat, wireType: nat, rest: Str)
    requires i <= |d| && 1 <= num < 0x2000_0000 && wireType < 8 && d[i..] == Varint(8 * num + wireType) + rest
    ensures var tag := 8 * num + wireType;
      && VarintAt(d, i) == Got((tag, i + |Varint(tag)|)) && tag % 8 == wireType && FieldNum(tag) == num && i < |d|
      && i + |Varint(tag)| <= |d| && d[i + |Varint(tag)|..] == rest
  {
    var tag := 8 * num + wireType;
    VarintReadsBack(d, i, tag, rest);
    assert tag / 8 == num;
    DropHead(d, i, Varint(tag), rest);
  }

  lemma DropHead(d: Str, i: nat, a: Str, b: Str)
    requires i <= |d| && d[i..] == a + b
    ensures i + |a| <= |d| && d[i + |a|..] == b
  {
    assert d[i + |a|..] == d[i..][|a|..];
  }

  /** A value that is no group. */
  lemma PlainSkips(d: Str, j: nat, depth: nat, num: nat, load: Load, rest: Str)
    requires !load.Group? && LoadFits(load) && j <= |d| < TWO63 && d[j..] == LoadBytes(num, load) + rest
    ensures SkipValue(d, WireType(load), j, depth) == Got((j + |LoadBytes(num, load)|, depth))
  {
    match load
    case Number(n) => VarintReadsBack(d, j, n, rest);
    case Eight(_) =>
    case Delimited(s) =>
      Assoc(Varint(|s|), s, rest);
      VarintReadsBack(d, j, |s|, s + rest);
    case Four(_) =>
  }

  lemma PlainFieldSkips(d: Str, i: nat, depth: nat, num: nat, load: Load, bytes: Str, rest: Str, end: nat)
    requires i <= |d| < TWO63 && 1 <= num < 0x2000_0000 && !load.Group? && LoadFits(load)
    requires bytes == LoadBytes(num, load) && d[i..] == Varint(8 * num + WireType(load)) + (bytes + rest)
    requires end == i + |Varint(8 * num + WireType(load))| + |bytes|
    ensures Skip(d, i, depth) == Onward(d, end, depth)
  {
    var tag := 8 * num + WireType(load);
    var j := i + |Varint(tag)|;
    TagRead(d, i, num, WireType(load), bytes + rest);
    DropHead(d, j, bytes, rest);
    PlainSkips(d, j, depth, num, load, rest);
    SkipStep(d, i, depth, tag, j, end, depth);
  }

  lemma GroupOpens(d: Str, i: nat, depth: nat, num: nat, rest: Str, j: nat)
    requires i <= |d| < TWO63 && 1 <= num < 0x2000_0000 && d[i..] == Varint(8 * num + 3) + rest
    requires j == i + |Varint(8 * num + 3)|
    ensures j <= |d| && d[j..] == rest && Skip(d, i, depth) == Skip(d, j, depth + 1)
  {
    TagRead(d, i, num, 3, rest);
    SkipStep(d, i, depth, 8 * num + 3, j, j, depth + 1);
  }

  lemma GroupCloses(d: Str, k: nat, depth: nat, num: nat, rest: Str, end: nat)
    requires k <= |d| < TWO63 && 1 <= num < 0x2000_0000 && d[k..] == Varint(8 * num + 4) + rest
    requires end == k + |Varint(8 * num + 4)|
    ensures Skip(d, k, depth + 1) == Onward(d, end, depth)
  {
    TagRead(d, k, num, 4, rest);
    SkipStep(d, k, depth + 1, 8 * num + 4, end, end, depth);
  }

  /** A field met at any depth is skipped by exactly its length. */
  lemma {:induction false} FieldSkips(d: Str, i: nat, depth: nat, num: nat, load: Load, bytes: Str, rest: Str, end: nat)
    requires i <= |d| < TWO63 && 1 <= num < 0x2000_0000 && LoadFits(load)
    requires bytes == LoadBytes(num, load) && d[i..] == Varint(8 * num + WireType(load)) + (bytes + rest)
    requires end == i + |Varint(8 * num + WireType(load))| + |bytes|
    ensures Skip(d, i, depth) == Onward(d, end, depth)
    decreases load, 0
  {
    if load.Group? {
      var j := i + |Varint(8 * num + 3)|;
      GroupOpens(d, i, depth, num, bytes + rest, j);
      GroupSkips(d, j, depth, num, load.inner, Written(load.inner), rest, end);
    } else {
      PlainFieldSkips(d, i, depth, num, load, bytes, rest, end);
    }
  }

  /** A group's contents and its end. */
  lemma {:induction false} GroupSkips(d: Str, j: nat, depth: nat, num: nat, inner: Extra, bytes: Str, rest: Str,
                                      end: nat)
    requires j <= |d| < TWO63 && 1 <= num < 0x2000_0000 && Fits(inner) && bytes == Written(inner)
    requires d[j..] == bytes + Varint(8 * num + 4) + rest && end == j + |bytes| + |Varint(8 * num + 4)|
    ensures Skip(d, j, depth + 1) == Onward(d, end, depth)
    decreases inner, 1
  {
    var tag, k := Varint(8 * num + 4), j + |bytes|;
    Assoc(bytes, tag, rest);
    ExtraSkips(d, j, depth, inner, bytes, tag + rest, k);
    DropHead(d, j, bytes, tag + rest);
    GroupCloses(d, k, depth, num, rest, end);
  }

  /** Fields inside a group, one after the other. */
  lemma {:induction false} ExtraSkips(d: Str, i: nat, depth: nat, x: Extra, bytes: Str, rest: Str, end: nat)
    requires i <= |d| < TWO63 && Fits(x) && bytes == Written(x) && d[i..] == bytes + rest && end == i + |bytes|
    ensures Skip(d, i, depth + 1) == Skip(d, end, depth + 1)
    decreases x, 0
  {
    if x.Extra? {
      var tag, load, more := Varint(8 * x.num + WireType(x.load)), LoadBytes(x.num, x.load), Written(x.rest);
      Regroup(tag, load, more, rest);
      var mid := i + |tag| + |load|;
      FieldSkips(d, i, depth + 1, x.num, x.load, load, more + rest, mid);
      DropHead(d, i, tag + load, more + rest);
      ExtraSkips(d, mid, depth, x.rest, more, rest, end);
    }
  }

  lemma Regroup(a: Str, b: Str, c: Str, e: Str)
    ensures a + b + c + e == a + (b + (c + e)) == (a + b) + (c + e)
  {
    Assoc(a + b, c, e);
    Assoc(a, b, c + e);
  }

  // ---- reading a document that has some ----

  ghost predicate Strange(doc: Doc, x: Extra) {
    x.Extra? ==> KindOf(doc, x.num).Unknown? && Strange(doc, x.rest)
  }

  /** One unknown field in front of anything is passed over, the document as it was. */
  lemma UnknownIsSkipped(doc: Doc, num: nat, load: Load, rest: Str)
    requires 1 <= num < 0x2000_0000 && LoadFits(load) && KindOf(doc, num).Unknown?
    requires |Varint(8 * num + WireType(load)) + LoadBytes(num, load) + rest| < TWO63
    ensures var field := Varint(8 * num + WireType(load)) + LoadBytes(num, load);
      Entry(doc, field + rest, 0) == Got((doc, |field|))
  {
    var tag, bytes := 8 * num + WireType(load), LoadBytes(num, load);
    var d := Varint(tag) + bytes + rest;
    assert d[0..] == d;
    Assoc(Varint(tag), bytes, rest);
    FieldSkips(d, 0, 0, num, load, bytes, rest, |Varint(tag)| + |bytes|);
    TagRead(d, 0, num, WireType(load), bytes + rest);
  }

  lemma UnknownThenParses(doc: Doc, num: nat, load: Load, field: Str, more: Str)
    requires 1 <= num < 0x2000_0000 && LoadFits(load) && KindOf(doc, num).Unknown?
    requires field == Varint(8 * num + WireType(load)) + LoadBytes(num, load) && |field| + |more| < TWO63
    requires Parse(doc, more, 0) == Got(doc)
    ensures Parse(doc, field + more, 0) == Got(doc)
  {
    assert field + [] == field;
    UnknownIsSkipped(doc, num, load, []);
    ProtobufRoundTrip.OneFieldParses(doc, field);
    ConcatenationMerges(doc, field, 0, more);
  }

  lemma {:induction false} UnknownsParse(doc: Doc, x: Extra, bytes: Str)
    requires Fits(x) && Strange(doc, x) && bytes == Written(x) && |bytes| < TWO63
    ensures Parse(doc, bytes, 0) == Got(doc)
    decreases x
  {
    if x.Extra? {
      var field := Varint(8 * x.num + WireType(x.load)) + LoadBytes(x.num, x.load);
      UnknownsParse(doc, x.rest, Written(x.rest));
      UnknownThenParses(doc, x.num, x.load, field, Written(x.rest));
    }
  }

  lemma EntryKeepsKind(doc: Doc, d: Str, i: nat)
    requires i <= |d| && Entry(doc, d, i).Got?
    ensures Entry(doc, d, i).value.0.RegistryDoc? <==> doc.RegistryDoc?
  {
  }

  lemma {:induction false} ParseKeepsKind(doc: Doc, d: Str, i: nat)
    requires i <= |d| && Parse(doc, d, i).Got?
    ensures Parse(doc, d, i).value.RegistryDoc? <==> doc.RegistryDoc?
    decreases |d| - i
  {
    if i < |d| {
      EntryAdvances(doc, d, i);
      EntryKeepsKind(doc, d, i);
      ParseKeepsKind(Entry(doc, d, i).value.0, d, Entry(doc, d, i).value.1);
    }
  }

  lemma {:induction false} StrangeAlike(doc: Doc, other: Doc, x: Extra)
    requires Strange(doc, x) && (doc.RegistryDoc? <==> other.RegistryDoc?)
    ensures Strange(other, x)
  {
    if x.Extra? { StrangeAlike(doc, other, x.rest); }
  }

  /** Unknown fields between any two parts of an encoding change nothing of what is read. */
  lemma UnknownFieldsChangeNothing(doc: Doc, a: Str, x: Extra, b: Str)
    requires Fits(x) && Strange(doc, x) && |a + Written(x) + b| < TWO63
    requires Parse(doc, a, 0).Got? && Parse(Parse(doc, a, 0).value, b, 0).Got?
    ensures Parse(doc, a + Written(x) + b, 0) == Parse(doc, a + b, 0) == Parse(Parse(doc, a, 0).value, b, 0)
  {
    var mid := Parse(doc, a, 0).value;
    ParseKeepsKind(doc, a, 0);
    StrangeAlike(doc, mid, x);
    UnknownsParse(mid, x, Written(x));
    ConcatenationMerges(doc, a, 0, b);
    ConcatenationMerges(doc, a, 0, Written(x));
    ConcatenationMerges(doc, a + Written(x), 0, b);
  }
}
