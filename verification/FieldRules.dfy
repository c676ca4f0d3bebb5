/** Which fields a document's reader takes, by number and wire type, and what each sets. */
module FieldRules {
  import opened Bytes
  import opened Varints
  import opened Protobuf

  /** The value of a document's field by its number in the schema. */
  function FieldAt(doc: Doc, num: nat): Option<Value> {
    match doc
    case RegistryDoc(r) =>
      (match num
       case 1 => Some(Uint(r.id))
       case 2 => Some(Text(r.name))
       case 3 => Some(Text(r.description))
       case 4 => Some(Text(r.creator))
       case 5 => Some(Text(r.createdAt))
       case 6 => Some(Text(r.metadata))
       case _ => None)
    case RecordDoc(r) =>
      (match num
       case 2 => Some(Text(r.uri))
       case 3 => Some(Text(r.checksum))
       case 4 => Some(Text(r.checksumAlgo))
       case 5 => Some(Text(r.metadata))
       case 6 => Some(Text(r.timestamp))
       case 7 => Some(Text(r.status))
       case 8 => Some(Uint(r.recordId))
       case 9 => Some(Uint(r.index))
       case 10 => Some(Flag(r.isLatest))
       case 11 => Some(Uint(r.registryId))
       case _ => None)
  }

  /** next is doc with one field set. */
  ghost predicate Sets(doc: Doc, next: Doc, num: nat, v: Value) {
    && (next.RegistryDoc? <==> doc.RegistryDoc?) && FieldAt(next, num) == Some(v)
    && forall m: nat :: m != num ==> FieldAt(next, m) == FieldAt(doc, m)
  }

  /** Each field is written under its schema number, in ascending order, with the wire type of its value. */
  lemma FieldsAreNumbered(doc: Doc, i: nat)
    requires i < |Fields(doc)|
    ensures var f := Fields(doc)[i];
      && FieldAt(doc, f.tag / 8) == Some(f.value) && f.tag % 8 == (if f.value.Text? then 2 else 0)
      && (i > 0 ==> Fields(doc)[i - 1].tag < f.tag)
  {
  }

  /** All of them are. */
  lemma FieldsAreAll(doc: Doc, num: nat)
    ensures FieldAt(doc, num).Some? <==> exists i :: 0 <= i < |Fields(doc)| && Fields(doc)[i].tag / 8 == num
  {
    var fs := Fields(doc);
    if FieldAt(doc, num).Some? {
      var i := if doc.RegistryDoc? then num - 1 else num - 2;
      assert fs[i].tag / 8 == num;
    }
  }

  lemma NumberIsSet(doc: Doc, num: nat, n: nat)
    requires KindOf(doc, num).UintKind?
    ensures Sets(doc, SetUint(doc, num, n), num, Uint(n))
  {
  }

  lemma FlagIsSet(doc: Doc, num: nat, on: bool)
    requires KindOf(doc, num).FlagKind?
    ensures Sets(doc, SetFlag(doc, on), num, Flag(on))
  {
  }

  lemma TextIsSet(doc: Doc, num: nat, s: Str)
    requires KindOf(doc, num).TextKind?
    ensures Sets(doc, SetText(doc, num, s), num, Text(s))
  {
  }

  lemma KindsMatch(doc: Doc, num: nat)
    ensures match FieldAt(doc, num)
      case None => KindOf(doc, num).Unknown?
      case Some(v) =>
        match v
        case Uint(_) => KindOf(doc, num).UintKind?
        case Flag(_) => KindOf(doc, num).FlagKind?
        case Text(_) => KindOf(doc, num).TextKind?
  {
  }

  lemma TagNumber(wire: nat)
    ensures wire / 8 < 0x8000_0000 ==> FieldNum(wire) == wire / 8
  {
  }

  /** A number or flag is taken exactly with wire type 0 and a whole varint; a flag is on for any but zero. */
  lemma NumberTaken(doc: Doc, d: Str, i: nat, wire: nat, j: nat, num: nat)
    requires i <= |d| && VarintAt(d, i) == Got((wire, j)) && num == wire / 8 < 0x8000_0000
    requires FieldAt(doc, num).Some? && !FieldAt(doc, num).value.Text?
    ensures Entry(doc, d, i).Got? <==> wire % 8 == 0 && VarintAt(d, j).Got?
    ensures Entry(doc, d, i).Got? ==>
      var (v, k) := VarintAt(d, j).value;
      var (next, end) := Entry(doc, d, i).value;
      end == k && Sets(doc, next, num, if FieldAt(doc, num).value.Flag? then Flag(v != 0) else Uint(v))
  {
    TagNumber(wire);
    KindsMatch(doc, num);
    if wire % 8 == 0 && VarintAt(d, j).Got? {
      var (v, k) := VarintAt(d, j).value;
      if FieldAt(doc, num).value.Flag? { FlagIsSet(doc, num, v != 0); } else { NumberIsSet(doc, num, v); }
    }
  }

  /** A text is taken exactly with wire type 2, a whole length and all the bytes it announces. */
  lemma TextTaken(doc: Doc, d: Str, i: nat, wire: nat, j: nat, num: nat)
    requires i <= |d| < TWO63 && VarintAt(d, i) == Got((wire, j)) && num == wire / 8 < 0x8000_0000
    requires FieldAt(doc, num).Some? && FieldAt(doc, num).value.Text?
    ensures Entry(doc, d, i).Got? <==>
              wire % 8 == 2 && VarintAt(d, j).Got? && VarintAt(d, j).value.1 + VarintAt(d, j).value.0 <= |d|
    ensures Entry(doc, d, i).Got? ==>
      var (len, k) := VarintAt(d, j).value;
      var (next, end) := Entry(doc, d, i).value;
      end == k + len <= |d| && Sets(doc, next, num, Text(d[k..end]))
  {
    TagNumber(wire);
    KindsMatch(doc, num);
    if wire % 8 == 2 && VarintAt(d, j).Got? {
      var (len, k) := VarintAt(d, j).value;
      if k + len <= |d| { TextIsSet(doc, num, d[k..k + len]); }
    }
  }

  /** A tag that does not read, ends a group or has no positive 31-bit number is refused, each with its own error. */
  lemma BadTagRefused(doc: Doc, d: Str, i: nat)
    requires i <= |d|
    ensures VarintAt(d, i).Bad? ==> Entry(doc, d, i) == Bad(VarintAt(d, i).error)
    ensures VarintAt(d, i).Got? ==>
      var wire, num := VarintAt(d, i).value.0, VarintAt(d, i).value.0 / 8 % 0x1_0000_0000;
      && (wire % 8 == 4 ==> Entry(doc, d, i) == Bad(EndGroup))
      && (wire % 8 != 4 && (num == 0 || num >= 0x8000_0000) ==> Entry(doc, d, i) == Bad(IllegalTag))
  {
  }
}
