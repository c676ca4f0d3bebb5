/**
 * Contract ABI values: the head/tail encoding of the specification, the decoder of the generated
 * code, and that the decoder inverts the encoding.
 */
module Abi {
  import opened Bytes

  /** Every tuple and slice element in use holds a string, so tuples are always dynamic. */
  datatype Type = UintT | BoolT | BytesT | TupleT(fields: seq<Type>) | SliceT(elem: Type)

  datatype Val = Uint(n: nat) | Bool(b: bool) | Blob(bytes: Str) | Tuple(fields: seq<Val>) | Slice(elems: seq<Val>)

  datatype AbiError = UnexpectedEof | InvalidOffset | InvalidValue

  datatype Decoded<+T> = Done(value: T, size: nat) | Failed(error: AbiError)

  const MAX_INT: nat := 0x7fff_ffff_ffff_ffff

  predicate Dynamic(v: Val) { !v.Uint? && !v.Bool? }

  predicate DynamicType(t: Type) { !t.UintT? && !t.BoolT? }

  /** v is a value of type t, its numbers uint64s. */
  ghost predicate HasType(v: Val, t: Type)
    decreases v
  {
    match (v, t)
    case (Uint(n), UintT) => n < TWO64
    case (Bool(_), BoolT) => true
    case (Blob(_), BytesT) => true
    case (Tuple(vs), TupleT(ts)) => |vs| == |ts| && forall i :: 0 <= i < |vs| ==> HasType(vs[i], ts[i])
    case (Slice(vs), SliceT(t0)) => DynamicType(t0) && forall i :: 0 <= i < |vs| ==> HasType(vs[i], t0)
    case _ => false
  }

  /** n rounded up to whole words. */
  function Padded(n: nat): (p: nat)
    ensures n <= p < n + 32 && p % 32 == 0
  {
    (n + 31) / 32 * 32
  }

  // ---- the specification: heads, then tails ----

  function Tail(v: Val): Str
    decreases v
  {
    match v
    case Uint(_) => []
    case Bool(_) => []
    case Blob(b) => Word(|b|) + b + Zeros(Padded(|b|) - |b|)
    case Tuple(vs) => Heads(vs, 0, 32 * |vs|) + Tails(vs, 0)
    case Slice(vs) => Word(|vs|) + Heads(vs, 0, 32 * |vs|) + Tails(vs, 0)
  }

  /** What stands for v in its tuple's head, its tail being `offset` bytes into the tuple. */
  function Head(v: Val, offset: nat): Hash {
    match v
    case Uint(n) => Word(n)
    case Bool(b) => Word(if b then 1 else 0)
    case _ => Word(offset)
  }

  function Heads(vs: seq<Val>, i: nat, offset: nat): Str
    decreases vs, |vs| - i
  {
    if i >= |vs| then [] else Head(vs[i], offset) + Heads(vs, i + 1, offset + |Tail(vs[i])|)
  }

  function Tails(vs: seq<Val>, i: nat): Str
    decreases vs, |vs| - i
  {
    if i >= |vs| then [] else Tail(vs[i]) + Tails(vs, i + 1)
  }

  // ---- the decoder ----

  /** A word that must be a Go int: a length or an offset. */
  function SizeAt(data: Str): Decoded<nat> {
    if |data| < 32 then Failed(UnexpectedEof)
    else if Num(data[..32]) > MAX_INT then Failed(InvalidValue)
    else Done(Num(data[..32]), 32)
  }

  function DecodeWord(t: Type, data: Str): (r: Decoded<Val>)
    requires !DynamicType(t)
    ensures r.Done? ==> r.size == 32 <= |data|
  {
    if |data| < 32 then Failed(UnexpectedEof) else
      var n := Num(data[..32]);
      if t.UintT? then (if n < TWO64 then Done(Uint(n), 32) else Failed(InvalidValue))
      else if n < 2 then Done(Bool(n == 1), 32)
      else Failed(InvalidValue)
  }

  function DecodeBytes(data: Str): (r: Decoded<Val>)
    ensures r.Done? ==> r.size <= |data|
  {
    match SizeAt(data)
    case Failed(e) => Failed(e)
    case Done(len, _) =>
      if |data| < 32 + Padded(len) then Failed(UnexpectedEof)
      else if data[32 + len..32 + Padded(len)] != Zeros(Padded(len) - len) then Failed(InvalidValue)
      else Done(Blob(data[32..32 + len]), 32 + Padded(len))
  }

  /** Decodes a value at the front of data; reads no byte past its end. */
  function Decode(t: Type, data: Str): (r: Decoded<Val>)
    ensures r.Done? ==> r.size <= |data|
    decreases t, 1
  {
    match t
    case BytesT => DecodeBytes(data)
    case TupleT(ts) =>
      if |data| < 32 * |ts| then Failed(UnexpectedEof) else
        (match DecodeFields(ts, data, 0, 32 * |ts|, [])
         case Failed(e) => Failed(e)
         case Done(vs, n) => Done(Tuple(vs), n))
    case SliceT(_) =>
      (match SizeAt(data)
       case Failed(e) => Failed(e)
       case Done(len, _) =>
         var body := data[32..];
         if len > |body| || 32 * len > |body| then Failed(UnexpectedEof) else
           match DecodeElems(t, body, len, 0, 32 * len, [])
           case Failed(e) => Failed(e)
           case Done(vs, n) => Done(Slice(vs), n + 32))
    case _ => DecodeWord(t, data)
  }

  /** The fields from the i-th on; dynamic data must follow in order, without gaps. */
  function DecodeFields(ts: seq<Type>, data: Str, i: nat, dynamicOffset: nat, done: seq<Val>): (r: Decoded<seq<Val>>)
    requires i <= |ts| && 32 * |ts| <= |data| && dynamicOffset <= |data|
    ensures r.Done? ==> r.size <= |data|
    decreases ts, |ts| - i
  {
    if i == |ts| then Done(done, dynamicOffset)
    else if DynamicType(ts[i]) then
      match SizeAt(data[32 * i..])
      case Failed(e) => Failed(e)
      case Done(offset, _) =>
        if offset != dynamicOffset then Failed(InvalidOffset) else
          match Decode(ts[i], data[dynamicOffset..])
          case Failed(e) => Failed(e)
          case Done(v, n) => DecodeFields(ts, data, i + 1, dynamicOffset + n, done + [v])
    else
      match DecodeWord(ts[i], data[32 * i..])
      case Failed(e) => Failed(e)
      case Done(v, _) => DecodeFields(ts, data, i + 1, dynamicOffset, done + [v])
  }

  function DecodeElems(t: Type, data: Str, len: nat, i: nat, dynamicOffset: nat, done: seq<Val>): (r: Decoded<seq<Val>>)
    requires t.SliceT? && i <= len && 32 * len <= |data| && dynamicOffset <= |data|
    ensures r.Done? ==> r.size <= |data|
    decreases t, 0, len - i
  {
    if i == len then Done(done, dynamicOffset) else
      match SizeAt(data[32 * i..])
      case Failed(e) => Failed(e)
      case Done(offset, _) =>
        if offset != dynamicOffset then Failed(InvalidOffset) else
          match Decode(t.elem, data[dynamicOffset..])
          case Failed(e) => Failed(e)
          case Done(v, n) => DecodeElems(t, data, len, i + 1, dynamicOffset + n, done + [v])
  }

  // ---- decoding inverts encoding ----

  lemma SizeReads(n: nat, data: Str)
    requires n <= MAX_INT && |data| >= 32 && data[..32] == Word(n)
    ensures SizeAt(data) == Done(n, 32)
  {
    NumOfWord(n);
  }

  lemma StaticReads(v: Val, t: Type, data: Str)
    requires HasType(v, t) && !Dynamic(v) && |data| >= 32 && data[..32] == Head(v, 0)
    ensures !DynamicType(t) && DecodeWord(t, data) == Done(v, 32)
  {
    match v
    case Uint(n) => NumOfWord(n);
    case Bool(b) => NumOfWord(if b then 1 else 0);
  }

  lemma BlobReads(b: Str, rest: Str)
    requires |Tail(Blob(b)) + rest| <= MAX_INT
    ensures DecodeBytes(Tail(Blob(b)) + rest) == Done(Blob(b), |Tail(Blob(b))|)
  {
    var data := Tail(Blob(b)) + rest;
    assert data[..32] == Word(|b|);
    SizeReads(|b|, data);
    assert data[32..32 + |b|] == b;
    assert data[32 + |b|..32 + Padded(|b|)] == Zeros(Padded(|b|) - |b|);
  }

  lemma {:induction false} HeadsLength(vs: seq<Val>, i: nat, offset: nat)
    requires i <= |vs|
    ensures |Heads(vs, i, offset)| == 32 * (|vs| - i)
    decreases |vs| - i
  {
    if i < |vs| { HeadsLength(vs, i + 1, offset + |Tail(vs[i])|); }
  }

  /** The heads from the i-th on and the tails from the i-th on stand where the decoder looks. */
  ghost predicate Laid(vs: seq<Val>, data: Str, i: nat, dynamicOffset: nat, rest: Str) {
    && i <= |vs| && 32 * |vs| <= dynamicOffset <= |data| <= MAX_INT
    && data[32 * i..32 * |vs|] == Heads(vs, i, dynamicOffset)
    && data[dynamicOffset..] == Tails(vs, i) + rest
  }

  lemma CutAt(h: Str, t: Str, rest: Str)
    ensures (h + t + rest)[..|h|] == h && (h + t + rest)[|h|..] == t + rest
  {
  }

  lemma CutHead(data: Str, a: nat, b: nat, h: Str, hs: Str)
    requires a <= b <= |data| && data[a..b] == h + hs
    ensures data[a..][..|h|] == h && data[a + |h|..b] == hs
  {
    assert data[a..][..|h|] == data[a..b][..|h|];
    assert data[a + |h|..b] == data[a..b][|h|..];
  }

  lemma CutTail(data: Str, d: nat, t: Str, ts: Str, rest: Str)
    requires d <= |data| && data[d..] == t + ts + rest
    ensures data[d..] == t + (ts + rest) && data[d + |t|..] == ts + rest
  {
    assert data[d + |t|..] == data[d..][|t|..];
  }

  lemma LaidStart(vs: seq<Val>, rest: Str)
    requires |Heads(vs, 0, 32 * |vs|) + Tails(vs, 0) + rest| <= MAX_INT
    ensures 32 * |vs| <= |Heads(vs, 0, 32 * |vs|) + Tails(vs, 0) + rest|
    ensures Laid(vs, Heads(vs, 0, 32 * |vs|) + Tails(vs, 0) + rest, 0, 32 * |vs|, rest)
  {
    HeadsLength(vs, 0, 32 * |vs|);
    var hs, ts := Heads(vs, 0, 32 * |vs|), Tails(vs, 0);
    var data := hs + ts + rest;
    CutAt(hs, ts, rest);
    assert data[0..32 * |vs|] == data[..|hs|];
  }

  lemma LaidNext(vs: seq<Val>, data: Str, i: nat, at: nat, rest: Str, next: nat)
    requires Laid(vs, data, i, at, rest) && i < |vs| && next == at + |Tail(vs[i])|
    ensures data[32 * i..][..32] == Head(vs[i], at)
    ensures data[at..] == Tail(vs[i]) + (Tails(vs, i + 1) + rest)
    ensures Laid(vs, data, i + 1, next, rest)
  {
    var a, b, h, t := 32 * i, 32 * |vs|, Head(vs[i], at), Tail(vs[i]);
    var hs, ts := Heads(vs, i + 1, next), Tails(vs, i + 1);
    assert data[a..b] == h + hs && data[at..] == t + ts + rest;
    CutHead(data, a, b, h, hs);
    CutTail(data, at, t, ts, rest);
    assert a + 32 == 32 * (i + 1);
  }

  /** Heads and tails together, as a tuple holds them. */
  function Body(vs: seq<Val>): Str {
    Heads(vs, 0, 32 * |vs|) + Tails(vs, 0)
  }

  /** Where the i-th tail starts. */
  function Offset(vs: seq<Val>, i: nat): nat
    requires i <= |vs|
  {
    if i == 0 then 32 * |vs| else Offset(vs, i - 1) + |Tail(vs[i - 1])|
  }

  lemma {:induction false} LaidAll(vs: seq<Val>, data: Str, rest: Str, i: nat)
    requires data == Body(vs) + rest && |data| <= MAX_INT && i <= |vs|
    ensures Laid(vs, data, i, Offset(vs, i), rest)
    decreases i
  {
    if i == 0 {
      LaidStart(vs, rest);
    } else {
      LaidAll(vs, data, rest, i - 1);
      LaidNext(vs, data, i - 1, Offset(vs, i - 1), rest, Offset(vs, i));
    }
  }

  lemma OffsetEnds(vs: seq<Val>, rest: Str)
    requires |Body(vs) + rest| <= MAX_INT
    ensures Offset(vs, |vs|) == |Body(vs)|
  {
    LaidAll(vs, Body(vs) + rest, rest, |vs|);
  }

  lemma TupleReads(vs: seq<Val>, ts: seq<Type>, rest: Str)
    requires |vs| == |ts| && |Body(vs) + rest| <= MAX_INT
    requires forall k :: 0 <= k < |vs| ==> HasType(vs[k], ts[k])
    ensures Decode(TupleT(ts), Body(vs) + rest) == Done(Tuple(vs), |Body(vs)|)
    decreases vs, 3
  {
    FieldsRead(vs, ts, Body(vs) + rest, rest, |vs|);
    OffsetEnds(vs, rest);
    assert vs[..|vs|] == vs;
  }

  lemma SliceReads(vs: seq<Val>, t: Type, rest: Str)
    requires t.SliceT? && DynamicType(t.elem) && |Word(|vs|) + Body(vs) + rest| <= MAX_INT
    requires forall k :: 0 <= k < |vs| ==> HasType(vs[k], t.elem)
    ensures Decode(t, Word(|vs|) + Body(vs) + rest) == Done(Slice(vs), 32 + |Body(vs)|)
    decreases vs, 3
  {
    var data, body := Word(|vs|) + Body(vs) + rest, Body(vs) + rest;
    CutAt(Word(|vs|), Body(vs), rest);
    assert data[32..] == body;
    ElemsRead(vs, t, body, rest, |vs|);
    OffsetEnds(vs, rest);
    SizeReads(|vs|, data);
    assert vs[..|vs|] == vs;
  }

  /** Decoding an encoding followed by anything gives the value and its exact size. */
  lemma {:induction false} TailReads(v: Val, t: Type, rest: Str)
    requires HasType(v, t) && Dynamic(v) && |Tail(v) + rest| <= MAX_INT
    ensures Decode(t, Tail(v) + rest) == Done(v, |Tail(v)|)
    decreases v
  {
    match v
    case Blob(b) => BlobReads(b, rest);
    case Tuple(vs) => TupleReads(vs, t.fields, rest);
    case Slice(vs) =>
      assert Word(|vs|) + Body(vs) == Tail(v);
      SliceReads(vs, t, rest);
  }

  lemma DynamicStep(ts: seq<Type>, data: Str, i: nat, at: nat, done: seq<Val>, v: Val, next: nat, more: seq<Val>)
    requires i < |ts| && 32 * |ts| <= |data| && at <= next && DynamicType(ts[i]) && more == done + [v]
    requires at <= |data| && SizeAt(data[32 * i..]) == Done(at, 32) && Decode(ts[i], data[at..]) == Done(v, next - at)
    ensures next <= |data| && DecodeFields(ts, data, i, at, done) == DecodeFields(ts, data, i + 1, next, more)
  {
  }

  lemma StaticStep(ts: seq<Type>, data: Str, i: nat, at: nat, done: seq<Val>, v: Val, more: seq<Val>)
    requires i < |ts| && 32 * |ts| <= |data| && at <= |data| && !DynamicType(ts[i]) && more == done + [v]
    requires DecodeWord(ts[i], data[32 * i..]) == Done(v, 32)
    ensures DecodeFields(ts, data, i, at, done) == DecodeFields(ts, data, i + 1, at, more)
  {
  }

  lemma ElemStep(t: Type, data: Str, len: nat, i: nat, at: nat, done: seq<Val>, v: Val, next: nat, more: seq<Val>,
                 r: Decoded<seq<Val>>)
    requires t.SliceT? && i < len && 32 * len <= |data| && at <= next <= |data| && more == done + [v]
    requires SizeAt(data[32 * i..]) == Done(at, 32) && Decode(t.elem, data[at..]) == Done(v, next - at)
    requires r == DecodeElems(t, data, len, i + 1, next, more)
    ensures DecodeElems(t, data, len, i, at, done) == r
  {
  }

  /** The i-th value is found in its head or by its offset, and decodes to itself. */
  lemma {:induction false} FieldReads(vs: seq<Val>, t: Type, data: Str, rest: Str, i: nat)
    requires i < |vs| && data == Body(vs) + rest && |data| <= MAX_INT && HasType(vs[i], t)
    ensures Offset(vs, i) <= |data| && 32 * |vs| <= |data|
    ensures Dynamic(vs[i]) ==>
      && SizeAt(data[32 * i..]) == Done(Offset(vs, i), 32)
      && Decode(t, data[Offset(vs, i)..]) == Done(vs[i], |Tail(vs[i])|)
    ensures !Dynamic(vs[i]) ==> !DynamicType(t) && DecodeWord(t, data[32 * i..]) == Done(vs[i], 32)
    decreases vs, 0
  {
    LaidAll(vs, data, rest, i);
    LaidNext(vs, data, i, Offset(vs, i), rest, Offset(vs, i + 1));
    if Dynamic(vs[i]) {
      SizeReads(Offset(vs, i), data[32 * i..]);
      TailReads(vs[i], t, Tails(vs, i + 1) + rest);
    } else {
      StaticReads(vs[i], t, data[32 * i..]);
    }
  }

  /** One field decoded takes the decoder from the k-th to the next. */
  ghost predicate Advances(vs: seq<Val>, ts: seq<Type>, data: Str, k: nat) {
    && k < |vs| == |ts| && 32 * |vs| <= |data| && Offset(vs, k) <= |data| && Offset(vs, k + 1) <= |data|
    && DecodeFields(ts, data, k, Offset(vs, k), vs[..k])
    == DecodeFields(ts, data, k + 1, Offset(vs, k + 1), vs[..k + 1])
  }

  lemma TakeNext<T>(xs: seq<T>, k: nat)
    requires k < |xs|
    ensures xs[..k + 1] == xs[..k] + [xs[k]]
  {
  }

  lemma OffsetNext(vs: seq<Val>, k: nat)
    requires k < |vs|
    ensures Offset(vs, k + 1) == Offset(vs, k) + |Tail(vs[k])|
  {
  }

  lemma {:induction false} DynamicAdvances(vs: seq<Val>, ts: seq<Type>, data: Str, k: nat)
    requires k < |vs| == |ts| && 32 * |vs| <= |data| && Offset(vs, k) <= |data| && DynamicType(ts[k])
    requires SizeAt(data[32 * k..]) == Done(Offset(vs, k), 32)
    requires Decode(ts[k], data[Offset(vs, k)..]) == Done(vs[k], |Tail(vs[k])|)
    ensures Advances(vs, ts, data, k)
  {
    TakeNext(vs, k);
    OffsetNext(vs, k);
    DynamicStep(ts, data, k, Offset(vs, k), vs[..k], vs[k], Offset(vs, k + 1), vs[..k + 1]);
  }

  lemma {:induction false} StaticAdvances(vs: seq<Val>, ts: seq<Type>, data: Str, k: nat)
    requires k < |vs| == |ts| && 32 * |vs| <= |data| && Offset(vs, k) <= |data| && !DynamicType(ts[k])
    requires DecodeWord(ts[k], data[32 * k..]) == Done(vs[k], 32) && Tail(vs[k]) == []
    ensures Advances(vs, ts, data, k)
  {
    TakeNext(vs, k);
    StaticStep(ts, data, k, Offset(vs, k), vs[..k], vs[k], vs[..k + 1]);
  }

  lemma {:induction false} FieldAdvances(vs: seq<Val>, ts: seq<Type>, data: Str, rest: Str, k: nat)
    requires |vs| == |ts| && k < |vs| && data == Body(vs) + rest && |data| <= MAX_INT && HasType(vs[k], ts[k])
    ensures Advances(vs, ts, data, k)
    decreases vs, 1
  {
    FieldReads(vs, ts[k], data, rest, k);
    KindsAgree(vs[k], ts[k]);
    if Dynamic(vs[k]) {
      DynamicAdvances(vs, ts, data, k);
    } else {
      StaticAdvances(vs, ts, data, k);
    }
  }

  lemma KindsAgree(v: Val, t: Type)
    requires HasType(v, t)
    ensures Dynamic(v) <==> DynamicType(t)
    ensures !Dynamic(v) ==> Tail(v) == []
  {
  }

  lemma {:induction false} ElemAdvances(vs: seq<Val>, t: Type, data: Str, rest: Str, k: nat)
    requires t.SliceT? && DynamicType(t.elem) && k < |vs| && data == Body(vs) + rest && |data| <= MAX_INT
    requires HasType(vs[k], t.elem)
    ensures 32 * |vs| <= |data| && Offset(vs, k) <= |data| && Offset(vs, k + 1) <= |data|
    ensures DecodeElems(t, data, |vs|, k, Offset(vs, k), vs[..k])
         == DecodeElems(t, data, |vs|, k + 1, Offset(vs, k + 1), vs[..k + 1])
    decreases vs, 1
  {
    FieldReads(vs, t.elem, data, rest, k);
    TakeNext(vs, k);
    OffsetNext(vs, k);
    ElemStep(t, data, |vs|, k, Offset(vs, k), vs[..k], vs[k], Offset(vs, k + 1), vs[..k + 1],
             DecodeElems(t, data, |vs|, k + 1, Offset(vs, k + 1), vs[..k + 1]));
  }

  lemma {:induction false} FieldsRead(vs: seq<Val>, ts: seq<Type>, data: Str, rest: Str, i: nat)
    requires |vs| == |ts| && i <= |vs| && data == Body(vs) + rest && |data| <= MAX_INT
    requires forall k :: 0 <= k < |vs| ==> HasType(vs[k], ts[k])
    ensures 32 * |vs| <= |data| && Offset(vs, i) <= |data|
    ensures DecodeFields(ts, data, 0, 32 * |vs|, []) == DecodeFields(ts, data, i, Offset(vs, i), vs[..i])
    decreases vs, 2, i
  {
    if i == 0 {
      LaidStart(vs, rest);
      assert vs[..0] == [];
    } else {
      FieldsRead(vs, ts, data, rest, i - 1);
      FieldAdvances(vs, ts, data, rest, i - 1);
    }
  }

  lemma {:induction false} ElemsRead(vs: seq<Val>, t: Type, data: Str, rest: Str, i: nat)
    requires t.SliceT? && DynamicType(t.elem) && i <= |vs| && data == Body(vs) + rest && |data| <= MAX_INT
    requires forall k :: 0 <= k < |vs| ==> HasType(vs[k], t.elem)
    ensures 32 * |vs| <= |data| && Offset(vs, i) <= |data|
    ensures DecodeElems(t, data, |vs|, 0, 32 * |vs|, []) == DecodeElems(t, data, |vs|, i, Offset(vs, i), vs[..i])
    decreases vs, 2, i
  {
    if i == 0 {
      LaidStart(vs, rest);
      assert vs[..0] == [];
    } else {
      ElemsRead(vs, t, data, rest, i - 1);
      ElemAdvances(vs, t, data, rest, i - 1);
    }
  }
}
