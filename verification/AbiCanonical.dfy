/** The decoder takes nothing but encodings: what it accepts is, byte for byte, the encoding of what it returns. */
module AbiCanonical {
  import opened Bytes
  import opened Abi

  /** Slices hold dynamic elements, as every slice in use does. */
  ghost predicate InUse(t: Type)
    decreases t
  {
    match t
    case TupleT(ts) => forall i :: 0 <= i < |ts| ==> InUse(ts[i])
    case SliceT(e) => DynamicType(e) && InUse(e)
    case _ => true
  }

  lemma WordOfNum(w: Str)
    requires |w| == 32 && Num(w) < TWO64
    ensures w == Word(Num(w))
  {
    NumOfWord(Num(w));
    BigEndianOfNum(w);
    BigEndianOfNum(Word(Num(w)));
  }

  /** A size read is the word of that size. */
  lemma SizeIsWord(data: Str)
    requires SizeAt(data).Done?
    ensures |data| >= 32 && data[..32] == Word(SizeAt(data).value)
  {
    WordOfNum(data[..32]);
  }

  lemma WordCanonical(t: Type, data: Str, offset: nat)
    requires !DynamicType(t) && DecodeWord(t, data).Done?
    ensures var v := DecodeWord(t, data).value; HasType(v, t) && !Dynamic(v) && data[..32] == Head(v, offset)
  {
    WordOfNum(data[..32]);
  }

  lemma BlobLaid(data: Str, len: nat, p: nat)
    requires p == 32 + Padded(len) <= |data| && data[..32] == Word(len)
    requires data[32 + len..p] == Zeros(Padded(len) - len)
    ensures data[..p] == Tail(Blob(data[32..32 + len]))
  {
    Joins(data, 0, 32, 32 + len);
    Joins(data, 0, 32 + len, p);
    assert data[0..32] == data[..32] && data[0..p] == data[..p];
  }

  lemma BytesCanonical(data: Str)
    requires DecodeBytes(data).Done?
    ensures var r := DecodeBytes(data); r.value.Blob? && data[..r.size] == Tail(r.value)
  {
    SizeIsWord(data);
    var len := SizeAt(data).value;
    BlobLaid(data, len, 32 + Padded(len));
  }

  lemma Joins(data: Str, a: nat, b: nat, c: nat)
    requires a <= b <= c <= |data|
    ensures data[a..c] == data[a..b] + data[b..c] && data[b..c] == data[b..][..c - b]
  {
  }

  // ---- tuples and slices ----

  lemma {:induction false} HeadsSnoc(vs: seq<Val>, more: seq<Val>, v: Val, i: nat, offset: nat, end: nat)
    requires more == vs + [v] && i <= |vs| && end == offset + |Tails(vs, i)|
    ensures Heads(more, i, offset) == Heads(vs, i, offset) + Head(v, end)
    decreases |vs| - i
  {
    if i < |vs| {
      var next := offset + |Tail(vs[i])|;
      HeadsSnoc(vs, more, v, i + 1, next, end);
      Assoc(Head(vs[i], offset), Heads(vs, i + 1, next), Head(v, end));
    } else {
      assert Heads(more, i + 1, offset + |Tail(v)|) == [];
    }
  }

  lemma {:induction false} TailsSnoc(vs: seq<Val>, v: Val, i: nat)
    requires i <= |vs|
    ensures Tails(vs + [v], i) == Tails(vs, i) + Tail(v)
    decreases |vs| - i
  {
    var more := vs + [v];
    if i < |vs| {
      assert more[i] == vs[i];
      TailsSnoc(vs, v, i + 1);
      Assoc(Tail(vs[i]), Tails(vs, i + 1), Tail(v));
    } else {
      assert more[i] == v && Tails(more, i + 1) == [];
    }
  }

  /** n values start at the front of data: the heads of those done, and their tails from the n-th word up to `at`. */
  ghost predicate Read(data: Str, n: nat, done: seq<Val>, at: nat) {
    && |done| <= n && 32 * n <= at <= |data|
    && data[..32 * |done|] == Heads(done, 0, 32 * n) && data[32 * n..at] == Tails(done, 0)
  }

  lemma ReadStart(data: Str, n: nat)
    requires 32 * n <= |data|
    ensures Read(data, n, [], 32 * n)
  {
  }

  lemma ReadNext(data: Str, n: nat, done: seq<Val>, at: nat, v: Val, next: nat)
    requires Read(data, n, done, at) && |done| < n && next <= |data|
    requires data[32 * |done|..][..32] == Head(v, at) && at <= next && data[at..next] == Tail(v)
    ensures Read(data, n, done + [v], next)
  {
    var more, i := done + [v], 32 * |done|;
    assert |Tails(done, 0)| == at - 32 * n;
    assert data[..i + 32] == Heads(more, 0, 32 * n) by {
      HeadsSnoc(done, more, v, 0, 32 * n, at);
      Joins(data, 0, i, i + 32);
      assert data[0..i] == data[..i] && data[0..i + 32] == data[..i + 32];
    }
    assert data[32 * n..next] == Tails(more, 0) by {
      TailsSnoc(done, v, 0);
      Joins(data, 32 * n, at, next);
    }
    assert 32 * |more| == i + 32;
  }

  lemma ReadEnds(data: Str, n: nat, vs: seq<Val>, at: nat)
    requires Read(data, n, vs, at) && |vs| == n
    ensures data[..at] == Body(vs)
  {
    assert data[..at] == data[..32 * n] + data[32 * n..at];
  }

  ghost predicate Typed(vs: seq<Val>, ts: seq<Type>) {
    |vs| <= |ts| && forall i :: 0 <= i < |vs| ==> HasType(vs[i], ts[i])
  }

  lemma TypedNext(vs: seq<Val>, more: seq<Val>, ts: seq<Type>, v: Val)
    requires Typed(vs, ts) && |vs| < |ts| && HasType(v, ts[|vs|]) && more == vs + [v]
    ensures Typed(more, ts)
  {
  }

  lemma StaticReadNext(data: Str, n: nat, done: seq<Val>, more: seq<Val>, at: nat, t: Type, v: Val)
    requires Read(data, n, done, at) && |done| < n && more == done + [v]
    requires !DynamicType(t) && DecodeWord(t, data[32 * |done|..]) == Done(v, 32)
    ensures HasType(v, t) && Read(data, n, more, at)
  {
    WordCanonical(t, data[32 * |done|..], at);
    assert Tail(v) == [] && data[at..at] == [];
    ReadNext(data, n, done, at, v, at);
  }

  /** A dynamic value found where its head says, its bytes being its encoding. */
  lemma DynamicReadNext(data: Str, n: nat, done: seq<Val>, more: seq<Val>, at: nat, v: Val, next: nat)
    requires Read(data, n, done, at) && |done| < n && Dynamic(v) && more == done + [v]
    requires SizeAt(data[32 * |done|..]) == Done(at, 32)
    requires at <= next <= |data| && data[at..][..next - at] == Tail(v)
    ensures Read(data, n, more, next)
  {
    SizeIsWord(data[32 * |done|..]);
    Joins(data, at, at, next);
    ReadNext(data, n, done, at, v, next);
  }

  /** One field decoded: where it ends, and that the decoder goes on from there. */
  lemma FieldDecoded(ts: seq<Type>, data: Str, i: nat, at: nat, done: seq<Val>, r: Decoded<seq<Val>>)
    returns (v: Val, next: nat, more: seq<Val>)
    requires i < |ts| && 32 * |ts| <= |data| && at <= |data|
    requires r.Done? && r == DecodeFields(ts, data, i, at, done)
    ensures more == done + [v] && at <= next <= |data| && r == DecodeFields(ts, data, i + 1, next, more)
    ensures DynamicType(ts[i]) ==>
      SizeAt(data[32 * i..]) == Done(at, 32) && Decode(ts[i], data[at..]) == Done(v, next - at)
    ensures !DynamicType(ts[i]) ==> DecodeWord(ts[i], data[32 * i..]) == Done(v, 32) && next == at
  {
    if DynamicType(ts[i]) {
      var d := Decode(ts[i], data[at..]);
      v, next := d.value, at + d.size;
    } else {
      v, next := DecodeWord(ts[i], data[32 * i..]).value, at;
    }
    more := done + [v];
  }

  lemma {:induction false} FieldsCanonical(ts: seq<Type>, data: Str, i: nat, at: nat, done: seq<Val>,
                                           r: Decoded<seq<Val>>)
    requires i == |done| && Read(data, |ts|, done, at) && Typed(done, ts)
    requires (forall k :: 0 <= k < |ts| ==> InUse(ts[k])) && r.Done? && r == DecodeFields(ts, data, i, at, done)
    ensures |r.value| == |ts| && Typed(r.value, ts) && r.size <= |data| && data[..r.size] == Body(r.value)
    decreases ts, |ts| - i
  {
    if i == |ts| {
      ReadEnds(data, |ts|, done, at);
    } else {
      var v, next, more := FieldDecoded(ts, data, i, at, done, r);
      if DynamicType(ts[i]) {
        DecodeCanonical(ts[i], data[at..], Decode(ts[i], data[at..]));
        DynamicReadNext(data, |ts|, done, more, at, v, next);
      } else {
        StaticReadNext(data, |ts|, done, more, at, ts[i], v);
      }
      TypedNext(done, more, ts, v);
      FieldsCanonical(ts, data, i + 1, next, more, r);
    }
  }

  ghost predicate AllOf(vs: seq<Val>, t: Type) {
    forall i :: 0 <= i < |vs| ==> HasType(vs[i], t)
  }

  lemma AllOfNext(vs: seq<Val>, more: seq<Val>, t: Type, v: Val)
    requires AllOf(vs, t) && HasType(v, t) && more == vs + [v]
    ensures AllOf(more, t)
  {
  }

  lemma ElemDecoded(t: Type, data: Str, len: nat, i: nat, at: nat, done: seq<Val>, r: Decoded<seq<Val>>)
    returns (v: Val, next: nat, more: seq<Val>)
    requires t.SliceT? && i < len && 32 * len <= |data| && at <= |data|
    requires r.Done? && r == DecodeElems(t, data, len, i, at, done)
    ensures more == done + [v] && at <= next <= |data| && r == DecodeElems(t, data, len, i + 1, next, more)
    ensures SizeAt(data[32 * i..]) == Done(at, 32) && Decode(t.elem, data[at..]) == Done(v, next - at)
  {
    var d := Decode(t.elem, data[at..]);
    v, next, more := d.value, at + d.size, done + [d.value];
  }

  lemma {:induction false} ElemsCanonical(t: Type, data: Str, len: nat, i: nat, at: nat, done: seq<Val>,
                                          r: Decoded<seq<Val>>)
    requires t.SliceT? && InUse(t) && i == |done| && Read(data, len, done, at) && AllOf(done, t.elem)
    requires r.Done? && r == DecodeElems(t, data, len, i, at, done)
    ensures |r.value| == len && AllOf(r.value, t.elem) && r.size <= |data| && data[..r.size] == Body(r.value)
    decreases t, 0, len - i
  {
    if i == len {
      ReadEnds(data, len, done, at);
    } else {
      var v, next, more := ElemDecoded(t, data, len, i, at, done, r);
      DecodeCanonical(t.elem, data[at..], Decode(t.elem, data[at..]));
      DynamicReadNext(data, len, done, more, at, v, next);
      AllOfNext(done, more, t.elem, v);
      ElemsCanonical(t, data, len, i + 1, next, more, r);
    }
  }

  lemma SliceLaid(data: Str, len: nat, vs: seq<Val>, n: nat)
    requires 32 <= 32 + n <= |data| && data[..32] == Word(len) && len == |vs| && data[32..][..n] == Body(vs)
    ensures data[..n + 32] == Tail(Slice(vs))
  {
    Joins(data, 0, 32, n + 32);
    assert data[0..32] == data[..32] && data[0..n + 32] == data[..n + 32];
    Assoc(Word(len), Heads(vs, 0, 32 * len), Tails(vs, 0));
  }

  /** What a dynamic type's decoder accepts has that type and is its encoding. */
  lemma {:induction false} DecodeCanonical(t: Type, data: Str, r: Decoded<Val>)
    requires InUse(t) && DynamicType(t) && r.Done? && r == Decode(t, data)
    ensures HasType(r.value, t) && Dynamic(r.value) && data[..r.size] == Tail(r.value)
    decreases t, 1
  {
    match t
    case BytesT => BytesCanonical(data);
    case TupleT(ts) =>
      ReadStart(data, |ts|);
      FieldsCanonical(ts, data, 0, 32 * |ts|, [], DecodeFields(ts, data, 0, 32 * |ts|, []));
    case SliceT(_) =>
      var len, body := SizeAt(data).value, data[32..];
      var d := DecodeElems(t, body, len, 0, 32 * len, []);
      SizeIsWord(data);
      ReadStart(body, len);
      ElemsCanonical(t, body, len, 0, 32 * len, [], d);
      SliceLaid(data, len, d.value, d.size);
  }

  /** Data is accepted exactly when it starts with an encoding of the type, and then that value is returned. */
  lemma AcceptsEncodings(t: Type, data: Str)
    requires InUse(t) && DynamicType(t) && |data| <= MAX_INT
    ensures Decode(t, data).Done? <==> exists v :: HasType(v, t) && Tail(v) <= data
    ensures forall v :: HasType(v, t) && Tail(v) <= data ==> Decode(t, data) == Done(v, |Tail(v)|)
  {
    forall v | HasType(v, t) && Tail(v) <= data ensures Decode(t, data) == Done(v, |Tail(v)|) {
      var rest := data[|Tail(v)|..];
      assert data == Tail(v) + rest;
      KindsAgree(v, t);
      TailReads(v, t, rest);
    }
    if Decode(t, data).Done? {
      DecodeCanonical(t, data, Decode(t, data));
      assert HasType(Decode(t, data).value, t) && Tail(Decode(t, data).value) <= data;
    }
  }
}
