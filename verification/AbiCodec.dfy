/** The generated encoders, writing heads and tails into one zeroed buffer, and the decoding loops. */
module AbiCodec {
  import opened Bytes
  import opened Abi

  // ---- sizes ----

  /** Size of v's dynamic part as computed before encoding. */
  function EncodedSize(v: Val): nat
    decreases v
  {
    match v
    case Uint(_) => 0
    case Bool(_) => 0
    case Blob(b) => 32 + Padded(|b|)
    case Tuple(vs) => 32 * |vs| + Sizes(vs, 0)
    case Slice(vs) => 32 + 32 * |vs| + Sizes(vs, 0)
  }

  function Sizes(vs: seq<Val>, i: nat): nat
    decreases vs, |vs| - i
  {
    if i >= |vs| then 0 else EncodedSize(vs[i]) + Sizes(vs, i + 1)
  }

  /** The size computed up front is the length of the encoding. */
  lemma {:induction false} SizeIsExact(v: Val)
    ensures EncodedSize(v) == |Tail(v)|
    decreases v
  {
    match v
    case Uint(_) =>
    case Bool(_) =>
    case Blob(_) =>
    case Tuple(vs) =>
      SizesAreExact(vs, 0);
      HeadsLength(vs, 0, 32 * |vs|);
    case Slice(vs) =>
      SizesAreExact(vs, 0);
      HeadsLength(vs, 0, 32 * |vs|);
  }

  lemma {:induction false} SizesAreExact(vs: seq<Val>, i: nat)
    ensures Sizes(vs, i) == |Tails(vs, i)|
    decreases vs, |vs| - i
  {
    if i < |vs| {
      SizeIsExact(vs[i]);
      SizesAreExact(vs, i + 1);
    }
  }

  // ---- a buffer filled from two cursors ----

  /** w with only its heads up to a and its tails from h up to o written, the rest still zero. */
  ghost function Partial(w: Str, h: nat, a: nat, o: nat): Str
    requires a <= h <= o <= |w|
  {
    w[..a] + Zeros(h - a) + w[h..o] + Zeros(|w| - o)
  }

  lemma FillHead(w: Str, h: nat, a: nat, o: nat, b: nat)
    requires a <= b <= h <= o <= |w|
    ensures Partial(w, h, a, o)[a..b] == Zeros(b - a)
    ensures Patch(Partial(w, h, a, o), a, w[a..b], a + |w[a..b]|) == Partial(w, h, b, o)
  {
    var p := Partial(w, h, a, o);
    assert p[..a] == w[..a];
    assert p[b..] == Zeros(h - b) + w[h..o] + Zeros(|w| - o);
    assert w[..a] + w[a..b] == w[..b];
  }

  lemma FillTail(w: Str, h: nat, a: nat, o: nat, e: nat)
    requires a <= h <= o <= e <= |w|
    ensures Partial(w, h, a, o)[o..e] == Zeros(e - o)
    ensures Patch(Partial(w, h, a, o), o, w[o..e], o + |w[o..e]|) == Partial(w, h, a, e)
  {
    var p := Partial(w, h, a, o);
    assert p[..o] == w[..a] + Zeros(h - a) + w[h..o];
    assert p[e..] == Zeros(|w| - e);
    assert w[h..o] + w[o..e] == w[h..e];
  }

  /** A write inside a region is a write in the buffer. */
  lemma PatchInner(s: Str, base: nat, p: Str, at: nat, b: Str)
    requires base + |p| <= |s| && at + |b| <= |p|
    ensures Patch(s, base, p, base + |p|)[base + at..base + at + |b|] == p[at..at + |b|]
    ensures Patch(Patch(s, base, p, base + |p|), base + at, b, base + at + |b|)
         == Patch(s, base, Patch(p, at, b, at + |b|), base + |p|)
  {
    var t := Patch(s, base, p, base + |p|);
    assert t[..base + at] == s[..base] + p[..at];
    assert t[base + at + |b|..] == p[at + |b|..] + s[base + |p|..];
  }

  // ---- where heads and tails stand in the body ----

  lemma BodyParts(vs: seq<Val>, i: nat, a: nat, b: nat, o: nat, e: nat)
    requires i < |vs| && |Body(vs)| <= MAX_INT
    requires a == 32 * i && b == 32 * (i + 1) && o == Offset(vs, i) && e == Offset(vs, i + 1)
    ensures b <= 32 * |vs| <= o <= e <= |Body(vs)| && e - o == |Tail(vs[i])|
    ensures Body(vs)[a..b] == Head(vs[i], o) && Body(vs)[o..e] == Tail(vs[i])
  {
    var w := Body(vs);
    assert w == w + [];
    LaidAll(vs, w, [], i);
    LaidNext(vs, w, i, o, [], e);
    assert w[a..b] == w[a..][..32];
    assert w[o..e] == w[o..][..|Tail(vs[i])|];
  }

  // ---- the encoders ----

  /** Writes the low 8 bytes of a word whose upper 24 are still zero. */
  method PutWord(buf: array<byte>, at: nat, n: nat)
    requires at + 32 <= buf.Length && buf[at..at + 32] == Zeros(32)
    modifies buf
    ensures Wrote(buf[..], old(buf[..]), at, Word(n))
  {
    var b := BigEndian(n, 8);
    assert buf[at..at + 24] == buf[at..at + 32][..24] == Zeros(24);
    forall k | 0 <= k < 8 { buf[at + 24 + k] := b[k]; }
    assert buf[at + 24..at + 32] == b;
    assert buf[at..at + 24] == Zeros(24);
    assert buf[..] == buf[..at] + buf[at..at + 24] + buf[at + 24..at + 32] + buf[at + 32..];
  }

  method PutBytes(buf: array<byte>, at: nat, b: Str)
    requires at + |b| <= buf.Length
    modifies buf
    ensures Wrote(buf[..], old(buf[..]), at, b)
  {
    forall k | 0 <= k < |b| { buf[at + k] := b[k]; }
    assert buf[at..at + |b|] == b;
    assert buf[..] == buf[..at] + buf[at..at + |b|] + buf[at + |b|..];
  }

  /** Length word, bytes, and the padding that is already there. */
  method EncodeBytes(b: Str, buf: array<byte>, base: nat) returns (n: nat)
    requires base + |Tail(Blob(b))| <= buf.Length
    requires buf[base..base + |Tail(Blob(b))|] == Zeros(|Tail(Blob(b))|)
    modifies buf
    ensures n == |Tail(Blob(b))| && Wrote(buf[..], old(buf[..]), base, Tail(Blob(b)))
  {
    n := 32 + Padded(|b|);
    BlobParts(b);
    ghost var s := buf[..];
    PutLengthAndBytes(b, buf, base);
    BlobWrote(s, buf[..], base, b, Word(|b|) + b, Tail(Blob(b)));
  }

  lemma BlobWrote(s: Str, now: Str, base: nat, b: Str, front: Str, whole: Str)
    requires base + 32 + Padded(|b|) <= |s| && s[base..base + 32 + Padded(|b|)] == Zeros(32 + Padded(|b|))
    requires |front| == 32 + |b| && Wrote(now, s, base, front) && whole == front + Zeros(Padded(|b|) - |b|)
    ensures Wrote(now, s, base, whole)
  {
    var e, z := base + |front|, Padded(|b|) - |b|;
    BlobRoom(s, base, b);
    ApartStaysZero(now, s, base, front, e, z);
    WroteZeros(s, now, base, front, z);
  }

  method PutLengthAndBytes(b: Str, buf: array<byte>, base: nat)
    requires base + 32 + Padded(|b|) <= buf.Length && buf[base..base + 32 + Padded(|b|)] == Zeros(32 + Padded(|b|))
    modifies buf
    ensures Wrote(buf[..], old(buf[..]), base, Word(|b|) + b)
  {
    ghost var s := buf[..];
    BlobRoom(s, base, b);
    PutWord(buf, base, |b|);
    ghost var mid := buf[..];
    PutBytes(buf, base + 32, b);
    WroteTwice(s, mid, buf[..], base, Word(|b|), b);
  }

  lemma BlobRoom(s: Str, base: nat, b: Str)
    requires base + 32 + Padded(|b|) <= |s| && s[base..base + 32 + Padded(|b|)] == Zeros(32 + Padded(|b|))
    ensures s[base..base + 32] == Zeros(32)
    ensures s[base + 32 + |b|..base + 32 + Padded(|b|)] == Zeros(Padded(|b|) - |b|)
  {
    var all := s[base..base + 32 + Padded(|b|)];
    assert s[base..base + 32] == all[..32];
    assert s[base + 32 + |b|..base + 32 + Padded(|b|)] == all[32 + |b|..];
  }

  /** Zeros already there count as written. */
  lemma WroteZeros(s: Str, now: Str, at: nat, b: Str, n: nat)
    requires Wrote(now, s, at, b) && at + |b| + n <= |s| && now[at + |b|..at + |b| + n] == Zeros(n)
    ensures Wrote(now, s, at, b + Zeros(n))
  {
    var e := at + |b|;
    assert now[e..] == s[e..];
    assert s[e..] == s[e..e + n] + s[e + n..];
    assert now[e..e + n] == s[e..e + n];
  }

  lemma BlobParts(b: Str)
    ensures |Tail(Blob(b))| == 32 + Padded(|b|)
    ensures Tail(Blob(b))[0..32] == Word(|b|) && Tail(Blob(b))[32..32 + |b|] == b
    ensures Tail(Blob(b))[32 + |b|..] == Zeros(Padded(|b|) - |b|)
  {
  }

  /** A zeroed region is one where nothing is written yet. */
  lemma RegionIsPartial(s: Str, base: nat, w: Str, h: nat)
    requires base + |w| <= |s| && h <= |w| && s[base..base + |w|] == Zeros(|w|)
    ensures s == Patch(s, base, Partial(w, h, 0, h), base + |w|)
  {
    assert Partial(w, h, 0, h) == Zeros(|w|);
    assert s == s[..base] + s[base..base + |w|] + s[base + |w|..];
  }

  /** The region of w at base holds w's heads up to a and tails up to o, all else is as it was. */
  ghost predicate Written(now: Str, was: Str, base: nat, w: Str, h: nat, a: nat, o: nat) {
    && a <= h <= o <= |w| && base + |w| <= |was|
    && now == Patch(was, base, Partial(w, h, a, o), base + |w|)
  }

  /** now is s with b written at `at`. */
  ghost predicate Wrote(now: Str, s: Str, at: nat, b: Str) {
    at + |b| <= |s| && now == Patch(s, at, b, at + |b|)
  }

  lemma HeadRoom(s: Str, was: Str, base: nat, w: Str, h: nat, a: nat, o: nat, b: nat)
    requires Written(s, was, base, w, h, a, o) && a <= b <= h
    ensures |s| == |was| && s[base + a..base + b] == Zeros(b - a)
  {
    FillHead(w, h, a, o, b);
    PatchInner(was, base, Partial(w, h, a, o), a, w[a..b]);
  }

  lemma TailRoom(s: Str, was: Str, base: nat, w: Str, h: nat, a: nat, o: nat, e: nat)
    requires Written(s, was, base, w, h, a, o) && o <= e <= |w|
    ensures |s| == |was| && s[base + o..base + e] == Zeros(e - o)
  {
    FillTail(w, h, a, o, e);
    PatchInner(was, base, Partial(w, h, a, o), o, w[o..e]);
  }

  lemma WriteHead(s: Str, now: Str, was: Str, base: nat, w: Str, h: nat, a: nat, o: nat, b: nat)
    requires Written(s, was, base, w, h, a, o) && a <= b <= h && Wrote(now, s, base + a, w[a..b])
    ensures Written(now, was, base, w, h, b, o)
  {
    FillHead(w, h, a, o, b);
    PatchInner(was, base, Partial(w, h, a, o), a, w[a..b]);
  }

  lemma WriteTail(s: Str, now: Str, was: Str, base: nat, w: Str, h: nat, a: nat, o: nat, e: nat)
    requires Written(s, was, base, w, h, a, o) && o <= e <= |w| && Wrote(now, s, base + o, w[o..e])
    ensures Written(now, was, base, w, h, a, e)
  {
    FillTail(w, h, a, o, e);
    PatchInner(was, base, Partial(w, h, a, o), o, w[o..e]);
  }

  lemma OffsetBounds(vs: seq<Val>, i: nat)
    requires i <= |vs| && |Body(vs)| <= MAX_INT
    ensures 32 * |vs| <= Offset(vs, i) <= |Body(vs)|
  {
    assert Body(vs) + [] == Body(vs);
    LaidAll(vs, Body(vs), [], i);
  }

  /** The buffer with the first i heads and tails of the tuple at base written. */
  ghost function Image(was: Str, base: nat, vs: seq<Val>, i: nat): Str
    requires i <= |vs| && |Body(vs)| <= MAX_INT && base + |Body(vs)| <= |was|
  {
    OffsetBounds(vs, i);
    Patch(was, base, Partial(Body(vs), 32 * |vs|, 32 * i, Offset(vs, i)), base + |Body(vs)|)
  }

  lemma ImageStarts(was: Str, base: nat, vs: seq<Val>)
    requires |Body(vs)| <= MAX_INT && base + |Body(vs)| <= |was|
    requires was[base..base + |Body(vs)|] == Zeros(|Body(vs)|)
    ensures was == Image(was, base, vs, 0)
  {
    OffsetBounds(vs, 0);
    RegionIsPartial(was, base, Body(vs), 32 * |vs|);
  }

  lemma ImageEnds(was: Str, base: nat, vs: seq<Val>)
    requires |Body(vs)| <= MAX_INT && base + |Body(vs)| <= |was|
    ensures Offset(vs, |vs|) == |Body(vs)| && Wrote(Image(was, base, vs, |vs|), was, base, Body(vs))
  {
    assert Body(vs) + [] == Body(vs);
    OffsetEnds(vs, []);
    OffsetBounds(vs, |vs|);
    assert Partial(Body(vs), 32 * |vs|, 32 * |vs|, |Body(vs)|) == Body(vs);
  }

  /** The next head and tail still find zeros. */
  lemma ImageRoom(was: Str, base: nat, vs: seq<Val>, i: nat, s: Str, a: nat, o: nat, n: nat)
    requires i < |vs| && |Body(vs)| <= MAX_INT && base + |Body(vs)| <= |was|
    requires s == Image(was, base, vs, i) && a == 32 * i && o == Offset(vs, i) && n == |Tail(vs[i])|
    ensures a + 32 <= o && base + o + n <= |s| == |was| && n <= MAX_INT
    ensures s[base + a..base + a + 32] == Zeros(32) && s[base + o..base + o + n] == Zeros(n)
  {
    BodyParts(vs, i, a, a + 32, o, o + n);
    HeadRoom(s, was, base, Body(vs), 32 * |vs|, a, o, a + 32);
    TailRoom(s, was, base, Body(vs), 32 * |vs|, a, o, o + n);
  }

  /** A head and a tail written where they belong. */
  lemma PartialNext(was: Str, base: nat, w: Str, h: nat, a: nat, b: nat, o: nat, e: nat, s: Str, mid: Str, now: Str,
                    head: Str, tail: Str)
    requires Written(s, was, base, w, h, a, o) && a <= b <= h && o <= e <= |w| && head == w[a..b] && tail == w[o..e]
    requires Wrote(mid, s, base + a, head) && Wrote(now, mid, base + o, tail)
    ensures Written(now, was, base, w, h, b, e)
  {
    WriteHead(s, mid, was, base, w, h, a, o, b);
    WriteTail(mid, now, was, base, w, h, b, o, e);
  }

  /** Writing them is the next state. */
  lemma ImageNext(was: Str, base: nat, vs: seq<Val>, i: nat, s: Str, mid: Str, now: Str, head: nat, o: nat, tail: nat)
    requires i < |vs| && |Body(vs)| <= MAX_INT && base + |Body(vs)| <= |was|
    requires s == Image(was, base, vs, i) && head == base + 32 * i && o == Offset(vs, i) && tail == base + o
    requires Wrote(mid, s, head, Head(vs[i], o)) && Wrote(now, mid, tail, Tail(vs[i]))
    ensures now == Image(was, base, vs, i + 1)
  {
    BodyParts(vs, i, 32 * i, 32 * (i + 1), o, Offset(vs, i + 1));
    PartialNext(was, base, Body(vs), 32 * |vs|, 32 * i, 32 * (i + 1), o, Offset(vs, i + 1), s, mid, now,
                Head(vs[i], o), Tail(vs[i]));
  }

  /**
   * Writes a tuple, or the elements of a slice, at base: each head in turn, and for a dynamic field
   * its tail at the running offset, which the head then holds.
   */
  method EncodeFields(vs: seq<Val>, buf: array<byte>, base: nat) returns (dynamicOffset: nat)
    requires |Body(vs)| <= MAX_INT && base + |Body(vs)| <= buf.Length
    requires buf[base..base + |Body(vs)|] == Zeros(|Body(vs)|)
    modifies buf
    ensures dynamicOffset == |Body(vs)| && Wrote(buf[..], old(buf[..]), base, Body(vs))
    decreases vs, 1
  {
    ghost var was := buf[..];
    dynamicOffset := 32 * |vs|;
    ImageStarts(was, base, vs);
    for i := 0 to |vs|
      invariant dynamicOffset == Offset(vs, i) && buf[..] == Image(was, base, vs, i)
    {
      dynamicOffset := EncodeNext(vs, i, buf, base, dynamicOffset, was);
    }
    ImageEnds(was, base, vs);
  }

  /** The i-th field; returns where the next tail goes. */
  method EncodeNext(vs: seq<Val>, i: nat, buf: array<byte>, base: nat, o: nat, ghost was: Str) returns (next: nat)
    requires i < |vs| && |Body(vs)| <= MAX_INT && base + |Body(vs)| <= |was|
    requires o == Offset(vs, i) && buf[..] == Image(was, base, vs, i)
    modifies buf
    ensures next == Offset(vs, i + 1) && buf[..] == Image(was, base, vs, i + 1)
    decreases vs, 0
  {
    ghost var s, mid := buf[..], [];
    ImageRoom(was, base, vs, i, s, 32 * i, o, |Tail(vs[i])|);
    var head, tail, n := base + 32 * i, base + o, 0;
    n, mid := EncodeField(vs[i], buf, head, o, tail);
    ImageNext(was, base, vs, i, s, mid, buf[..], head, o, tail);
    next := o + n;
  }

  lemma WroteNothing(s: Str, at: nat)
    requires at <= |s|
    ensures Wrote(s, s, at, [])
  {
  }

  lemma ApartStaysZero(now: Str, s: Str, head: nat, b: Str, tail: nat, n: nat)
    requires Wrote(now, s, head, b) && head + |b| <= tail && tail + n <= |s| && s[tail..tail + n] == Zeros(n)
    ensures now[tail..tail + n] == Zeros(n)
  {
    assert now[tail..tail + n] == s[tail..tail + n];
  }

  /** One field: its head at `head`, and its tail, if it has one, at `tail`. */
  method EncodeField(v: Val, buf: array<byte>, head: nat, offset: nat, tail: nat) returns (n: nat, ghost mid: Str)
    requires head + 32 <= tail && tail + |Tail(v)| <= buf.Length && |Tail(v)| <= MAX_INT
    requires buf[head..head + 32] == Zeros(32) && buf[tail..tail + |Tail(v)|] == Zeros(|Tail(v)|)
    modifies buf
    ensures n == |Tail(v)|
    ensures Wrote(mid, old(buf[..]), head, Head(v, offset)) && Wrote(buf[..], mid, tail, Tail(v))
    decreases v, 1
  {
    var word := match v case Uint(k) => k case Bool(b) => if b then 1 else 0 case _ => offset;
    ghost var s := buf[..];
    PutWord(buf, head, word);
    mid := buf[..];
    if Dynamic(v) {
      ApartStaysZero(mid, s, head, Word(word), tail, |Tail(v)|);
      n := EncodeTo(v, buf, tail);
    } else {
      WroteNothing(mid, tail);
      n := 0;
    }
  }

  lemma SliceRoom(s: Str, base: nat, body: Str)
    requires base + 32 + |body| <= |s| && s[base..base + 32 + |body|] == Zeros(32 + |body|)
    ensures s[base..base + 32] == Zeros(32) && s[base + 32..base + 32 + |body|] == Zeros(|body|)
  {
    var z := s[base..base + 32 + |body|];
    assert s[base..base + 32] == z[..32] && s[base + 32..base + 32 + |body|] == z[32..];
  }

  lemma WroteTwice(s: Str, mid: Str, now: Str, at: nat, b: Str, c: Str)
    requires Wrote(mid, s, at, b) && Wrote(now, mid, at + |b|, c) && at + |b| + |c| <= |s|
    ensures Wrote(now, s, at, b + c)
  {
    assert mid[..at + |b|] == s[..at] + b;
  }

  /** The element count, then the elements with their offsets. */
  method EncodeSlice(vs: seq<Val>, buf: array<byte>, base: nat) returns (n: nat)
    requires |Body(vs)| <= MAX_INT && base + 32 + |Body(vs)| <= buf.Length
    requires buf[base..base + 32 + |Body(vs)|] == Zeros(32 + |Body(vs)|)
    modifies buf
    ensures n == 32 + |Body(vs)| && Wrote(buf[..], old(buf[..]), base, Word(|vs|) + Body(vs))
    decreases vs, 2
  {
    ghost var s := buf[..];
    SliceRoom(s, base, Body(vs));
    PutWord(buf, base, |vs|);
    ghost var mid := buf[..];
    ApartStaysZero(mid, s, base, Word(|vs|), base + 32, |Body(vs)|);
    n := EncodeFields(vs, buf, base + 32);
    WroteTwice(s, mid, buf[..], base, Word(|vs|), Body(vs));
    n := n + 32;
  }

  lemma TailParts(v: Val)
    ensures v.Blob? ==> v == Blob(v.bytes)
    ensures v.Tuple? ==> Tail(v) == Body(v.fields)
    ensures v.Slice? ==> Tail(v) == Word(|v.elems|) + Body(v.elems)
  {
    if v.Slice? { Assoc(Word(|v.elems|), Heads(v.elems, 0, 32 * |v.elems|), Tails(v.elems, 0)); }
  }

  /** Encodes v's dynamic part at base of a zeroed buffer; fills exactly EncodedSize bytes. */
  method EncodeTo(v: Val, buf: array<byte>, base: nat) returns (n: nat)
    requires Dynamic(v) && |Tail(v)| <= MAX_INT && base + |Tail(v)| <= buf.Length
    requires buf[base..base + |Tail(v)|] == Zeros(|Tail(v)|)
    modifies buf
    ensures n == EncodedSize(v) == |Tail(v)| && Wrote(buf[..], old(buf[..]), base, Tail(v))
    decreases v, 0
  {
    SizeIsExact(v);
    TailParts(v);
    match v {
      case Blob(b) => n := EncodeBytes(b, buf, base);
      case Tuple(vs) => n := EncodeFields(vs, buf, base);
      case Slice(vs) => n := EncodeSlice(vs, buf, base);
    }
  }

  method Encode(v: Val) returns (out: Str)
    requires Dynamic(v) && |Tail(v)| <= MAX_INT
    ensures out == Tail(v) && |out| == EncodedSize(v)
  {
    SizeIsExact(v);
    var buf := new byte[EncodedSize(v)](_ => 0);
    assert buf[0..] == Zeros(|Tail(v)|);
    var n := EncodeTo(v, buf, 0);
    out := buf[..];
  }

  // ---- the decoding loops ----

  method DecodeTuple(ts: seq<Type>, data: Str) returns (r: Decoded<Val>)
    ensures r == Abi.Decode(TupleT(ts), data)
    decreases ts, 1
  {
    if |data| < 32 * |ts| { return Failed(UnexpectedEof); }
    var dynamicOffset: nat, done := 32 * |ts|, [];
    for i := 0 to |ts|
      invariant dynamicOffset <= |data|
      invariant DecodeFields(ts, data, 0, 32 * |ts|, []) == DecodeFields(ts, data, i, dynamicOffset, done)
    {
      var field, next := DecodeField(ts, i, data, dynamicOffset, done);
      if field.Failed? { return Failed(field.error); }
      dynamicOffset, done := next, done + [field.value];
    }
    return Done(Tuple(done), dynamicOffset);
  }

  /** The i-th field, and where the next dynamic one must start. */
  method DecodeField(ts: seq<Type>, i: nat, data: Str, dynamicOffset: nat, ghost done: seq<Val>)
    returns (r: Decoded<Val>, next: nat)
    requires i < |ts| && 32 * |ts| <= |data| && dynamicOffset <= |data|
    ensures next <= |data|
    ensures r.Failed? ==> DecodeFields(ts, data, i, dynamicOffset, done) == Failed(r.error)
    ensures r.Done? ==>
      DecodeFields(ts, data, i, dynamicOffset, done) == DecodeFields(ts, data, i + 1, next, done + [r.value])
    decreases ts, 0
  {
    next := dynamicOffset;
    if DynamicType(ts[i]) {
      var offset := SizeAt(data[32 * i..]);
      if offset.Failed? { return Failed(offset.error), next; }
      if offset.value != dynamicOffset { return Failed(InvalidOffset), next; }
      r := DecodeAny(ts[i], data[dynamicOffset..]);
      if r.Done? { next := dynamicOffset + r.size; }
    } else {
      r := DecodeWord(ts[i], data[32 * i..]);
    }
  }

  method DecodeSlice(t: Type, data: Str) returns (r: Decoded<Val>)
    requires t.SliceT?
    ensures r == Abi.Decode(t, data)
    decreases t, 1
  {
    var size := SizeAt(data);
    if size.Failed? { return Failed(size.error); }
    var body, len := data[32..], size.value;
    if len > |body| || 32 * len > |body| { return Failed(UnexpectedEof); }
    var dynamicOffset: nat, done := 32 * len, [];
    for i := 0 to len
      invariant dynamicOffset <= |body|
      invariant DecodeElems(t, body, len, 0, 32 * len, []) == DecodeElems(t, body, len, i, dynamicOffset, done)
    {
      var elem, next := DecodeElem(t, len, i, body, dynamicOffset, done);
      if elem.Failed? { return Failed(elem.error); }
      dynamicOffset, done := next, done + [elem.value];
    }
    return Done(Slice(done), dynamicOffset + 32);
  }

  /** The i-th element, and where the next one must start. */
  method DecodeElem(t: Type, len: nat, i: nat, data: Str, dynamicOffset: nat, ghost done: seq<Val>)
    returns (r: Decoded<Val>, next: nat)
    requires t.SliceT? && i < len && 32 * len <= |data| && dynamicOffset <= |data|
    ensures next <= |data|
    ensures r.Failed? ==> DecodeElems(t, data, len, i, dynamicOffset, done) == Failed(r.error)
    ensures r.Done? ==>
      DecodeElems(t, data, len, i, dynamicOffset, done) == DecodeElems(t, data, len, i + 1, next, done + [r.value])
    decreases t, 0
  {
    next := dynamicOffset;
    var offset := SizeAt(data[32 * i..]);
    if offset.Failed? { return Failed(offset.error), next; }
    if offset.value != dynamicOffset { return Failed(InvalidOffset), next; }
    r := DecodeAny(t.elem, data[dynamicOffset..]);
    if r.Done? { next := dynamicOffset + r.size; }
  }

  method DecodeAny(t: Type, data: Str) returns (r: Decoded<Val>)
    ensures r == Abi.Decode(t, data)
    decreases t, 2
  {
    match t {
      case TupleT(ts) => r := DecodeTuple(ts, data);
      case SliceT(_) => r := DecodeSlice(t, data);
      case BytesT => r := DecodeBytes(data);
      case _ => r := DecodeWord(t, data);
    }
  }
}
