/** Base-128 varints as the generated protobuf code writes, sizes and reads them. */
module Varints {
  import opened Bytes

  const TWO63: nat := 0x8000_0000_0000_0000

  datatype WireError =
    | IntOverflow | UnexpectedEof | InvalidLength | UnexpectedEndOfGroup
    | EndGroup | IllegalTag | WrongWireType | IllegalWireType

  datatype Parsed<+T> = Got(value: T) | Bad(error: WireError)

  /** v in groups of seven bits, lowest first, every byte but the last marked with 0x80. */
  function Varint(v: nat): Str {
    if v < 128 then [v] else [v % 128 + 128] + Varint(v / 128)
  }

  function BitLen(x: nat): nat {
    if x == 0 then 0 else 1 + BitLen(x / 2)
  }

  /** Size of v's varint, by the position of its highest bit (of v | 1). */
  function Sov(v: nat): nat {
    (BitLen(if v % 2 == 0 then v + 1 else v) + 6) / 7
  }

  lemma {:induction false} BitLenOfOdd(x: nat)
    requires x > 0 && x % 2 == 0
    ensures BitLen(x + 1) == BitLen(x)
  {
    assert (x + 1) / 2 == x / 2;
  }

  lemma BitLenHalves(x: nat)
    requires x >= 4
    ensures BitLen(x) == 2 + BitLen(x / 4)
  {
    assert BitLen(x / 2) == 1 + BitLen(x / 2 / 2);
    assert x / 2 / 2 == x / 4;
  }

  lemma BitLenShifts(x: nat)
    requires x >= 128
    ensures BitLen(x) == 7 + BitLen(x / 128)
  {
    BitLenHalves(x);
    BitLenHalves(x / 4);
    BitLenHalves(x / 16);
    assert x / 4 / 4 == x / 16 && x / 16 / 4 == x / 64 && x / 64 / 2 == x / 128;
  }

  lemma BitLenSmall(x: nat)
    requires 0 < x < 128
    ensures 1 <= BitLen(x) <= 7
  {
    if x >= 4 { BitLenHalves(x); }
    var y := x / 4;
    if y >= 4 { BitLenHalves(y); }
    var z := y / 4;
    if z >= 4 { BitLenHalves(z); }
    assert z / 4 <= 1 && BitLen(0) == 0 && BitLen(1) == 1;
  }

  /** The size computed from the bit length is the number of bytes written. */
  lemma {:induction false} SovIsLength(v: nat)
    ensures Sov(v) == |Varint(v)|
  {
    var w := if v % 2 == 0 then v + 1 else v;
    if v < 128 {
      BitLenSmall(w);
    } else {
      var u := v / 128;
      SovIsLength(u);
      BitLenShifts(w);
      assert w / 128 == u;
      if u % 2 == 0 { BitLenOfOdd(u); }
    }
  }

  function Pow128(n: nat): (p: nat)
    ensures p > 0
  {
    if n == 0 then 1 else 128 * Pow128(n - 1)
  }

  lemma Pow128Nine()
    ensures Pow128(9) == TWO63 && Pow128(10) == 64 * TWO64
  {
    assert Pow128(3) == 0x20_0000;
    assert Pow128(6) == 0x400_0000_0000;
  }

  /** The varint that starts at d[from], read without truncation from d[i] on, and the index after it. */
  function GroupsFrom(d: Str, from: nat, i: nat): Parsed<(nat, nat)>
    requires from <= i
    decreases |d| - i
  {
    if i - from >= 10 then Bad(IntOverflow)
    else if i >= |d| then Bad(UnexpectedEof)
    else if d[i] < 128 then Got((d[i], i + 1))
    else match GroupsFrom(d, from, i + 1)
      case Bad(e) => Bad(e)
      case Got((v, j)) => Got((d[i] % 128 + 128 * v, j))
  }

  /** What a read of a 64-bit varint at d[i..] yields. */
  function VarintAt(d: Str, i: nat): Parsed<(nat, nat)> {
    match GroupsFrom(d, i, i)
    case Bad(e) => Bad(e)
    case Got((v, j)) => Got((v % TWO64, j))
  }

  lemma {:induction false} GroupsFromAdvance(d: Str, from: nat, i: nat)
    requires from <= i
    ensures GroupsFrom(d, from, i).Got? ==> i < GroupsFrom(d, from, i).value.1 <= |d|
    decreases |d| - i
  {
    if i < |d| { GroupsFromAdvance(d, from, i + 1); }
  }

  lemma VarintAdvances(d: Str, i: nat)
    ensures VarintAt(d, i).Got? ==> i < VarintAt(d, i).value.1 <= |d| && VarintAt(d, i).value.0 < TWO64
  {
    GroupsFromAdvance(d, i, i);
  }

  lemma {:induction false} GroupsOfVarint(d: Str, from: nat, i: nat, v: nat, rest: Str)
    requires from <= i <= |d| && i - from < 10 && d[i..] == Varint(v) + rest && v < Pow128(10 - (i - from))
    ensures GroupsFrom(d, from, i) == Got((v, i + |Varint(v)|))
    decreases |d| - i
  {
    assert d[i] == d[i..][0];
    if v >= 128 {
      var u := v / 128;
      assert d[i + 1..] == d[i..][1..] == Varint(u) + rest;
      GroupsOfVarint(d, from, i + 1, u, rest);
    }
  }

  /** Reading back a written 64-bit number, wherever it stands. */
  lemma VarintReadsBack(d: Str, i: nat, v: nat, rest: Str)
    requires i <= |d| && d[i..] == Varint(v) + rest && v < TWO64
    ensures VarintAt(d, i) == Got((v, i + |Varint(v)|))
  {
    Pow128Nine();
    GroupsOfVarint(d, i, i, v, rest);
  }

  lemma {:induction false} GroupsExtend(d: Str, e: Str, from: nat, i: nat)
    requires from <= i && GroupsFrom(d, from, i).Got?
    ensures GroupsFrom(d + e, from, i) == GroupsFrom(d, from, i)
    decreases |d| - i
  {
    if d[i] >= 128 { GroupsExtend(d, e, from, i + 1); }
  }

  lemma VarintExtends(d: Str, e: Str, i: nat)
    requires VarintAt(d, i).Got?
    ensures VarintAt(d + e, i) == VarintAt(d, i)
  {
    GroupsExtend(d, e, i, i);
  }

  lemma {:induction false} GroupsShift(d: Str, e: Str, from: nat, i: nat)
    requires from <= i && GroupsFrom(e, from, i).Got?
    ensures GroupsFrom(d + e, |d| + from, |d| + i)
         == Got((GroupsFrom(e, from, i).value.0, |d| + GroupsFrom(e, from, i).value.1))
    decreases |e| - i
  {
    if e[i] >= 128 { GroupsShift(d, e, from, i + 1); }
  }

  lemma VarintShifts(d: Str, e: Str, i: nat)
    requires VarintAt(e, i).Got?
    ensures VarintAt(d + e, |d| + i) == Got((VarintAt(e, i).value.0, |d| + VarintAt(e, i).value.1))
  {
    GroupsShift(d, e, i, i);
  }

  // ---- the loops ----

  /** Writes v's varint so that it ends just before `offset`; returns where it starts. */
  method EncodeVarint(a: array<byte>, offset: nat, v: nat) returns (base: nat)
    requires Sov(v) <= offset <= a.Length
    modifies a
    ensures base == offset - |Varint(v)|
    ensures a[..] == old(a[..base]) + Varint(v) + old(a[offset..])
  {
    SovIsLength(v);
    base := offset - Sov(v);
    var at, w := base, v;
    ghost var was := a[..];
    while w >= 128
      invariant base <= at && at + |Varint(w)| == offset && Spliced(a[..], was, base, at, offset)
      invariant a[base..at] + Varint(w) == Varint(v)
    {
      ghost var now := a[..];
      VarintNext(now[base..at], w, v);
      a[at] := w % 128 + 128;
      SplicedNext(now, a[..], was, base, at, offset, w % 128 + 128);
      w := w / 128;
      at := at + 1;
    }
    ghost var now := a[..];
    a[at] := w;
    SplicedNext(now, a[..], was, base, at, offset, w);
  }

  /** now differs from was only between base and at, up to offset. */
  ghost predicate Spliced(now: Str, was: Str, base: nat, at: nat, offset: nat) {
    && base <= at <= offset <= |was| == |now|
    && now[..base] == was[..base] && now[offset..] == was[offset..]
  }

  lemma SplicedNext(now: Str, next: Str, was: Str, base: nat, at: nat, offset: nat, b: byte)
    requires Spliced(now, was, base, at, offset) && at < offset && next == now[at := b]
    ensures Spliced(next, was, base, at + 1, offset) && next[base..at + 1] == now[base..at] + [b]
    ensures at + 1 == offset ==> next == was[..base] + (now[base..at] + [b]) + was[offset..]
  {
    assert next == next[..base] + next[base..offset] + next[offset..];
  }

  lemma VarintNext(done: Str, w: nat, v: nat)
    requires w >= 128 && done + Varint(w) == Varint(v)
    ensures (done + [w % 128 + 128]) + Varint(w / 128) == Varint(v) && |Varint(w)| == 1 + |Varint(w / 128)|
  {
    Assoc(done, [w % 128 + 128], Varint(w / 128));
  }

  /** What the bytes from i on add to the `done` low groups already read. */
  function Onto(acc: nat, done: nat, rest: Parsed<(nat, nat)>): Parsed<(nat, nat)> {
    match rest
    case Bad(e) => Bad(e)
    case Got((v, j)) => Got((acc + Pow128(done) * v, j))
  }

  lemma OntoNext(d: Str, from: nat, i: nat, acc: nat)
    requires from <= i < from + 10 && i < |d| && d[i] >= 128
    ensures Onto(acc, i - from, GroupsFrom(d, from, i))
         == Onto(acc + Pow128(i - from) * (d[i] % 128), i + 1 - from, GroupsFrom(d, from, i + 1))
  {
    var rest := GroupsFrom(d, from, i + 1);
    if rest.Got? {
      var v := rest.value.0;
      var p := Pow128(i - from);
      assert p * (d[i] % 128 + 128 * v) == p * (d[i] % 128) + (128 * p) * v;
    }
  }

  lemma {:induction false} Pow128Grows(m: nat, n: nat)
    requires m <= n
    ensures Pow128(m) <= Pow128(n)
    decreases n
  {
    if m < n { Pow128Grows(m, n - 1); }
  }

  function Pow2(n: nat): nat {
    if n == 0 then 1 else 2 * Pow2(n - 1)
  }

  lemma {:induction false} Pow2Sevens(k: nat)
    ensures Pow2(7 * k) == Pow128(k)
  {
    if k > 0 {
      var n := 7 * (k - 1);
      Pow2Sevens(k - 1);
      assert Pow2(n + 2) == 2 * Pow2(n + 1) == 4 * Pow2(n);
      assert Pow2(n + 4) == 2 * Pow2(n + 3) == 4 * Pow2(n + 2);
      assert Pow2(n + 6) == 2 * Pow2(n + 5) == 4 * Pow2(n + 4);
      assert 7 * k == n + 7;
    }
  }

  /** A 64-bit left shift. */
  function Shl(x: nat, shift: nat): nat {
    (x * Pow2(shift)) % TWO64
  }

  lemma LastGroup(acc: nat, x: nat)
    requires acc < TWO63
    ensures acc + (x * TWO63) % TWO64 == (acc + TWO63 * x) % TWO64
  {
    var b, h := x % 2, x / 2;
    assert x == 2 * h + b;
    assert x * TWO63 == b * TWO63 + h * TWO64;
    ModOf(x * TWO63, b * TWO63, h);
    ModOf(acc + TWO63 * x, acc + b * TWO63, h);
  }

  lemma ModOf(n: nat, low: nat, h: nat)
    requires n == low + h * TWO64 && low < TWO64
    ensures n % TWO64 == low
  {
  }

  lemma GroupBound(acc: nat, p: nat, x: nat)
    requires acc < p && x < 128
    ensures acc + p * x < 128 * p && p * x == x * p
  {
    assert p * x <= p * 127;
  }

  lemma SmallGroup(acc: nat, p: nat, x: nat)
    requires acc < p && x < 128 && 128 * p <= TWO63
    ensures acc % TWO64 + (x * p) % TWO64 == (acc + p * x) % TWO64
  {
    GroupBound(acc, p, x);
    ModOf(acc, acc, 0);
    ModOf(x * p, x * p, 0);
    ModOf(acc + p * x, acc + p * x, 0);
  }

  lemma GroupFits(acc: nat, done: nat, x: nat)
    requires done <= 9 && acc < Pow128(done) && x < 128
    ensures acc + Pow128(done) * x < Pow128(done + 1)
    ensures acc % TWO64 + Shl(x, 7 * done) == (acc + Pow128(done) * x) % TWO64
  {
    var p := Pow128(done);
    Pow2Sevens(done);
    GroupBound(acc, p, x);
    if done < 9 {
      NineGroups(done + 1);
      SmallGroup(acc, p, x);
    } else {
      Pow128Nine();
      LastGroup(acc, x);
      ModOf(acc, acc, 0);
    }
  }

  lemma NineGroups(n: nat)
    requires n <= 9
    ensures Pow128(n) <= TWO63
  {
    Pow128Nine();
    Pow128Grows(n, 9);
  }

  /** wire holds the groups d[i..at], whose value is acc, and the read goes on at d[at]. */
  ghost predicate Reading(d: Str, i: nat, at: nat, acc: nat, wire: nat) {
    && i <= at <= i + 10 && acc < Pow128(at - i) && wire == acc % TWO64
    && GroupsFrom(d, i, i) == Onto(acc, at - i, GroupsFrom(d, i, at))
  }

  lemma ReadingStops(d: Str, i: nat, at: nat, acc: nat, wire: nat)
    requires Reading(d, i, at, acc, wire)
    ensures at == i + 10 ==> VarintAt(d, i) == Bad(IntOverflow)
    ensures at < i + 10 && at >= |d| ==> VarintAt(d, i) == Bad(UnexpectedEof)
  {
  }

  lemma ReadingNext(d: Str, i: nat, at: nat, acc: nat, wire: nat, shift: nat, acc1: nat, wire1: nat)
    requires Reading(d, i, at, acc, wire) && at < i + 10 && at < |d| && shift == 7 * (at - i)
    requires acc1 == acc + Pow128(at - i) * (d[at] % 128) && wire1 == wire + Shl(d[at] % 128, shift)
    ensures d[at] < 128 ==> VarintAt(d, i) == Got((wire1, at + 1))
    ensures d[at] >= 128 ==> Reading(d, i, at + 1, acc1, wire1)
  {
    GroupFits(acc, at - i, d[at] % 128);
    if d[at] >= 128 { OntoNext(d, i, at, acc); }
  }

  /**
   * The read loop. Each group is or-ed in above the bits already read, so the or is an addition;
   * shifting a group left drops what passes bit 63.
   */
  method ReadVarint(d: Str, i: nat) returns (r: Parsed<(nat, nat)>)
    ensures r == VarintAt(d, i)
  {
    var at: nat, shift: nat, wire: nat := i, 0, 0;
    ghost var acc: nat := 0;
    while true
      invariant i <= at <= i + 10 && shift == 7 * (at - i) && Reading(d, i, at, acc, wire)
      decreases i + 10 - at
    {
      ReadingStops(d, i, at, acc, wire);
      if shift >= 64 { return Bad(IntOverflow); }
      if at >= |d| { return Bad(UnexpectedEof); }
      var b := d[at];
      ghost var acc0, wire0 := acc, wire;
      wire := wire + Shl(b % 128, shift);
      acc := acc + Pow128(at - i) * (b % 128);
      ReadingNext(d, i, at, acc0, wire0, shift, acc, wire);
      at := at + 1;
      if b < 128 { return Got((wire, at)); }
      shift := shift + 7;
    }
  }
}
