/** Byte strings, fixed-width big-endian numbers and the byte order of store keys. */
module Bytes {

  type byte = b: int | 0 <= b < 256

  /** A Go string or byte slice. */
  type Str = seq<byte>

  /** A 32-byte value: a role, a storage slot or a storage word. */
  type Hash = h: Str | |h| == 32 witness seq(32, _ => 0)

  const TWO64: nat := 0x1_0000_0000_0000_0000

  datatype Option<+T> = None | Some(value: T)

  function Zeros(n: nat): (z: Str)
    ensures |z| == n
    ensures forall i :: 0 <= i < n ==> z[i] == 0
  {
    seq(n, _ => 0)
  }

  const ZERO: Hash := Zeros(32)

  lemma Assoc<T>(a: seq<T>, b: seq<T>, c: seq<T>)
    ensures (a + b) + c == a + (b + c)
  {
  }

  function Pow256(n: nat): (p: nat)
    ensures p > 0
  {
    if n == 0 then 1 else 256 * Pow256(n - 1)
  }

  lemma Pow256Eight()
    ensures Pow256(8) == TWO64
  {
    assert Pow256(4) == 0x1_0000_0000;
    assert Pow256(6) == 0x1_0000_0000_0000;
  }

  /** The number a big-endian byte string stands for. */
  function Num(b: Str): (n: nat)
    ensures n < Pow256(|b|)
  {
    if b == [] then 0 else 256 * Num(b[..|b| - 1]) + b[|b| - 1]
  }

  /** The low `len` bytes of n, most significant first. */
  function BigEndian(n: nat, len: nat): (b: Str)
    ensures |b| == len
    decreases len, n
  {
    if len == 0 then [] else BigEndian(n / 256, len - 1) + [n % 256]
  }

  lemma {:induction false} NumOfBigEndian(n: nat, len: nat)
    requires n < Pow256(len)
    ensures Num(BigEndian(n, len)) == n
  {
    if len > 0 {
      NumOfBigEndian(n / 256, len - 1);
      assert BigEndian(n, len)[..len - 1] == BigEndian(n / 256, len - 1);
    }
  }

  lemma {:induction false} BigEndianOfNum(b: Str)
    ensures BigEndian(Num(b), |b|) == b
  {
    if b != [] {
      var n := |b| - 1;
      BigEndianOfNum(b[..n]);
      assert Num(b) / 256 == Num(b[..n]) && Num(b) % 256 == b[n];
      assert b == b[..n] + [b[n]];
    }
  }

  lemma {:induction false} NumDropsZeros(k: nat, b: Str)
    ensures Num(Zeros(k) + b) == Num(b)
  {
    if b != [] {
      NumDropsZeros(k, b[..|b| - 1]);
      assert (Zeros(k) + b)[..k + |b| - 1] == Zeros(k) + b[..|b| - 1];
    } else if k > 0 {
      NumDropsZeros(k - 1, b);
      assert (Zeros(k) + b)[..k - 1] == Zeros(k - 1) + b;
    } else {
      assert Zeros(k) + b == b;
    }
  }

  /** v as a 32-byte word, its low 8 bytes at the end (a uint64 as Solidity pads it). */
  function Word(v: nat): Hash {
    Zeros(24) + BigEndian(v, 8)
  }

  lemma NumOfWord(v: nat)
    requires v < TWO64
    ensures Num(Word(v)) == v && Num(Word(v)[24..]) == v
  {
    Pow256Eight();
    NumOfBigEndian(v, 8);
    NumDropsZeros(24, BigEndian(v, 8));
    assert Word(v)[24..] == BigEndian(v, 8);
  }

  lemma WordInjective(m: nat, n: nat)
    requires m < TWO64 && n < TWO64 && Word(m) == Word(n)
    ensures m == n
  {
    NumOfWord(m);
    NumOfWord(n);
  }

  /** s with s[at..i] replaced by b. */
  function Patch(s: Str, at: nat, b: Str, i: nat): Str
    requires at <= i <= |s|
  {
    s[..at] + b + s[i..]
  }

  /** The lexicographic order in which a store walk meets byte-string keys. */
  predicate Below(a: Str, b: Str) {
    if b == [] then false
    else if a == [] then true
    else a[0] < b[0] || (a[0] == b[0] && Below(a[1..], b[1..]))
  }

  lemma {:induction false} BelowTotal(a: Str, b: Str)
    ensures Below(a, b) || a == b || Below(b, a)
    ensures !(Below(a, b) && Below(b, a)) && !Below(a, a)
  {
    if a != [] && b != [] && a[0] == b[0] {
      BelowTotal(a[1..], b[1..]);
      BelowTotal(a[1..], a[1..]);
      assert a == [a[0]] + a[1..] && b == [b[0]] + b[1..];
    } else if a != [] {
      BelowTotal(a[1..], a[1..]);
    }
  }

  lemma {:induction false} BelowTransitive(a: Str, b: Str, c: Str)
    requires Below(a, b) && Below(b, c)
    ensures Below(a, c)
  {
    if a != [] && a[0] == b[0] && b[0] == c[0] {
      BelowTransitive(a[1..], b[1..], c[1..]);
    }
  }
}
