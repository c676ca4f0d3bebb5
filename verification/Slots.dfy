/**
 Storage slots of the anchoring contract and why two of them never meet.
 A location is written symbolically; its slot is what keccak-256 makes of it.
 */
module Slots {
  import opened Bytes

  type Keccak = Str -> Hash

  // State variables, in declaration order.
  const ROLE_ADMIN := 0
  const ROLE_MEMBERS := 1
  const ROLE_MEMBER_COUNT := 2
  const HEADER := 3
  const REGISTRIES := 4
  const RECORD_COUNT := 5
  const LATEST_INDEX := 6
  const RECORDS := 7
  const RECORD_ID_BY_CHECKSUM := 8
  const REGISTRIES_BY_CHECKSUM := 9
  const REGISTRIES_BY_NAME := 10

  /** The slot n words past base; a sum past 2^256 keeps its low 32 bytes. */
  function At(base: Hash, n: nat): Hash {
    BigEndian(Num(base) + n, 32)
  }

  function MapHash(k: Keccak, key: Hash, parent: Hash): Hash { k(key + parent) }

  function MapUint64(k: Keccak, key: nat, parent: Hash): Hash { k(Word(key) + parent) }

  /** A string key is hashed unpadded. */
  function MapString(k: Keccak, key: Str, parent: Hash): Hash { k(key + parent) }

  /** Where a dynamic array's elements, or a long string's bytes, start. */
  function ArrayData(k: Keccak, lengthSlot: Hash): Hash { k(lengthSlot) }

  function RegistryBase(k: Keccak, r: nat): Hash { MapUint64(k, r, Word(4)) }

  function RecordBase(k: Keccak, r: nat, id: nat, index: nat): Hash {
    MapUint64(k, index, MapUint64(k, id, MapUint64(k, r, Word(7))))
  }

  /**
   Root(n) is state variable n. Cell(key, parent, off) is off words past keccak(key ++ parent's
   slot): a mapping entry, or with an empty key the data of the array at `parent`.
   */
  datatype Loc = Root(n: nat) | Cell(key: Str, parent: Loc, off: nat)

  function Slot(k: Keccak, l: Loc): Hash {
    match l
    case Root(n) => Word(n)
    case Cell(key, parent, off) => At(k(key + Slot(k, parent)), off)
  }

  /** Every hash on the way to l has its preimage in `preimages`, and no offset reaches `span`. */
  ghost predicate InPlay(k: Keccak, l: Loc, preimages: set<Str>, span: nat) {
    match l
    case Root(n) => n <= REGISTRIES_BY_NAME
    case Cell(key, parent, off) =>
      key + Slot(k, parent) in preimages && off < span && InPlay(k, parent, preimages, span)
  }

  /**
   What is asked of keccak, on finitely many preimages: the `span` slots from one hash meet
   neither those from another nor the state variables.
   */
  ghost predicate Spread(k: Keccak, preimages: set<Str>, span: nat) {
    && span <= Pow256(32)
    && (forall p, q, i: nat, j: nat :: p in preimages && q in preimages && p != q && i < span && j < span
                                       ==> At(k(p), i) != At(k(q), j))
    && (forall p, i: nat, n: nat :: p in preimages && i < span && n <= REGISTRIES_BY_NAME ==> At(k(p), i) != Word(n))
  }

  lemma AtZero(base: Hash)
    ensures At(base, 0) == base
  {
    BigEndianOfNum(base);
  }

  /** Numbers with the same low bytes differ by a multiple of the next power. */
  lemma {:induction false} SameLowBytes(x: nat, y: nat, len: nat) returns (c: int)
    requires BigEndian(x, len) == BigEndian(y, len)
    ensures x == y + c * Pow256(len)
  {
    if len == 0 {
      c := x - y;
    } else {
      var a, b := BigEndian(x, len), BigEndian(y, len);
      assert a[..len - 1] == BigEndian(x / 256, len - 1) && b[..len - 1] == BigEndian(y / 256, len - 1);
      c := SameLowBytes(x / 256, y / 256, len - 1);
      assert a[len - 1] == x % 256 && b[len - 1] == y % 256;
      var p := Pow256(len - 1);
      assert c * Pow256(len) == 256 * (c * p);
    }
  }

  lemma SmallMultiple(d: int, c: int, m: int)
    requires d == c * m && -m < d < m
    ensures d == 0
  {
    assert c >= 1 ==> c * m >= m;
    assert c <= -1 ==> c * m <= -m;
  }

  lemma OffsetInjective(a: nat, i: nat, j: nat, len: nat)
    requires i < Pow256(len) && j < Pow256(len) && BigEndian(a + i, len) == BigEndian(a + j, len)
    ensures i == j
  {
    var c := SameLowBytes(a + i, a + j, len);
    SmallMultiple(i - j, c, Pow256(len));
  }

  lemma AtInjective(base: Hash, i: nat, j: nat)
    requires i < Pow256(32) && j < Pow256(32) && At(base, i) == At(base, j)
    ensures i == j
  {
    OffsetInjective(Num(base), i, j, 32);
  }

  /** A preimage splits into key and 32-byte parent in one way only, whatever the key's length. */
  lemma PreimageSplits(key1: Str, parent1: Hash, key2: Str, parent2: Hash)
    requires key1 + parent1 == key2 + parent2
    ensures key1 == key2 && parent1 == parent2
  {
    var p := key1 + parent1;
    assert |key1| == |key2|;
    assert key1 == p[..|key1|] && key2 == (key2 + parent2)[..|key2|];
    assert parent1 == p[|key1|..] && parent2 == (key2 + parent2)[|key2|..];
  }

  /** Distinct locations in play have distinct slots. */
  lemma {:induction false} SlotInjective(k: Keccak, l: Loc, m: Loc, preimages: set<Str>, span: nat)
    requires Spread(k, preimages, span)
    requires InPlay(k, l, preimages, span) && InPlay(k, m, preimages, span)
    requires Slot(k, l) == Slot(k, m)
    ensures l == m
  {
    match (l, m)
    case (Root(i), Root(j)) => WordInjective(i, j);
    case (Cell(key1, p1, i), Cell(key2, p2, j)) =>
      PreimageSplits(key1, Slot(k, p1), key2, Slot(k, p2));
      SlotInjective(k, p1, p2, preimages, span);
      AtInjective(k(key1 + Slot(k, p1)), i, j);
    case _ =>
  }
}
