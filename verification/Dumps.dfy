/**
 TEMPOSB v1: blocks of (slot, value) pairs, each behind a 40-byte header of magic, version, flags,
 address and pair count.
 */
module Dumps {
  import opened Bytes
  import opened MigrationStorage

  /** "TEMPOSB\0" */
  const MAGIC: Str := [84, 69, 77, 80, 79, 83, 66, 0]
  const VERSION := 1
  const HEADER_SIZE := 40
  const PAIR_SIZE := 64
  const BLOCK_PAIRS := 0x10_0000

  function PairBytes(w: Write): (b: Str)
    ensures |b| == PAIR_SIZE
  {
    w.slot + w.value
  }

  function Pairs(ws: seq<Write>): (b: Str)
    ensures |b| == PAIR_SIZE * |ws|
  {
    if ws == [] then [] else Pairs(ws[..|ws| - 1]) + PairBytes(ws[|ws| - 1])
  }

  function Header(address: Str, count: nat): (h: Str)
    requires |address| == 20
    ensures |h| == HEADER_SIZE
  {
    MAGIC + BigEndian(VERSION, 2) + Zeros(2) + address + BigEndian(count, 8)
  }

  function BlockBytes(address: Str, ws: seq<Write>): Str
    requires |address| == 20
  {
    Header(address, |ws|) + Pairs(ws)
  }

  function Encode(address: Str, blocks: seq<seq<Write>>): Str
    requires |address| == 20
  {
    if blocks == [] then [] else Encode(address, blocks[..|blocks| - 1]) + BlockBytes(address, blocks[|blocks| - 1])
  }

  function Flatten(blocks: seq<seq<Write>>): seq<Write> {
    if blocks == [] then [] else Flatten(blocks[..|blocks| - 1]) + blocks[|blocks| - 1]
  }

  // ---- the loader ----

  function PairAt(b: Str, i: nat): Write
    requires PAIR_SIZE * (i + 1) <= |b|
  {
    Write(b[PAIR_SIZE * i..PAIR_SIZE * i + 32], b[PAIR_SIZE * i + 32..PAIR_SIZE * i + 64])
  }

  function ParsePairs(b: Str, n: nat): seq<Write>
    requires PAIR_SIZE * n <= |b|
  {
    seq(n, i requires 0 <= i < n => PairAt(b, i))
  }

  /** Reads blocks for one account until the input ends; None if a block is malformed. */
  function Parse(address: Str, data: Str): Option<seq<seq<Write>>> {
    if data == [] then Some([]) else
    if |data| < HEADER_SIZE || data[..8] != MAGIC || Num(data[8..10]) != VERSION || Num(data[10..12]) != 0
       || data[12..32] != address then None else
    var n := Num(data[32..40]);
    if |data| < HEADER_SIZE + PAIR_SIZE * n then None else
    match Parse(address, data[HEADER_SIZE + PAIR_SIZE * n..])
    case None => None
    case Some(rest) => Some([ParsePairs(data[HEADER_SIZE..], n)] + rest)
  }

  lemma {:induction false} PairsAt(ws: seq<Write>, tail: Str, i: nat)
    requires i < |ws|
    ensures PairAt(Pairs(ws) + tail, i) == ws[i]
  {
    var n := |ws| - 1;
    var before := Pairs(ws[..n]);
    var last := PairBytes(ws[n]);
    if i < n {
      PairsAt(ws[..n], last + tail, i);
      assert Pairs(ws) + tail == before + (last + tail);
    } else {
      var b := Pairs(ws) + tail;
      assert b == before + last + tail;
      assert b[PAIR_SIZE * i..PAIR_SIZE * i + 64] == last;
      assert b[PAIR_SIZE * i..PAIR_SIZE * i + 32] == last[..32];
      assert b[PAIR_SIZE * i + 32..PAIR_SIZE * i + 64] == last[32..];
    }
  }

  lemma HeaderSlices(m: Str, v: Str, z: Str, a: Str, c: Str, tail: Str, d: Str)
    requires |m| == 8 && |v| == 2 && |z| == 2 && |a| == 20 && |c| == 8 && d == m + v + z + a + c + tail
    ensures d[..8] == m && d[8..10] == v && d[10..12] == z && d[12..32] == a && d[32..40] == c && d[40..] == tail
  {
  }

  lemma HeaderNumbers(count: nat)
    requires count < TWO64
    ensures Num(BigEndian(VERSION, 2)) == VERSION && Num(Zeros(2)) == 0 && Num(BigEndian(count, 8)) == count
  {
    assert Pow256(2) == 65536;
    NumOfBigEndian(VERSION, 2);
    NumDropsZeros(2, []);
    assert Zeros(2) + [] == Zeros(2);
    Pow256Eight();
    NumOfBigEndian(count, 8);
  }

  lemma HeaderParts(address: Str, count: nat, tail: Str)
    requires |address| == 20 && count < TWO64
    ensures var d := Header(address, count) + tail;
            && d[..8] == MAGIC && Num(d[8..10]) == VERSION && Num(d[10..12]) == 0
            && d[12..32] == address && Num(d[32..40]) == count && d[HEADER_SIZE..] == tail
  {
    var d := Header(address, count) + tail;
    HeaderSlices(MAGIC, BigEndian(VERSION, 2), Zeros(2), address, BigEndian(count, 8), tail, d);
    HeaderNumbers(count);
  }

  function Prepend(blocks: seq<seq<Write>>, o: Option<seq<seq<Write>>>): Option<seq<seq<Write>>> {
    match o
    case None => None
    case Some(rest) => Some(blocks + rest)
  }

  lemma PairsParse(ws: seq<Write>, tail: Str)
    ensures ParsePairs(Pairs(ws) + tail, |ws|) == ws
  {
    forall i | 0 <= i < |ws| ensures ParsePairs(Pairs(ws) + tail, |ws|)[i] == ws[i] {
      PairsAt(ws, tail, i);
    }
  }

  lemma DropTwice(head: Str, body: Str, tail: Str, d: Str)
    requires d == head + (body + tail)
    ensures d[|head| + |body|..] == tail
  {
  }

  /** A block whose header reads well and whose pairs are all there. */
  lemma ParseNext(address: Str, d: Str, n: nat, rest: Str, tail: Str)
    requires |d| >= HEADER_SIZE && d[..8] == MAGIC && Num(d[8..10]) == VERSION && Num(d[10..12]) == 0
    requires d[12..32] == address && Num(d[32..40]) == n && d[HEADER_SIZE..] == rest
    requires |d| >= HEADER_SIZE + PAIR_SIZE * n && d[HEADER_SIZE + PAIR_SIZE * n..] == tail
    ensures Parse(address, d) == Prepend([ParsePairs(rest, n)], Parse(address, tail))
  {
  }

  lemma ParseBlock(address: Str, ws: seq<Write>, tail: Str)
    requires |address| == 20 && |ws| < TWO64
    ensures Parse(address, BlockBytes(address, ws) + tail) == Prepend([ws], Parse(address, tail))
  {
    var d, rest := BlockBytes(address, ws) + tail, Pairs(ws) + tail;
    Assoc(Header(address, |ws|), Pairs(ws), tail);
    HeaderParts(address, |ws|, rest);
    DropTwice(Header(address, |ws|), Pairs(ws), tail, d);
    PairsParse(ws, tail);
    ParseNext(address, d, |ws|, rest, tail);
  }

  lemma {:induction false} ParseBlocks(address: Str, blocks: seq<seq<Write>>, tail: Str)
    requires |address| == 20 && (forall i :: 0 <= i < |blocks| ==> |blocks[i]| < TWO64)
    ensures Parse(address, Encode(address, blocks) + tail) == Prepend(blocks, Parse(address, tail))
    decreases |blocks|
  {
    if blocks == [] {
      assert Encode(address, blocks) + tail == tail;
      PrependNothing(Parse(address, tail));
    } else {
      var n := |blocks| - 1;
      var before, last := Encode(address, blocks[..n]), BlockBytes(address, blocks[n]);
      calc {
        Parse(address, Encode(address, blocks) + tail);
        { Assoc(before, last, tail); }
        Parse(address, before + (last + tail));
        { ParseBlocks(address, blocks[..n], last + tail); }
        Prepend(blocks[..n], Parse(address, last + tail));
        { ParseBlock(address, blocks[n], tail); }
        Prepend(blocks[..n], Prepend([blocks[n]], Parse(address, tail)));
        { PrependTwice(blocks, Parse(address, tail)); }
        Prepend(blocks, Parse(address, tail));
      }
    }
  }

  lemma PrependNothing(o: Option<seq<seq<Write>>>)
    ensures Prepend([], o) == o
  {
    assert o.Some? ==> [] + o.value == o.value;
  }

  lemma PrependTwice(blocks: seq<seq<Write>>, o: Option<seq<seq<Write>>>)
    requires blocks != []
    ensures Prepend(blocks[..|blocks| - 1], Prepend([blocks[|blocks| - 1]], o)) == Prepend(blocks, o)
  {
    var n := |blocks| - 1;
    assert o.Some? ==> blocks[..n] + ([blocks[n]] + o.value) == blocks + o.value;
  }

  /** ws cut into full blocks and a last one that may be short. */
  function Chunks(ws: seq<Write>): seq<seq<Write>>
    decreases |ws|
  {
    if ws == [] then [] else
    if |ws| <= BLOCK_PAIRS then [ws] else [ws[..BLOCK_PAIRS]] + Chunks(ws[BLOCK_PAIRS..])
  }

  ghost predicate AllFull(blocks: seq<seq<Write>>) {
    forall i :: 0 <= i < |blocks| ==> |blocks[i]| == BLOCK_PAIRS
  }

  lemma {:induction false} FlattenPrepend(b: seq<Write>, blocks: seq<seq<Write>>)
    ensures Flatten([b] + blocks) == b + Flatten(blocks)
    decreases |blocks|
  {
    var all := [b] + blocks;
    if blocks == [] {
      assert all[..0] == [];
    } else {
      var n := |blocks| - 1;
      assert all[..n + 1] == [b] + blocks[..n];
      FlattenPrepend(b, blocks[..n]);
    }
  }

  /** Full blocks followed by a short rest are the chunks of their contents. */
  lemma {:induction false} ChunksOfBlocks(blocks: seq<seq<Write>>, rest: seq<Write>)
    requires AllFull(blocks) && |rest| < BLOCK_PAIRS
    ensures Chunks(Flatten(blocks) + rest) == if rest == [] then blocks else blocks + [rest]
    decreases |blocks|
  {
    if blocks == [] {
      assert Flatten(blocks) + rest == rest;
    } else {
      var first, others := blocks[0], blocks[1..];
      assert blocks == [first] + others;
      FlattenPrepend(first, others);
      var tail := Flatten(others) + rest;
      assert Flatten(blocks) + rest == first + tail;
      ChunksOfBlocks(others, rest);
      if tail == [] {
        assert others == [] by { assert Chunks(tail) == []; }
        assert first + tail == first;
      } else {
        assert (first + tail)[..BLOCK_PAIRS] == first && (first + tail)[BLOCK_PAIRS..] == tail;
        assert [first] + (others + [rest]) == blocks + [rest];
      }
    }
  }

  lemma {:induction false} ChunkSizes(ws: seq<Write>)
    ensures Flatten(Chunks(ws)) == ws
    ensures forall i :: 0 <= i < |Chunks(ws)| ==> 0 < |Chunks(ws)[i]| <= BLOCK_PAIRS
    ensures forall i :: 0 <= i < |Chunks(ws)| - 1 ==> |Chunks(ws)[i]| == BLOCK_PAIRS
    decreases |ws|
  {
    if ws == [] {
    } else if |ws| <= BLOCK_PAIRS {
      assert [ws][..0] == [];
    } else {
      ChunkSizes(ws[BLOCK_PAIRS..]);
      FlattenPrepend(ws[..BLOCK_PAIRS], Chunks(ws[BLOCK_PAIRS..]));
    }
  }

  /** The loader reads back every sequence of writes, block by block. */
  lemma DumpReadsBack(address: Str, ws: seq<Write>)
    requires |address| == 20
    ensures Parse(address, Encode(address, Chunks(ws))) == Some(Chunks(ws)) && Flatten(Chunks(ws)) == ws
    ensures forall i :: 0 <= i < |Chunks(ws)| - 1 ==> |Chunks(ws)[i]| == BLOCK_PAIRS
  {
    ChunkSizes(ws);
    ParseBlocks(address, Chunks(ws), []);
    assert Encode(address, Chunks(ws)) + [] == Encode(address, Chunks(ws));
    assert Chunks(ws) + [] == Chunks(ws);
  }

  lemma {:induction false} EncodePrepend(address: Str, b: seq<Write>, blocks: seq<seq<Write>>)
    requires |address| == 20
    ensures Encode(address, [b] + blocks) == BlockBytes(address, b) + Encode(address, blocks)
    decreases |blocks|
  {
    var all := [b] + blocks;
    if blocks == [] {
      assert all[..0] == [];
      assert [] + BlockBytes(address, b) == BlockBytes(address, b) + [];
    } else {
      var n := |blocks| - 1;
      assert all[..n + 1] == [b] + blocks[..n];
      EncodePrepend(address, b, blocks[..n]);
      Assoc(BlockBytes(address, b), Encode(address, blocks[..n]), BlockBytes(address, blocks[n]));
    }
  }

  lemma {:induction false} PairsOf(b: Str, n: nat)
    requires PAIR_SIZE * n <= |b|
    ensures Pairs(ParsePairs(b, n)) == b[..PAIR_SIZE * n]
  {
    if n > 0 {
      var ws, at := ParsePairs(b, n), PAIR_SIZE * (n - 1);
      PairsOf(b, n - 1);
      assert ws[..n - 1] == ParsePairs(b, n - 1);
      assert PairBytes(ws[n - 1]) == b[at..at + 64];
      assert b[..at + 64] == b[..at] + b[at..at + 64];
    }
  }

  lemma FixedOf(b: Str, len: nat, n: nat)
    requires |b| == len && Num(b) == n
    ensures b == BigEndian(n, len)
  {
    BigEndianOfNum(b);
  }

  lemma ZeroFlags(b: Str)
    requires |b| == 2 && Num(b) == 0
    ensures b == Zeros(2)
  {
    HeaderNumbers(0);
    FixedOf(b, 2, 0);
    FixedOf(Zeros(2), 2, 0);
  }

  lemma Takes(d: Str, a: nat, b: nat)
    requires a <= b <= |d|
    ensures d[..b] == d[..a] + d[a..b]
  {
  }

  /** Bytes that read as a header are that header. */
  lemma HeaderOf(address: Str, d: Str, n: nat)
    requires |address| == 20 && |d| >= HEADER_SIZE && d[..8] == MAGIC && Num(d[8..10]) == VERSION
    requires Num(d[10..12]) == 0 && d[12..32] == address && Num(d[32..40]) == n
    ensures d[..HEADER_SIZE] == Header(address, n)
  {
    FixedOf(d[8..10], 2, VERSION);
    ZeroFlags(d[10..12]);
    FixedOf(d[32..40], 8, n);
    Takes(d, 8, 10);
    Takes(d, 10, 12);
    Takes(d, 12, 32);
    Takes(d, 32, 40);
  }

  /** Bytes that read as a block of n pairs, and what is after them. */
  lemma BlockOf(address: Str, data: Str, n: nat, tail: Str, end: nat)
    requires |address| == 20 && end == HEADER_SIZE + PAIR_SIZE * n <= |data| && tail == data[HEADER_SIZE..]
    requires data[..HEADER_SIZE] == Header(address, n)
    ensures data == BlockBytes(address, ParsePairs(tail, n)) + data[end..]
  {
    PairsOf(tail, n);
    Takes(data, HEADER_SIZE, end);
    assert data[HEADER_SIZE..end] == tail[..PAIR_SIZE * n];
    Takes(data, end, |data|);
    assert data[..|data|] == data;
  }

  lemma ParseUnfolds(address: Str, data: Str, n: nat, end: nat)
    requires Parse(address, data).Some? && data != []
    requires |data| >= HEADER_SIZE ==> n == Num(data[32..40]) && end == HEADER_SIZE + PAIR_SIZE * n
    ensures HEADER_SIZE <= end <= |data| && data[..8] == MAGIC && Num(data[8..10]) == VERSION && Num(data[10..12]) == 0
    ensures data[12..32] == address && Parse(address, data[end..]).Some?
    ensures Parse(address, data).value == [ParsePairs(data[HEADER_SIZE..], n)] + Parse(address, data[end..]).value
  {
  }

  /** The loader takes nothing but encodings. */
  lemma {:induction false} ParseIsEncoding(address: Str, data: Str)
    requires |address| == 20 && Parse(address, data).Some?
    ensures Encode(address, Parse(address, data).value) == data
    decreases |data|
  {
    if data != [] {
      var n := Num(data[32..40]);
      var end := HEADER_SIZE + PAIR_SIZE * n;
      ParseUnfolds(address, data, n, end);
      ParseIsEncoding(address, data[end..]);
      HeaderOf(address, data, n);
      BlockOf(address, data, n, data[HEADER_SIZE..], end);
      EncodePrepend(address, ParsePairs(data[HEADER_SIZE..], n), Parse(address, data[end..]).value);
    }
  }

  lemma Appended(blocks: seq<seq<Write>>, rest: seq<Write>, w: Write)
    ensures Pairs(rest + [w]) == Pairs(rest) + w.slot + w.value
    ensures Flatten(blocks) + (rest + [w]) == Flatten(blocks) + rest + [w]
  {
    assert (rest + [w])[..|rest|] == rest;
    Assoc(Pairs(rest), w.slot, w.value);
    Assoc(Flatten(blocks), rest, [w]);
  }

  lemma OneMoreBlock(address: Str, blocks: seq<seq<Write>>, rest: seq<Write>)
    requires |address| == 20 && AllFull(blocks) && |rest| == BLOCK_PAIRS
    ensures AllFull(blocks + [rest]) && Pairs([]) == []
    ensures Encode(address, blocks + [rest]) == Encode(address, blocks) + BlockBytes(address, rest)
    ensures Flatten(blocks + [rest]) + [] == Flatten(blocks) + rest
  {
    assert (blocks + [rest])[..|blocks|] == blocks;
  }

  /** Writes slots as TEMPOSB v1 under one account, a block at a time. */
  class Dump {
    var out: Str
    var address: Str
    var pending: Str
    ghost var blocks: seq<seq<Write>>
    ghost var rest: seq<Write>

    /** Whole blocks are out, fewer than a block are pending. */
    ghost predicate Valid()
      reads this
    {
      && |address| == 20 && AllFull(blocks) && out == Encode(address, blocks)
      && pending == Pairs(rest) && |rest| < BLOCK_PAIRS
    }

    ghost function Written(): seq<Write>
      reads this
    {
      Flatten(blocks) + rest
    }

    constructor (address: Str)
      requires |address| == 20
      ensures Valid() && Written() == [] && this.address == address
    {
      this.out, this.address, this.pending := [], address, [];
      this.blocks, this.rest := [], [];
    }

    /** As Valid, but the pending block may be full. */
    ghost predicate Open()
      reads this
    {
      && |address| == 20 && AllFull(blocks) && out == Encode(address, blocks)
      && pending == Pairs(rest) && |rest| <= BLOCK_PAIRS
    }

    method Put(w: Write)
      requires Valid()
      modifies this
      ensures Valid() && Written() == old(Written()) + [w] && address == old(address)
    {
      Append(w);
      if |pending| == BLOCK_PAIRS * PAIR_SIZE {
        FlushBlock();
      }
    }

    method Append(w: Write)
      requires Valid()
      modifies this
      ensures Open() && Written() == old(Written()) + [w] && address == old(address)
    {
      Appended(blocks, rest, w);
      pending := pending + w.slot;
      pending := pending + w.value;
      rest := rest + [w];
    }

    method FlushBlock()
      requires Open() && |rest| == BLOCK_PAIRS
      modifies this
      ensures Valid() && Written() == old(Written()) && address == old(address)
    {
      OneMoreBlock(address, blocks, rest);
      Flush();
      blocks := blocks + [rest];
      rest := [];
    }

    /** Closes the dump: what is out are the chunks of everything written. */
    method Close()
      requires Valid()
      modifies this
      ensures address == old(address) && |address| == 20 && pending == []
      ensures out == Encode(address, Chunks(old(Written())))
    {
      ChunksOfBlocks(blocks, rest);
      Flush();
      assert rest != [] ==> (blocks + [rest])[..|blocks|] == blocks;
    }

    method Flush()
      requires |address| == 20 && pending == Pairs(rest)
      modifies this`out, this`pending
      ensures pending == []
      ensures out == old(out) + if rest == [] then [] else BlockBytes(address, rest)
    {
      if |pending| == 0 {
        return;
      }
      var header := MAGIC + BigEndian(VERSION, 2) + Zeros(2) + address + BigEndian(|pending| / PAIR_SIZE, 8);
      assert header == Header(address, |rest|);
      Assoc(out, header, pending);
      out := out + header;
      out := out + pending;
      pending := [];
    }
  }
}
