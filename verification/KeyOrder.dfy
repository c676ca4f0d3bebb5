/** The orders in which walks meet keys are the byte orders of the keys as the store writes them. */
module KeyOrder {
  import opened Bytes
  import opened Walks

  lemma {:induction false} BelowConcat(a: Str, b: Str, c: Str, d: Str)
    requires |a| == |b|
    ensures Below(a + c, b + d) <==> Below(a, b) || (a == b && Below(c, d))
  {
    if a == [] {
      assert a + c == c && b + d == d;
    } else {
      assert (a + c)[1..] == a[1..] + c && (b + d)[1..] == b[1..] + d;
      BelowConcat(a[1..], b[1..], c, d);
      assert a == [a[0]] + a[1..] && b == [b[0]] + b[1..];
    }
  }

  lemma BelowBytes(x: byte, y: byte)
    ensures Below([x], [y]) <==> x < y
  {
    assert [x][1..] == [] && [y][1..] == [];
  }

  /** Big-endian numbers of one width are ordered as numbers. */
  lemma {:induction false} BigEndianOrder(m: nat, n: nat, len: nat)
    requires m < Pow256(len) && n < Pow256(len)
    ensures Below(BigEndian(m, len), BigEndian(n, len)) <==> m < n
    ensures BigEndian(m, len) == BigEndian(n, len) <==> m == n
  {
    NumOfBigEndian(m, len);
    NumOfBigEndian(n, len);
    if len > 0 {
      BigEndianOrder(m / 256, n / 256, len - 1);
      BelowConcat(BigEndian(m / 256, len - 1), BigEndian(n / 256, len - 1), [m % 256], [n % 256]);
      BelowBytes(m % 256, n % 256);
    }
  }

  function IdKey(id: nat): Str { BigEndian(id, 8) }

  lemma IdOrder(m: nat, n: nat)
    requires m < TWO64 && n < TWO64
    ensures IdLess(m, n) <==> Below(IdKey(m), IdKey(n))
    ensures IdKey(m) == IdKey(n) <==> m == n
  {
    Pow256Eight();
    BigEndianOrder(m, n, 8);
  }

  lemma PairOrder(a: (nat, nat), b: (nat, nat))
    requires a.0 < TWO64 && a.1 < TWO64 && b.0 < TWO64 && b.1 < TWO64
    ensures PairLess(a, b) <==> Below(IdKey(a.0) + IdKey(a.1), IdKey(b.0) + IdKey(b.1))
  {
    IdOrder(a.0, b.0);
    IdOrder(a.1, b.1);
    BelowConcat(IdKey(a.0), IdKey(b.0), IdKey(a.1), IdKey(b.1));
  }

  lemma TripleOrder(a: (nat, nat, nat), b: (nat, nat, nat))
    requires a.0 < TWO64 && a.1 < TWO64 && a.2 < TWO64 && b.0 < TWO64 && b.1 < TWO64 && b.2 < TWO64
    ensures TripleLess(a, b) <==>
      Below(IdKey(a.0) + (IdKey(a.1) + IdKey(a.2)), IdKey(b.0) + (IdKey(b.1) + IdKey(b.2)))
  {
    IdOrder(a.0, b.0);
    PairOrder((a.1, a.2), (b.1, b.2));
    BelowConcat(IdKey(a.0), IdKey(b.0), IdKey(a.1) + IdKey(a.2), IdKey(b.1) + IdKey(b.2));
  }

  /** A string that ends the key stands as it is. */
  lemma IdStrOrder(a: (nat, Str), b: (nat, Str))
    requires a.0 < TWO64 && b.0 < TWO64
    ensures IdStrLess(a, b) <==> Below(IdKey(a.0) + a.1, IdKey(b.0) + b.1)
  {
    IdOrder(a.0, b.0);
    BelowConcat(IdKey(a.0), IdKey(b.0), a.1, b.1);
  }

  lemma {:induction false} TerminatedOrder(s: Str, t: Str, x: Str, y: Str)
    requires 0 !in s && 0 !in t
    ensures Below(s + [0] + x, t + [0] + y) <==> Below(s, t) || (s == t && Below(x, y))
  {
    var a, b := s + [0] + x, t + [0] + y;
    assert s == [] ==> a[0] == 0 && a[1..] == x;
    assert t == [] ==> b[0] == 0 && b[1..] == y;
    assert s != [] ==> a[0] == s[0] && a[0] in s && a[1..] == s[1..] + [0] + x;
    assert t != [] ==> b[0] == t[0] && b[0] in t && b[1..] == t[1..] + [0] + y;
    if s != [] && t != [] {
      TerminatedOrder(s[1..], t[1..], x, y);
      assert s == [s[0]] + s[1..] && t == [t[0]] + t[1..];
    }
  }

  /** A string in front is ended by a zero byte, so it must hold none. */
  lemma StrIdOrder(a: (Str, nat), b: (Str, nat))
    requires a.1 < TWO64 && b.1 < TWO64 && 0 !in a.0 && 0 !in b.0
    ensures StrIdLess(a, b) <==> Below(a.0 + [0] + IdKey(a.1), b.0 + [0] + IdKey(b.1))
  {
    IdOrder(a.1, b.1);
    TerminatedOrder(a.0, b.0, IdKey(a.1), IdKey(b.1));
  }

  /** A role is its 32 bytes, the account the rest. */
  lemma MemberOrder(a: (Hash, Str), b: (Hash, Str))
    ensures MemberLess(a, b) <==> Below(a.0 + a.1, b.0 + b.1)
  {
    BelowConcat(a.0, b.0, a.1, b.1);
  }
}
