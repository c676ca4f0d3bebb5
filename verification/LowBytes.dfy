/** What cutting and padding to a fixed width does to the number a byte string stands for. */
module LowBytes {
  import opened Bytes
  import opened Messages
  import opened MigrationPlan
  import opened Slots

  lemma Shifted(x: nat, p: nat, y: nat, z: nat)
    ensures 256 * (x * p + y) + z == x * (256 * p) + (256 * y + z)
  {
    assert x * (256 * p) == 256 * (x * p);
  }

  lemma {:induction false} NumConcat(a: Str, b: Str)
    ensures Num(a + b) == Num(a) * Pow256(|b|) + Num(b)
    decreases |b|
  {
    if b == [] {
      assert a + b == a;
    } else {
      var n := |b| - 1;
      NumConcat(a, b[..n]);
      assert (a + b)[..|a| + n] == a + b[..n];
      Shifted(Num(a), Pow256(n), Num(b[..n]), b[n]);
    }
  }

  lemma ModOf(n: nat, q: nat, p: nat, low: nat)
    requires low < p && n == q * p + low
    ensures n % p == low
  {
    var r, k := n % p, n / p;
    assert n == k * p + r;
    assert (q - k) * p == r - low;
    SmallMultiple(r - low, q - k, p);
  }

  lemma {:induction false} Pow256Grows(m: nat, n: nat)
    requires m <= n
    ensures Pow256(m) <= Pow256(n)
    decreases n
  {
    if m < n { Pow256Grows(m, n - 1); }
  }

  /** The last n bytes are the number below 256 to the n. */
  lemma LastBytes(b: Str, n: nat)
    requires n <= |b|
    ensures Num(b[|b| - n..]) == Num(b) % Pow256(n)
  {
    var high, low := b[..|b| - n], b[|b| - n..];
    assert b == high + low;
    NumConcat(high, low);
    ModOf(Num(b), Num(high), Pow256(n), Num(low));
  }

  lemma PaddedBytes(b: Str, n: nat)
    requires |b| <= n
    ensures Num(Zeros(n - |b|) + b) == Num(b) % Pow256(n)
  {
    NumDropsZeros(n - |b|, b);
    Pow256Grows(|b|, n);
    ModOf(Num(b), 0, Pow256(n), Num(b));
  }

  /** n bytes: the last ones of b, or b behind zeros. */
  function Fixed(b: Str, n: nat): Str {
    if |b| >= n then b[|b| - n..] else Zeros(n - |b|) + b
  }

  /** They keep b's number below 256 to the n. */
  lemma FixedIsLow(b: Str, n: nat)
    ensures |Fixed(b, n)| == n && Num(Fixed(b, n)) == Num(b) % Pow256(n)
  {
    if |b| >= n { LastBytes(b, n); } else { PaddedBytes(b, n); }
  }

  /** So a hash made of any bytes is their number below 2^256, an address theirs below 2^160. */
  lemma FixedSizes(b: Str)
    ensures ToHash(b) == Fixed(b, 32) && ToAddress(b) == Fixed(b, 20)
  {
  }

  lemma LowDigits(n: nat, p: nat)
    requires p > 0
    ensures n % (256 * p) == 256 * (n / 256 % p) + n % 256
  {
    var q, r := n / 256 / p, n / 256 % p;
    assert n / 256 == q * p + r;
    Shifted(q, p, r, n % 256);
    ModOf(n, q, 256 * p, 256 * r + n % 256);
  }

  lemma {:induction false} NumOfLow(n: nat, len: nat)
    ensures Num(BigEndian(n, len)) == n % Pow256(len)
    decreases len
  {
    if len > 0 {
      NumOfLow(n / 256, len - 1);
      assert BigEndian(n, len)[..len - 1] == BigEndian(n / 256, len - 1);
      LowDigits(n, Pow256(len - 1));
    }
  }

  /** Slots are counted modulo 2^256. */
  lemma AtIsOffset(base: Hash, n: nat)
    ensures Num(At(base, n)) == (Num(base) + n) % Pow256(32)
  {
    NumOfLow(Num(base) + n, 32);
  }
}
