/** What the role identifiers spell out. */
module RoleTexts {
  import opened Bytes
  import opened Roles

  /** A number written in digits. */
  function Reading(s: Str): int {
    if s == [] then 0 else 10 * Reading(s[..|s| - 1]) + s[|s| - 1] - 48
  }

  /** %d: decimal digits for the number, without a leading zero but for zero itself. */
  lemma {:induction false} DecimalReads(n: nat)
    ensures Reading(Decimal(n)) == n
    ensures forall i :: 0 <= i < |Decimal(n)| ==> 48 <= Decimal(n)[i] <= 57
    ensures Decimal(n)[0] == 48 ==> n == 0 && |Decimal(n)| == 1
  {
    if n < 10 {
      assert [48 + n][..0] == [];
    } else {
      var high, d := Decimal(n / 10), Decimal(n);
      DecimalReads(n / 10);
      assert d[..|d| - 1] == high && d[0] == high[0];
    }
  }

  /** A lower-case hex digit's value. */
  function Nibble(c: byte): int { if c < 58 then c - 48 else c - 87 }

  /** %x: two lower-case hex digits for every byte, the high one first. */
  lemma {:induction false} HexReads(s: Str, i: nat)
    requires i < |s|
    ensures 16 * Nibble(Hex(s)[2 * i]) + Nibble(Hex(s)[2 * i + 1]) == s[i]
    ensures forall j :: 2 * i <= j < 2 * i + 2 ==> 48 <= Hex(s)[j] <= 57 || 97 <= Hex(s)[j] <= 102
  {
    if i > 0 {
      HexReads(s[1..], i - 1);
      assert Hex(s)[2 * i] == Hex(s[1..])[2 * i - 2] && Hex(s)[2 * i + 1] == Hex(s[1..])[2 * i - 1];
    }
  }

  lemma Parts(a: Str, b: Str, c: Str, x: Str)
    requires x == a + (b + [COLON] + c)
    ensures var m, n := |a|, |a| + |b|;
      |x| == n + 1 + |c| && x[..m] == a && x[m..n] == b && x[n] == COLON && x[n + 1..] == c
  {
    var y := b + [COLON] + c;
    assert y[..|b|] == b && y[|b|] == COLON && y[|b| + 1..] == c;
    assert x[|a|..] == y;
    assert x[|a|..|a| + |b|] == x[|a|..][..|b|] && x[|a| + |b| + 1..] == x[|a|..][|b| + 1..];
  }

  /** "registry:", the id, a colon, the role. */
  lemma RegistryRoleSpells(r: nat, role: Str)
    ensures var id, n := Identifier(RegistryScope(r, role)), 9 + |Decimal(r)|;
      && |id| == n + 1 + |role| && id[..9] == [114, 101, 103, 105, 115, 116, 114, 121, 58]
      && Reading(id[9..n]) == r && id[n] == 58 && id[n + 1..] == role
  {
    DecimalReads(r);
    Parts(REGISTRY_TAG, Decimal(r), role, Identifier(RegistryScope(r, role)));
  }

  /** "record:", the id, a colon, the checksum in hex, a colon, the role in hex. */
  lemma RecordRoleSpells(r: nat, checksum: Str, role: Str)
    ensures var id, n := Identifier(RecordScope(r, checksum, role)), 7 + |Decimal(r)|;
      && |id| == n + 2 + 2 * |checksum| + 2 * |role| && id[..7] == [114, 101, 99, 111, 114, 100, 58]
      && Reading(id[7..n]) == r && id[n] == 58
      && id[n + 1..][..2 * |checksum|] == Hex(checksum) && id[n + 1..][2 * |checksum|] == 58
      && id[n + 1..][2 * |checksum| + 1..] == Hex(role)
  {
    var tail := Hex(checksum) + [COLON] + Hex(role);
    DecimalReads(r);
    Parts(RECORD_TAG, Decimal(r), tail, Identifier(RecordScope(r, checksum, role)));
    assert [] + tail == tail;
    Parts([], Hex(checksum), Hex(role), tail);
    assert tail[0..2 * |checksum|] == tail[..2 * |checksum|];
  }
}
