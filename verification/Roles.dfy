/** Role identifiers: the strings whose keccak hash names a role. */
module Roles {
  import opened Bytes
  import opened Types

  /** What a role is about: a whole registry, or one checksum inside it. */
  datatype Scope =
    | RegistryScope(registry: nat, role: Str)
    | RecordScope(registry: nat, checksum: Str, role: Str)

  const COLON: byte := 58
  /** "registry:" */
  const REGISTRY_TAG: Str := [114, 101, 103, 105, 115, 116, 114, 121, 58]
  /** "record:" */
  const RECORD_TAG: Str := [114, 101, 99, 111, 114, 100, 58]
  /** "admin" */
  const ADMIN: Str := [97, 100, 109, 105, 110]
  /** "editor" */
  const EDITOR: Str := [101, 100, 105, 116, 111, 114]

  /** fmt's %d. */
  function Decimal(n: nat): (d: Str)
    ensures d != [] && COLON !in d
  {
    if n < 10 then [48 + n] else Decimal(n / 10) + [48 + n % 10]
  }

  function HexDigit(n: nat): (d: byte)
    requires n < 16
    ensures d != COLON
  {
    if n < 10 then 48 + n else 87 + n
  }

  /** fmt's %x of a string. */
  function Hex(s: Str): (h: Str)
    ensures COLON !in h && |h| == 2 * |s|
  {
    if s == [] then [] else [HexDigit(s[0] / 16), HexDigit(s[0] % 16)] + Hex(s[1..])
  }

  /** RegistryRole and RecordRole before hashing. */
  function Identifier(scope: Scope): Str {
    match scope
    case RegistryScope(r, role) => REGISTRY_TAG + (Decimal(r) + [COLON] + role)
    case RecordScope(r, c, role) => RECORD_TAG + (Decimal(r) + [COLON] + (Hex(c) + [COLON] + Hex(role)))
  }

  function RoleOf(env: Env, scope: Scope): Role {
    env.keccak(Identifier(scope))
  }

  lemma {:induction false} DecimalInjective(m: nat, n: nat)
    requires Decimal(m) == Decimal(n)
    ensures m == n
  {
    var d := Decimal(m);
    if m >= 10 && n >= 10 {
      assert Decimal(m / 10) == d[..|d| - 1] == Decimal(n / 10);
      DecimalInjective(m / 10, n / 10);
      assert d[|d| - 1] == 48 + m % 10 == 48 + n % 10;
    }
  }

  lemma {:induction false} HexInjective(a: Str, b: Str)
    requires Hex(a) == Hex(b)
    ensures a == b
  {
    if a != [] && b != [] {
      assert Hex(a)[0] == Hex(b)[0] && Hex(a)[1] == Hex(b)[1];
      assert a[0] / 16 == b[0] / 16 && a[0] % 16 == b[0] % 16;
      assert Hex(a)[2..] == Hex(a[1..]) && Hex(b)[2..] == Hex(b[1..]);
      HexInjective(a[1..], b[1..]);
      assert a == [a[0]] + a[1..] && b == [b[0]] + b[1..];
    }
  }

  /** A string is cut at its first colon in one way only. */
  lemma CutAtColon(a: Str, b: Str, c: Str, d: Str)
    requires COLON !in a && COLON !in c
    requires a + [COLON] + b == c + [COLON] + d
    ensures a == c && b == d
  {
    var x, y := a + [COLON] + b, c + [COLON] + d;
    assert x[|a|] == COLON && y[|c|] == COLON;
    assert |a| == |c|;
    assert a == x[..|a|] && c == y[..|c|];
    assert b == x[|a| + 1..] && d == y[|c| + 1..];
  }

  lemma SameTail(t: Str, a: Str, b: Str)
    requires t + a == t + b
    ensures a == b
  {
    assert a == (t + a)[|t|..] && b == (t + b)[|t|..];
  }

  /** Two scopes never share an identifier, whatever bytes checksum and role hold. */
  lemma IdentifierInjective(s: Scope, t: Scope)
    requires Identifier(s) == Identifier(t)
    ensures s == t
  {
    assert Identifier(s)[2] == (if s.RegistryScope? then 103 else 99);
    assert Identifier(t)[2] == (if t.RegistryScope? then 103 else 99);
    if s.RegistryScope? {
      SameTail(REGISTRY_TAG, Decimal(s.registry) + [COLON] + s.role, Decimal(t.registry) + [COLON] + t.role);
      CutAtColon(Decimal(s.registry), s.role, Decimal(t.registry), t.role);
      DecimalInjective(s.registry, t.registry);
    } else {
      var x, y := Hex(s.checksum) + [COLON] + Hex(s.role), Hex(t.checksum) + [COLON] + Hex(t.role);
      SameTail(RECORD_TAG, Decimal(s.registry) + [COLON] + x, Decimal(t.registry) + [COLON] + y);
      CutAtColon(Decimal(s.registry), x, Decimal(t.registry), y);
      DecimalInjective(s.registry, t.registry);
      CutAtColon(Hex(s.checksum), Hex(s.role), Hex(t.checksum), Hex(t.role));
      HexInjective(s.checksum, t.checksum);
      HexInjective(s.role, t.role);
    }
  }

  /** keccak does not collide on the identifiers of these scopes. */
  ghost predicate CollisionFree(env: Env, scopes: set<Scope>) {
    forall s, t :: s in scopes && t in scopes && env.keccak(Identifier(s)) == env.keccak(Identifier(t))
                   ==> Identifier(s) == Identifier(t)
  }

  lemma RoleDeterminesScope(env: Env, scopes: set<Scope>, s: Scope, t: Scope)
    requires CollisionFree(env, scopes) && s in scopes && t in scopes
    requires RoleOf(env, s) == RoleOf(env, t)
    ensures s == t
  {
    IdentifierInjective(s, t);
  }
}
