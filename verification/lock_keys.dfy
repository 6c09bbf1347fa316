/**
 Advisory lock keys: the 64-bit FNV-1a hash of a tenant id, taken over its UTF-16 code units, and its
 two signed halves.
 */
module LockKeys {
  import opened Utf16

  const MODULUS: nat := 0x1_0000_0000_0000_0000
  const HALF: nat := 0x1_0000_0000
  const PRIME: nat := 0x100000001b3
  const INVERSE: nat := 0xce965057aff6957b
  const OFFSET_BASIS: nat := 0xcbf29ce484222325

  // Bitwise exclusive or.
  function Xor(a: nat, b: nat): nat
    decreases a + b
  {
    if a == 0 && b == 0 then 0 else 2 * Xor(a / 2, b / 2) + if a % 2 != b % 2 then 1 else 0
  }

  function Turn(hash: nat, c: Unit): nat {
    Xor(hash, c as nat) * PRIME % MODULUS
  }

  function HashFrom(hash: nat, s: seq<Unit>): nat
    decreases |s|
  {
    if s == [] then hash else HashFrom(Turn(hash, s[0]), s[1..])
  }

  // "101:" before the tenant id
  const NAMESPACE: seq<Unit> := [49, 48, 49, 58]

  function Hash(tenantId: seq<Unit>): nat {
    HashFrom(OFFSET_BASIS, NAMESPACE + tenantId)
  }

  function AsInt32(n: nat): int {
    var low := n % HALF;
    if low >= 0x8000_0000 then low - HALF else low
  }

  method HashTenantLockKey(tenantId: seq<Unit>) returns (hash: nat)
    ensures hash == Hash(tenantId)
  {
    hide Xor;
    var input := NAMESPACE + tenantId;
    hash := OFFSET_BASIS;
    ghost var rest := input;
    var index := 0;
    while index < |input|
      invariant 0 <= index <= |input| && rest == input[index..]
      invariant HashFrom(hash, rest) == HashFrom(OFFSET_BASIS, input)
    {
      assert rest[0] == input[index] && rest[1..] == input[index + 1..];
      hash := Xor(hash, input[index] as nat);
      hash := hash * PRIME % MODULUS;
      index, rest := index + 1, rest[1..];
    }
  }

  method CreateTenantLockKeys(tenantId: seq<Unit>) returns (high: int, low: int)
    ensures high == AsInt32(Hash(tenantId) / HALF) && low == AsInt32(Hash(tenantId) % HALF)
  {
    var hash := HashTenantLockKey(tenantId);
    return AsInt32(hash / HALF), AsInt32(hash % HALF);
  }

  // ------------------------------------------------------------------------------------------

  lemma {:induction false} XorInvolution(a: nat, b: nat)
    ensures Xor(Xor(a, b), b) == a
    decreases a + b
  {
    if a != 0 || b != 0 {
      XorInvolution(a / 2, b / 2);
      var x := Xor(a, b);
      assert x / 2 == Xor(a / 2, b / 2) && x % 2 == if a % 2 != b % 2 then 1 else 0;
    }
  }

  lemma {:induction false} XorCommutes(a: nat, b: nat)
    ensures Xor(a, b) == Xor(b, a)
    decreases a + b
  {
    if a != 0 || b != 0 {
      XorCommutes(a / 2, b / 2);
    }
  }

  function Power(k: nat): nat {
    if k == 0 then 1 else 2 * Power(k - 1)
  }

  lemma {:induction false} XorBounded(a: nat, b: nat, k: nat)
    requires a < Power(k) && b < Power(k)
    ensures Xor(a, b) < Power(k)
  {
    if k > 0 {
      XorBounded(a / 2, b / 2, k - 1);
    }
  }

  lemma Power64()
    ensures Power(64) == MODULUS
  {
    assert Power(8) == 0x100;
    PowerTwice(8);
    PowerTwice(16);
    PowerTwice(32);
  }

  lemma PowerTwice(k: nat)
    ensures Power(2 * k) == Power(k) * Power(k)
  {
    PowerSum(k, k);
  }

  lemma {:induction false} PowerSum(j: nat, k: nat)
    ensures Power(j + k) == Power(j) * Power(k)
  {
    if j > 0 {
      PowerSum(j - 1, k);
      Twice(Power(j - 1), Power(k));
      assert j + k - 1 == (j - 1) + k;
    }
  }

  lemma Twice(a: nat, b: nat)
    ensures 2 * (a * b) == (2 * a) * b
  {
  }

  lemma TimesInverse(x: nat, y: nat)
    requires x * PRIME % MODULUS == y && x < MODULUS
    ensures x == y * INVERSE % MODULUS
  {
    var k := x * PRIME / MODULUS;
    assert PRIME * INVERSE == 887285111055 * MODULUS + 1;
    assert x * PRIME == k * MODULUS + y;
    assert x * PRIME * INVERSE == x * (PRIME * INVERSE) == x * 887285111055 * MODULUS + x;
    assert (k * MODULUS + y) * INVERSE == (k * INVERSE) * MODULUS + y * INVERSE;
    Multiples(y * INVERSE, x * 887285111055 - k * INVERSE, x);
  }

  lemma Multiples(n: int, q: int, r: int)
    requires n == q * MODULUS + r && 0 <= r < MODULUS
    ensures n % MODULUS == r
  {
  }

  // A turn of the hash keeps 64 bits and loses nothing of the state, nor of the character.
  lemma TurnInjective(g: nat, h: nat, c: Unit, d: Unit)
    requires g < MODULUS && h < MODULUS
    ensures Turn(g, c) < MODULUS
    ensures Turn(g, c) == Turn(h, c) ==> g == h
    ensures Turn(g, c) == Turn(g, d) ==> c == d
  {
    Power64();
    XorBounded(g, c as nat, 64);
    XorBounded(h, c as nat, 64);
    XorBounded(g, d as nat, 64);
    TimesInverse(Xor(g, c as nat), Turn(g, c));
    TimesInverse(Xor(h, c as nat), Turn(h, c));
    TimesInverse(Xor(g, d as nat), Turn(g, d));
    XorInvolution(g, c as nat);
    XorInvolution(h, c as nat);
    XorCommutes(g, c as nat);
    XorCommutes(g, d as nat);
    XorInvolution(c as nat, g);
    XorInvolution(d as nat, g);
  }

  lemma {:induction false} HashBounded(hash: nat, s: seq<Unit>)
    requires hash < MODULUS
    ensures HashFrom(hash, s) < MODULUS
    decreases |s|
  {
    hide Turn;
    if s != [] {
      TurnInjective(hash, hash, s[0], s[0]);
      HashBounded(Turn(hash, s[0]), s[1..]);
    }
  }

  lemma {:induction false} HashInjective(g: nat, h: nat, s: seq<Unit>)
    requires g < MODULUS && h < MODULUS && HashFrom(g, s) == HashFrom(h, s)
    ensures g == h
    decreases |s|
  {
    hide Turn;
    if s != [] {
      TurnInjective(g, h, s[0], s[0]);
      TurnInjective(h, g, s[0], s[0]);
      HashInjective(Turn(g, s[0]), Turn(h, s[0]), s[1..]);
    }
  }

  lemma {:induction false} HashConcat(hash: nat, s: seq<Unit>, t: seq<Unit>)
    ensures HashFrom(hash, s + t) == HashFrom(HashFrom(hash, s), t)
    decreases |s|
  {
    hide Turn;
    if s == [] {
      assert s + t == t;
    } else {
      assert (s + t)[1..] == s[1..] + t;
      HashConcat(Turn(hash, s[0]), s[1..], t);
    }
  }

  lemma HashOfParts(pre: seq<Unit>, c: Unit, post: seq<Unit>)
    ensures Hash(pre + [c] + post) == HashFrom(Turn(HashFrom(OFFSET_BASIS, NAMESPACE + pre), c), post)
  {
    assert NAMESPACE + (pre + [c] + post) == (NAMESPACE + pre) + ([c] + post);
    HashConcat(OFFSET_BASIS, NAMESPACE + pre, [c] + post);
    HashConcat(HashFrom(OFFSET_BASIS, NAMESPACE + pre), [c], post);
    assert [c][1..] == [];
  }

  // The two signed halves make up the hash again.
  lemma HalvesRecombine(hash: nat)
    requires hash < MODULUS
    ensures var high, low := AsInt32(hash / HALF), AsInt32(hash % HALF);
      && -0x8000_0000 <= high < 0x8000_0000 && -0x8000_0000 <= low < 0x8000_0000
      && (high % HALF) * HALF + low % HALF == hash
  {
    var top, bottom := hash / HALF, hash % HALF;
    assert 0 <= top < HALF;
    SignedHalf(top);
    SignedHalf(bottom);
  }

  lemma SignedHalf(n: nat)
    requires n < HALF
    ensures AsInt32(n) % HALF == n && -0x8000_0000 <= AsInt32(n) < 0x8000_0000
  {
  }

  function Keys(tenantId: seq<Unit>): (int, int) {
    (AsInt32(Hash(tenantId) / HALF), AsInt32(Hash(tenantId) % HALF))
  }

  // Tenants share a lock exactly when their hashes agree.
  lemma KeysAgreeWithHash(a: seq<Unit>, b: seq<Unit>)
    ensures Keys(a) == Keys(b) <==> Hash(a) == Hash(b)
  {
    HashBounded(OFFSET_BASIS, NAMESPACE + a);
    HashBounded(OFFSET_BASIS, NAMESPACE + b);
    HalvesRecombine(Hash(a));
    HalvesRecombine(Hash(b));
  }

  // Ids of one length that differ in exactly one code unit never share a lock.
  lemma OneUnitApart(pre: seq<Unit>, c: Unit, d: Unit, post: seq<Unit>)
    requires c != d
    ensures Keys(pre + [c] + post) != Keys(pre + [d] + post)
  {
    KeysAgreeWithHash(pre + [c] + post, pre + [d] + post);
    HashOfParts(pre, c, post);
    HashOfParts(pre, d, post);
    var hash := HashFrom(OFFSET_BASIS, NAMESPACE + pre);
    HashBounded(OFFSET_BASIS, NAMESPACE + pre);
    TurnInjective(hash, hash, c, d);
    TurnInjective(hash, hash, d, c);
    if Hash(pre + [c] + post) == Hash(pre + [d] + post) {
      HashInjective(Turn(hash, c), Turn(hash, d), post);
    }
  }

  // A tenant shares the fleet lock, whose key is (0, 1), only if it hashes to 1.
  lemma FleetKey(tenantId: seq<Unit>)
    ensures Keys(tenantId) == (0, 1) <==> Hash(tenantId) == 1
  {
    hide HashFrom, AsInt32;
    HashBounded(OFFSET_BASIS, NAMESPACE + tenantId);
    HalvesOfOne(Hash(tenantId));
  }

  lemma HalvesOfOne(hash: nat)
    requires hash < MODULUS
    ensures (AsInt32(hash / HALF), AsInt32(hash % HALF)) == (0, 1) <==> hash == 1
  {
    HalvesRecombine(hash);
  }
}
