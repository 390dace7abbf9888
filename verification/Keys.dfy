/** The keys under which the database files blocks: four-byte numbers, 32-byte hashes, and the two
    joined. Numbers and hashes share one column, so their keys must never meet.
  */
module Keys {
  import opened ChainTree

  type Byte = b: int | 0 <= b < 256
  type Bytes = seq<Byte>

  const U32_MAX: nat := 0xFFFF_FFFF

  /** The big-endian bytes of `n`, `len` of them. */
  function BigEndian(n: nat, len: nat): (bs: Bytes)
    ensures |bs| == len
    decreases len
  {
    if len == 0 then [] else BigEndian(n / 256, len - 1) + [n % 256]
  }

  /** The number that big-endian bytes stand for. */
  function FromBigEndian(bs: Bytes): nat {
    if bs == [] then 0 else 256 * FromBigEndian(bs[..|bs| - 1]) + bs[|bs| - 1]
  }

  function Pow256(len: nat): nat {
    if len == 0 then 1 else 256 * Pow256(len - 1)
  }

  lemma {:induction false} BigEndianRoundTrip(n: nat, len: nat)
    requires n < Pow256(len)
    ensures FromBigEndian(BigEndian(n, len)) == n
    decreases len
  {
    if len > 0 {
      BigEndianRoundTrip(n / 256, len - 1);
      var front := BigEndian(n / 256, len - 1);
      assert BigEndian(n, len)[..len - 1] == front;
    }
  }

  lemma {:induction false} Pow256Adds(a: nat, b: nat)
    ensures Pow256(a + b) == Pow256(a) * Pow256(b)
  {
    if a > 0 {
      Pow256Adds(a - 1, b);
      Associates(256, Pow256(a - 1), Pow256(b));
    }
  }

  lemma Associates(x: nat, y: nat, z: nat)
    ensures x * (y * z) == (x * y) * z
  {
  }

  lemma Pow256Of32()
    ensures Pow256(4) == 0x1_0000_0000
    ensures Pow256(32) == 0x1_0000_0000_0000_0000_0000_0000_0000_0000_0000_0000_0000_0000_0000_0000_0000_0000
  {
    assert Pow256(1) == 256;
    assert Pow256(2) == 0x1_0000;
    Pow256Adds(2, 2);
    Pow256Adds(4, 4);
    Pow256Adds(8, 8);
    Pow256Adds(16, 16);
  }

  // ------------------------------------------------------------ the key functions

  /** `number_index_key`: refused for numbers that do not fit 32 bits. */
  function NumberIndexKey(n: nat): Option<Bytes> {
    if n > U32_MAX then None
    else Some([n / 0x100_0000, (n / 0x1_0000) % 256, (n / 0x100) % 256, n % 256])
  }

  function HashKey(h: Hash): Bytes { BigEndian(h, 32) }

  /** `number_and_hash_to_lookup_key`. */
  function LookupKey(n: nat, h: Hash): Option<Bytes> {
    match NumberIndexKey(n)
    case None => None
    case Some(key) => Some(key + HashKey(h))
  }

  /** `lookup_key_to_number`. */
  function LookupKeyToNumber(key: Bytes): Option<nat> {
    if |key| < 4 then None
    else Some(key[0] as int * 0x100_0000 + key[1] as int * 0x1_0000 + key[2] as int * 0x100 + key[3] as int)
  }

  /** `cht_key`: the kind of CHT, then the number. */
  function ChtKey(kind: Byte, n: nat): Option<Bytes> {
    match NumberIndexKey(n)
    case None => None
    case Some(key) => Some([kind] + key)
  }

  // ------------------------------------------------------------ what they promise

  lemma FourDigits(n: nat)
    ensures n == (n / 0x100_0000) * 0x100_0000 + ((n / 0x1_0000) % 256) * 0x1_0000 + ((n / 0x100) % 256) * 0x100
      + n % 256
  {
    var q1 := n / 0x100;
    var q2 := q1 / 0x100;
    assert n == 0x100 * q1 + n % 0x100;
    assert q1 == 0x100 * q2 + q1 % 0x100;
    assert q2 == 0x100 * (q2 / 0x100) + q2 % 0x100;
    assert n / 0x1_0000 == q2;
    assert n / 0x100_0000 == q2 / 0x100;
  }

  /** A number key decodes back, also at the front of a lookup key. */
  lemma NumberDecodes(n: nat, rest: Bytes)
    requires n <= U32_MAX
    ensures LookupKeyToNumber(NumberIndexKey(n).value + rest) == Some(n)
  {
    FourDigits(n);
    var key := NumberIndexKey(n).value + rest;
    assert key[0] == n / 0x100_0000 && key[1] == (n / 0x1_0000) % 256 && key[2] == (n / 0x100) % 256
      && key[3] == n % 256;
  }

  /** The keys of numbers that fit. */
  function NumKey(n: nat): Bytes
    requires n <= U32_MAX
  {
    NumberIndexKey(n).value
  }

  function LongKey(n: nat, h: Hash): Bytes
    requires n <= U32_MAX
  {
    LookupKey(n, h).value
  }

  lemma NumberKeysDiffer(n: nat, m: nat)
    requires n <= U32_MAX && m <= U32_MAX && NumKey(n) == NumKey(m)
    ensures n == m
  {
    NumberDecodes(n, []);
    NumberDecodes(m, []);
  }

  /** A number has a key exactly when it fits 32 bits; the parts of the keys stand at fixed places. */
  lemma KeyShapes(n: nat, h: Hash, kind: Byte)
    ensures NumberIndexKey(n).Some? <==> n < 0x1_0000_0000
    ensures LookupKey(n, h).Some? <==> n < 0x1_0000_0000
    ensures ChtKey(kind, n).Some? <==> n < 0x1_0000_0000
    ensures |HashKey(h)| == 32
    ensures n < 0x1_0000_0000 ==>
      && |NumberIndexKey(n).value| == 4
      && LookupKey(n, h).value[..4] == NumberIndexKey(n).value && LookupKey(n, h).value[4..] == HashKey(h)
      && ChtKey(kind, n).value[0] == kind && ChtKey(kind, n).value[1..] == NumberIndexKey(n).value
  {
    if n < 0x1_0000_0000 {
      assert LookupKey(n, h).value[..4] == NumberIndexKey(n).value && LookupKey(n, h).value[4..] == HashKey(h);
    }
  }

  /** A number can be read from every key of at least four bytes, and from no shorter one. */
  lemma ShortKeysHaveNoNumber(key: Bytes)
    ensures LookupKeyToNumber(key).Some? <==> |key| >= 4
    ensures |key| >= 4 ==> LookupKeyToNumber(key) == LookupKeyToNumber(key[..4])
  {
  }

  /** The first byte in which two keys differ orders them. */
  ghost predicate Before(a: Bytes, b: Bytes) {
    exists i | 0 <= i < |a| && i < |b| :: a[..i] == b[..i] && a[i] < b[i]
  }

  /** Number keys sort like their numbers. */
  lemma NumberKeysInOrder(n: nat, m: nat)
    requires n < m <= U32_MAX
    ensures Before(NumKey(n), NumKey(m))
  {
    FourDigits(n);
    FourDigits(m);
    var a, b := NumKey(n), NumKey(m);
    var i := if a[0] != b[0] then 0 else if a[1] != b[1] then 1 else if a[2] != b[2] then 2 else 3;
    assert a[..i] == b[..i];
    FirstDigitDecides(n, m, a[0] as int, a[1] as int, a[2] as int, a[3] as int,
                      b[0] as int, b[1] as int, b[2] as int, b[3] as int);
    assert a[i] < b[i];
  }

  lemma FirstDigitDecides(n: nat, m: nat, a: nat, b: nat, c: nat, d: nat, x: nat, y: nat, z: nat, w: nat)
    requires n == a * 0x100_0000 + b * 0x1_0000 + c * 0x100 + d && m == x * 0x100_0000 + y * 0x1_0000 + z * 0x100 + w
    requires b < 256 && c < 256 && d < 256 && y < 256 && z < 256 && w < 256 && n < m
    ensures a <= x && (a == x ==> b <= y) && (a == x && b == y ==> c <= z) && (a == x && b == y && c == z ==> d < w)
  {
  }

  /** CHT keys tell both the kind and the number apart. */
  lemma ChtKeysDiffer(kind: Byte, n: nat, other: Byte, m: nat)
    requires ChtKey(kind, n).Some? && ChtKey(kind, n) == ChtKey(other, m)
    ensures kind == other && n == m
  {
    var a, b := ChtKey(kind, n).value, ChtKey(other, m).value;
    assert a[0] == kind && b[0] == other;
    assert a[1..] == NumKey(n) && b[1..] == NumKey(m);
    NumberKeysDiffer(n, m);
  }

  lemma HashKeysDiffer(h: Hash, k: Hash)
    requires HashKey(h) == HashKey(k)
    ensures h == k
  {
    Pow256Of32();
    BigEndianRoundTrip(h, 32);
    BigEndianRoundTrip(k, 32);
  }

  lemma LongKeysDiffer(n: nat, h: Hash, m: nat, k: Hash)
    requires n <= U32_MAX && m <= U32_MAX && LongKey(n, h) == LongKey(m, k)
    ensures n == m && h == k
  {
    var a, b := LongKey(n, h), LongKey(m, k);
    NumberDecodes(n, HashKey(h));
    NumberDecodes(m, HashKey(k));
    assert a[4..] == HashKey(h) && b[4..] == HashKey(k);
    HashKeysDiffer(h, k);
  }

  /** All the separations at once, in the form in which the database's columns need them. */
  lemma KeysSeparate()
    ensures forall n: nat, m: nat | n <= U32_MAX && m <= U32_MAX && NumKey(n) == NumKey(m) :: n == m
    ensures forall h: Hash, k: Hash | HashKey(h) == HashKey(k) :: h == k
    ensures forall n: nat, h: Hash | n <= U32_MAX :: NumKey(n) != HashKey(h)
    ensures forall n: nat, h: Hash, m: nat, k: Hash | n <= U32_MAX && m <= U32_MAX && LongKey(n, h) == LongKey(m, k) ::
              n == m && h == k
  {
    forall n: nat, m: nat | n <= U32_MAX && m <= U32_MAX && NumKey(n) == NumKey(m) ensures n == m {
      NumberKeysDiffer(n, m);
    }
    forall h: Hash, k: Hash | HashKey(h) == HashKey(k) ensures h == k { HashKeysDiffer(h, k); }
    forall n: nat, h: Hash, m: nat, k: Hash | n <= U32_MAX && m <= U32_MAX && LongKey(n, h) == LongKey(m, k)
      ensures n == m && h == k
    {
      LongKeysDiffer(n, h, m, k);
    }
    forall n: nat, h: Hash | n <= U32_MAX ensures NumKey(n) != HashKey(h) {
      assert |NumKey(n)| == 4 && |HashKey(h)| == 32;
    }
  }
}
