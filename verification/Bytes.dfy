/** Bytes, machine words and the host byte order (little-endian, as on x86-64). */
module Bytes {
  type byte = x: int | 0 <= x < 256
  type bytes = seq<byte>

  const TWO16 := 0x1_0000
  const TWO32 := 0x1_0000_0000
  const TWO63 := 0x8000_0000_0000_0000
  const TWO64 := 0x1_0000_0000_0000_0000

  type int64 = x: int | -TWO63 <= x < TWO63
  type uint32 = x: int | 0 <= x < TWO32
  type uint64 = x: int | 0 <= x < TWO64

  /** The conversion uint64_t -> int64_t (two's complement). */
  function ToSigned(x: uint64): (r: int64) {
    if x < TWO63 then x else x - TWO64
  }

  /** The conversion int64_t -> uint64_t. */
  function ToUnsigned(x: int64): (r: uint64) {
    if x < 0 then x + TWO64 else x
  }

  /** Both conversions keep the number modulo 2^64, which fixes them. */
  lemma ConversionsAre(x: uint64, y: int64)
    ensures ToSigned(x) % TWO64 == x && ToUnsigned(y) == y % TWO64
  {}

  /** `n++` on a uint64_t. */
  function Succ(n: uint64): (r: uint64) {
    (n + 1) % TWO64
  }

  function Pow256(n: nat): (p: nat)
    ensures p > 0
  {
    if n == 0 then 1 else 256 * Pow256(n - 1)
  }

  lemma Pow256Values()
    ensures Pow256(2) == TWO16 && Pow256(4) == 0x1_0000_0000 && Pow256(8) == TWO64
  {
    assert Pow256(4) == 0x1_0000_0000;
    assert Pow256(6) == 256 * Pow256(5) && Pow256(5) == 256 * Pow256(4);
    assert Pow256(8) == 256 * Pow256(7) && Pow256(7) == 256 * Pow256(6);
  }

  /** The n low bytes of v as the host keeps them in memory: least significant first. */
  function Store(v: int, n: nat): (s: bytes)
    ensures |s| == n
    decreases n
  {
    if n == 0 then [] else [v % 256] + Store(v / 256, n - 1)
  }

  /** The unsigned value the host reads from memory. */
  function Load(s: bytes): (r: nat) {
    if s == [] then 0 else s[0] + 256 * Load(s[1..])
  }

  function Reversed<T>(s: seq<T>): (r: seq<T>)
    ensures |r| == |s|
    ensures forall k :: 0 <= k < |s| ==> r[k] == s[|s| - 1 - k]
  {
    seq(|s|, k requires 0 <= k < |s| => s[|s| - 1 - k])
  }

  /** swap_endian_bytes<T> on values, for sizeof(T) == n. */
  function Swap(v: int, n: nat): (r: nat) {
    Load(Reversed(Store(v, n)))
  }

  /** Most significant byte first. */
  function BigEndian(v: int, n: nat): (s: bytes)
    ensures |s| == n
  {
    Reversed(Store(v, n))
  }

  /** The value of a string of base-256 digits, most significant first. */
  function BigEndianValue(s: bytes): (r: nat) {
    if s == [] then 0 else 256 * BigEndianValue(s[..|s| - 1]) + s[|s| - 1]
  }

  lemma ModStep(v: int, p: nat)
    requires p > 0
    ensures v % (256 * p) == v % 256 + 256 * ((v / 256) % p)
  {
    var q, r := v / 256, v % 256;
    var q', r' := q / p, q % p;
    assert v == 256 * (p * q' + r') + r;
    assert v == (256 * p) * q' + (256 * r' + r);
    assert 0 <= 256 * r' + r < 256 * p;
    DivModUnique(v, 256 * p, q', 256 * r' + r);
  }

  lemma DivModUnique(v: int, d: nat, q: int, r: int)
    requires d > 0 && 0 <= r < d && v == d * q + r
    ensures v / d == q && v % d == r
  {
    var k := v / d - q;
    assert d * k == r - v % d;
    SmallMultiple(d, k);
  }

  lemma SmallMultiple(d: nat, k: int)
    requires 0 < d * k + d && d * k < d
    ensures k == 0
  {}

  lemma {:induction false} LoadStore(v: int, n: nat)
    ensures Load(Store(v, n)) == v % Pow256(n)
    decreases n
  {
    if n > 0 {
      LoadStore(v / 256, n - 1);
      ModStep(v, Pow256(n - 1));
      assert Store(v, n)[1..] == Store(v / 256, n - 1);
    }
  }

  lemma HeadAndTail(b: byte, n: int)
    ensures (b + 256 * n) % 256 == b && (b + 256 * n) / 256 == n
  {}

  lemma {:induction false} StoreLoad(s: bytes)
    ensures Store(Load(s), |s|) == s
  {
    if s != [] {
      StoreLoad(s[1..]);
      HeadAndTail(s[0], Load(s[1..]));
      assert Store(Load(s), |s|) == [s[0]] + Store(Load(s[1..]), |s| - 1);
    }
  }

  lemma {:induction false} LoadReversed(s: bytes)
    ensures Load(Reversed(s)) == BigEndianValue(s)
  {
    if s != [] {
      LoadReversed(s[..|s| - 1]);
      assert Reversed(s)[1..] == Reversed(s[..|s| - 1]);
    }
  }

  /** Writing the swapped value with the host's own byte order gives network order. */
  lemma SwapThenStore(v: int, n: nat)
    ensures Store(Swap(v, n), n) == BigEndian(v, n)
  {
    StoreLoad(Reversed(Store(v, n)));
  }

  /** Reading with the host's byte order and swapping gives the network-order value. */
  lemma LoadThenSwap(s: bytes)
    ensures Swap(Load(s), |s|) == BigEndianValue(s)
  {
    StoreLoad(s);
    LoadReversed(s);
  }

  lemma BigEndianRoundTrip(v: int, n: nat)
    ensures BigEndianValue(BigEndian(v, n)) == v % Pow256(n)
  {
    LoadReversed(BigEndian(v, n));
    assert Reversed(BigEndian(v, n)) == Store(v, n);
    LoadStore(v, n);
  }

  lemma {:induction false} BigEndianBound(s: bytes)
    ensures BigEndianValue(s) < Pow256(|s|)
  {
    if s != [] {
      BigEndianBound(s[..|s| - 1]);
    }
  }

  /** Network order is positional: the value of a concatenation. */
  lemma {:induction false} BigEndianConcat(a: bytes, b: bytes)
    ensures BigEndianValue(a + b) == BigEndianValue(a) * Pow256(|b|) + BigEndianValue(b)
  {
    if b == [] {
      assert a + b == a;
    } else {
      var b' := b[..|b| - 1];
      BigEndianConcat(a, b');
      assert a + b == a + b' + [b[|b| - 1]];
      BigEndianSnoc(a + b', b[|b| - 1]);
      BigEndianSnoc(b', b[|b| - 1]);
      assert b == b' + [b[|b| - 1]];
      Reassociate(BigEndianValue(a), Pow256(|b'|));
    }
  }

  lemma BigEndianSnoc(s: bytes, last: byte)
    ensures BigEndianValue(s + [last]) == 256 * BigEndianValue(s) + last
  {
    assert (s + [last])[..|s|] == s;
  }

  lemma Reassociate(x: int, p: int)
    ensures 256 * (x * p) == x * (256 * p)
  {}

  /** The two length bytes that start every SoupBinTCP packet. */
  lemma TwoBytes(v: int, hi: byte, lo: byte)
    ensures BigEndian(v, 2) == [v / 256 % 256, v % 256]
    ensures BigEndianValue([hi, lo]) == 256 * hi + lo
  {
    assert Store(v, 2) == [v % 256] + ([v / 256 % 256] + Store(v / 256 / 256, 0));
    assert [hi, lo][..1] == [hi];
    assert [hi][..0] == [];
    assert BigEndianValue([hi]) == hi;
  }

  /** The loop shared by the three copies of swap_endian_bytes, on the bytes of the union. */
  method SwapEndianBytes(source: array<byte>) returns (dest: array<byte>)
    ensures fresh(dest) && dest[..] == Reversed(source[..])
    ensures Load(dest[..]) == Swap(Load(source[..]), source.Length)
  {
    dest := new byte[source.Length];
    var k := 0;
    while k < source.Length
      invariant 0 <= k <= source.Length
      invariant forall i :: 0 <= i < k ==> dest[i] == source[source.Length - i - 1]
    {
      dest[k] := source[source.Length - k - 1];
      k := k + 1;
    }
    StoreLoad(source[..]);
  }
}
