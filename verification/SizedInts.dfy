// Big-endian integers of 1, 2, 4, 8 or any other number of bytes, as the binary
// property list format stores them.
module SizedInts {

  type byte = x: int | 0 <= x < 256

  const UINT32_LIMIT: int := 0x1_0000_0000
  const UINT64_LIMIT: int := 0x1_0000_0000_0000_0000
  const LONG_MAX: int := 0x7FFF_FFFF_FFFF_FFFF

  function Pow256(n: nat): (p: nat)
    ensures p >= 1
  {
    if n == 0 then 1 else 256 * Pow256(n - 1)
  }

  function Min(a: int, b: int): int {
    if a <= b then a else b
  }

  // Where the i-th of equally long parts starts.
  function Slot(base: nat, i: nat, size: nat): (p: nat)
    ensures p == base + i * size
  {
    base + i * size
  }

  // The low n bytes of v, most significant first.
  function BigEndian(v: nat, n: nat): (s: seq<byte>)
    ensures |s| == n
  {
    if n == 0 then [] else BigEndian(v / 256, n - 1) + [v % 256]
  }

  // What reading the bytes of s into a uint64_t leaves: only the last 64 bits survive.
  function SizedInt(s: seq<byte>): (v: nat)
    ensures v < UINT64_LIMIT
  {
    if s == [] then 0 else (SizedInt(s[..|s| - 1]) * 256 + s[|s| - 1]) % UINT64_LIMIT
  }

  // What bytes are worth, the most significant first.
  function BigValue(s: seq<byte>): nat {
    if s == [] then 0 else s[0] * Pow256(|s| - 1) + BigValue(s[1..])
  }

  lemma {:induction false} BigValueSnoc(s: seq<byte>, b: byte)
    ensures BigValue(s + [b]) == BigValue(s) * 256 + b
    decreases |s|
  {
    if s == [] {
      assert s + [b] == [b] && [b][1..] == [];
    } else {
      var rest := s[1..];
      BigValueSnoc(rest, b);
      assert (s + [b])[1..] == rest + [b];
      assert s[0] * Pow256(|s|) == s[0] * Pow256(|s| - 1) * 256;
    }
  }

  // Reading keeps the low 64 bits of that.
  lemma {:induction false} SizedIntIs(s: seq<byte>)
    ensures SizedInt(s) == BigValue(s) % UINT64_LIMIT
    decreases |s|
  {
    if s != [] {
      var n := |s| - 1;
      assert s == s[..n] + [s[n]];
      SizedIntIs(s[..n]);
      BigValueSnoc(s[..n], s[n]);
      var v := BigValue(s[..n]);
      var q := v / UINT64_LIMIT;
      assert v == q * UINT64_LIMIT + v % UINT64_LIMIT;
      WrapEqual(v * 256 + s[n], v % UINT64_LIMIT * 256 + s[n], 256 * q);
    }
  }

  lemma {:induction false} BigValueBound(s: seq<byte>)
    ensures BigValue(s) < Pow256(|s|)
    decreases |s|
  {
    if s != [] {
      BigValueBound(s[1..]);
      var first: int := s[0];
      MulMonotone(first + 1, 256, Pow256(|s| - 1));
      assert (first + 1) * Pow256(|s| - 1) == first * Pow256(|s| - 1) + Pow256(|s| - 1);
    }
  }

  // Up to 8 bytes it is that.
  lemma ShortInt(s: seq<byte>)
    requires |s| <= 8
    ensures SizedInt(s) == BigValue(s)
  {
    Pow256Values();
    SizedIntIs(s);
    BigValueBound(s);
    Pow256Monotone(|s|, 8);
  }

  lemma {:induction false} BigEndianWorth(v: nat, n: nat)
    ensures BigValue(BigEndian(v, n)) == v % Pow256(n)
    decreases n
  {
    hide BigValue;
    if n == 0 {
      NothingWorth();
    } else {
      BigEndianWorth(v / 256, n - 1);
      BigValueSnoc(BigEndian(v / 256, n - 1), v % 256);
      ModStep(v, Pow256(n - 1));
    }
  }

  lemma NothingWorth()
    ensures BigValue([]) == 0
  {
  }

  // The reader's loop over the bytes, with the fast paths it takes on x86.
  method GetSizedInt(data: seq<byte>, start: nat, valSize: nat) returns (res: nat)
    requires start + valSize <= |data|
    ensures res == SizedInt(data[start..start + valSize])
  {
    if valSize == 1 {
      SizedIntPair(data[start], 0);
      assert data[start..start + 1] == [data[start]];
      return data[start];
    } else if valSize == 2 {
      SizedIntPair(data[start], data[start + 1]);
      assert data[start..start + 2] == [data[start], data[start + 1]];
      res := data[start];
      return res * 256 + data[start + 1];
    }
    res := 0;
    for idx := 0 to valSize
      invariant res == SizedInt(data[start..start + idx])
    {
      assert data[start..start + idx + 1] == data[start..start + idx] + [data[start + idx]];
      SizedIntSnoc(data[start..start + idx], data[start + idx]);
      res := (res * 256 + data[start + idx]) % UINT64_LIMIT;
    }
  }

  lemma SizedIntSnoc(s: seq<byte>, b: byte)
    ensures SizedInt(s + [b]) == (SizedInt(s) * 256 + b) % UINT64_LIMIT
  {
    assert (s + [b])[..|s|] == s;
  }

  lemma SizedIntPair(a: byte, b: byte)
    ensures SizedInt([a]) == a && SizedInt([a, b]) == a * 256 + b
  {
    SizedIntSnoc([], a);
    SizedIntSnoc([a], b);
    assert [] + [a] == [a] && [a] + [b] == [a, b];
  }

  lemma Pow256Values()
    ensures Pow256(1) == 256 && Pow256(2) == 65536 && Pow256(4) == UINT32_LIMIT && Pow256(8) == UINT64_LIMIT
  {
    assert Pow256(3) == 256 * Pow256(2);
    assert Pow256(5) == 256 * Pow256(4);
    assert Pow256(6) == 256 * Pow256(5);
    assert Pow256(7) == 256 * Pow256(6);
  }

  lemma {:induction false} Pow256Monotone(a: nat, b: nat)
    requires a <= b
    ensures Pow256(a) <= Pow256(b)
    decreases b
  {
    if a < b {
      Pow256Monotone(a, b - 1);
    }
  }

  // Splitting off the last byte of a remainder.
  lemma ModStep(v: nat, p: nat)
    requires p >= 1
    ensures v % (256 * p) == ((v / 256) % p) * 256 + v % 256
  {
    var q, r := v / 256, v % 256;
    var k, m := q / p, q % p;
    var w := 256 * m + r;
    assert q == k * p + m;
    assert v == k * (256 * p) + w by {
      assert 256 * q == 256 * (k * p) + 256 * m;
      assert 256 * (k * p) == k * (256 * p);
    }
    assert 0 <= w < 256 * p by {
      assert m + 1 <= p;
      assert 256 * (m + 1) <= 256 * p;
    }
    DivModUnique(v, 256 * p, k, w);
  }

  lemma DivModUnique(v: int, d: int, k: int, w: int)
    requires d > 0 && v == k * d + w && 0 <= w < d
    ensures v / d == k && v % d == w
  {
    var k', w' := v / d, v % d;
    assert (k - k') * d == w' - w;
    MulAtLeast(k - k', d);
  }

  lemma MulAtLeast(x: int, d: int)
    requires d > 0
    ensures x >= 1 ==> x * d >= d
    ensures x <= -1 ==> x * d <= -d
  {
    if x >= 1 {
      assert (x - 1) * d >= 0;
    } else if x <= -1 {
      assert (-1 - x) * d >= 0;
    }
  }

  lemma SizedIntStep(v: nat, n: nat)
    ensures SizedInt(BigEndian(v, 0)) == 0
    ensures n > 0 ==>
      SizedInt(BigEndian(v, n)) == (SizedInt(BigEndian(v / 256, n - 1)) * 256 + v % 256) % UINT64_LIMIT
  {
    if n > 0 {
      SizedIntSnoc(BigEndian(v / 256, n - 1), v % 256);
    }
  }

  // What is left of a value in up to 8 bytes and in more.
  lemma ShortStep(v: nat, n: nat, inner: nat)
    requires 0 < n <= 8 && inner == (v / 256) % Pow256(n - 1)
    ensures (inner * 256 + v % 256) % UINT64_LIMIT == v % Pow256(n)
  {
    Pow256Values();
    ModStep(v, Pow256(n - 1));
    Pow256Monotone(n, 8);
    DivModUnique(v % Pow256(n), UINT64_LIMIT, 0, v % Pow256(n));
  }

  lemma LongStep(v: nat, inner: nat)
    requires inner == (v / 256) % UINT64_LIMIT
    ensures (inner * 256 + v % 256) % UINT64_LIMIT == v % UINT64_LIMIT
  {
    var k := v / 256 / UINT64_LIMIT;
    assert v / 256 == k * UINT64_LIMIT + inner;
    WrapEqual(v, inner * 256 + v % 256, 256 * k);
  }

  // Reading back what was written gives the value as far as both the byte count
  // and the 64-bit accumulator can hold it.
  lemma {:induction false} SizedIntOfBigEndian(v: nat, n: nat)
    ensures SizedInt(BigEndian(v, n)) == v % Pow256(Min(n, 8))
  {
    hide SizedInt, BigEndian;
    SizedIntStep(v, n);
    if n > 0 {
      Pow256Values();
      SizedIntOfBigEndian(v / 256, n - 1);
      if n <= 8 {
        ShortStep(v, n, SizedInt(BigEndian(v / 256, n - 1)));
      } else {
        LongStep(v, SizedInt(BigEndian(v / 256, n - 1)));
      }
    }
  }

  lemma MulMonotone(a: int, b: int, c: nat)
    requires a <= b
    ensures a * c <= b * c
  {
    assert (b - a) * c >= 0;
  }

  lemma WrapEqual(a: int, b: int, k: int)
    requires a == b + k * UINT64_LIMIT
    ensures a % UINT64_LIMIT == b % UINT64_LIMIT
  {
    DivModUnique(a, UINT64_LIMIT, b / UINT64_LIMIT + k, b % UINT64_LIMIT);
  }

  lemma SizedIntRoundTrip(v: nat, n: nat)
    requires n <= 8 && v < Pow256(n)
    ensures SizedInt(BigEndian(v, n)) == v
  {
    SizedIntOfBigEndian(v, n);
    DivModUnique(v, Pow256(n), 0, v);
  }

  // The least of 1, 2, 4 and 8 bytes that holds the count.  The mask of the source is
  // 2^64 - 256^size, so a bit of count lies under it exactly when count / 256^size is not 0.
  method ByteCount(count: nat) returns (size: nat)
    requires count < UINT64_LIMIT
    ensures size == CountSize(count)
  {
    Pow256Values();
    size := 0;
    while count / Pow256(size) != 0
      invariant size <= 8
      invariant size > 0 ==> Pow256(size - 1) <= count
      decreases 8 - size
    {
      QuotientZero(count, Pow256(size));
      size := size + 1;
    }
    QuotientZero(count, Pow256(size));
    Pow256Order(count, size);
    while size != 1 && size != 2 && size != 4 && size != 8 && size <= 8
      invariant 0 <= size <= 8
      invariant count < Pow256(size)
      invariant size <= CountSize(count)
      decreases 8 - size
    {
      size := size + 1;
    }
    if size == 2 || size == 4 || size == 8 {
      CountSizeFits(count);
    }
  }

  lemma QuotientZero(a: nat, d: nat)
    requires 0 < d
    ensures a / d == 0 <==> a < d
  {
    if a < d {
      DivModUnique(a, d, 0, a);
    }
  }

  lemma Pow256Order(count: nat, size: nat)
    requires size <= 8 && count < Pow256(size)
    requires size > 0 ==> Pow256(size - 1) <= count
    ensures size <= CountSize(count)
  {
    Pow256Values();
    if size > 1 { Pow256Monotone(1, size - 1); }
    if size > 2 { Pow256Monotone(2, size - 1); }
    if size > 4 { Pow256Monotone(4, size - 1); }
  }

  function CountSize(count: nat): (size: nat) {
    if count < 0x100 then 1
    else if count < 0x1_0000 then 2
    else if count < UINT32_LIMIT then 4
    else 8
  }

  lemma CountSizeFits(count: nat)
    requires count < UINT64_LIMIT
    ensures count < Pow256(CountSize(count))
    ensures forall size :: size in {1, 2, 4, 8} && count < Pow256(size) ==> CountSize(count) <= size
  {
    Pow256Values();
  }
}
