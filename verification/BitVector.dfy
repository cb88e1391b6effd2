// A vector of bits in buckets of eight, the first bit of a bucket highest, and the mapper that
// rewrites a range of bits a bucket at a time.
module BitVector {

  const BITS: nat := 8

  // The bit of a bucket, counted from the left.
  function BitMask(i: nat): bv8
    requires i < BITS
  {
    match i
    case 0 => 0x80 case 1 => 0x40 case 2 => 0x20 case 3 => 0x10
    case 4 => 0x08 case 5 => 0x04 case 6 => 0x02 case 7 => 0x01
  }

  predicate Bit(b: bv8, i: nat)
    requires i < BITS
  {
    b & BitMask(i) != 0
  }

  // Ones from the bottom bit to the top bit.
  function BucketMask(bottom: nat, top: nat): bv8
    requires bottom <= top < BITS
  {
    ((0xFF as bv8) << (BITS - top + bottom - 1)) >> bottom
  }

  lemma ShiftLeft(n: nat, i: nat)
    requires n < BITS && i < BITS
    ensures Bit((0xFF as bv8) << n, i) <==> i + n < BITS
  {
    match n
    case 0 => case 1 => case 2 => case 3 => case 4 => case 5 => case 6 => case 7 =>
  }

  lemma ShiftRight(b: bv8, n: nat, i: nat)
    requires n < BITS && i < BITS
    ensures Bit(b >> n, i) <==> n <= i && Bit(b, i - n)
  {
    match n
    case 0 => case 1 => case 2 => case 3 => case 4 => case 5 => case 6 => case 7 =>
  }

  lemma MaskBits(bottom: nat, top: nat, i: nat)
    requires bottom <= top < BITS && i < BITS
    ensures Bit(BucketMask(bottom, top), i) <==> bottom <= i <= top
  {
    var left := (0xFF as bv8) << (BITS - top + bottom - 1);
    ShiftRight(left, bottom, i);
    if bottom <= i {
      ShiftLeft(BITS - top + bottom - 1, i - bottom);
    }
  }

  // New bits under the mask, old ones elsewhere.
  function Merged(old8: bv8, new8: bv8, mask: bv8): bv8 {
    (old8 & !mask) | (new8 & mask)
  }

  lemma MergeAt(old8: bv8, new8: bv8, mask: bv8, one: bv8)
    requires one & (one - 1) == 0
    ensures Merged(old8, new8, mask) & one == if mask & one != 0 then new8 & one else old8 & one
  {
  }

  lemma OneBit(i: nat)
    requires i < BITS
    ensures BitMask(i) & (BitMask(i) - 1) == 0 && BitMask(i) != 0
  {
  }

  lemma MergeBits(old8: bv8, new8: bv8, mask: bv8, i: nat)
    requires i < BITS
    ensures Bit(Merged(old8, new8, mask), i) == if Bit(mask, i) then Bit(new8, i) else Bit(old8, i)
  {
    hide BitMask, Merged;
    OneBit(i);
    MergeAt(old8, new8, mask, BitMask(i));
  }

  // ---------- mappers ----------

  datatype Mapper = ZeroBits | OneBits | FlipBits | CountBits(value: bool)

  function Mapped(m: Mapper, b: bv8): bv8 {
    match m
    case ZeroBits => 0
    case OneBits => 0xFF
    case FlipBits => 0xFF ^ b
    case CountBits(_) => b
  }

  // What a mapper does to one bit.
  predicate MappedBit(m: Mapper, bit: bool) {
    match m
    case ZeroBits => false
    case OneBits => true
    case FlipBits => !bit
    case CountBits(_) => bit
  }

  lemma MappedBits(m: Mapper, b: bv8, i: nat)
    requires i < BITS
    ensures Bit(Mapped(m, b), i) == MappedBit(m, Bit(b, i))
  {
    hide BitMask;
    OneBit(i);
    MappedAt(m, b, BitMask(i));
  }

  lemma MappedAt(m: Mapper, b: bv8, one: bv8)
    requires one & (one - 1) == 0 && one != 0
    ensures (Mapped(m, b) & one != 0) == MappedBit(m, b & one != 0)
  {
  }

  function NibbleBitCount(n: bv8): nat {
    if n == 0 then 0
    else if n == 1 || n == 2 || n == 4 || n == 8 then 1
    else if n == 7 || n == 11 || n == 13 || n == 14 then 3
    else if n == 15 then 4
    else 2
  }

  function One(bit: bool): nat {
    if bit then 1 else 0
  }

  // The bits of a bucket that are set.
  function Ones(b: bv8): nat {
    One(Bit(b, 0)) + One(Bit(b, 1)) + One(Bit(b, 2)) + One(Bit(b, 3))
      + One(Bit(b, 4)) + One(Bit(b, 5)) + One(Bit(b, 6)) + One(Bit(b, 7))
  }

  lemma Nibble(n: bv8)
    requires n < 16
    ensures NibbleBitCount(n) == One(n & 8 != 0) + One(n & 4 != 0) + One(n & 2 != 0) + One(n & 1 != 0)
  {
  }

  lemma HighNibble(b: bv8)
    ensures b & 0xF < 16 && (b >> 4) & 0xF < 16
    ensures (b & 0xF) & 8 == b & 8 && (b & 0xF) & 4 == b & 4 && (b & 0xF) & 2 == b & 2 && (b & 0xF) & 1 == b & 1
    ensures (((b >> 4) & 0xF) & 8 != 0 <==> b & 0x80 != 0) && (((b >> 4) & 0xF) & 4 != 0 <==> b & 0x40 != 0)
    ensures (((b >> 4) & 0xF) & 2 != 0 <==> b & 0x20 != 0) && (((b >> 4) & 0xF) & 1 != 0 <==> b & 0x10 != 0)
  {
  }

  // Ones for the bits under the mask that have the value.
  function Masked(b: bv8, mask: bv8, value: bool): bv8 {
    if value then b & mask else !b & mask
  }

  // The nibble table counts the bits of a bucket.
  method CountBitsOf(bucket: bv8, mask: bv8, value: bool) returns (count: nat)
    ensures count == Ones(Masked(bucket, mask, value))
  {
    hide NibbleBitCount;
    var val := if value then bucket & mask else !bucket & mask;
    ghost var all := val;
    HighNibble(all);
    Nibble(all & 0xF);
    Nibble((all >> 4) & 0xF);
    count := NibbleBitCount(val & 0xF);
    val := val >> 4;
    count := count + NibbleBitCount(val & 0xF);
  }

  // ---------- bits of a string of buckets ----------

  predicate BitAt(bs: seq<bv8>, i: nat)
    requires i < BITS * |bs|
  {
    Bit(bs[i / BITS], i % BITS)
  }

  // The first n bits.
  function BitsOf(bs: seq<bv8>, n: nat): (s: seq<bool>)
    requires n <= BITS * |bs|
    ensures |s| == n
  {
    seq(n, i requires 0 <= i < n => BitAt(bs, i))
  }

  // The bits from the location to the end have been mapped, and no others have changed.
  ghost predicate Rewritten(was: seq<bv8>, now: seq<bv8>, location: nat, end: nat, m: Mapper) {
    && |now| == |was|
    && (forall i :: 0 <= i < BITS * |was| ==>
          BitAt(now, i) == if location <= i < end then MappedBit(m, BitAt(was, i)) else BitAt(was, i))
  }

  // The same for one bucket whose first bit has the number given.
  ghost predicate BucketRewritten(was: bv8, now: bv8, first: nat, location: nat, end: nat, m: Mapper) {
    forall j :: 0 <= j < BITS ==>
      Bit(now, j) == if location <= first + j < end then MappedBit(m, Bit(was, j)) else Bit(was, j)
  }

  // The buckets before the one given are done, and the others are as they were.
  ghost predicate RewrittenUpTo(was: seq<bv8>, now: seq<bv8>, location: nat, end: nat, m: Mapper, b: nat) {
    && |now| == |was| && b <= |was|
    && (forall k :: 0 <= k < b ==> BucketRewritten(was[k], now[k], BITS * k, location, end, m))
    && (forall k :: b <= k < |was| ==> now[k] == was[k])
  }

  lemma NoneRewritten(was: seq<bv8>, location: nat, end: nat, m: Mapper)
    requires location < BITS * |was|
    ensures RewrittenUpTo(was, was, location, end, m, location / BITS)
  {
  }

  lemma AllRewritten(was: seq<bv8>, now: seq<bv8>, location: nat, end: nat, m: Mapper, b: nat)
    requires RewrittenUpTo(was, now, location, end, m, b) && end <= BITS * b
    ensures Rewritten(was, now, location, end, m)
  {
    hide Bit, MappedBit;
    forall i | 0 <= i < BITS * |was|
      ensures BitAt(now, i) == if location <= i < end then MappedBit(m, BitAt(was, i)) else BitAt(was, i)
    {
      if i / BITS < b {
        assert BucketRewritten(was[i / BITS], now[i / BITS], BITS * (i / BITS), location, end, m);
      }
    }
  }

  // The bits with the given value from the location to the end.
  function Occurrences(bs: seq<bv8>, location: nat, end: nat, value: bool): nat
    requires end <= BITS * |bs|
  {
    if end <= location then 0
    else Occurrences(bs, location, end - 1, value) + One(BitAt(bs, end - 1) == value)
  }

  function OnesBelow(b: bv8, n: nat): nat
    requires n <= BITS
  {
    if n == 0 then 0 else OnesBelow(b, n - 1) + One(Bit(b, n - 1))
  }

  lemma OnesAre(b: bv8)
    ensures Ones(b) == OnesBelow(b, BITS)
  {
    hide Bit;
    assert OnesBelow(b, 1) == OnesBelow(b, 0) + One(Bit(b, 0));
    assert OnesBelow(b, 2) == One(Bit(b, 0)) + One(Bit(b, 1));
    assert OnesBelow(b, 3) == OnesBelow(b, 2) + One(Bit(b, 2));
    assert OnesBelow(b, 4) == OnesBelow(b, 3) + One(Bit(b, 3));
    assert OnesBelow(b, 5) == OnesBelow(b, 4) + One(Bit(b, 4));
    assert OnesBelow(b, 6) == OnesBelow(b, 5) + One(Bit(b, 5));
    assert OnesBelow(b, 7) == OnesBelow(b, 6) + One(Bit(b, 6));
  }

  // v has ones for the bits with the value among those from bottom to top of bucket k.
  ghost predicate Marks(bs: seq<bv8>, k: nat, bottom: nat, top: nat, value: bool, v: bv8)
    requires k < |bs|
  {
    forall j :: 0 <= j < BITS ==> (Bit(v, j) <==> bottom <= j <= top && Bit(bs[k], j) == value)
  }

  lemma {:induction false} MarksCount(bs: seq<bv8>, location: nat, k: nat, bottom: nat, top: nat, value: bool,
                                      v: bv8, n: nat)
    requires k < |bs| && bottom <= top < BITS && location <= BITS * k + bottom && Marks(bs, k, bottom, top, value, v)
    requires n <= BITS
    ensures n <= bottom ==> OnesBelow(v, n) == 0
    ensures bottom <= n <= top + 1 ==>
      Occurrences(bs, location, BITS * k + n, value) ==
        Occurrences(bs, location, BITS * k + bottom, value) + OnesBelow(v, n)
    ensures n > top ==>
      Occurrences(bs, location, BITS * k + top + 1, value)
        == Occurrences(bs, location, BITS * k + bottom, value) + OnesBelow(v, n)
  {
    hide Bit;
    if n > 0 {
      MarksCount(bs, location, k, bottom, top, value, v, n - 1);
      var i := BITS * k + n - 1;
      assert i / BITS == k && i % BITS == n - 1;
    }
  }

  class BitVector {
    var buckets: array<bv8>
    var count: nat
    var capacity: nat

    ghost predicate Valid()
      reads this
    {
      count <= capacity && buckets.Length == capacity / BITS + 1
    }

    ghost function Bits(): (s: seq<bool>)
      reads this, buckets
      requires Valid()
      ensures |s| == count
    {
      BitsOf(buckets[..], count)
    }

    constructor ()
      ensures Valid() && Bits() == [] && fresh(buckets)
    {
      capacity := RoundUpCapacity(0);
      buckets := new bv8[RoundUpCapacity(0) / BITS + 1];
      count := 0;
    }

    // Maps some bits of one bucket.
    method MapPart(b: nat, bottom: nat, top: nat, mapper: Mapper) returns (occurs: nat)
      requires b < buckets.Length && bottom <= top < BITS
      modifies buckets
      ensures forall k :: 0 <= k < buckets.Length && k != b ==> buckets[k] == old(buckets[k])
      ensures BucketRewritten(old(buckets[b]), buckets[b], BITS * b, BITS * b + bottom, BITS * b + top + 1, mapper)
      ensures mapper.CountBits? ==> exists v ::
        Marks(old(buckets[..]), b, bottom, top, mapper.value, v) && occurs == Ones(v)
    {
      hide Bit, BucketMask, Ones, Mapped, MappedBit, BucketRewritten, Masked, Merged;
      var was := buckets[b];
      var mask := BucketMask(bottom, top);
      PartRewritten(was, bottom, top, mapper, BITS * b);
      occurs := 0;
      if mapper.CountBits? {
        occurs := CountBitsOf(was, mask, mapper.value);
        MaskedMarks(buckets[..], b, bottom, top, mapper.value);
      }
      var newBucketVal := Mapped(mapper, was);
      buckets[b] := Merged(was, newBucketVal, mask);
    }

    // Maps all bits of one bucket.
    method MapWhole(b: nat, mapper: Mapper) returns (occurs: nat)
      requires b < buckets.Length
      modifies buckets
      ensures forall k :: 0 <= k < buckets.Length && k != b ==> buckets[k] == old(buckets[k])
      ensures BucketRewritten(old(buckets[b]), buckets[b], BITS * b, BITS * b, BITS * b + BITS, mapper)
      ensures mapper.CountBits? ==> exists v ::
        Marks(old(buckets[..]), b, 0, BITS - 1, mapper.value, v) && occurs == Ones(v)
    {
      hide Bit, BucketMask, Ones, Mapped;
      var was := buckets[b];
      occurs := 0;
      if mapper.CountBits? {
        FullMask();
        occurs := CountBitsOf(was, 0xFF, mapper.value);
        MaskedMarks(buckets[..], b, 0, BITS - 1, mapper.value);
      }
      buckets[b] := Mapped(mapper, was);
      forall j | 0 <= j < BITS ensures Bit(buckets[b], j) == MappedBit(mapper, Bit(was, j)) {
        MappedBits(mapper, was, j);
      }
    }

    // Maps the bits from bottom to top of one more bucket, and adds what they count.
    method MapNext(b: nat, bottom: nat, top: nat, mapper: Mapper, ghost was: seq<bv8>, ghost location: nat,
                   ghost end: nat, ghost occurs: nat) returns (n: nat)
      requires RewrittenUpTo(was, buckets[..], location, end, mapper, b) && b < |was| == buckets.Length
      requires bottom <= top < BITS && location <= BITS * b + bottom && (bottom > 0 ==> location == BITS * b + bottom)
      requires BITS * b + top + 1 <= end <= BITS * |was| && (top < BITS - 1 ==> end == BITS * b + top + 1)
      requires mapper.CountBits? ==> occurs == Occurrences(was, location, BITS * b + bottom, mapper.value)
      modifies buckets
      ensures RewrittenUpTo(was, buckets[..], location, end, mapper, b + 1)
      ensures Counted(was, location, end, mapper, b + 1, occurs + n)
    {
      hide Bit, Ones, RewrittenUpTo, BucketRewritten, Marks, Occurrences, Counted;
      ghost var before := buckets[..];
      n := MapPart(b, bottom, top, mapper);
      SteppedBits(was, before, buckets[..], location, end, mapper, b, bottom, top);
      SteppedCount(was, before, location, end, mapper, b, bottom, top, occurs, n);
    }

    method MapNextWhole(b: nat, mapper: Mapper, ghost was: seq<bv8>, ghost location: nat, ghost end: nat,
                        ghost occurs: nat)
      returns (n: nat)
      requires RewrittenUpTo(was, buckets[..], location, end, mapper, b) && b < |was| == buckets.Length
      requires location <= BITS * b && BITS * b + BITS <= end <= BITS * |was|
      requires mapper.CountBits? ==> occurs == Occurrences(was, location, BITS * b, mapper.value)
      modifies buckets
      ensures RewrittenUpTo(was, buckets[..], location, end, mapper, b + 1)
      ensures Counted(was, location, end, mapper, b + 1, occurs + n)
    {
      hide Bit, Ones, RewrittenUpTo, BucketRewritten, Marks, Occurrences, Counted;
      ghost var before := buckets[..];
      n := MapWhole(b, mapper);
      WholeIsPart(before[b], buckets[b], b, mapper);
      SteppedBits(was, before, buckets[..], location, end, mapper, b, 0, BITS - 1);
      SteppedCount(was, before, location, end, mapper, b, 0, BITS - 1, occurs, n);
    }

    // Ramps up to a bucket boundary, goes along whole buckets, and ramps down in the last one.
    method InternalMap(location: nat, length: nat, mapper: Mapper) returns (occurs: nat)
      requires location + length <= BITS * buckets.Length
      modifies buckets
      ensures Rewritten(old(buckets[..]), buckets[..], location, location + length, mapper)
      ensures mapper.CountBits? ==>
        occurs == Occurrences(old(buckets[..]), location, location + length, mapper.value)
    {
      hide Bit, Ones, Rewritten, RewrittenUpTo, Occurrences;
      ghost var was, end := buckets[..], location + length;
      occurs := 0;
      NothingMapped(was, location, mapper);
      if 0 == length {
        return;
      }
      var bucketIdx, bitOfBucket, rest := location / BITS, location % BITS, length;
      NoneRewritten(was, location, end, mapper);
      NothingMapped(was, BITS * bucketIdx + bitOfBucket, mapper);
      if bitOfBucket + rest < BITS {
        occurs := MapNext(bucketIdx, bitOfBucket, bitOfBucket + rest - 1, mapper, was, location, end, 0);
        rest := 0;
      } else {
        occurs := MapNext(bucketIdx, bitOfBucket, BITS - 1, mapper, was, location, end, 0);
        rest := rest - (BITS - bitOfBucket);
      }
      bucketIdx := bucketIdx + 1;
      var nBuckets := rest / BITS;
      rest := rest - nBuckets * BITS;
      while nBuckets > 0
        invariant 0 <= bucketIdx <= |was| && RewrittenUpTo(was, buckets[..], location, end, mapper, bucketIdx)
        invariant location <= BITS * bucketIdx && rest < BITS
        invariant if BITS * bucketIdx <= end then BITS * bucketIdx + BITS * nBuckets + rest == end
                  else nBuckets == 0 && rest == 0
        invariant Counted(was, location, end, mapper, bucketIdx, occurs)
      {
        var n := MapNextWhole(bucketIdx, mapper, was, location, end, occurs);
        occurs := occurs + n;
        bucketIdx := bucketIdx + 1;
        nBuckets := nBuckets - 1;
      }
      if 0 != rest {
        var n := MapNext(bucketIdx, 0, rest - 1, mapper, was, location, end, occurs);
        occurs := occurs + n;
        bucketIdx := bucketIdx + 1;
      }
      AllRewritten(was, buckets[..], location, end, mapper, bucketIdx);
    }

    method MapBits(location: nat, length: nat, mapper: Mapper)
      requires Valid() && location + length <= count
      modifies buckets
      ensures Valid() && Bits() == MapRange(old(Bits()), location, length, mapper)
    {
      hide BitAt;
      var occurs := InternalMap(location, length, mapper);
    }

    method SetBits(location: nat, length: nat, value: bool)
      requires Valid() && location + length <= count
      modifies buckets
      ensures Valid() && |Bits()| == |old(Bits())|
      ensures forall i :: 0 <= i < count ==>
        Bits()[i] == if location <= i < location + length then value else old(Bits()[i])
    {
      if length == 0 {
        return;
      }
      if value {
        MapBits(location, length, OneBits);
      } else {
        MapBits(location, length, ZeroBits);
      }
    }

    method FlipBits(location: nat, length: nat)
      requires Valid() && location + length <= count
      modifies buckets
      ensures Valid() && |Bits()| == |old(Bits())|
      ensures forall i :: 0 <= i < count ==>
        Bits()[i] == if location <= i < location + length then !old(Bits()[i]) else old(Bits()[i])
    {
      if length == 0 {
        return;
      }
      MapBits(location, length, Mapper.FlipBits);
    }

    // How many bits of a range have the value; none is changed.
    method GetCountOfBit(location: nat, length: nat, value: bool) returns (n: nat)
      requires Valid() && location + length <= count
      modifies buckets
      ensures Valid() && Bits() == old(Bits())
      ensures n == |set i | location <= i < location + length && Bits()[i] == value|
    {
      hide BitAt;
      ghost var was := buckets[..];
      n := InternalMap(location, length, CountBits(value));
      Counting(was, location, location + length, value, count);
      assert Bits() == BitsOf(was, count);
    }

    // Whole buckets are filled at once, and what is left over is mapped.
    method SetAllBits(value: bool)
      requires Valid()
      modifies buckets
      ensures Valid() && forall i :: 0 <= i < count ==> Bits()[i] == value
    {
      var nBuckets := count / BITS;
      var leftover := count - nBuckets * BITS;
      if 0 < leftover {
        SetBits(nBuckets * BITS, leftover, value);
      }
      ghost var was := buckets[..];
      var filled: bv8 := if value then 0xFF else 0;
      forall i | 0 <= i < nBuckets {
        buckets[i] := filled;
      }
      forall i | 0 <= i < count ensures Bits()[i] == value {
        FilledBits(value, i % BITS);
        assert i >= nBuckets * BITS ==> BitsOf(was, count)[i] == value;
      }
    }

    method Grow(numNewValues: nat)
      requires Valid()
      modifies this`buckets, this`capacity
      ensures Valid() && count + numNewValues <= capacity && fresh(buckets) && Bits() == old(Bits())
    {
      hide BitAt;
      capacity := RoundUpCapacity(count + numNewValues);
      var moved := new bv8[capacity / BITS + 1];
      ghost var was := buckets[..];
      forall i | 0 <= i < moved.Length && i < buckets.Length {
        moved[i] := buckets[i];
      }
      SameBuckets(was, moved[..], count);
      buckets := moved;
    }

    // Keeps the bits there are room for, and makes new ones zero.
    method SetCount(newCount: nat)
      requires Valid()
      modifies this, buckets
      ensures Valid() && count == newCount && (buckets == old(buckets) || fresh(buckets))
      ensures forall i :: 0 <= i < newCount ==> Bits()[i] == (i < old(count) && old(Bits())[i])
    {
      hide BitAt;
      var cnt := count;
      if cnt < newCount {
        Grow(newCount - cnt);
        var occurs := InternalMap(cnt, newCount - cnt, ZeroBits);
      }
      count := newCount;
    }
  }

  // A range of bits mapped one by one.
  function MapRange(bits: seq<bool>, location: nat, length: nat, m: Mapper): (s: seq<bool>)
    requires location + length <= |bits|
    ensures |s| == |bits|
  {
    seq(|bits|, i requires 0 <= i < |bits| =>
      if location <= i < location + length then MappedBit(m, bits[i]) else bits[i])
  }

  lemma FlipTwice(bits: seq<bool>, location: nat, length: nat)
    requires location + length <= |bits|
    ensures MapRange(MapRange(bits, location, length, FlipBits), location, length, FlipBits) == bits
  {
  }

  lemma FilledBits(value: bool, j: nat)
    requires j < BITS
    ensures Bit(if value then 0xFF else 0, j) == value
  {
  }

  lemma SameBuckets(was: seq<bv8>, now: seq<bv8>, n: nat)
    requires n <= BITS * |was| && n <= BITS * |now|
    requires forall i :: 0 <= i < |was| && i < |now| ==> now[i] == was[i]
    ensures BitsOf(now, n) == BitsOf(was, n)
  {
    hide Bit;
  }

  // The count by recursion is the number of places with the value.
  lemma {:induction false} Counting(bs: seq<bv8>, location: nat, end: nat, value: bool, n: nat)
    requires location <= end <= n <= BITS * |bs|
    ensures Occurrences(bs, location, end, value) == |set i | location <= i < end && BitsOf(bs, n)[i] == value|
  {
    hide Bit, BitAt;
    var here := set i | location <= i < end && BitsOf(bs, n)[i] == value;
    if location < end {
      Counting(bs, location, end - 1, value, n);
      var before := set i | location <= i < end - 1 && BitsOf(bs, n)[i] == value;
      assert here == if BitsOf(bs, n)[end - 1] == value then before + {end - 1} else before;
    } else {
      assert here == {};
    }
  }

  // What has been counted in the buckets before the one given.
  ghost predicate Counted(was: seq<bv8>, location: nat, end: nat, m: Mapper, b: nat, occurs: nat)
    requires end <= BITS * |was| && b <= |was|
  {
    m.CountBits? ==> occurs == Occurrences(was, location, if end < BITS * b then end else BITS * b, m.value)
  }

  lemma NothingMapped(was: seq<bv8>, location: nat, m: Mapper)
    requires location <= BITS * |was|
    ensures Rewritten(was, was, location, location, m)
    ensures m.CountBits? ==> Occurrences(was, location, location, m.value) == 0
  {
  }

  lemma WholeIsPart(was: bv8, now: bv8, b: nat, m: Mapper)
    requires BucketRewritten(was, now, BITS * b, BITS * b, BITS * b + BITS, m)
    ensures BucketRewritten(was, now, BITS * b, BITS * b, BITS * b + (BITS - 1) + 1, m)
  {
  }

  // The least multiple of 64 that is enough, and 64 for none.
  function RoundUpCapacity(capacity: nat): (r: nat)
    ensures capacity <= r && r % 64 == 0 && 64 <= r < 64 + if capacity == 0 then 1 else capacity
  {
    ((if capacity == 0 then 1 else capacity) + 63) / 64 * 64
  }

  lemma FullMask()
    ensures BucketMask(0, BITS - 1) == 0xFF
  {
  }

  // Masking the bucket, or its complement, marks the bits with the value.
  lemma MaskedMarks(bs: seq<bv8>, k: nat, bottom: nat, top: nat, value: bool)
    requires k < |bs| && bottom <= top < BITS
    ensures Marks(bs, k, bottom, top, value, Masked(bs[k], BucketMask(bottom, top), value))
  {
    hide BucketMask, BitMask, Masked;
    var mask := BucketMask(bottom, top);
    forall j | 0 <= j < BITS
      ensures Bit(Masked(bs[k], mask, value), j) <==> bottom <= j <= top && Bit(bs[k], j) == value
    {
      MaskBits(bottom, top, j);
      OneBit(j);
      MaskedAt(bs[k], mask, value, BitMask(j));
    }
  }

  lemma MaskedAt(b: bv8, mask: bv8, value: bool, one: bv8)
    requires one & (one - 1) == 0 && one != 0
    ensures Masked(b, mask, value) & one != 0 <==> (b & one != 0) == value && mask & one != 0
  {
  }

  // Merging what was mapped rewrites the bits under the mask.
  lemma PartRewritten(was: bv8, bottom: nat, top: nat, m: Mapper, first: nat)
    requires bottom <= top < BITS
    ensures var mask := BucketMask(bottom, top);
      BucketRewritten(was, Merged(was, Mapped(m, was), mask), first, first + bottom, first + top + 1, m)
  {
    hide Bit, BucketMask, Mapped, MappedBit, Merged;
    var mask := BucketMask(bottom, top);
    forall j | 0 <= j < BITS ensures Bit(Merged(was, Mapped(m, was), mask), j)
      == if first + bottom <= first + j < first + top + 1 then MappedBit(m, Bit(was, j)) else Bit(was, j)
    {
      MaskBits(bottom, top, j);
      MergeBits(was, Mapped(m, was), mask, j);
      MappedBits(m, was, j);
    }
  }

  // One more bucket has been mapped, from the bottom bit to the top bit.
  lemma SteppedBits(was: seq<bv8>, before: seq<bv8>, after: seq<bv8>, location: nat, end: nat, m: Mapper,
                    b: nat, bottom: nat, top: nat)
    requires RewrittenUpTo(was, before, location, end, m, b) && b < |was| == |after| == |before| && bottom <= top < BITS
    requires forall k :: 0 <= k < |after| && k != b ==> after[k] == before[k]
    requires BucketRewritten(before[b], after[b], BITS * b, BITS * b + bottom, BITS * b + top + 1, m)
    requires location <= BITS * b + bottom && (bottom > 0 ==> location == BITS * b + bottom)
    requires BITS * b + top + 1 <= end && (top < BITS - 1 ==> end == BITS * b + top + 1)
    ensures RewrittenUpTo(was, after, location, end, m, b + 1)
  {
    SameBits(before[b], after[b], location, end, m, b, bottom, top);
    hide BucketRewritten;
  }

  lemma SameBits(was: bv8, now: bv8, location: nat, end: nat, m: Mapper, b: nat, bottom: nat, top: nat)
    requires bottom <= top < BITS
    requires BucketRewritten(was, now, BITS * b, BITS * b + bottom, BITS * b + top + 1, m)
    requires location <= BITS * b + bottom && (bottom > 0 ==> location == BITS * b + bottom)
    requires BITS * b + top + 1 <= end && (top < BITS - 1 ==> end == BITS * b + top + 1)
    ensures BucketRewritten(was, now, BITS * b, location, end, m)
  {
    hide Bit, MappedBit;
  }

  lemma SteppedCount(was: seq<bv8>, before: seq<bv8>, location: nat, end: nat, m: Mapper,
                     b: nat, bottom: nat, top: nat, occurs: nat, n: nat)
    requires RewrittenUpTo(was, before, location, end, m, b) && b < |was| == |before| && bottom <= top < BITS
    requires location <= BITS * b + bottom && (bottom > 0 ==> location == BITS * b + bottom)
    requires BITS * b + top + 1 <= end <= BITS * |was| && (top < BITS - 1 ==> end == BITS * b + top + 1)
    requires m.CountBits? ==> exists v :: Marks(before, b, bottom, top, m.value, v) && n == Ones(v)
    requires m.CountBits? ==> occurs == Occurrences(was, location, BITS * b + bottom, m.value)
    ensures Counted(was, location, end, m, b + 1, occurs + n)
  {
    hide Bit, Ones, Occurrences;
    if m.CountBits? {
      var v :| Marks(before, b, bottom, top, m.value, v) && n == Ones(v);
      assert Marks(was, b, bottom, top, m.value, v);
      MarksCount(was, location, b, bottom, top, m.value, v, BITS);
      OnesAre(v);
    }
  }
}
