// The format in literal bytes: what each first byte is read as, what each object is written as, and
// where the numbers of the trailer are.
module PlistBytes {
  import opened SizedInts
  import opened PlistObjects
  import opened PlistFormat
  import opened PlistParse
  import opened PlistLayout

  // ---------- the trailer ----------

  // The last 32 bytes of a file: six bytes that are not used, two sizes of one byte, and three numbers
  // of eight bytes.
  predicate EndsWith(data: seq<byte>, intSize: byte, refSize: byte, numObjects: nat, topObject: nat, tableOffset: nat) {
    && |data| >= 32
    && var p := |data| - 32;
    && data[p + 6] == intSize && data[p + 7] == refSize
    && BigValue(data[p + 8..p + 16]) == numObjects
    && BigValue(data[p + 16..p + 24]) == topObject
    && BigValue(data[p + 24..p + 32]) == tableOffset
  }

  // These are the numbers that the reader takes.
  lemma TrailerIs(data: seq<byte>, intSize: byte, refSize: byte, num: nat, top: nat, off: nat)
    requires |data| >= 32
    ensures EndsWith(data, intSize, refSize, num, top, off) <==>
      TrailerOf(data) == Trailer(intSize, refSize, num, top, off)
  {
    var p := |data| - 32;
    ShortInt(data[p + 8..p + 16]);
    ShortInt(data[p + 16..p + 24]);
    ShortInt(data[p + 24..p + 32]);
  }

  // Whatever numbers are put there are found.
  lemma TrailerNumbers(rest: seq<byte>, six: seq<byte>, intSize: byte, refSize: byte, num: nat, top: nat, off: nat)
    requires |six| == 6 && num < UINT64_LIMIT && top < UINT64_LIMIT && off < UINT64_LIMIT
    ensures var data :=
        rest + six + [intSize, refSize] + BigEndian(num, 8) + BigEndian(top, 8) + BigEndian(off, 8);
      |data| == |rest| + 32 && TrailerOf(data) == Trailer(intSize, refSize, num, top, off)
  {
    hide BigEndian, BigValue, TrailerOf, Pow256;
    var head := six + [intSize, refSize];
    var a, b, c := BigEndian(num, 8), BigEndian(top, 8), BigEndian(off, 8);
    Worth8(num);
    Worth8(top);
    Worth8(off);
    Tail(rest, head, a, b, c);
    assert rest + six + [intSize, refSize] == rest + head;
    TrailerIs(rest + head + a + b + c, intSize, refSize, num, top, off);
  }

  lemma Worth8(v: nat)
    requires v < UINT64_LIMIT
    ensures BigValue(BigEndian(v, 8)) == v
  {
    hide BigEndian, BigValue;
    Pow256Values();
    BigEndianWorth(v, 8);
  }

  lemma Tail(rest: seq<byte>, head: seq<byte>, a: seq<byte>, b: seq<byte>, c: seq<byte>)
    requires |head| == |a| == |b| == |c| == 8
    ensures var data, p := rest + head + a + b + c, |rest|;
      && data[p + 6] == head[6] && data[p + 7] == head[7]
      && data[p + 8..p + 16] == a && data[p + 16..p + 24] == b && data[p + 24..p + 32] == c
  {
  }

  // n bytes of a file from p on.
  function Part(data: seq<byte>, p: nat, n: nat): seq<byte> {
    if p + n <= |data| then data[p..p + n] else []
  }

  // The offset of the i-th object is the i-th number of the table.
  lemma EntryIs(data: seq<byte>, t: Trailer, i: nat)
    requires Layout(data, t) && i < t.numObjects
    ensures TableEntry(data, t, i) == BigValue(Part(data, Slot(t.tableOffset, i, t.intSize), t.intSize)) % UINT64_LIMIT
  {
    hide BigValue, SizedInt;
    EntryInside(data, t, i);
    SizedIntIs(Part(data, Slot(t.tableOffset, i, t.intSize), t.intSize));
  }

  // A file that is accepted begins with "bplist0".
  lemma AcceptedBegins(data: seq<byte>)
    requires Accepted(data)
    ensures data[..7] == [0x62, 0x70, 0x6C, 0x69, 0x73, 0x74, 0x30]
  {
  }

  // ---------- reading ----------

  // How many bytes an integer object has, by the low half of its first byte.
  const SIZES: seq<nat> :=
    [1, 2, 4, 8, 16, 32, 64, 128, 256, 512, 1024, 2048, 4096, 8192, 16384, 32768]

  lemma SizesAre(n: nat)
    requires n < 16
    ensures ShiftLeft1(n) == SIZES[n]
  {
    assert ShiftLeft1(4) == 16;
    assert ShiftLeft1(8) == 16 * ShiftLeft1(4);
    assert ShiftLeft1(12) == 16 * ShiftLeft1(8);
  }

  // The object at off has this count, and its contents start there: the low half of its first byte is
  // the count, or 15 with an integer object after it.  Of sizes from 256 on nothing is read.
  predicate HasCount(data: seq<byte>, end: nat, off: nat, count: nat, start: nat)
    requires off < end <= |data|
  {
    if data[off] % 16 != 15 then count == data[off] % 16 && start == off + 1
    else
      && off + 1 < end && 0x10 <= data[off + 1] <= 0x1F
      && var size := SIZES[data[off + 1] - 0x10];
      && start == off + 2 + size <= end && count <= LONG_MAX
      && count == if size < 256 then BigValue(data[off + 2..start]) % UINT64_LIMIT else 0
  }

  lemma CountIs(data: seq<byte>, end: nat, off: nat, count: nat, start: nat)
    requires off < end <= |data|
    ensures ReadCount(data, end, off) == Some((count, start)) <==> HasCount(data, end, off, count, start)
  {
    hide SizedInt, BigValue, ShiftLeft1, ReadInt;
    if data[off] % 16 == 15 {
      IntIs(data, end, off + 1);
    }
  }

  lemma IntIs(data: seq<byte>, end: nat, p: nat)
    requires p <= end <= |data|
    ensures ReadInt(data, end, p) ==
      if p < end && 0x10 <= data[p] <= 0x1F && p + 1 + SIZES[data[p] - 0x10] <= end then
        var size := SIZES[data[p] - 0x10];
        Some((if size < 256 then BigValue(data[p + 1..p + 1 + size]) % UINT64_LIMIT else 0, p + 1 + size))
      else None
  {
    hide SizedInt, BigValue, ShiftLeft1;
    if p < end && 0x10 <= data[p] <= 0x1F {
      SizesAre(data[p] - 0x10);
      var size := SIZES[data[p] - 0x10];
      if p + 1 + size <= end {
        SizesCut(data[p] - 0x10);
        SizedIntIs(data[p + 1..p + 1 + size % 256]);
        NothingWorth();
        assert data[p + 1..p + 1 + 0] == [];
      }
    }
  }

  lemma SizesCut(n: nat)
    requires n < 16
    ensures SIZES[n] % 256 == if SIZES[n] < 256 then SIZES[n] else 0
  {
  }

  // And those after the first byte of an object.
  function After(data: seq<byte>, off: nat, n: nat): seq<byte> {
    Part(data, off + 1, n)
  }

  lemma TableInside(data: seq<byte>, t: Trailer)
    requires Layout(data, t)
    ensures t.tableOffset <= |data| && t.refSize >= 1 && t.tableOffset <= LONG_MAX
  {
  }

  // First bytes from 0x00 to 0x0F: constants.
  lemma ConstantReadAs(data: seq<byte>, t: Trailer, off: nat)
    requires Layout(data, t) && 8 <= off < t.tableOffset
    ensures var b, p := data[off], ParseAt(data, t, off);
      && (b == 0x00 ==> p == Leaf(PNull))
      && (b == 0x08 ==> p == Leaf(PBool(false)))
      && (b == 0x09 ==> p == Leaf(PBool(true)))
      && (b < 0x10 && b !in {0x00, 0x08, 0x09} ==> p == Corrupt)
  {
    hide ReadCount, ParseCounted, ShiftLeft1, SizedInt;
  }

  // From 0x10 to 0x1F: integers of up to 16 bytes, signed when they have 8, and of 16 the low 8.
  lemma IntegerReadAs(data: seq<byte>, t: Trailer, off: nat)
    requires Layout(data, t) && 8 <= off < t.tableOffset && 0x10 <= data[off] <= 0x1F
    ensures var b, p, room := data[off], ParseAt(data, t, off), t.tableOffset - off - 1;
      && (b <= 0x12 && SIZES[b - 0x10] <= room ==> p == Leaf(PInt(BigValue(After(data, off, SIZES[b - 0x10])))))
      && (b == 0x13 && 8 <= room ==>
            var v := BigValue(After(data, off, 8));
            p == Leaf(PInt(if v < 0x8000_0000_0000_0000 then v else v - 0x1_0000_0000_0000_0000)))
      && (b == 0x14 && 16 <= room ==> p == Leaf(PInt(BigValue(After(data, off, 16)) % 0x1_0000_0000_0000_0000)))
      && (b <= 0x14 && room < SIZES[b - 0x10] ==> p == Corrupt)
      && (0x15 <= b ==> p == Corrupt)
  {
    hide BigValue, SizedInt, ParseAt, SIZES, Layout;
    TableInside(data, t);
    var b, room := data[off], t.tableOffset - off - 1;
    IntegerCase(data, t, off);
    SizeCases(b - 0x10);
    var size := SIZES[b - 0x10];
    if size <= room {
      SizedIntIs(After(data, off, size));
      if b <= 0x13 {
        ShortInt(After(data, off, size));
      }
    }
    IntBounds(data, off, room);
  }

  lemma SizeCases(n: nat)
    requires n < 16
    ensures |SIZES| == 16
    ensures n == 0 ==> SIZES[n] == 1
    ensures n == 1 ==> SIZES[n] == 2
    ensures n == 2 ==> SIZES[n] == 4
    ensures n == 3 ==> SIZES[n] == 8
    ensures n == 4 ==> SIZES[n] == 16
    ensures n > 4 ==> SIZES[n] > 16
  {
  }

  lemma IntegerCase(data: seq<byte>, t: Trailer, off: nat)
    requires Layout(data, t) && 8 <= off < t.tableOffset && 0x10 <= data[off] <= 0x1F
    ensures var size := SIZES[data[off] - 0x10];
      ParseAt(data, t, off) ==
        if t.tableOffset - off - 1 < size || 16 < size then Corrupt
        else
          var v := SizedInt(After(data, off, size));
          Leaf(PInt(if 8 < size then v else Signed64(v)))
  {
    hide SizedInt, ReadCount, ParseCounted, ShiftLeft1, SIZES, Signed64;
    SizesAre(data[off] - 0x10);
  }

  // From 0x20 to 0x3F: reals of 4 and of 8 bytes, and dates.
  lemma RealReadAs(data: seq<byte>, t: Trailer, off: nat)
    requires Layout(data, t) && 8 <= off < t.tableOffset && 0x20 <= data[off] <= 0x3F
    ensures var b, p, room := data[off], ParseAt(data, t, off), t.tableOffset - off - 1;
      && (b == 0x22 ==> p == if 4 <= room then Leaf(PReal32(After(data, off, 4))) else Corrupt)
      && (b == 0x23 ==> p == if 8 <= room then Leaf(PReal64(After(data, off, 8))) else Corrupt)
      && (b == 0x33 ==> p == if 8 <= room then Leaf(PDate(After(data, off, 8))) else Corrupt)
      && (b !in {0x22, 0x23, 0x33} ==> p == Corrupt)
  {
    hide ReadCount, ParseCounted, ShiftLeft1, SizedInt;
  }

  lemma Nibbles(b: byte, low: nat)
    requires b == 0x80 + low && low < 16
    ensures b % 16 == low && b / 16 * 16 == 0x80
  {
  }

  // From 0x80 to 0x8F: UIDs of 1 to 16 bytes, if their low 8 bytes are a number of 32 bits.
  lemma UidReadAs(data: seq<byte>, t: Trailer, off: nat)
    requires Layout(data, t) && 8 <= off < t.tableOffset && 0x80 <= data[off] <= 0x8F
    ensures var n, p, room := data[off] - 0x7F, ParseAt(data, t, off), t.tableOffset - off - 1;
      && (n <= room ==>
            var v := BigValue(After(data, off, n)) % 0x1_0000_0000_0000_0000;
            p == if v < 0x1_0000_0000 then Leaf(PUid(v)) else Corrupt)
      && (room < n ==> p == Corrupt)
  {
    hide BigValue, SizedInt, ParseAt, Layout;
    TableInside(data, t);
    var n: nat := data[off] - 0x7F;
    UidCase(data, t, off, n);
    if n <= t.tableOffset - off - 1 {
      SizedIntIs(After(data, off, n));
    }
  }

  lemma UidCase(data: seq<byte>, t: Trailer, off: nat, n: nat)
    requires Layout(data, t) && 8 <= off < t.tableOffset && 0x80 <= data[off] <= 0x8F && n == data[off] - 0x7F
    ensures ParseAt(data, t, off) ==
      if t.tableOffset - off - 1 < n then Corrupt
      else if UINT32_LIMIT <= SizedInt(After(data, off, n)) then Corrupt
      else Leaf(PUid(SizedInt(After(data, off, n))))
  {
    hide SizedInt, ReadCount, ParseCounted, ShiftLeft1;
    Nibbles(data[off], n - 1);
  }

  // Integers of up to four bytes are not negative.
  lemma IntBounds(data: seq<byte>, off: nat, room: nat)
    requires off + 1 + room <= |data|
    ensures forall n :: n in {1, 2, 4} && n <= room ==> BigValue(After(data, off, n)) <= LONG_MAX
  {
    Pow256Values();
    forall n | n in {1, 2, 4} && n <= room ensures BigValue(After(data, off, n)) <= LONG_MAX {
      BigValueBound(After(data, off, n));
    }
  }

  // All other first bytes: data, strings of one and of two bytes for each character, arrays, sets,
  // dictionaries, and what is none of these.
  lemma CountedReadAs(data: seq<byte>, t: Trailer, off: nat, count: nat, start: nat)
    requires Layout(data, t) && 8 <= off < t.tableOffset && HasCount(data, t.tableOffset, off, count, start)
    ensures var b, p, end := data[off], ParseAt(data, t, off), t.tableOffset;
      && (0x40 <= b <= 0x4F ==> p == if start + count <= end then Leaf(PData(data[start..start + count])) else Corrupt)
      && (0x50 <= b <= 0x5F ==>
            if start + count <= end then
              p.Leaf? && p.v.PString? && |p.v.chars| == count
              && forall i :: 0 <= i < count ==> p.v.chars[i] == data[start + i]
            else p == Corrupt)
      && (0x60 <= b <= 0x6F ==>
            if start + 2 * count <= end then
              p.Leaf? && p.v.PString? && |p.v.chars| == count
              && forall i :: 0 <= i < count ==>
                   p.v.chars[i] == data[start + 2 * i] as int * 0x100 + data[start + 2 * i + 1]
            else p == Corrupt)
      && (0xA0 <= b <= 0xAF ==> p == if Referable(start, count, t) then Refs(KArray, start, count) else Corrupt)
      && (0xC0 <= b <= 0xCF ==> p == if Referable(start, count, t) then Refs(KSet, start, count) else Corrupt)
      && (0xD0 <= b <= 0xDF ==> p == if Referable(start, 2 * count, t) then Refs(KDict, start, 2 * count) else Corrupt)
  {
    hide HasCount, ReadCount, ParseAt, ParseCounted, Referable, Layout;
    TableInside(data, t);
    CountedParts(data, t, off, count, start);
    var b, end := data[off], t.tableOffset;
    if 0x40 <= b <= 0x6F {
      LeafParts(data, end, t.refSize, b / 16 * 16, start, count);
    } else if 0xA0 <= b <= 0xAF || 0xC0 <= b <= 0xDF {
      RefParts(data, t, b / 16 * 16, start, count);
    }
  }

  lemma CountedParts(data: seq<byte>, t: Trailer, off: nat, count: nat, start: nat)
    requires Layout(data, t) && 8 <= off < t.tableOffset && HasCount(data, t.tableOffset, off, count, start)
    ensures start <= t.tableOffset <= |data|
    ensures var b := data[off];
      0x40 <= b <= 0x6F || 0xA0 <= b <= 0xAF || 0xC0 <= b <= 0xDF ==>
        ParseAt(data, t, off) == ParseCounted(data, t.tableOffset, t.refSize, b / 16 * 16, start, count)
  {
    hide HasCount, ReadCount, ParseCounted, SizedInt, ShiftLeft1;
    CountIs(data, t.tableOffset, off, count, start);
  }

  lemma LeafParts(data: seq<byte>, end: nat, refSize: nat, high: nat, start: nat, count: nat)
    requires start <= end <= |data|
    ensures var p := ParseCounted(data, end, refSize, high, start, count);
      && (high == 0x40 ==> p == if start + count <= end then Leaf(PData(data[start..start + count])) else Corrupt)
      && (high == 0x50 ==>
            if start + count <= end then
              p.Leaf? && p.v.PString? && |p.v.chars| == count
              && forall i :: 0 <= i < count ==> p.v.chars[i] == data[start + i]
            else p == Corrupt)
      && (high == 0x60 ==>
            if start + 2 * count <= end then
              p.Leaf? && p.v.PString? && |p.v.chars| == count
              && forall i :: 0 <= i < count ==>
                   p.v.chars[i] == data[start + 2 * i] as int * 0x100 + data[start + 2 * i + 1]
            else p == Corrupt)
  {
  }

  lemma RefParts(data: seq<byte>, t: Trailer, high: nat, start: nat, count: nat)
    requires start <= t.tableOffset <= |data| && t.refSize >= 1 && t.tableOffset <= LONG_MAX
    ensures var p := ParseCounted(data, t.tableOffset, t.refSize, high, start, count);
      && (high == 0xA0 ==> p == if Referable(start, count, t) then Refs(KArray, start, count) else Corrupt)
      && (high == 0xC0 ==> p == if Referable(start, count, t) then Refs(KSet, start, count) else Corrupt)
      && (high == 0xD0 ==> p == if Referable(start, 2 * count, t) then Refs(KDict, start, 2 * count) else Corrupt)
  {
    hide ParseRefs;
    RefsAre(KArray, start, count, t);
    RefsAre(KSet, start, count, t);
    RefsAre(KDict, start, 2 * count, t);
  }

  lemma RefsAre(kind: Kind, start: nat, n: nat, t: Trailer)
    ensures ParseRefs(kind, start, n, t.refSize, t.tableOffset) ==
      if Referable(start, n, t) then Refs(kind, start, n) else Corrupt
  {
  }

  // So many references fit before the table, and their pointers in memory.
  predicate Referable(start: nat, n: nat, t: Trailer) {
    start + n * t.refSize <= t.tableOffset && n * 8 < 0x1_0000_0000_0000_0000
  }

  lemma OthersReadAs(data: seq<byte>, t: Trailer, off: nat)
    requires Layout(data, t) && 8 <= off < t.tableOffset
    ensures var b := data[off];
      && (0x70 <= b <= 0x7F || 0x90 <= b <= 0x9F || 0xB0 <= b <= 0xBF || 0xE0 <= b ==> ParseAt(data, t, off) == Corrupt)
      && (0x40 <= b <= 0x6F || 0xA0 <= b <= 0xAF || 0xC0 <= b <= 0xDF ==>
            (forall count: nat, start: nat :: !HasCount(data, t.tableOffset, off, count, start)) ==>
              ParseAt(data, t, off) == Corrupt)
  {
    hide HasCount, ParseCounted;
    match ReadCount(data, t.tableOffset, off)
    case None =>
    case Some(r) =>
      CountIs(data, t.tableOffset, off, r.0, r.1);
  }

  // The reference at ptr leads to the object of the number there, and to none when there is none of
  // that number, or when it does not lie before the table.
  lemma RefTargetIs(data: seq<byte>, t: Trailer, ptr: nat)
    requires Layout(data, t)
    ensures var target := RefTarget(data, t, ptr);
      if 8 <= ptr && ptr + t.refSize <= t.tableOffset then
        var ref := BigValue(Part(data, ptr, t.refSize)) % UINT64_LIMIT;
        if ref < t.numObjects then target == TableEntry(data, t, ref) else target > t.tableOffset
      else target > t.tableOffset
  {
    hide BigValue, SizedInt, TableEntry;
    TableInside(data, t);
    if 8 <= ptr && ptr + t.refSize <= t.tableOffset {
      SizedIntIs(Part(data, ptr, t.refSize));
    }
  }

  // ---------- writing ----------

  // The integer object of the least of 1, 2, 4 and 8 bytes.
  function IntObject(v: nat): seq<byte> {
    if v < 0x100 then [0x10, v]
    else if v < 0x1_0000 then [0x11] + BigEndian(v, 2)
    else if v < 0x1_0000_0000 then [0x12] + BigEndian(v, 4)
    else [0x13] + BigEndian(v, 8)
  }

  // A first byte with a count, and the count after it when it is 15 or more.
  function Counted(first: byte, count: nat): seq<byte>
    requires first + 15 < 256
  {
    if count < 15 then [first + count] else [first + 15] + IntObject(count)
  }

  lemma IntBytesAre(v: nat)
    ensures IntBytes(v) == IntObject(v)
  {
    if v < 0x100 {
      assert BigEndian(v, 1) == BigEndian(v / 256, 0) + [v % 256];
    }
  }

  lemma CountedAre(first: byte, count: nat)
    requires first + 15 < 256
    ensures CountedMarker(first, count) == Counted(first, count)
  {
    hide IntBytes;
    IntBytesAre(count);
  }

  // What each object is written as.  References are big-endian numbers of the given size.
  lemma WrittenAs(o: Obj, table: map<Obj, nat>, refSize: nat)
    ensures var w := ObjectBytes(o, table, refSize);
      && (o.OBool? ==> w == [if o.b then 0x09 else 0x08])
      && (o.OInt? ==> w == IntObject(if o.v < 0 then o.v + 0x1_0000_0000_0000_0000 else o.v))
      && (o.OInt128? ==> w == [0x14] + BigEndian(Mod128(o.wide), 16))
      && (o.OReal32? ==> w == [0x22] + o.bits4)
      && (o.OReal64? ==> w == [0x23] + o.bits8)
      && (o.ODate? ==> w == [0x33] + o.date)
      && (o.OData? ==> w == Counted(0x40, |o.bytes|) + o.bytes)
      && (o.OString? ==>
            if forall i :: 0 <= i < |o.chars| ==> o.chars[i] < 0x80 then
              w == Counted(0x50, |o.chars|) + OneByteEach(o.chars)
            else exists s :: TwoBytesEach(s, o.chars) && w == Counted(0x60, |o.chars|) + s)
      && (o.OUid? ==>
            w == if o.uid < 0x100 then [0x80, o.uid]
                 else if o.uid < 0x1_0000 then [0x81] + BigEndian(o.uid, 2)
                 else [0x83] + BigEndian(o.uid, 4))
      && (o.OArray? ==> w == Counted(0xA0, |o.elems|) + RefBytes(o.elems, table, refSize))
      && (o.ODict? ==> w == Counted(0xD0, |o.entries|) + RefBytes(DictList(o.entries), table, refSize))
      && (o.OOther? ==> w == [])
  {
    hide CountedMarker, RefBytes, Mod128;
    match o
    case OInt(_, v) => IntBytesAre(Unsigned64(v));
    case OData(_, bytes) => CountedAre(0x40, |bytes|);
    case OString(_, chars) =>
      if IsASCII(chars) {
        CountedAre(0x50, |chars|);
        OneByteIs(chars);
      } else {
        CountedAre(0x60, |chars|);
        TwoBytesIs(chars);
      }
    case OUid(_, uid) =>
      assert uid < 0x100 ==> BigEndian(uid, 1) == BigEndian(uid / 256, 0) + [uid % 256];
    case OArray(_, elems) => CountedAre(0xA0, |elems|);
    case ODict(_, entries) => CountedAre(0xD0, |entries|);
    case _ =>
  }

  function OneByteEach(chars: seq<unichar>): (s: seq<byte>)
    requires forall i :: 0 <= i < |chars| ==> chars[i] < 0x80
    ensures |s| == |chars| && forall i :: 0 <= i < |s| ==> s[i] == chars[i]
  {
    seq(|chars|, i requires 0 <= i < |chars| => chars[i] as byte)
  }

  // Two bytes for each character, the high one first.
  predicate TwoBytesEach(s: seq<byte>, chars: seq<unichar>) {
    |s| == 2 * |chars| && forall i :: 0 <= i < |chars| ==> CharAt(s, i) == chars[i]
  }

  function CharAt(s: seq<byte>, i: nat): int
    requires 2 * i + 1 < |s|
  {
    s[2 * i] as int * 0x100 + s[2 * i + 1]
  }

  lemma OneByteIs(chars: seq<unichar>)
    requires IsASCII(chars)
    ensures Narrowed(chars) == OneByteEach(chars)
  {
  }

  lemma {:induction false} TwoBytesIs(chars: seq<unichar>)
    ensures TwoBytesEach(Utf16BigEndian(chars), chars)
    decreases |chars|
  {
    if chars != [] {
      var n := |chars| - 1;
      TwoBytesIs(chars[..n]);
      var s, s' := Utf16BigEndian(chars), Utf16BigEndian(chars[..n]);
      forall i | 0 <= i < |chars| ensures CharAt(s, i) == chars[i] {
        if i < n {
          assert CharAt(s', i) == chars[..n][i];
        }
      }
    }
  }

  // References, one after the other.
  lemma RefsWritten(cs: seq<Obj>, table: map<Obj, nat>, refSize: nat, i: nat)
    requires i < |cs| && cs[i] in table && table[cs[i]] < Pow256(refSize)
    ensures var all, p := RefBytes(cs, table, refSize), Slot(0, i, refSize);
      p + refSize <= |all| && BigValue(all[p..p + refSize]) == table[cs[i]]
  {
    hide RefBytes, BigEndian, BigValue, Pow256, Slot;
    var all := RefBytes(cs, table, refSize);
    AllAt(all);
    RefBytesAt(all, 0, cs, table, refSize, i);
    BigEndianWorth(table[cs[i]], refSize);
  }

  lemma AllAt(all: seq<byte>)
    ensures At(all, 0, all)
  {
  }
}
