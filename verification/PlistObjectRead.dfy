// Reading back one written object.
module PlistObjectRead {
  import opened SizedInts
  import opened PlistObjects
  import opened PlistFormat
  import opened PlistParse
  import opened PlistLayout

  lemma ShiftOfLg(size: nat)
    requires size in {1, 2, 4, 8}
    ensures ShiftLeft1(Lg(size)) == size && Lg(size) <= 3
  {
    assert ShiftLeft1(1) == 2 && ShiftLeft1(2) == 4 && ShiftLeft1(3) == 8;
  }

  // The size of an integer is the least that holds it.
  lemma IntSizeFits(v: nat)
    requires v < UINT64_LIMIT
    ensures IntSize(v) in {1, 2, 4, 8} && v < Pow256(IntSize(v))
    ensures forall size :: size in {1, 2, 4, 8} && v < Pow256(size) ==> IntSize(v) <= size
  {
    Pow256Values();
  }

  // A written integer reads back.
  lemma IntRead(data: seq<byte>, end: nat, p: nat, v: nat)
    requires v < UINT64_LIMIT
    requires At(data, p, IntBytes(v)) && p + |IntBytes(v)| <= end <= |data|
    ensures data[p] == MARKER_INT + Lg(IntSize(v)) && ShiftLeft1(Lg(IntSize(v))) == IntSize(v)
    ensures |IntBytes(v)| == 1 + IntSize(v)
    ensures SizedInt(data[p + 1..p + 1 + IntSize(v)]) == v
    ensures ReadInt(data, end, p) == Some((v, p + |IntBytes(v)|))
  {
    hide SizedInt, BigEndian, ShiftLeft1, Lg, IntSize, ReadInt;
    IntSizeFits(v);
    ShiftOfLg(IntSize(v));
    AtConcat(data, p, [MARKER_INT + Lg(IntSize(v))], BigEndian(v, IntSize(v)));
    AtByte(data, p, [MARKER_INT + Lg(IntSize(v))], 0);
    SizedIntRoundTrip(v, IntSize(v));
    IntReads(data, end, p, v, IntSize(v), Lg(IntSize(v)));
  }

  lemma IntReads(data: seq<byte>, end: nat, p: nat, v: nat, size: nat, low: nat)
    requires low < 16 && ShiftLeft1(low) == size < 256 && p + 1 + size <= end <= |data|
    requires data[p] == MARKER_INT + low && SizedInt(data[p + 1..p + 1 + size]) == v
    ensures ReadInt(data, end, p) == Some((v, p + 1 + size))
  {
    hide SizedInt, ShiftLeft1;
  }

  lemma ShortCountRead(data: seq<byte>, end: nat, off: nat, marker: byte, count: nat)
    requires marker % 16 == 0 && count < 15
    requires At(data, off, [marker + count]) && off + 1 <= end <= |data|
    ensures data[off] / 16 * 16 == marker && ReadCount(data, end, off) == Some((count, off + 1))
  {
    AtByte(data, off, [marker + count], 0);
  }

  lemma LongCountRead(data: seq<byte>, end: nat, off: nat, marker: byte, count: nat)
    requires marker % 16 == 0 && count <= LONG_MAX
    requires At(data, off, [marker + 15]) && At(data, off + 1, IntBytes(count))
    requires off + 1 + |IntBytes(count)| <= end <= |data|
    ensures data[off] / 16 * 16 == marker
    ensures ReadCount(data, end, off) == Some((count, off + 1 + |IntBytes(count)|))
  {
    hide IntBytes, ReadInt, SizedInt;
    AtByte(data, off, [marker + 15], 0);
    IntRead(data, end, off + 1, count);
  }

  // A written count reads back, and with it the type of the object.
  lemma CountRead(data: seq<byte>, end: nat, off: nat, marker: byte, count: nat, rest: seq<byte>)
    requires marker % 16 == 0 && count <= LONG_MAX
    requires At(data, off, CountedMarker(marker, count) + rest)
    requires off + |CountedMarker(marker, count)| <= end <= |data|
    ensures data[off] / 16 * 16 == marker
    ensures |CountedMarker(marker, count)| >= 1
    ensures ReadCount(data, end, off) == Some((count, off + |CountedMarker(marker, count)|))
    ensures At(data, off + |CountedMarker(marker, count)|, rest)
  {
    hide IntBytes, ReadCount, At;
    AtConcat(data, off, CountedMarker(marker, count), rest);
    if count < 15 {
      ShortCountRead(data, end, off, marker, count);
    } else {
      AtConcat(data, off, [marker + 15], IntBytes(count));
      LongCountRead(data, end, off, marker, count);
    }
  }

  lemma {:induction false} CharsSwapBack(chars: seq<unichar>)
    ensures SwappedChars(Utf16BigEndian(chars)) == chars
  {
    if chars != [] {
      var n := |chars| - 1;
      CharsSwapBack(chars[..n]);
      var s := Utf16BigEndian(chars);
      forall i | 0 <= i < |chars| ensures SwappedChars(s)[i] == chars[i] {
        if i < n {
          assert SwappedChars(s)[i] == SwappedChars(Utf16BigEndian(chars[..n]))[i];
        }
      }
    }
  }

  lemma CharsWiden(chars: seq<unichar>)
    requires IsASCII(chars)
    ensures Widened(Narrowed(chars)) == chars
  {
  }

  // The object at off is `bytes`, before the offset table.
  ghost predicate ObjectLies(data: seq<byte>, t: Trailer, off: nat, bytes: seq<byte>) {
    && Layout(data, t)
    && 8 <= off < t.tableOffset <= LONG_MAX / 8
    && off + |bytes| <= t.tableOffset
    && At(data, off, bytes)
  }

  lemma MarkedRead(data: seq<byte>, off: nat, marker: byte, bytes: seq<byte>)
    requires At(data, off, [marker] + bytes)
    ensures data[off] == marker && off + 1 + |bytes| <= |data| && data[off + 1..off + 1 + |bytes|] == bytes
  {
    AtConcat(data, off, [marker], bytes);
    AtByte(data, off, [marker], 0);
  }

  predicate IsContainer(o: Obj) {
    o.OArray? || o.ODict?
  }

  lemma SignedBack(v: int64)
    ensures Unsigned64(v) < UINT64_LIMIT && Signed64(Unsigned64(v)) == v
  {
  }

  lemma IntObjectRead(data: seq<byte>, t: Trailer, off: nat, v: int64)
    requires ObjectLies(data, t, off, IntBytes(Unsigned64(v)))
    ensures ParseAt(data, t, off) == Leaf(PInt(v))
  {
    hide IntBytes, BigEndian, SizedInt, At, ReadInt, ReadCount, ParseCounted, ShiftLeft1, Lg, IntSize, Unsigned64,
      Signed64;
    SignedBack(v);
    IntSizeFits(Unsigned64(v));
    ShiftOfLg(IntSize(Unsigned64(v)));
    IntRead(data, t.tableOffset, off, Unsigned64(v));
  }

  lemma WideIntRead(data: seq<byte>, t: Trailer, off: nat, w: int128)
    requires ObjectLies(data, t, off, [MARKER_INT + 4] + BigEndian(Mod128(w), 16))
    ensures ParseAt(data, t, off) == Leaf(PInt(w % UINT64_LIMIT))
  {
    MarkedRead(data, off, MARKER_INT + 4, BigEndian(Mod128(w), 16));
    SizedIntOfBigEndian(Mod128(w), 16);
    Pow256Values();
    WrapEqual(Mod128(w), w, if w >= 0 then 0 else UINT64_LIMIT);
    assert ShiftLeft1(4) == 2 * ShiftLeft1(3) && ShiftLeft1(2) == 4;
    hide BigEndian, SizedInt;
  }

  lemma UidRead(data: seq<byte>, t: Trailer, off: nat, uid: uint32)
    requires ObjectLies(data, t, off, [MARKER_UID + (IntSize(uid) - 1)] + BigEndian(uid, IntSize(uid)))
    ensures ParseAt(data, t, off) == Leaf(PUid(uid))
  {
    hide ParseAt, BigEndian, SizedInt;
    IntSizeFits(uid);
    MarkedRead(data, off, MARKER_UID + (IntSize(uid) - 1), BigEndian(uid, IntSize(uid)));
    SizedIntRoundTrip(uid, IntSize(uid));
    UidParses(data, t, off, IntSize(uid), uid);
  }

  lemma UidParses(data: seq<byte>, t: Trailer, off: nat, size: nat, uid: uint32)
    requires Layout(data, t) && 8 <= off < t.tableOffset && 1 <= size <= 16
    requires data[off] == MARKER_UID + (size - 1) && off + 1 + size <= t.tableOffset
    requires SizedInt(data[off + 1..off + 1 + size]) == uid
    ensures ParseAt(data, t, off) == Leaf(PUid(uid))
  {
    hide SizedInt;
  }

  lemma BitsRead(data: seq<byte>, t: Trailer, off: nat, marker: byte, bits: seq<byte>)
    requires ObjectLies(data, t, off, [marker] + bits)
    ensures marker == MARKER_REAL + 2 && |bits| == 4 ==> ParseAt(data, t, off) == Leaf(PReal32(bits))
    ensures marker == MARKER_REAL + 3 && |bits| == 8 ==> ParseAt(data, t, off) == Leaf(PReal64(bits))
    ensures marker == MARKER_DATE && |bits| == 8 ==> ParseAt(data, t, off) == Leaf(PDate(bits))
  {
    MarkedRead(data, off, marker, bits);
  }

  lemma BoolRead(data: seq<byte>, t: Trailer, off: nat, b: bool)
    requires ObjectLies(data, t, off, [if b then MARKER_TRUE else MARKER_FALSE])
    ensures ParseAt(data, t, off) == Leaf(PBool(b))
  {
    AtByte(data, off, [if b then MARKER_TRUE else MARKER_FALSE], 0);
  }

  lemma DataRead(data: seq<byte>, t: Trailer, off: nat, bytes: seq<byte>)
    requires ObjectLies(data, t, off, CountedMarker(MARKER_DATA, |bytes|) + bytes)
    ensures ParseAt(data, t, off) == Leaf(PData(bytes))
  {
    hide ReadCount, CountedMarker;
    CountRead(data, t.tableOffset, off, MARKER_DATA, |bytes|, bytes);
  }

  lemma AsciiRead(data: seq<byte>, t: Trailer, off: nat, chars: seq<unichar>)
    requires IsASCII(chars)
    requires ObjectLies(data, t, off, CountedMarker(MARKER_ASCII, |chars|) + Narrowed(chars))
    ensures ParseAt(data, t, off) == Leaf(PString(chars))
  {
    hide ReadCount, CountedMarker, Widened;
    CharsWiden(chars);
    CountRead(data, t.tableOffset, off, MARKER_ASCII, |chars|, Narrowed(chars));
  }

  lemma Utf16BytesRead(data: seq<byte>, t: Trailer, off: nat, count: nat, bytes: seq<byte>)
    requires |bytes| == 2 * count
    requires ObjectLies(data, t, off, CountedMarker(MARKER_UTF16, count) + bytes)
    ensures ParseAt(data, t, off) == Leaf(PString(SwappedChars(bytes)))
  {
    hide ReadCount, CountedMarker, SwappedChars;
    CountRead(data, t.tableOffset, off, MARKER_UTF16, count, bytes);
    var start := off + |CountedMarker(MARKER_UTF16, count)|;
    assert data[start..start + 2 * count] == bytes;
    hide At;
    assert ParseCounted(data, t.tableOffset, t.refSize, MARKER_UTF16, start, count) ==
      Leaf(PString(SwappedChars(bytes)));
    hide ParseCounted;
  }

  lemma Utf16Read(data: seq<byte>, t: Trailer, off: nat, chars: seq<unichar>)
    requires ObjectLies(data, t, off, CountedMarker(MARKER_UTF16, |chars|) + Utf16BigEndian(chars))
    ensures ParseAt(data, t, off) == Leaf(PString(chars))
  {
    hide ParseAt, CountedMarker, ObjectLies, SwappedChars;
    CharsSwapBack(chars);
    Utf16BytesRead(data, t, off, |chars|, Utf16BigEndian(chars));
  }

  // A written leaf reads back as the value it stands for.
  lemma LeafRead(data: seq<byte>, t: Trailer, off: nat, o: Obj, table: map<Obj, nat>)
    requires Writable(o) && !IsContainer(o)
    requires ObjectLies(data, t, off, ObjectBytes(o, table, t.refSize))
    ensures ParseAt(data, t, off) == Leaf(Denote(o, true))
  {
    hide ParseAt, ObjectLies, IntBytes, CountedMarker, BigEndian;
    match o
    case OBool(b) => BoolRead(data, t, off, b);
    case OInt(_, v) => IntObjectRead(data, t, off, v);
    case OInt128(_, w) => WideIntRead(data, t, off, w);
    case OReal32(_, bits) => BitsRead(data, t, off, MARKER_REAL + 2, bits);
    case OReal64(_, bits) => BitsRead(data, t, off, MARKER_REAL + 3, bits);
    case ODate(_, bits) => BitsRead(data, t, off, MARKER_DATE, bits);
    case OUid(_, uid) => UidRead(data, t, off, uid);
    case OData(_, bytes) => DataRead(data, t, off, bytes);
    case OString(_, chars) =>
      if IsASCII(chars) {
        AsciiRead(data, t, off, chars);
      } else {
        Utf16Read(data, t, off, chars);
      }
  }

  function KindOf(o: Obj): Kind {
    if o.ODict? then KDict else KArray
  }

  lemma RefsFit(kind: Kind, ptr: nat, n: nat, refSize: nat, end: nat)
    requires refSize >= 1 && ptr + n * refSize <= end <= LONG_MAX / 8
    ensures ParseRefs(kind, ptr, n, refSize, end) == Refs(kind, ptr, n)
  {
    MulMonotone(1, refSize, n);
    assert n * refSize == refSize * n;
  }

  lemma ArrayRefsRead(data: seq<byte>, t: Trailer, off: nat, count: nat, refs: seq<byte>)
    requires |refs| == count * t.refSize
    requires ObjectLies(data, t, off, CountedMarker(MARKER_ARRAY, count) + refs) && count <= LONG_MAX
    ensures var ptr := off + |CountedMarker(MARKER_ARRAY, count)|;
      && ParseAt(data, t, off) == Refs(KArray, ptr, count)
      && 8 <= ptr && ptr + |refs| <= t.tableOffset && At(data, ptr, refs)
  {
    hide ReadCount, CountedMarker, ParseRefs, At;
    CountRead(data, t.tableOffset, off, MARKER_ARRAY, count, refs);
    RefsFit(KArray, off + |CountedMarker(MARKER_ARRAY, count)|, count, t.refSize, t.tableOffset);
  }

  lemma DictRefsRead(data: seq<byte>, t: Trailer, off: nat, count: nat, refs: seq<byte>)
    requires |refs| == 2 * count * t.refSize
    requires ObjectLies(data, t, off, CountedMarker(MARKER_DICT, count) + refs) && count <= LONG_MAX
    ensures var ptr := off + |CountedMarker(MARKER_DICT, count)|;
      && ParseAt(data, t, off) == Refs(KDict, ptr, 2 * count)
      && 8 <= ptr && ptr + |refs| <= t.tableOffset && At(data, ptr, refs)
  {
    hide ReadCount, CountedMarker, ParseRefs, At;
    CountRead(data, t.tableOffset, off, MARKER_DICT, count, refs);
    RefsFit(KDict, off + |CountedMarker(MARKER_DICT, count)|, 2 * count, t.refSize, t.tableOffset);
  }

  lemma ContainerBytes(o: Obj, table: map<Obj, nat>, refSize: nat)
    requires IsContainer(o)
    ensures |RefBytes(Children(o), table, refSize)| == |Children(o)| * refSize
    ensures |Children(o)| == if o.ODict? then 2 * |o.entries| else |o.elems|
    ensures ObjectBytes(o, table, refSize) ==
      if o.ODict? then CountedMarker(MARKER_DICT, |o.entries|) + RefBytes(Children(o), table, refSize)
      else CountedMarker(MARKER_ARRAY, |o.elems|) + RefBytes(Children(o), table, refSize)
  {
    hide CountedMarker;
  }

  // A written container reads back as the references to what it contains.
  lemma ContainerRead(data: seq<byte>, t: Trailer, off: nat, o: Obj, table: map<Obj, nat>)
    requires IsContainer(o)
    requires ObjectLies(data, t, off, ObjectBytes(o, table, t.refSize))
    ensures ParseAt(data, t, off).Refs?
    ensures var Refs(kind, ptr, count) := ParseAt(data, t, off);
      && kind == KindOf(o) && count == |Children(o)| && 8 <= ptr
      && Slot(ptr, count, t.refSize) <= t.tableOffset
      && At(data, ptr, RefBytes(Children(o), table, t.refSize))
  {
    hide ParseAt, CountedMarker, At, RefBytes, ObjectBytes, Children;
    var refs := RefBytes(Children(o), table, t.refSize);
    ContainerBytes(o, table, t.refSize);
    MulMonotone(1, t.refSize, |Children(o)|);
    match o
    case OArray(_, elems) => ArrayRefsRead(data, t, off, |elems|, refs);
    case ODict(_, entries) => DictRefsRead(data, t, off, |entries|, refs);
  }
}
