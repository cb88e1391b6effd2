// Where the parts of a written file lie, and that the reader accepts its trailer.
module PlistLayout {
  import opened SizedInts
  import opened PlistObjects
  import opened PlistFormat
  import opened PlistFlatten
  import opened PlistParse

  // `part` lies in data at p.
  predicate At(data: seq<byte>, p: nat, part: seq<byte>) {
    p + |part| <= |data| && data[p..p + |part|] == part
  }

  lemma AtConcat(data: seq<byte>, p: nat, a: seq<byte>, b: seq<byte>)
    requires At(data, p, a + b)
    ensures At(data, p, a) && At(data, p + |a|, b)
  {
    assert data[p..p + |a|] == (a + b)[..|a|];
    assert data[p + |a|..p + |a| + |b|] == (a + b)[|a|..];
  }

  lemma AtByte(data: seq<byte>, p: nat, part: seq<byte>, i: nat)
    requires At(data, p, part) && i < |part|
    ensures data[p + i] == part[i]
  {
    assert data[p..p + |part|][i] == part[i];
  }

  // ---------- each part in its place ----------

  lemma {:induction false} ObjectAt(data: seq<byte>, p: nat, s: Flat, n: nat, i: nat, refSize: nat)
    requires i < n <= |s.list|
    requires At(data, p, ObjectTable(s.list, n, s.table, refSize))
    ensures At(data, p + |ObjectTable(s.list, i, s.table, refSize)|, ObjectBytes(s.list[i], s.table, refSize))
    decreases n
  {
    hide ObjectBytes;
    AtConcat(data, p, ObjectTable(s.list, n - 1, s.table, refSize), ObjectBytes(s.list[n - 1], s.table, refSize));
    if i < n - 1 {
      ObjectAt(data, p, s, n - 1, i, refSize);
    }
  }

  lemma {:induction false} OffsetAt(data: seq<byte>, p: nat, s: Flat, n: nat, i: nat, refSize: nat, intSize: nat)
    requires i < n <= |s.list|
    requires At(data, p, OffsetTable(s.list, n, s.table, refSize, intSize))
    ensures At(data, Slot(p, i, intSize), BigEndian(OffsetOf(s.list, i, s.table, refSize), intSize))
    decreases n
  {
    hide ObjectTable, OffsetOf, BigEndian;
    AtConcat(data, p, OffsetTable(s.list, n - 1, s.table, refSize, intSize),
             BigEndian(OffsetOf(s.list, n - 1, s.table, refSize), intSize));
    if i < n - 1 {
      OffsetAt(data, p, s, n - 1, i, refSize, intSize);
    }
  }

  lemma {:induction false} RefBytesAt(data: seq<byte>, p: nat, cs: seq<Obj>, table: map<Obj, nat>, refSize: nat, i: nat)
    requires i < |cs|
    requires At(data, p, RefBytes(cs, table, refSize))
    ensures At(data, Slot(p, i, refSize), BigEndian(RefNumber(table, cs[i]), refSize))
    decreases |cs|
  {
    var n := |cs| - 1;
    AtConcat(data, p, RefBytes(cs[..n], table, refSize), BigEndian(RefNumber(table, cs[n]), refSize));
    if i < n {
      RefBytesAt(data, p, cs[..n], table, refSize, i);
    }
  }

  lemma {:induction false} OffsetsIncrease(s: Flat, i: nat, n: nat, refSize: nat)
    requires i <= n <= |s.list|
    ensures |ObjectTable(s.list, i, s.table, refSize)| <= |ObjectTable(s.list, n, s.table, refSize)|
    decreases n
  {
    hide ObjectBytes;
    if i < n {
      OffsetsIncrease(s, i, n - 1, refSize);
    }
  }

  lemma ObjectTableStep(s: Flat, i: nat, refSize: nat)
    requires i < |s.list|
    ensures |ObjectTable(s.list, i + 1, s.table, refSize)|
         == |ObjectTable(s.list, i, s.table, refSize)| + |ObjectBytes(s.list[i], s.table, refSize)|
  {
    hide ObjectBytes;
  }

  lemma WritableNotEmpty(o: Obj, table: map<Obj, nat>, refSize: nat)
    requires Writable(o)
    ensures |ObjectBytes(o, table, refSize)| >= 1
  {
  }

  // ---------- the written file ----------

  // The trailer the writer writes.
  function WrittenTrailer(s: Flat): Trailer {
    var body := |BodyBytes(s)|;
    Trailer(CountSize(body), CountSize(|s.list|), |s.list|, 0, body)
  }

  // What flattening and the limits of the format give of a list about to be written.
  ghost predicate Prepared(s: Flat) {
    && Consistent(s) && ClosedFrom(s, 0)
    && 1 <= |s.list| < UINT32_LIMIT
    && |FileOf(s)| <= LONG_MAX / 8
    && forall i :: 0 <= i < |s.list| ==> Writable(s.list[i])
  }

  lemma FileParts(s: Flat)
    ensures var t := WrittenTrailer(s);
      && At(FileOf(s), 0, HEADER)
      && At(FileOf(s), |HEADER|, ObjectTable(s.list, |s.list|, s.table, t.refSize))
      && At(FileOf(s), t.tableOffset, OffsetTable(s.list, |s.list|, s.table, t.refSize, t.intSize))
      && At(FileOf(s), Slot(t.tableOffset, t.numObjects, t.intSize),
            TrailerBytes(t.intSize, t.refSize, t.numObjects, t.tableOffset))
      && |FileOf(s)| == Slot(t.tableOffset, t.numObjects, t.intSize) + TRAILER_SIZE
  {
    hide At, ObjectTable, OffsetTable, TrailerBytes, CountSize;
    var t := WrittenTrailer(s);
    var objects := ObjectTable(s.list, |s.list|, s.table, t.refSize);
    var table := OffsetTable(s.list, |s.list|, s.table, t.refSize, t.intSize);
    var trailer := TrailerBytes(t.intSize, t.refSize, t.numObjects, t.tableOffset);
    assert FileOf(s) == HEADER + objects + table + trailer;
    AtStart(FileOf(s));
    FourPartsAt(FileOf(s), 0, HEADER, objects, table, trailer);
  }

  lemma AtStart(data: seq<byte>)
    ensures At(data, 0, data)
  {
  }

  // The reader finds in a trailer what the writer put there.
  lemma TrailerParses(data: seq<byte>, t: Trailer)
    requires |data| >= TRAILER_SIZE && t.topObject == 0
    requires t.numObjects <= LONG_MAX && t.tableOffset <= LONG_MAX
    requires At(data, |data| - TRAILER_SIZE, TrailerBytes(t.intSize, t.refSize, t.numObjects, t.tableOffset))
    ensures TrailerOf(data) == t
  {
    hide BigEndian, SizedInt, At;
    var p := |data| - TRAILER_SIZE;
    var sizes: seq<byte> := [0, 0, 0, 0, 0, 0, t.intSize, t.refSize];
    FourPartsAt(data, p, sizes, BigEndian(t.numObjects, 8), BigEndian(0, 8), BigEndian(t.tableOffset, 8));
    AtByte(data, p, sizes, 6);
    AtByte(data, p, sizes, 7);
    FieldRead(data, p + 8, t.numObjects);
    FieldRead(data, p + 16, 0);
    FieldRead(data, p + 24, t.tableOffset);
  }

  lemma FieldRead(data: seq<byte>, p: nat, v: nat)
    requires v <= LONG_MAX && At(data, p, BigEndian(v, 8))
    ensures p + 8 <= |data| && SizedInt(data[p..p + 8]) == v
  {
    hide SizedInt;
    Pow256Values();
    SizedIntRoundTrip(v, 8);
  }

  lemma FourPartsAt(data: seq<byte>, p: nat, a: seq<byte>, b: seq<byte>, c: seq<byte>, d: seq<byte>)
    requires At(data, p, a + b + c + d)
    ensures At(data, p, a) && At(data, p + |a|, b) && At(data, p + |a| + |b|, c)
    ensures At(data, p + |a| + |b| + |c|, d)
  {
    AtConcat(data, p, a + b + c, d);
    AtConcat(data, p, a + b, c);
    AtConcat(data, p, a, b);
  }

  lemma TrailerRead(s: Flat)
    requires Prepared(s)
    ensures |FileOf(s)| >= TRAILER_SIZE && TrailerOf(FileOf(s)) == WrittenTrailer(s)
    ensures Layout(FileOf(s), WrittenTrailer(s))
  {
    hide ObjectBytes, ObjectTable, OffsetTable, FileOf, TrailerOf, TrailerBytes, BigEndian, BodyBytes, Consistent,
      ClosedFrom;
    FileParts(s);
    BodyLength(s);
    TrailerParses(FileOf(s), WrittenTrailer(s));
  }

  lemma BodyLength(s: Flat)
    requires |s.list| >= 1 && Writable(s.list[0])
    ensures |BodyBytes(s)| >= 9
  {
    hide ObjectBytes;
    var refSize := CountSize(|s.list|);
    WritableNotEmpty(s.list[0], s.table, refSize);
    assert ObjectTable(s.list, 1, s.table, refSize)
        == ObjectTable(s.list, 0, s.table, refSize) + ObjectBytes(s.list[0], s.table, refSize);
    OffsetsIncrease(s, 1, |s.list|, refSize);
  }

  // Each entry of the offset table reads back as the offset of its object, which lies before it.
  lemma EntryRead(s: Flat, i: nat)
    requires Prepared(s) && i < |s.list|
    ensures Layout(FileOf(s), WrittenTrailer(s))
    ensures var t := WrittenTrailer(s); var off := OffsetOf(s.list, i, s.table, t.refSize);
      && TableEntry(FileOf(s), t, i) == off
      && 8 <= off
      && off + |ObjectBytes(s.list[i], s.table, t.refSize)| <= t.tableOffset
      && At(FileOf(s), off, ObjectBytes(s.list[i], s.table, t.refSize))
  {
    hide ObjectBytes, ObjectTable, OffsetTable, FileOf, TrailerOf, BigEndian, SizedInt;
    TrailerRead(s);
    FileParts(s);
    var t, data := WrittenTrailer(s), FileOf(s);
    var off := OffsetOf(s.list, i, s.table, t.refSize);
    ObjectTableStep(s, i, t.refSize);
    ObjectAt(data, |HEADER|, s, |s.list|, i, t.refSize);
    OffsetsIncrease(s, i + 1, |s.list|, t.refSize);
    OffsetAt(data, t.tableOffset, s, |s.list|, i, t.refSize, t.intSize);
    CountSizeFits(t.tableOffset);
    SizedIntRoundTrip(off, t.intSize);
  }

  // The reader accepts every file the writer produces.
  lemma WrittenAccepted(s: Flat)
    requires Prepared(s)
    ensures Accepted(FileOf(s))
    ensures TopOffset(FileOf(s)) == OffsetOf(s.list, 0, s.table, WrittenTrailer(s).refSize)
  {
    hide ObjectBytes, ObjectTable, OffsetTable, FileOf, TrailerOf, BigEndian, SizedInt;
    TrailerRead(s);
    FileParts(s);
    var t, data := WrittenTrailer(s), FileOf(s);
    assert data[..7] == data[0..8][..7];
    CountSizeFits(t.numObjects);
    CountSizeFits(t.tableOffset);
    forall i | 0 <= i < t.numObjects ensures TableEntry(data, t, i) < t.tableOffset {
      EntryRead(s, i);
      WritableNotEmpty(s.list[i], s.table, t.refSize);
    }
    EntryRead(s, 0);
  }
}
