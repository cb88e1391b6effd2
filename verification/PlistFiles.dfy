// Some whole files, byte by byte.
module PlistFiles {
  import opened SizedInts
  import opened PlistObjects
  import opened PlistFormat
  import opened PlistParse
  import opened PlistReading
  import opened PlistMeaning
  import opened PlistBytes
  import opened PlistEndToEnd
  import opened PlistWitnesses

  // "bplist00"
  const BEGIN: seq<byte> := [0x62, 0x70, 0x6C, 0x69, 0x73, 0x74, 0x30, 0x30]

  // The end of a file with sizes of one byte.
  function Ending(num: byte, top: byte, off: byte): (s: seq<byte>)
    ensures |s| == 32
  {
    [0, 0, 0, 0, 0, 0, 1, 1]
    + [0, 0, 0, 0, 0, 0, 0, num]
    + [0, 0, 0, 0, 0, 0, 0, top]
    + [0, 0, 0, 0, 0, 0, 0, off]
  }

  // A file of these objects, one after the other, whose table is given.
  function Small(objects: seq<byte>, table: seq<byte>, top: byte): seq<byte>
    requires |objects| < 200 && |table| < 50
  {
    BEGIN + objects + table + Ending(|table|, top, 8 + |objects|)
  }

  lemma Worth(a: byte)
    ensures BigValue([a]) == a && BigValue([0, 0, 0, 0, 0, 0, 0, a]) == a
  {
    assert [a][1..] == [];
    LeadingZero([0, 0, 0, 0, 0, 0, a]);
    LeadingZero([0, 0, 0, 0, 0, a]);
    LeadingZero([0, 0, 0, 0, a]);
    LeadingZero([0, 0, 0, a]);
    LeadingZero([0, 0, a]);
    LeadingZero([0, a]);
    LeadingZero([a]);
  }

  lemma LeadingZero(s: seq<byte>)
    ensures BigValue([0] + s) == BigValue(s)
  {
    assert ([0] + s)[1..] == s;
  }

  predicate TableFits(objects: seq<byte>, table: seq<byte>, top: byte) {
    && 0 < |objects| < 200 && top < |table| < 50
    && forall i :: 0 <= i < |table| ==> 8 <= table[i] < 8 + |objects|
  }

  function SmallTrailer(objects: seq<byte>, table: seq<byte>, top: byte): Trailer
    requires |objects| < 200 && |table| < 50
  {
    Trailer(1, 1, |table|, top, 8 + |objects|)
  }

  lemma SmallParts(objects: seq<byte>, table: seq<byte>, top: byte)
    requires TableFits(objects, table, top)
    ensures var data := Small(objects, table, top);
      && |data| == 8 + |objects| + |table| + 32
      && data[..7] == BEGIN[..7]
      && (forall i :: 0 <= i < |objects| ==> data[8 + i] == objects[i])
      && (forall i :: 0 <= i < |table| ==> data[8 + |objects| + i] == table[i])
  {
  }

  lemma SmallTrailerRead(objects: seq<byte>, table: seq<byte>, top: byte)
    requires TableFits(objects, table, top)
    ensures var data := Small(objects, table, top);
      && |data| == 8 + |objects| + |table| + 32
      && TrailerOf(data) == SmallTrailer(objects, table, top) && Layout(data, TrailerOf(data))
  {
    hide BigValue, TrailerOf;
    SmallParts(objects, table, top);
    var data, n: byte, o: byte := Small(objects, table, top), |table|, 8 + |objects|;
    Worth(n);
    Worth(top);
    Worth(o);
    var rest := BEGIN + objects + table;
    var a, b, c: seq<byte> :=
      [0, 0, 0, 0, 0, 0, 0, n], [0, 0, 0, 0, 0, 0, 0, top], [0, 0, 0, 0, 0, 0, 0, o];
    Tail(rest, [0, 0, 0, 0, 0, 0, 1, 1], a, b, c);
    assert data == rest + [0, 0, 0, 0, 0, 0, 1, 1] + a + b + c;
    TrailerIs(data, 1, 1, n, top, o);
  }

  // Entries and references are single bytes.
  lemma SmallEntry(objects: seq<byte>, table: seq<byte>, top: byte, i: nat)
    requires TableFits(objects, table, top) && i < |table|
    ensures var data, t := Small(objects, table, top), SmallTrailer(objects, table, top);
      Layout(data, t) && TableEntry(data, t, i) == table[i]
  {
    hide BigValue, TrailerOf, SizedInt;
    SmallTrailerRead(objects, table, top);
    SmallParts(objects, table, top);
    var data, t := Small(objects, table, top), SmallTrailer(objects, table, top);
    EntryIs(data, t, i);
    assert Part(data, 8 + |objects| + i, 1) == [table[i]];
    Worth(table[i]);
  }

  lemma SmallAccepted(objects: seq<byte>, table: seq<byte>, top: byte)
    requires TableFits(objects, table, top)
    ensures var data, t := Small(objects, table, top), SmallTrailer(objects, table, top);
      && Layout(data, t) && Accepted(data) && TrailerOf(data) == t && TopOffset(data) == table[top]
  {
    hide TrailerOf, TableEntry;
    SmallTrailerRead(objects, table, top);
    SmallParts(objects, table, top);
    Pow256Values();
    var data, t := Small(objects, table, top), SmallTrailer(objects, table, top);
    forall i | 0 <= i < |table| ensures TableEntry(data, t, i) == table[i] {
      SmallEntry(objects, table, top, i);
    }
    assert data[..7] == HEADER[..7];
  }

  // The reference at p leads to the object of that number.
  lemma SmallRef(objects: seq<byte>, table: seq<byte>, top: byte, p: nat)
    requires TableFits(objects, table, top) && p < |objects| && objects[p] < |table|
    ensures var data, t := Small(objects, table, top), SmallTrailer(objects, table, top);
      Layout(data, t) && RefTarget(data, t, 8 + p) == table[objects[p]]
  {
    hide BigValue, TrailerOf, SizedInt, TableEntry;
    SmallTrailerRead(objects, table, top);
    SmallParts(objects, table, top);
    var data, t := Small(objects, table, top), SmallTrailer(objects, table, top);
    RefTargetIs(data, t, 8 + p);
    assert Part(data, 8 + p, 1) == [objects[p]];
    Worth(objects[p]);
    SmallEntry(objects, table, top, objects[p]);
  }

  // What such a file describes it is read as.
  lemma SmallOutcome(objects: seq<byte>, table: seq<byte>, top: byte, v: Plist)
    requires TableFits(objects, table, top)
    requires Layout(Small(objects, table, top), SmallTrailer(objects, table, top))
    requires Describes(Small(objects, table, top), SmallTrailer(objects, table, top), table[top], v)
    ensures ParseOutcome(Small(objects, table, top)) == Value(v)
  {
    hide TrailerOf, Describes, Small, ParseOutcome, SettledTop, TopOffset, Accepted;
    SmallAccepted(objects, table, top);
    SmallFilesParse(Small(objects, table, top));
    ParseMeaning(Small(objects, table, top), v);
  }

  // An integer of one byte, or a string of one character, at a place in the objects.
  lemma ByteObject(objects: seq<byte>, table: seq<byte>, top: byte, p: nat)
    requires TableFits(objects, table, top) && p + 1 < |objects|
    ensures var data, t := Small(objects, table, top), SmallTrailer(objects, table, top);
      && Layout(data, t)
      && (objects[p] == 0x10 ==> Describes(data, t, 8 + p, PInt(objects[p + 1])))
      && (objects[p] == 0x51 ==> Describes(data, t, 8 + p, PString([objects[p + 1] as unichar])))
  {
    hide TrailerOf, Describes, Small, ParseAt, BigValue;
    SmallTrailerRead(objects, table, top);
    SmallParts(objects, table, top);
    var data, t := Small(objects, table, top), SmallTrailer(objects, table, top);
    if objects[p] == 0x10 {
      IntegerReadAs(data, t, 8 + p);
      assert After(data, 8 + p, 1) == [objects[p + 1]];
      Worth(objects[p + 1]);
      DescribesStep(data, t, 8 + p, PInt(objects[p + 1]));
    } else if objects[p] == 0x51 {
      CountedReadAs(data, t, 8 + p, 1, 9 + p);
      var s := PString([objects[p + 1] as unichar]);
      assert ParseAt(data, t, 8 + p).v == s;
      DescribesStep(data, t, 8 + p, s);
    }
  }

  // ---------- the second object on top ----------

  const TWO_INTEGERS: seq<byte> :=
    [0x62, 0x70, 0x6C, 0x69, 0x73, 0x74, 0x30, 0x30]
    + [0x10, 0x01, 0x10, 0x02]
    + [0x08, 0x0A]
    + ([0, 0, 0, 0, 0, 0, 1, 1] + [0, 0, 0, 0, 0, 0, 0, 2]
       + [0, 0, 0, 0, 0, 0, 0, 1] + [0, 0, 0, 0, 0, 0, 0, 0x0C])

  lemma SecondIsTopBytes()
    ensures TWO_INTEGERS == Small([0x10, 0x01, 0x10, 0x02], [0x08, 0x0A], 1)
  {
  }

  lemma SecondIsTop()
    ensures ParseOutcome(TWO_INTEGERS) == Value(PInt(2))
  {
    hide Small, ParseOutcome, Describes;
    var objects, table: seq<byte> := [0x10, 0x01, 0x10, 0x02], [0x08, 0x0A];
    SecondIsTopBytes();
    ByteObject(objects, table, 1, 2);
    SmallOutcome(objects, table, 1, PInt(2));
  }

  // ---------- equal keys ----------

  // A dictionary of "a" to 1 and "a" to 2.
  const EQUAL_KEYS: seq<byte> :=
    [0x62, 0x70, 0x6C, 0x69, 0x73, 0x74, 0x30, 0x30]
    + [0xD2, 0x01, 0x01, 0x02, 0x03, 0x51, 0x61, 0x10, 0x01, 0x10, 0x02]
    + [0x08, 0x0D, 0x0F, 0x11]
    + ([0, 0, 0, 0, 0, 0, 1, 1] + [0, 0, 0, 0, 0, 0, 0, 4]
       + [0, 0, 0, 0, 0, 0, 0, 0] + [0, 0, 0, 0, 0, 0, 0, 0x13])

  lemma FirstOfEqualKeysBytes()
    ensures EQUAL_KEYS == Small([0xD2, 0x01, 0x01, 0x02, 0x03, 0x51, 0x61, 0x10, 0x01, 0x10, 0x02],
      [0x08, 0x0D, 0x0F, 0x11], 0)
  {
  }

  lemma EqualKeysParts()
    ensures var objects, table: seq<byte> :=
        [0xD2, 0x01, 0x01, 0x02, 0x03, 0x51, 0x61, 0x10, 0x01, 0x10, 0x02], [0x08, 0x0D, 0x0F, 0x11];
      var data, t := Small(objects, table, 0), SmallTrailer(objects, table, 0);
      && Layout(data, t) && ParseAt(data, t, 8) == Refs(KDict, 9, 4)
      && RefTarget(data, t, 9) == RefTarget(data, t, 10) == 13
      && RefTarget(data, t, 11) == 15 && RefTarget(data, t, 12) == 17
      && Describes(data, t, 13, PString([0x61]))
      && Describes(data, t, 15, PInt(1)) && Describes(data, t, 17, PInt(2))
  {
    hide Small, Describes, ParseAt, RefTarget;
    var objects: seq<byte> := [0xD2, 0x01, 0x01, 0x02, 0x03, 0x51, 0x61, 0x10, 0x01, 0x10, 0x02];
    var table: seq<byte> := [0x08, 0x0D, 0x0F, 0x11];
    SmallTrailerRead(objects, table, 0);
    SmallParts(objects, table, 0);
    assert Small(objects, table, 0)[8 + 0] == objects[0];
    CountedReadAs(Small(objects, table, 0), SmallTrailer(objects, table, 0), 8, 2, 9);
    ByteObject(objects, table, 0, 5);
    ByteObject(objects, table, 0, 7);
    ByteObject(objects, table, 0, 9);
    SmallRef(objects, table, 0, 1);
    SmallRef(objects, table, 0, 2);
    SmallRef(objects, table, 0, 3);
    SmallRef(objects, table, 0, 4);
  }

  lemma FirstOfEqualKeys()
    ensures ParseOutcome(EQUAL_KEYS) == Value(PDict(map[PString([0x61]) := PInt(1)]))
  {
    hide Small, ParseOutcome, Describes, ParseAt, RefTarget;
    var objects: seq<byte> := [0xD2, 0x01, 0x01, 0x02, 0x03, 0x51, 0x61, 0x10, 0x01, 0x10, 0x02];
    var table: seq<byte> := [0x08, 0x0D, 0x0F, 0x11];
    FirstOfEqualKeysBytes();
    EqualKeysParts();
    var data, t := Small(objects, table, 0), SmallTrailer(objects, table, 0);
    FourParts(data, t, PString([0x61]), PInt(1), PInt(2));
    SmallOutcome(objects, table, 0, PDict(map[PString([0x61]) := PInt(1)]));
  }

  lemma FourParts(data: seq<byte>, t: Trailer, a: Plist, b: Plist, c: Plist)
    requires Layout(data, t) && 8 < t.tableOffset && t.refSize == 1 && ParseAt(data, t, 8) == Refs(KDict, 9, 4)
    requires RefTarget(data, t, 9) == RefTarget(data, t, 10) == 13
    requires RefTarget(data, t, 11) == 15 && RefTarget(data, t, 12) == 17
    requires Describes(data, t, 13, a) && Describes(data, t, 15, b) && Describes(data, t, 17, c) && a.PString?
    ensures Describes(data, t, 8, PDict(map[a := b]))
  {
    hide Describes, ParseAt, RefTarget;
    var ps, v := [a, a, b, c], PDict(map[a := b]);
    assert MadeOf(data, t, 8, ps, 4);
    assert ps[..2] == [a, a] && ps[2..] == [b, c];
    assert [a, a][0] == [a, a][1] && !FirstAt([a, a], 1);
    assert Assembled(KDict, ps, v);
    DescribesStep(data, t, 8, v);
  }

  // ---------- a set ----------

  // A set of 7 and 7.
  const SET_OF_SEVEN: seq<byte> :=
    [0x62, 0x70, 0x6C, 0x69, 0x73, 0x74, 0x30, 0x30]
    + [0xC2, 0x01, 0x01, 0x10, 0x07]
    + [0x08, 0x0B]
    + ([0, 0, 0, 0, 0, 0, 1, 1] + [0, 0, 0, 0, 0, 0, 0, 2]
       + [0, 0, 0, 0, 0, 0, 0, 0] + [0, 0, 0, 0, 0, 0, 0, 0x0D])

  lemma SetReadBytes()
    ensures SET_OF_SEVEN == Small([0xC2, 0x01, 0x01, 0x10, 0x07], [0x08, 0x0B], 0)
  {
  }

  lemma SetRead()
    ensures ParseOutcome(SET_OF_SEVEN) == Value(PSet({PInt(7)}))
  {
    hide Small, ParseOutcome, Describes, ParseAt, RefTarget;
    var objects: seq<byte> := [0xC2, 0x01, 0x01, 0x10, 0x07];
    var table: seq<byte> := [0x08, 0x0B];
    SetReadBytes();
    var data, t := Small(objects, table, 0), SmallTrailer(objects, table, 0);
    SmallTrailerRead(objects, table, 0);
    SmallParts(objects, table, 0);
    assert data[8 + 0] == objects[0];
    CountedReadAs(data, t, 8, 2, 9);
    ByteObject(objects, table, 0, 3);
    SmallRef(objects, table, 0, 1);
    SmallRef(objects, table, 0, 2);
    var ps, v := [PInt(7), PInt(7)], PSet({PInt(7)});
    assert MadeOf(data, t, 8, ps, 2);
    assert Assembled(KSet, ps, v);
    DescribesStep(data, t, 8, v);
    SmallOutcome(objects, table, 0, v);
  }

  // ---------- a file that is written ----------

  // A dictionary of "a" to 200.
  const WRITTEN: seq<byte> :=
    [0x62, 0x70, 0x6C, 0x69, 0x73, 0x74, 0x30, 0x30]
    + [0xD1, 0x01, 0x02, 0x51, 0x61, 0x10, 0xC8]
    + [0x08, 0x0B, 0x0D]
    + ([0, 0, 0, 0, 0, 0, 1, 1] + [0, 0, 0, 0, 0, 0, 0, 3]
       + [0, 0, 0, 0, 0, 0, 0, 0] + [0, 0, 0, 0, 0, 0, 0, 0x0F])

  const GRAPH := ODict(1, [Entry(OString(2, [0x61]), OInt(3, 200))])

  lemma WrittenFile()
    ensures FileBytes(GRAPH) == WRITTEN
  {
    hide ObjectBytes, OffsetTable, TrailerBytes, Flatten, ObjectTable, FileOf, Ending;
    var o, a, b := GRAPH, OString(2, [0x61]), OInt(3, 200);
    assert Children(o) == [a, b];
    PairFlattens(o, a, b);
    var s := PairFlat(o, a, b);
    GraphBytes(s.table);
    CountSizeThree();
    ObjectTableOf(s, o, a, b);
    OffsetsOf(s);
    BodyIs(s);
    WrittenLiteral();
  }

  // And it is read as that dictionary.
  lemma WrittenFileRead()
    ensures FitsFormat(GRAPH) && ParseOutcome(WRITTEN) == Value(PDict(map[PString([0x61]) := PInt(200)]))
  {
    hide FileOf, ParseOutcome, Faults, Flatten, ObjectBytes, All;
    var o, a, b := GRAPH, OString(2, [0x61]), OInt(3, 200);
    assert Children(o) == [a, b];
    PairFlattens(o, a, b);
    WrittenFile();
    PairAll(o, a, b, Writable);
    PairAll(o, a, b, PrimitiveKeys);
    SmallFileKept(o);
    WrittenOutcome(o);
    GraphDenotes();
  }

  lemma GraphDenotes()
    ensures Denote(GRAPH, true) == PDict(map[PString([0x61]) := PInt(200)])
  {
    var all := DenoteAll(GRAPH, 2, true);
    assert all == [PString([0x61]), PInt(200)];
    assert all[..1] == [PString([0x61])] && all[1..] == [PInt(200)];
    FirstWinsStep(all[..1], all[1..]);
    assert all[..1][..0] == [];
  }

  lemma BodyIs(s: Flat)
    requires |s.list| == 3
    requires ObjectTable(s.list, 3, s.table, 1) == [0xD1, 0x01, 0x02] + [0x51, 0x61] + [0x10, 0xC8]
    requires OffsetTable(s.list, 3, s.table, 1, 1) == [0x08, 0x0B, 0x0D]
    ensures FileOf(s) == BEGIN + ([0xD1, 0x01, 0x02] + [0x51, 0x61] + [0x10, 0xC8]) + [0x08, 0x0B, 0x0D] +
      Ending(3, 0, 15)
  {
    hide ObjectTable, OffsetTable, TrailerBytes;
    EndingIs();
    assert |BodyBytes(s)| == 15;
  }

  lemma WrittenLiteral()
    ensures BEGIN + ([0xD1, 0x01, 0x02] + [0x51, 0x61] + [0x10, 0xC8]) + [0x08, 0x0B, 0x0D] + Ending(3, 0, 15) ==
      WRITTEN
  {
    assert [0xD1, 0x01, 0x02] + [0x51, 0x61] + [0x10, 0xC8] == [0xD1, 0x01, 0x02, 0x51, 0x61, 0x10, 0xC8];
  }

  lemma GraphBytes(table: map<Obj, nat>)
    requires OString(2, [0x61]) in table && table[OString(2, [0x61])] == 1
    requires OInt(3, 200) in table && table[OInt(3, 200)] == 2
    ensures ObjectBytes(GRAPH, table, 1) == [0xD1, 0x01, 0x02]
    ensures ObjectBytes(OString(2, [0x61]), table, 1) == [0x51, 0x61]
    ensures ObjectBytes(OInt(3, 200), table, 1) == [0x10, 0xC8]
  {
    hide ObjectBytes;
    var a, b := OString(2, [0x61]), OInt(3, 200);
    WrittenAs(GRAPH, table, 1);
    WrittenAs(a, table, 1);
    WrittenAs(b, table, 1);
    assert DictList(GRAPH.entries) == [a, b];
    OneByte(1);
    OneByte(2);
    assert RefBytes([a, b][..1], table, 1) == RefBytes([a], table, 1) == [] + BigEndian(1, 1) by {
      assert [a, b][..1] == [a] && [a][..0] == [];
    }
    assert RefBytes([a, b], table, 1) == RefBytes([a], table, 1) + BigEndian(2, 1);
  }

  lemma OneByte(b: byte)
    ensures BigEndian(b, 1) == [b]
  {
    assert BigEndian(b / 256, 0) == [];
  }

  lemma ObjectTableOf(s: Flat, o: Obj, a: Obj, b: Obj)
    requires s.list == [o, a, b]
    ensures ObjectTable(s.list, 0, s.table, 1) == []
    ensures ObjectTable(s.list, 1, s.table, 1) == ObjectBytes(o, s.table, 1)
    ensures ObjectTable(s.list, 2, s.table, 1) == ObjectBytes(o, s.table, 1) + ObjectBytes(a, s.table, 1)
    ensures ObjectTable(s.list, 3, s.table, 1)
         == ObjectBytes(o, s.table, 1) + ObjectBytes(a, s.table, 1) + ObjectBytes(b, s.table, 1)
  {
    hide ObjectBytes;
    assert ObjectTable(s.list, 1, s.table, 1) == [] + ObjectBytes(o, s.table, 1);
    assert ObjectTable(s.list, 2, s.table, 1) == ObjectTable(s.list, 1, s.table, 1) + ObjectBytes(a, s.table, 1);
  }

  lemma OffsetsOf(s: Flat)
    requires |s.list| == 3
    requires |ObjectTable(s.list, 0, s.table, 1)| == 0 && |ObjectTable(s.list, 1, s.table, 1)| == 3
    requires |ObjectTable(s.list, 2, s.table, 1)| == 5
    ensures OffsetTable(s.list, 3, s.table, 1, 1) == [0x08, 0x0B, 0x0D]
  {
    hide ObjectTable;
    OneByte(8);
    OneByte(11);
    OneByte(13);
    assert OffsetTable(s.list, 1, s.table, 1, 1) == [] + BigEndian(8, 1);
    assert OffsetTable(s.list, 2, s.table, 1, 1) == OffsetTable(s.list, 1, s.table, 1, 1) + BigEndian(11, 1);
    assert OffsetTable(s.list, 3, s.table, 1, 1) == OffsetTable(s.list, 2, s.table, 1, 1) + BigEndian(13, 1);
  }

  lemma Eight(b: byte)
    ensures BigEndian(b, 8) == [0, 0, 0, 0, 0, 0, 0, b]
  {
    assert BigEndian(0, 4) == [0, 0, 0, 0];
    assert BigEndian(0, 7) == BigEndian(0, 4) + [0, 0, 0];
  }

  lemma EndingIs()
    ensures TrailerBytes(1, 1, 3, 15) == Ending(3, 0, 15)
  {
    Eight(3);
    Eight(0);
    Eight(15);
  }
}
