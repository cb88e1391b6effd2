// Inputs at which writing and reading again does not give the same property list.
module PlistWitnesses {
  import opened SizedInts
  import opened PlistObjects
  import opened PlistFormat
  import opened PlistParse
  import opened PlistLayout
  import opened PlistObjectRead
  import opened PlistReading
  import opened PlistRoundTrip
  import opened PlistEndToEnd

  // ---------- graphs that the writer takes ----------

  // What flattening makes of a container with two different leaves.
  function PairFlat(o: Obj, a: Obj, b: Obj): Flat {
    Enlist(b, Enlist(a, Enlist(o, EMPTY_FLAT)))
  }

  predicate IsPair(o: Obj, a: Obj, b: Obj) {
    && IsContainer(o) && Children(o) == [a, b] && Children(a) == Children(b) == []
    && o != a && o != b && a != b
  }

  lemma PairFlattens(o: Obj, a: Obj, b: Obj)
    requires IsPair(o, a, b)
    ensures Flatten(o, EMPTY_FLAT) == PairFlat(o, a, b)
    ensures PairFlat(o, a, b).list == [o, a, b]
    ensures PairFlat(o, a, b).table == map[o := 0, a := 1, b := 2]
  {
    assert !Uniqued(o);
    var s := Enlist(o, EMPTY_FLAT);
    assert FlattenChildren(o, 1, s) == Flatten(a, FlattenChildren(o, 0, s)) == Enlist(a, s);
    assert FlattenChildren(o, 2, s) == Flatten(b, Enlist(a, s)) == Enlist(b, Enlist(a, s));
  }

  // Where the three objects lie, and how long the file is.
  lemma PairLies(o: Obj, a: Obj, b: Obj)
    requires IsPair(o, a, b)
    ensures var s := PairFlat(o, a, b);
      var x, y, z := |ObjectBytes(o, s.table, 1)|, |ObjectBytes(a, s.table, 1)|, |ObjectBytes(b, s.table, 1)|;
      && OffsetOf(s.list, 0, s.table, 1) == 8
      && OffsetOf(s.list, 1, s.table, 1) == 8 + x
      && OffsetOf(s.list, 2, s.table, 1) == 8 + x + y
      && |FileOf(s)| <= 64 + x + y + z
  {
    hide ObjectBytes, OffsetTable, TrailerBytes, FileOf;
    PairFlattens(o, a, b);
    var s := PairFlat(o, a, b);
    CountSizeThree();
    ObjectTableStep(s, 0, 1);
    ObjectTableStep(s, 1, 1);
    ObjectTableStep(s, 2, 1);
    FileParts(s);
    MulMonotone(CountSize(|BodyBytes(s)|), 8, 3);
  }

  lemma CountSizeThree()
    ensures CountSize(3) == 1
  {
  }

  // An array for a key: the file is refused.
  const ARRAY_KEY := ODict(1, [Entry(OArray(2, []), OBool(true))])

  lemma ContainerKeyFails()
    ensures FitsFormat(ARRAY_KEY) && All(ARRAY_KEY, Writable) && !AllPrimitiveKeys(ARRAY_KEY)
    ensures ParseOutcome(FileBytes(ARRAY_KEY)) == Refused
  {
    hide FileOf, ParseOutcome, Faults, Flatten, ObjectBytes, All;
    var o, a, b := ARRAY_KEY, OArray(2, []), OBool(true);
    assert o.entries[0] in o.entries;
    assert Children(o) == [a, b];
    PairAll(o, a, b, Writable);
    PairAll(o, a, b, PrimitiveKeys);
    PairFlattens(o, a, b);
    PairLies(o, a, b);
    ArrayKeySizes(PairFlat(o, a, b).table);
    SmallFileKept(o);
    WrittenOutcome(o);
  }

  lemma ArrayKeySizes(table: map<Obj, nat>)
    ensures |ObjectBytes(ARRAY_KEY, table, 1)| == 3
    ensures |ObjectBytes(OArray(2, []), table, 1)| == |ObjectBytes(OBool(true), table, 1)| == 1
  {
  }

  // 2^64 comes back as 0.
  const WIDE := OInt128(1, UINT64_LIMIT)

  lemma WideIntegerFails()
    ensures FitsFormat(WIDE) && All(WIDE, Writable) && AllPrimitiveKeys(WIDE)
    ensures Denote(WIDE, false) == PInt(UINT64_LIMIT)
    ensures ParseOutcome(FileBytes(WIDE)) == Value(PInt(0))
  {
    hide FileOf, ParseOutcome, Faults, ObjectBytes;
    WideLies();
    SmallFileKept(WIDE);
    WrittenOutcome(WIDE);
  }

  lemma WideLies()
    ensures Flatten(WIDE, EMPTY_FLAT).list == [WIDE] && |FileBytes(WIDE)| <= 65
  {
    hide OffsetTable, TrailerBytes, FileOf;
    var s := Flatten(WIDE, EMPTY_FLAT);
    assert s == Enlist(WIDE, EMPTY_FLAT);
    ObjectTableStep(s, 0, CountSize(1));
    FileParts(s);
    MulMonotone(CountSize(|BodyBytes(s)|), 8, 1);
  }

  // An array of a piece of data and the integer 7.
  function DataAndInteger(n: nat): Obj {
    OArray(1, [DataOf(n), OInt(3, 7)])
  }

  function DataOf(n: nat): Obj {
    OData(2, seq(n, _ => 0))
  }

  // The data can be such that the integer lies at a reserved offset.  Then, and only then, the
  // written file stops the program.
  lemma UnkeptGraphStops(n: nat)
    requires 0x1_0000 <= n < UINT32_LIMIT
    ensures var o := DataAndInteger(n);
      && FitsFormat(o) && All(o, Writable) && AllPrimitiveKeys(o)
      && (KeptWhole(o) <==> n != 0xa5baadb9 - 17 && n != 0xa7baadb1 - 17)
      && ParseOutcome(FileBytes(o))
         == if n == 0xa5baadb9 - 17 || n == 0xa7baadb1 - 17 then Stopped else Value(Denote(o, true))
  {
    hide FileOf, ParseOutcome, Faults, Flatten, ObjectBytes, DataOf, OffsetOf, Denote;
    var o, a, b := DataAndInteger(n), DataOf(n), OInt(3, 7);
    DataIs(n);
    assert Children(o) == [a, b];
    PairFlattens(o, a, b);
    PairLies(o, a, b);
    DataSizes(n, PairFlat(o, a, b).table);
    CountSizeThree();
    PairAll(o, a, b, Writable);
    PairAll(o, a, b, PrimitiveKeys);
    PairKept(o, a, b);
    WrittenOutcome(o);
  }

  lemma DataIs(n: nat)
    ensures DataOf(n).OData? && Children(DataOf(n)) == []
  {
  }

  lemma DataSizes(n: nat, table: map<Obj, nat>)
    requires 0x1_0000 <= n < UINT32_LIMIT
    ensures |ObjectBytes(DataAndInteger(n), table, 1)| == 3
    ensures |ObjectBytes(DataOf(n), table, 1)| == n + 6
    ensures |ObjectBytes(OInt(3, 7), table, 1)| == 2
  {
    assert |IntBytes(n)| == 5;
  }

  lemma PairKept(o: Obj, a: Obj, b: Obj)
    requires IsPair(o, a, b) && !a.OBool? && !b.OBool? && !IsContainer(a) && !IsContainer(b)
    requires Flatten(o, EMPTY_FLAT) == PairFlat(o, a, b) && CountSize(3) == 1
    requires PairFlat(o, a, b).list == [o, a, b] && PairFlat(o, a, b).table == map[o := 0, a := 1, b := 2]
    ensures var s := PairFlat(o, a, b);
      KeptWhole(o) <==>
        && !Reserved(OffsetOf(s.list, 0, s.table, 1))
        && !Reserved(OffsetOf(s.list, 1, s.table, 1))
        && !Reserved(OffsetOf(s.list, 2, s.table, 1))
  {
    hide Flatten, OffsetOf, Reserved, PairFlat;
    var s := PairFlat(o, a, b);
    assert Children(o)[0] == a && Children(o)[1] == b;
    assert AllKept(s, o) <==> Keepable(s, o) && AllKept(s, a) && AllKept(s, b);
    assert AllKept(s, a) <==> Keepable(s, a);
    assert AllKept(s, b) <==> Keepable(s, b);
  }

  lemma PairAll(o: Obj, a: Obj, b: Obj, p: Obj -> bool)
    requires IsPair(o, a, b)
    ensures All(o, p) <==> p(o) && p(a) && p(b)
  {
    assert Children(o)[0] == a && Children(o)[1] == b;
    assert All(a, p) <==> p(a);
    assert All(b, p) <==> p(b);
  }

  // ---------- a file with one object ----------

  // A file with one object, the integer 7, at the offset given, and zeros before it.
  function OneInteger(at: nat): seq<byte>
    requires 8 <= at < 0x1_0000_0000 - 2
  {
    HEADER + seq(at - 8, _ => 0) + [MARKER_INT, 7] + BigEndian(at, 4) + TrailerBytes(4, 1, 1, at + 2)
  }

  lemma OneIntegerParts(at: nat)
    requires 8 <= at < 0x1_0000_0000 - 2
    ensures var data := OneInteger(at);
      && |data| == at + 6 + TRAILER_SIZE && At(data, 0, HEADER) && At(data, at, [MARKER_INT, 7])
      && At(data, at + 2, BigEndian(at, 4)) && At(data, at + 6, TrailerBytes(4, 1, 1, at + 2))
  {
    var data, a, b, c, d, e := OneInteger(at), HEADER, seq(at - 8, _ => 0 as byte), [MARKER_INT, 7 as byte],
      BigEndian(at, 4), TrailerBytes(4, 1, 1, at + 2);
    assert data == a + b + c + d + e && At(data, 0, a + b + c + d + e);
    AtConcat(data, 0, a + b + c + d, e);
    AtConcat(data, 0, a + b + c, d);
    AtConcat(data, 0, a + b, c);
    AtConcat(data, 0, a, b);
  }

  lemma OneIntegerAccepted(at: nat)
    requires 8 <= at < 0x1_0000_0000 - 2
    ensures Accepted(OneInteger(at)) && TopOffset(OneInteger(at)) == at
    ensures TrailerOf(OneInteger(at)) == Trailer(4, 1, 1, 0, at + 2)
    ensures |OneInteger(at)| >= TRAILER_SIZE && Layout(OneInteger(at), TrailerOf(OneInteger(at)))
    ensures ParseAt(OneInteger(at), TrailerOf(OneInteger(at)), at) == Leaf(PInt(7))
  {
    hide OneInteger, BigEndian, TrailerBytes, SizedInt;
    var data, t := OneInteger(at), Trailer(4, 1, 1, 0, at + 2);
    Pow256Values();
    OneIntegerParts(at);
    TrailerParses(data, t);
    SizedIntRoundTrip(at, 4);
    SizedIntPair(7, 0);
    assert data[at + 2..at + 6] == BigEndian(at, 4);
    assert data[at..at + 2] == [MARKER_INT, 7];
    assert data[at + 1..at + 2] == [7];
    assert data[at] == data[at..at + 2][0];
    assert data[..7] == data[0..8][..7] == HEADER[..7];
  }

  // At one of the two reserved offsets it describes 7 and stops the program; at others it is read.
  lemma ReservedOffsetStops(at: nat)
    requires 8 <= at < 0x1_0000_0000 - 2
    ensures Accepted(OneInteger(at)) && PlistReading.DescribesTop(OneInteger(at), PInt(7))
    ensures ParseOutcome(OneInteger(at)) == if at == 0xa5baadb9 || at == 0xa7baadb1 then Stopped else Value(PInt(7))
  {
    hide OneInteger, ParseAt, TrailerOf, TopOffset, Accepted;
    var data := OneInteger(at);
    OneIntegerAccepted(at);
    assert Unfold(data, TrailerOf(data), at, 1) == Some(PInt(7));
  }
}
