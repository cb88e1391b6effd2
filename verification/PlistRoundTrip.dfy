// Reading what was written: the writer's file describes the property list of its object
// graph, exactly when no dictionary in it has a container for a key.
module PlistRoundTrip {
  import opened SizedInts
  import opened PlistObjects
  import opened PlistFormat
  import opened PlistFlatten
  import opened PlistParse
  import opened PlistLayout
  import opened PlistObjectRead
  import PlistReading

  // Where the writer put an object.
  function OffsetOfObj(s: Flat, o: Obj): nat
    requires Consistent(s) && o in s.table
  {
    OffsetOf(s.list, s.table[o], s.table, CountSize(|s.list|))
  }

  // Each reference leads to the object it was written for.
  lemma RefRead(s: Flat, o: Obj, ptr: nat, i: nat)
    requires Prepared(s) && Layout(FileOf(s), WrittenTrailer(s))
    requires i < |Children(o)| && Children(o)[i] in s.table
    requires 8 <= ptr
    requires At(FileOf(s), ptr, RefBytes(Children(o), s.table, CountSize(|s.list|)))
    requires Slot(ptr, |Children(o)|, CountSize(|s.list|)) <= WrittenTrailer(s).tableOffset
    ensures RefTarget(FileOf(s), WrittenTrailer(s), Slot(ptr, i, CountSize(|s.list|)))
         == OffsetOfObj(s, Children(o)[i])
  {
    hide ObjectBytes, ObjectTable, FileOf, BigEndian, SizedInt, RefBytes;
    var refSize, data, t := CountSize(|s.list|), FileOf(s), WrittenTrailer(s);
    var ref := s.table[Children(o)[i]];
    RefBytesAt(data, ptr, Children(o), s.table, refSize, i);
    CountSizeFits(|s.list|);
    SizedIntRoundTrip(ref, refSize);
    MulMonotone(0, i, refSize);
    MulMonotone(i + 1, |Children(o)|, refSize);
    assert (i + 1) * refSize == i * refSize + refSize;
    EntryRead(s, ref);
  }

  // What is known of a listed object's bytes in the file.
  lemma WrittenObject(s: Flat, o: Obj)
    requires Prepared(s) && o in s.table
    ensures Consistent(s)
    ensures Layout(FileOf(s), WrittenTrailer(s))
    ensures ObjectLies(FileOf(s), WrittenTrailer(s), OffsetOfObj(s, o),
                       ObjectBytes(o, s.table, CountSize(|s.list|)))
    ensures Writable(o) && HasChildren(o, |Children(o)|, s)
  {
    hide ObjectBytes, ObjectTable, FileOf, At;
    var i := s.table[o];
    EntryRead(s, i);
    FileParts(s);
    WritableNotEmpty(o, s.table, CountSize(|s.list|));
  }

  ghost predicate AllPrimitiveKeys(o: Obj) {
    All(o, PrimitiveKeys)
  }

  // Everything the format can hold reads back, with 128-bit integers cut to their low half.
  lemma {:induction false} ReadsBack(s: Flat, o: Obj)
    requires Prepared(s) && Layout(FileOf(s), WrittenTrailer(s))
    requires o in s.table && AllPrimitiveKeys(o)
    ensures Describes(FileOf(s), WrittenTrailer(s), OffsetOfObj(s, o), Denote(o, true))
    decreases o, 1
  {
    hide ObjectBytes, FileOf, ParseAt, RefTarget, At, RefBytes, OffsetOfObj, Prepared;
    WrittenObject(s, o);
    var data, t, off := FileOf(s), WrittenTrailer(s), OffsetOfObj(s, o);
    if IsContainer(o) {
      ContainerRead(data, t, off, o, s.table);
      var Refs(kind, ptr, count) := ParseAt(data, t, off);
      RefsReadBack(s, o, ptr, count);
      BuildDescribes(data, t, off, DenoteAll(o, count, true));
      BuildDenotes(o);
    } else {
      LeafRead(data, t, off, o, s.table);
      assert Unfold(data, t, off, 1) == Some(Denote(o, true));
    }
  }

  lemma BuildDenotes(o: Obj)
    requires IsContainer(o)
    ensures Build(KindOf(o), DenoteAll(o, |Children(o)|, true)) == Denote(o, true)
  {
    hide FirstWins, DenoteAll;
    if o.ODict? {
      assert |Children(o)| / 2 == |o.entries|;
    }
  }

  lemma KeyIsPrimitive(o: Obj, i: nat)
    requires IsContainer(o) && PrimitiveKeys(o)
    requires i < KeyCount(KindOf(o), |Children(o)|)
    ensures Primitive(Denote(Children(o)[i], true))
  {
    assert Children(o)[i] == o.entries[i].key;
  }

  lemma {:induction false} RefsReadBack(s: Flat, o: Obj, ptr: nat, k: nat)
    requires Prepared(s) && Layout(FileOf(s), WrittenTrailer(s))
    requires IsContainer(o) && AllPrimitiveKeys(o) && HasChildren(o, |Children(o)|, s)
    requires k <= |Children(o)| && 8 <= ptr
    requires At(FileOf(s), ptr, RefBytes(Children(o), s.table, CountSize(|s.list|)))
    requires Slot(ptr, |Children(o)|, CountSize(|s.list|)) <= WrittenTrailer(s).tableOffset
    ensures RefsDescribe(FileOf(s), WrittenTrailer(s), ptr, k, KeyCount(KindOf(o), |Children(o)|),
      DenoteAll(o, k, true))
    decreases o, 0, k
  {
    hide ObjectBytes, FileOf, ParseAt, RefTarget, At, RefBytes, OffsetOfObj, Prepared, Denote,
      RefsDescribe, Describes, Layout, CountSize, Slot, PrimitiveKeys;
    var data, t := FileOf(s), WrittenTrailer(s);
    var keys := KeyCount(KindOf(o), |Children(o)|);
    if k == 0 {
      NoRefs(data, t, ptr, keys);
    } else {
      var c := Children(o)[k - 1];
      RefsReadBack(s, o, ptr, k - 1);
      RefRead(s, o, ptr, k - 1);
      ReadsBack(s, c);
      if k - 1 < keys {
        KeyIsPrimitive(o, k - 1);
      }
      ExtendRefs(data, t, ptr, k - 1, keys, DenoteAll(o, k - 1, true), Denote(c, true));
    }
  }

  // A dictionary with a container for a key, wherever it is, makes the file unreadable.
  lemma {:induction false} ContainerKeyUnreadable(s: Flat, o: Obj)
    requires Prepared(s) && Layout(FileOf(s), WrittenTrailer(s))
    requires o in s.table && !AllPrimitiveKeys(o)
    ensures DescribesNothing(FileOf(s), WrittenTrailer(s), OffsetOfObj(s, o))
    decreases o
  {
    hide ObjectBytes, FileOf, ParseAt, RefTarget, At, RefBytes, OffsetOfObj, Prepared, Denote,
      RefsDescribe, Describes, Layout, CountSize, Slot, PrimitiveKeys;
    WrittenObject(s, o);
    var data, t, off := FileOf(s), WrittenTrailer(s), OffsetOfObj(s, o);
    var i := BadChild(o);
    ContainerRead(data, t, off, o, s.table);
    RefRead(s, o, ParseAt(data, t, off).ptr, i);
    var c := Children(o)[i];
    if AllPrimitiveKeys(c) {
      ReadsBack(s, c);
      ContainerNotPrimitive(c);
      FailedChild(data, t, off, i, true, Denote(c, true));
    } else {
      ContainerKeyUnreadable(s, c);
      FailedChild(data, t, off, i, false, PNull);
    }
  }

  lemma ContainerNotPrimitive(o: Obj)
    requires IsContainer(o)
    ensures !Primitive(Denote(o, true))
  {
  }

  // Some child is to blame: it has the fault itself, or it is a key and a container.
  lemma BadChild(o: Obj) returns (i: nat)
    requires !AllPrimitiveKeys(o)
    ensures IsContainer(o) && i < |Children(o)|
    ensures !AllPrimitiveKeys(Children(o)[i])
      || (i < KeyCount(KindOf(o), |Children(o)|) && IsContainer(Children(o)[i]))
  {
    if !PrimitiveKeys(o) {
      var e :| e in o.entries && (e.key.OArray? || e.key.ODict?);
      i :| 0 <= i < |o.entries| && o.entries[i] == e;
      assert Children(o)[i] == e.key;
    } else {
      i :| 0 <= i < |Children(o)| && !All(Children(o)[i], PrimitiveKeys);
    }
  }

  // ---------- the main results ----------

  lemma FlattenPrepared(o: Obj)
    requires FitsFormat(o) && All(o, Writable)
    ensures Prepared(Flatten(o, EMPTY_FLAT))
  {
    FlattenRoot(o);
    ListedIffReachable(o, Writable);
  }

  // The reader accepts every file the writer makes, and what the file describes is the property
  // list of the object graph when every dictionary key is primitive, and nothing otherwise.
  lemma WrittenFileDescribes(o: Obj)
    requires FitsFormat(o) && All(o, Writable)
    ensures Accepted(FileBytes(o))
    ensures AllPrimitiveKeys(o) ==> PlistReading.DescribesTop(FileBytes(o), Denote(o, true))
    ensures !AllPrimitiveKeys(o) ==> forall v :: !PlistReading.DescribesTop(FileBytes(o), v)
  {
    hide FileOf, ObjectBytes, ObjectTable, Flatten, TopOffset, TrailerOf, Accepted;
    var s := Flatten(o, EMPTY_FLAT);
    FlattenPrepared(o);
    FlattenRoot(o);
    WrittenAccepted(s);
    TrailerRead(s);
    if AllPrimitiveKeys(o) {
      ReadsBack(s, o);
    } else {
      ContainerKeyUnreadable(s, o);
    }
  }

  // ---------- what is lost ----------

  ghost predicate Distinct(ks: seq<Plist>) {
    forall i, j :: 0 <= i < j < |ks| ==> ks[i] != ks[j]
  }

  // Of keys that all differ, each keeps its value.
  lemma {:induction false} FirstWinsDistinct(ks: seq<Plist>, vs: seq<Plist>, i: nat)
    requires |ks| == |vs| && i < |ks| && Distinct(ks)
    ensures ks[i] in FirstWins(ks, vs) && FirstWins(ks, vs)[ks[i]] == vs[i]
    decreases |ks|
  {
    var n := |ks| - 1;
    if i < n {
      FirstWinsDistinct(ks[..n], vs[..n], i);
    } else if ks[n] in FirstWins(ks[..n], vs[..n]) {
      FirstWinsKeys(ks[..n], vs[..n], ks[n]);
    }
  }

  lemma {:induction false} FirstWinsKeys(ks: seq<Plist>, vs: seq<Plist>, k: Plist)
    requires |ks| == |vs| && k in FirstWins(ks, vs)
    ensures exists i :: 0 <= i < |ks| && ks[i] == k
    decreases |ks|
  {
    if ks != [] {
      var n := |ks| - 1;
      if k != ks[n] {
        FirstWinsKeys(ks[..n], vs[..n], k);
        var i :| 0 <= i < n && ks[..n][i] == k;
        assert ks[i] == k;
      }
    }
  }

  lemma {:induction false} SameDenotation(o: Obj, k: nat)
    requires k <= |Children(o)|
    requires forall i :: 0 <= i < k ==> Denote(Children(o)[i], true) == Denote(Children(o)[i], false)
    ensures DenoteAll(o, k, true) == DenoteAll(o, k, false)
    decreases k
  {
    if k > 0 {
      SameDenotation(o, k - 1);
    }
  }

  // The low 64 bits are the whole of an object exactly when every 128-bit integer in it is an
  // unsigned 64-bit one.
  lemma {:induction false} NarrowingExact(o: Obj)
    requires All(o, DistinctKeys) && All(o, PrimitiveKeys)
    ensures Denote(o, true) == Denote(o, false) <==> All(o, FitsUnsigned64)
    decreases o
  {
    hide FirstWins;
    forall i | 0 <= i < |Children(o)|
      ensures Denote(Children(o)[i], true) == Denote(Children(o)[i], false) <==> All(Children(o)[i], FitsUnsigned64)
    {
      NarrowingExact(Children(o)[i]);
    }
    if o.OInt128? {
      InRangeMod(o.wide);
    } else if All(o, FitsUnsigned64) {
      SameDenotation(o, |Children(o)|);
    } else {
      var i :| 0 <= i < |Children(o)| && !All(Children(o)[i], FitsUnsigned64);
      if o.OArray? {
        assert Denote(o, true).elems[i] != Denote(o, false).elems[i];
      } else {
        DictDiffers(o, i);
      }
    }
  }

  lemma InRangeMod(w: int128)
    ensures w % UINT64_LIMIT == w <==> 0 <= w < UINT64_LIMIT
  {
  }

  // A difference in a key or a value shows in the dictionary.
  lemma DictDiffers(o: Obj, i: nat)
    requires o.ODict? && DistinctKeys(o) && PrimitiveKeys(o) && i < |Children(o)|
    requires Denote(Children(o)[i], true) != Denote(Children(o)[i], false)
    ensures Denote(o, true) != Denote(o, false)
  {
    hide FirstWins, Primitive, PrimitiveKeys, Denote;
    var n := |o.entries|;
    if i < n {
      assert Children(o)[i] == o.entries[i].key;
      KeyDiffers(o, i);
    } else if j :| 0 <= j < n && Denote(o.entries[j].key, true) != Denote(o.entries[j].key, false) {
      KeyDiffers(o, j);
    } else {
      assert Children(o)[i] == o.entries[i - n].value;
      ValueDiffers(o, i - n);
    }
  }

  lemma WideKeysDistinct(o: Obj)
    requires o.ODict? && DistinctKeys(o)
    ensures Distinct(DenoteAll(o, 2 * |o.entries|, false)[..|o.entries|])
  {
    hide Denote;
    var n, wide := |o.entries|, DenoteAll(o, 2 * |o.entries|, false);
    forall i, j | 0 <= i < j < n ensures wide[..n][i] != wide[..n][j] {
      assert wide[i] == Denote(o.entries[i].key, false) && wide[j] == Denote(o.entries[j].key, false);
    }
  }

  lemma KeyDiffers(o: Obj, j: nat)
    requires o.ODict? && DistinctKeys(o) && PrimitiveKeys(o) && j < |o.entries|
    requires Denote(o.entries[j].key, true) != Denote(o.entries[j].key, false)
    ensures Denote(o, true) != Denote(o, false)
  {
    hide FirstWins, PrimitiveKeys, DistinctKeys;
    var n := |o.entries|;
    var narrow, wide := DenoteAll(o, 2 * n, true), DenoteAll(o, 2 * n, false);
    var k := Denote(o.entries[j].key, false);
    WideKeysDistinct(o);
    FirstWinsDistinct(wide[..n], wide[n..], j);
    assert Children(o)[j] == o.entries[j].key;
    KeyLost(o, j);
    if k in FirstWins(narrow[..n], narrow[n..]) {
      FirstWinsKeys(narrow[..n], narrow[n..], k);
    }
    assert k in Denote(o, false).entries && k !in Denote(o, true).entries;
  }

  lemma ValueDiffers(o: Obj, i: nat)
    requires o.ODict? && DistinctKeys(o) && i < |o.entries|
    requires forall j :: 0 <= j < |o.entries| ==> Denote(o.entries[j].key, true) == Denote(o.entries[j].key, false)
    requires Denote(o.entries[i].value, true) != Denote(o.entries[i].value, false)
    ensures Denote(o, true) != Denote(o, false)
  {
    hide FirstWins, DistinctKeys;
    var n := |o.entries|;
    var narrow, wide := DenoteAll(o, 2 * n, true), DenoteAll(o, 2 * n, false);
    WideKeysDistinct(o);
    forall j | 0 <= j < n ensures narrow[j] == wide[j] {
      assert Children(o)[j] == o.entries[j].key;
    }
    assert narrow[..n] == wide[..n];
    FirstWinsDistinct(wide[..n], wide[n..], i);
    FirstWinsDistinct(narrow[..n], narrow[n..], i);
    assert Children(o)[n + i] == o.entries[i].value;
    assert Denote(o, false).entries[wide[i]] != Denote(o, true).entries[wide[i]];
  }

  // A key that narrowing changes is the narrowed form of no key.
  lemma KeyLost(o: Obj, i: nat)
    requires o.ODict? && DistinctKeys(o) && PrimitiveKeys(o) && i < |o.entries|
    requires Denote(o.entries[i].key, true) != Denote(o.entries[i].key, false)
    ensures Denote(o.entries[i].key, false) !in DenoteAll(o, 2 * |o.entries|, true)[..|o.entries|]
  {
    var n := |o.entries|;
    var k := o.entries[i].key;
    assert o.entries[i] in o.entries;
    forall j | 0 <= j < n ensures Denote(o.entries[j].key, true) != Denote(k, false) {
      var kj := o.entries[j].key;
      assert o.entries[j] in o.entries;
      if j < i {
        assert Denote(kj, false) != Denote(k, false);
      } else if i < j {
        assert Denote(k, false) != Denote(kj, false);
      }
    }
    var narrow := DenoteAll(o, 2 * n, true);
    forall j | 0 <= j < n ensures narrow[..n][j] != Denote(k, false) {
      assert Children(o)[j] == o.entries[j].key;
    }
  }
}
