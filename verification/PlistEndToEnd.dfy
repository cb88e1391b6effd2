// From an object graph to a file and back: when the reader gives the property list, refuses the
// file, or stops the program.
module PlistEndToEnd {
  import opened SizedInts
  import opened PlistObjects
  import opened PlistFormat
  import opened PlistFlatten
  import opened PlistParse
  import opened PlistLayout
  import opened PlistObjectRead
  import opened PlistReading
  import opened PlistRoundTrip
  import PlistReader
  import PlistWriter
  import ArrayDeque

  // ---------- what the reader can keep ----------

  // The reader can put an object into its cache where the writer placed it, and can build it.
  ghost predicate Keepable(s: Flat, o: Obj) {
    && o in s.table && s.table[o] < |s.list|
    && (!o.OBool? ==> !Reserved(OffsetOf(s.list, s.table[o], s.table, CountSize(|s.list|))))
    && (IsContainer(o) ==> !TooMany(KindOf(o), |Children(o)|))
  }

  ghost predicate AllKept(s: Flat, o: Obj)
    decreases o
  {
    Keepable(s, o) && forall i :: 0 <= i < |Children(o)| ==> AllKept(s, Children(o)[i])
  }

  // Of the graph with this root, when it is written.
  ghost predicate KeptWhole(o: Obj) {
    AllKept(Flatten(o, EMPTY_FLAT), o)
  }

  lemma ConstantIsBool(o: Obj)
    requires Writable(o) && !IsContainer(o)
    ensures Constant(Denote(o, true)) <==> o.OBool?
  {
  }

  // Of what describes a value, all can be cached and built exactly when the writer placed it so.
  lemma {:induction false} WrittenClean(s: Flat, o: Obj, n: nat)
    requires Prepared(s) && Layout(FileOf(s), WrittenTrailer(s)) && o in s.table
    requires Consistent(s) && Unfold(FileOf(s), WrittenTrailer(s), OffsetOfObj(s, o), n).Some?
    ensures Clean(FileOf(s), WrittenTrailer(s), OffsetOfObj(s, o), n) <==> AllKept(s, o)
    decreases o
  {
    hide ObjectBytes, FileOf, ParseAt, RefTarget, At, RefBytes, Prepared, Denote, TooMany, Reserved, UnfoldRefs, Build;
    WrittenObject(s, o);
    var data, t, off := FileOf(s), WrittenTrailer(s), OffsetOfObj(s, o);
    if IsContainer(o) {
      ContainerRead(data, t, off, o, s.table);
      var Refs(kind, ptr, count) := ParseAt(data, t, off);
      var n' := n - 1;
      forall i: nat | i < count ensures ChildClean(data, t, ptr, i, n') <==> AllKept(s, Children(o)[i]) {
        RefsNeedEach(data, t, ptr, count, KeyCount(kind, count), n', i);
        RefRead(s, o, ptr, i);
        WrittenClean(s, Children(o)[i], n');
      }
      if AllKept(s, o) {
        assert RefsClean(data, t, ptr, count, n');
      } else if Clean(data, t, off, n) {
        assert RefsClean(data, t, ptr, count, n');
        var i :| Keepable(s, o) ==> 0 <= i < |Children(o)| && !AllKept(s, Children(o)[i]);
        assert Keepable(s, o) ==> ChildClean(data, t, ptr, i, n');
      }
    } else {
      LeafRead(data, t, off, o, s.table);
      ConstantIsBool(o);
    }
  }

  // Nothing that the reader can keep stops it, whether it describes a value or not.
  lemma {:induction false} KeptNeverStops(s: Flat, o: Obj, path: set<nat>, depth: nat)
    requires Prepared(s) && Layout(FileOf(s), WrittenTrailer(s)) && o in s.table && Consistent(s) && AllKept(s, o)
    requires PathFits(FileOf(s), WrittenTrailer(s), path, depth) && depth <= 16 + |s.list|
    requires InTable(FileOf(s), WrittenTrailer(s), OffsetOfObj(s, o))
    ensures ReadAt(FileOf(s), WrittenTrailer(s), OffsetOfObj(s, o), path, depth) != Stopped
    decreases o, 1
  {
    hide ObjectBytes, FileOf, ParseAt, RefTarget, At, RefBytes, Prepared, Denote, TooMany, Reserved, ReadRefs, Build,
      PathFits, Slot, KeyCount, KindOf, OffsetOf, CountSize;
    WrittenObject(s, o);
    var data, t, off := FileOf(s), WrittenTrailer(s), OffsetOfObj(s, o);
    if IsContainer(o) {
      ContainerRead(data, t, off, o, s.table);
      if off !in path {
        var Refs(kind, ptr, count) := ParseAt(data, t, off);
        DeeperFits(data, t, path, off, depth);
        KeptRefs(s, o, ptr, count, Deeper(path, off, depth), depth + 1);
      }
    } else {
      LeafRead(data, t, off, o, s.table);
      ConstantIsBool(o);
    }
  }

  lemma {:induction false} KeptRefs(s: Flat, o: Obj, ptr: nat, k: nat, path: set<nat>, depth: nat)
    requires Prepared(s) && Layout(FileOf(s), WrittenTrailer(s)) && Consistent(s) && AllKept(s, o)
    requires IsContainer(o) && HasChildren(o, |Children(o)|, s) && k <= |Children(o)| && 8 <= ptr
    requires PathFits(FileOf(s), WrittenTrailer(s), path, depth) && depth <= 16 + |s.list|
    requires At(FileOf(s), ptr, RefBytes(Children(o), s.table, CountSize(|s.list|)))
    requires Slot(ptr, |Children(o)|, CountSize(|s.list|)) <= WrittenTrailer(s).tableOffset
    ensures ReadRefs(FileOf(s), WrittenTrailer(s), ptr, k, KeyCount(KindOf(o), |Children(o)|), path, depth) != Stopped
    decreases o, 0, k
  {
    hide ObjectBytes, FileOf, RefTarget, At, RefBytes, Prepared, Denote, ReadAt, PathFits, OffsetOfObj, KeyCount,
      KindOf, Keepable, Slot, Consistent;
    if k > 0 {
      KeptRefs(s, o, ptr, k - 1, path, depth);
      RefRead(s, o, ptr, k - 1);
      TargetInTable(FileOf(s), WrittenTrailer(s), Slot(ptr, k - 1, WrittenTrailer(s).refSize));
      KeptNeverStops(s, Children(o)[k - 1], path, depth);
    }
  }

  lemma SmallContainer(kind: Kind, ptr: nat, count: nat, refSize: nat, end: nat)
    requires Slot(ptr, count, refSize) <= end < 0x1FFF_FFFC && refSize >= 1
    ensures !TooMany(kind, count)
  {
    MulMonotone(1, refSize, count);
  }

  lemma SmallKeepable(s: Flat, o: Obj)
    requires Prepared(s) && o in s.table && Consistent(s) && WrittenTrailer(s).tableOffset < 0x1FFF_FFFC
    ensures Keepable(s, o)
  {
    hide ObjectBytes, FileOf, ParseAt, RefTarget, At, RefBytes, Prepared, Denote, CountSize, OffsetOf, TooMany, Slot;
    WrittenObject(s, o);
    var data, t, off := FileOf(s), WrittenTrailer(s), OffsetOfObj(s, o);
    if IsContainer(o) {
      ContainerRead(data, t, off, o, s.table);
      var Refs(kind, ptr, count) := ParseAt(data, t, off);
      SmallContainer(kind, ptr, count, t.refSize, t.tableOffset);
    }
  }

  // Whatever is written into less than half a gigabyte can be kept.
  lemma {:induction false} SmallKept(s: Flat, o: Obj)
    requires Prepared(s) && o in s.table && Consistent(s) && WrittenTrailer(s).tableOffset < 0x1FFF_FFFC
    ensures AllKept(s, o)
    decreases o
  {
    hide Keepable, Prepared, FileOf, ObjectBytes, Consistent, WrittenTrailer;
    SmallKeepable(s, o);
    WrittenObject(s, o);
    forall i | 0 <= i < |Children(o)| ensures AllKept(s, Children(o)[i]) {
      SmallKept(s, Children(o)[i]);
    }
  }

  lemma SmallFileKept(o: Obj)
    requires FitsFormat(o) && All(o, Writable) && |FileBytes(o)| < 0x1FFF_FFFC
    ensures KeptWhole(o)
  {
    hide FileOf, ObjectBytes, ObjectTable, Flatten, OffsetTable;
    var s := Flatten(o, EMPTY_FLAT);
    FlattenPrepared(o);
    FlattenRoot(o);
    FileParts(s);
    SmallKept(s, o);
  }

  // ---------- the main results ----------

  // ---------- the first fault ----------

  // What can keep the reader from an object: a container as a key, or a halt.
  datatype Fault = ContainerKey | Halt

  function OneHalt(halts: bool): (fs: seq<Fault>)
    ensures Halt in fs <==> halts
    ensures ContainerKey !in fs && (fs == [] || fs[0] == Halt)
  {
    if halts then [Halt] else []
  }

  function OneKey(refused: bool): (fs: seq<Fault>)
    ensures ContainerKey in fs <==> refused
    ensures Halt !in fs && (fs == [] || fs[0] == ContainerKey)
  {
    if refused then [ContainerKey] else []
  }

  predicate AtReserved(s: Flat, o: Obj) {
    o in s.table && s.table[o] < |s.list| && Reserved(OffsetOf(s.list, s.table[o], s.table, CountSize(|s.list|)))
  }

  // The child is a key and a container.
  predicate KeyAt(o: Obj, i: nat)
    requires i < |Children(o)|
  {
    i < KeyCount(KindOf(o), |Children(o)|) && IsContainer(Children(o)[i])
  }

  /** The faults of a written object in the order in which the reader meets them.  A container that
      goes on the record of the path halts before its children are read, any other after. */
  function Faults(s: Flat, o: Obj, depth: nat): seq<Fault>
    decreases o, 1
  {
    if IsContainer(o) then
      OneHalt(depth > 15 && AtReserved(s, o)) + ChildFaults(s, o, |Children(o)|, depth + 1)
      + OneHalt(TooMany(KindOf(o), |Children(o)|) || AtReserved(s, o))
    else OneHalt(!o.OBool? && AtReserved(s, o))
  }

  function ChildFaults(s: Flat, o: Obj, k: nat, depth: nat): seq<Fault>
    requires k <= |Children(o)|
    decreases o, 0, k
  {
    if k == 0 then []
    else
      ChildFaults(s, o, k - 1, depth) + Faults(s, Children(o)[k - 1], depth)
      + OneKey(KeyAt(o, k - 1))
  }

  function Decided<T>(fs: seq<Fault>, v: T): (r: Outcome<T>)
    ensures r.Value? ==> r.v == v
  {
    if fs == [] then Value(v) else if fs[0] == ContainerKey then Refused else Stopped
  }

  // There are halts exactly where something cannot be kept, and refusals exactly where some key is a
  // container.
  lemma {:induction false} FaultsMean(s: Flat, o: Obj, depth: nat)
    requires Consistent(s) && ClosedFrom(s, 0) && o in s.table
    ensures Halt in Faults(s, o, depth) <==> !AllKept(s, o)
    ensures ContainerKey in Faults(s, o, depth) <==> !AllPrimitiveKeys(o)
    decreases o, 1
  {
    hide TooMany, Reserved, OffsetOf, CountSize, ChildFaults;
    if IsContainer(o) {
      assert s.list[s.table[o]] == o;
      ChildFaultsMean(s, o, |Children(o)|, depth + 1);
      KeysAreChildren(o);
    }
  }

  lemma {:induction false} ChildFaultsMean(s: Flat, o: Obj, k: nat, depth: nat)
    requires Consistent(s) && ClosedFrom(s, 0) && HasChildren(o, |Children(o)|, s) && k <= |Children(o)|
    ensures Halt in ChildFaults(s, o, k, depth) <==> exists i :: 0 <= i < k && !AllKept(s, Children(o)[i])
    ensures ContainerKey in ChildFaults(s, o, k, depth) <==>
      exists i :: 0 <= i < k && (!AllPrimitiveKeys(Children(o)[i]) || KeyAt(o, i))
    decreases o, 0, k
  {
    hide AllKept, AllPrimitiveKeys, Faults, Consistent, ClosedFrom, KeyAt, OneKey;
    if k > 0 {
      ChildFaultsMean(s, o, k - 1, depth);
      FaultsMean(s, Children(o)[k - 1], depth);
    }
  }

  lemma KeysAreChildren(o: Obj)
    requires IsContainer(o)
    ensures PrimitiveKeys(o) <==> forall i :: 0 <= i < |Children(o)| ==> !KeyAt(o, i)
  {
    if o.ODict? {
      forall e | e in o.entries && (forall i :: 0 <= i < |Children(o)| ==> !KeyAt(o, i))
        ensures !e.key.OArray? && !e.key.ODict?
      {
        var i :| 0 <= i < |o.entries| && o.entries[i] == e;
        assert Children(o)[i] == e.key && !KeyAt(o, i);
      }
      forall i | 0 <= i < |Children(o)| && PrimitiveKeys(o) ensures !KeyAt(o, i) {
        if i < |o.entries| {
          assert o.entries[i] in o.entries && Children(o)[i] == o.entries[i].key;
        }
      }
    }
  }

  // The path leads down to the object: what is on it contains the object.
  ghost predicate PathAbove(s: Flat, path: set<nat>, o: Obj)
    requires Consistent(s)
  {
    forall a :: a in path ==> exists p :: p in s.table && OffsetOfObj(s, p) == a && o < p
  }

  lemma OffsetsDiffer(s: Flat, p: Obj, o: Obj)
    requires Prepared(s) && p in s.table && o in s.table && s.table[p] < s.table[o]
    ensures OffsetOfObj(s, p) < OffsetOfObj(s, o)
  {
    hide ObjectBytes, ObjectTable, FileOf, ClosedFrom, CountSize;
    var refSize, i := CountSize(|s.list|), s.table[p];
    ObjectTableStep(s, i, refSize);
    WritableNotEmpty(s.list[i], s.table, refSize);
    OffsetsIncrease(s, i + 1, s.table[o], refSize);
  }

  lemma OffsetsDistinct(s: Flat, p: Obj, o: Obj)
    requires Prepared(s) && Consistent(s) && p in s.table && o in s.table && OffsetOfObj(s, p) == OffsetOfObj(s, o)
    ensures p == o
  {
    hide OffsetOfObj, Prepared;
    if s.table[p] < s.table[o] {
      OffsetsDiffer(s, p, o);
    } else if s.table[o] < s.table[p] {
      OffsetsDiffer(s, o, p);
    }
  }

  lemma NotOnPath(s: Flat, path: set<nat>, o: Obj)
    requires Prepared(s) && Consistent(s) && o in s.table && PathAbove(s, path, o)
    ensures OffsetOfObj(s, o) !in path
  {
    hide OffsetOfObj, Prepared, Consistent;
    if OffsetOfObj(s, o) in path {
      var p :| p in s.table && OffsetOfObj(s, p) == OffsetOfObj(s, o) && o < p;
      OffsetsDistinct(s, p, o);
    }
  }

  lemma PathDeeper(s: Flat, path: set<nat>, o: Obj, depth: nat)
    requires Consistent(s) && o in s.table && PathAbove(s, path, o)
    ensures forall i :: 0 <= i < |Children(o)| ==>
      PathAbove(s, Deeper(path, OffsetOfObj(s, o), depth), Children(o)[i])
  {
    hide OffsetOfObj, Consistent;
    forall i | 0 <= i < |Children(o)|
      ensures PathAbove(s, Deeper(path, OffsetOfObj(s, o), depth), Children(o)[i])
    {
      var c := Children(o)[i];
      forall a | a in Deeper(path, OffsetOfObj(s, o), depth)
        ensures exists p :: p in s.table && OffsetOfObj(s, p) == a && c < p
      {
        if a in path {
          var p :| p in s.table && OffsetOfObj(s, p) == a && o < p;
          assert c < p;
        }
      }
    }
  }

  // Reading a written object, the first of its faults decides, and without any it is read as what it
  // denotes.
  lemma {:induction false} FirstFaultDecides(s: Flat, o: Obj, path: set<nat>, depth: nat)
    requires Prepared(s) && Layout(FileOf(s), WrittenTrailer(s)) && o in s.table && Consistent(s)
    requires PathFits(FileOf(s), WrittenTrailer(s), path, depth) && depth <= 16 + |s.list|
    requires InTable(FileOf(s), WrittenTrailer(s), OffsetOfObj(s, o)) && PathAbove(s, path, o)
    ensures ReadAt(FileOf(s), WrittenTrailer(s), OffsetOfObj(s, o), path, depth)
         == Decided(Faults(s, o, depth), Denote(o, true))
    decreases o, 1
  {
    hide ObjectBytes, FileOf, ParseAt, RefTarget, At, RefBytes, Prepared, Denote, TooMany, Reserved, ReadRefs, Build,
      PathFits, PathAbove, ChildFaults, Decided, OneHalt;
    WrittenObject(s, o);
    NotOnPath(s, path, o);
    var data, t, off := FileOf(s), WrittenTrailer(s), OffsetOfObj(s, o);
    if IsContainer(o) {
      ContainerRead(data, t, off, o, s.table);
      var Refs(kind, ptr, count) := ParseAt(data, t, off);
      DeeperFits(data, t, path, off, depth);
      PathDeeper(s, path, o, depth);
      FirstChildDecides(s, o, ptr, count, Deeper(path, off, depth), depth + 1);
      BuildDenotes(o);
      ContainerDecided(s, o, depth);
      ContainerDenotes(o);
    } else {
      LeafRead(data, t, off, o, s.table);
      ConstantIsBool(o);
      LeafDecided(s, o);
    }
  }

  lemma ContainerDenotes(o: Obj)
    requires IsContainer(o)
    ensures !Constant(Denote(o, true))
  {
  }

  lemma LeafDecided(s: Flat, o: Obj)
    requires !IsContainer(o)
    ensures forall depth: nat ::
      Decided(Faults(s, o, depth), Denote(o, true))
      == if !o.OBool? && AtReserved(s, o) then Stopped else Value(Denote(o, true))
  {
  }

  lemma ContainerDecided(s: Flat, o: Obj, depth: nat)
    requires IsContainer(o)
    ensures Decided(Faults(s, o, depth), Denote(o, true))
         == if depth > 15 && AtReserved(s, o) then Stopped
            else
              match Decided(ChildFaults(s, o, |Children(o)|, depth + 1), DenoteAll(o, |Children(o)|, true))
              case Value(_) =>
                if TooMany(KindOf(o), |Children(o)|) || AtReserved(s, o) then Stopped else Value(Denote(o, true))
              case Refused => Refused
              case Stopped => Stopped
  {
    hide TooMany, AtReserved, ChildFaults, Denote, DenoteAll;
  }

  lemma {:induction false} FirstChildDecides(s: Flat, o: Obj, ptr: nat, k: nat, path: set<nat>, depth: nat)
    requires Prepared(s) && Layout(FileOf(s), WrittenTrailer(s)) && Consistent(s)
    requires IsContainer(o) && HasChildren(o, |Children(o)|, s) && k <= |Children(o)| && 8 <= ptr
    requires PathFits(FileOf(s), WrittenTrailer(s), path, depth) && depth <= 16 + |s.list|
    requires forall i :: 0 <= i < |Children(o)| ==> PathAbove(s, path, Children(o)[i])
    requires At(FileOf(s), ptr, RefBytes(Children(o), s.table, CountSize(|s.list|)))
    requires Slot(ptr, |Children(o)|, CountSize(|s.list|)) <= WrittenTrailer(s).tableOffset
    ensures ReadRefs(FileOf(s), WrittenTrailer(s), ptr, k, KeyCount(KindOf(o), |Children(o)|), path, depth)
         == Decided(ChildFaults(s, o, k, depth), DenoteAll(o, k, true))
    decreases o, 0, k
  {
    hide ObjectBytes, FileOf, RefTarget, At, RefBytes, Prepared, Denote, ReadAt, PathFits, OffsetOfObj, KeyCount,
      KindOf, Slot, Consistent, Faults, PathAbove, Primitive, ChildFaults, Decided, DenoteAll, OneKey,
      IsContainer, ReadRefs;
    var data, t := FileOf(s), WrittenTrailer(s);
    ChildDecided(s, o, k, depth);
    ReadRefsStep(data, t, ptr, k, KeyCount(KindOf(o), |Children(o)|), path, depth);
    if k > 0 {
      var c := Children(o)[k - 1];
      FirstChildDecides(s, o, ptr, k - 1, path, depth);
      RefRead(s, o, ptr, k - 1);
      TargetInTable(FileOf(s), WrittenTrailer(s), Slot(ptr, k - 1, WrittenTrailer(s).refSize));
      FirstFaultDecides(s, c, path, depth);
      PrimitiveUnlessContainer(c);
      assert RefTarget(data, t, Slot(ptr, k - 1, t.refSize)) == OffsetOfObj(s, c);
    }
  }

  lemma ReadRefsStep(data: seq<byte>, t: Trailer, ptr: nat, k: nat, keys: nat, path: set<nat>, depth: nat)
    requires Layout(data, t) && PathFits(data, t, path, depth) && depth <= 16 + t.numObjects
    ensures k == 0 ==> ReadRefs(data, t, ptr, k, keys, path, depth) == Value([])
    ensures k > 0 ==> InTable(data, t, RefTarget(data, t, Slot(ptr, k - 1, t.refSize)))
    ensures k > 0 ==>
         ReadRefs(data, t, ptr, k, keys, path, depth)
         == match ReadRefs(data, t, ptr, k - 1, keys, path, depth)
            case Refused => Refused
            case Stopped => Stopped
            case Value(ps) =>
              match ReadAt(data, t, RefTarget(data, t, Slot(ptr, k - 1, t.refSize)), path, depth)
              case Refused => Refused
              case Stopped => Stopped
              case Value(p) => if k - 1 < keys && !Primitive(p) then Refused else Value(ps + [p])
  {
    hide ReadAt, RefTarget, Slot, PathFits, Primitive;
    if k > 0 {
      TargetInTable(data, t, Slot(ptr, k - 1, t.refSize));
    }
  }

  lemma ChildDecided(s: Flat, o: Obj, k: nat, depth: nat)
    requires k <= |Children(o)|
    ensures Decided(ChildFaults(s, o, k, depth), DenoteAll(o, k, true))
         == if k == 0 then Value([])
            else
              match Decided(ChildFaults(s, o, k - 1, depth), DenoteAll(o, k - 1, true))
              case Refused => Refused
              case Stopped => Stopped
              case Value(ps) =>
                match Decided(Faults(s, Children(o)[k - 1], depth), Denote(Children(o)[k - 1], true))
                case Refused => Refused
                case Stopped => Stopped
                case Value(p) =>
                  if k - 1 < KeyCount(KindOf(o), |Children(o)|) && IsContainer(Children(o)[k - 1]) then Refused
                  else Value(ps + [p])
  {
    hide Faults, Denote, KeyCount, KindOf, IsContainer, Children;
  }

  lemma PrimitiveUnlessContainer(o: Obj)
    ensures Primitive(Denote(o, true)) <==> !IsContainer(o)
  {
  }

  // Reading a written file, the first fault in the order of reading decides.  So it gives the property
  // list when all keys are primitive and everything can be kept, stops the program when only the
  // keys are in order, and refuses the file when only they are not.
  lemma WrittenOutcome(o: Obj)
    requires FitsFormat(o) && All(o, Writable)
    ensures ParseOutcome(FileBytes(o)) == Decided(Faults(Flatten(o, EMPTY_FLAT), o, 0), Denote(o, true))
    ensures AllPrimitiveKeys(o) ==>
      ParseOutcome(FileBytes(o)) == if KeptWhole(o) then Value(Denote(o, true)) else Stopped
    ensures !AllPrimitiveKeys(o) ==> !ParseOutcome(FileBytes(o)).Value?
    ensures !AllPrimitiveKeys(o) && KeptWhole(o) ==> ParseOutcome(FileBytes(o)) == Refused
  {
    hide FileOf, ObjectBytes, ObjectTable, Flatten, TopOffset, TrailerOf, Accepted, Denote, ReadAt, AllKept, Faults,
      AllPrimitiveKeys;
    var s := Flatten(o, EMPTY_FLAT);
    FlattenPrepared(o);
    FlattenRoot(o);
    WrittenAccepted(s);
    TrailerRead(s);
    RoomForAll(s);
    TopInTable(s, o);
    FirstFaultDecides(s, o, {}, 0);
    FaultsMean(s, o, 0);
    FirstIsOne(Faults(s, o, 0));
  }

  lemma FirstIsOne(fs: seq<Fault>)
    ensures fs != [] ==> fs[0] in fs
    ensures Halt !in fs && ContainerKey !in fs ==> fs == []
  {
    if fs != [] {
      assert fs[0] in fs && (fs[0] == Halt || fs[0] == ContainerKey);
    }
  }

  lemma RoomForAll(s: Flat)
    requires |s.list| <= ArrayDeque.MAX_COUNT
    ensures WrittenTrailer(s).numObjects <= TABLE_ROOM
  {
  }

  lemma TopInTable(s: Flat, o: Obj)
    requires Prepared(s) && Layout(FileOf(s), WrittenTrailer(s)) && o in s.table && Consistent(s)
    ensures InTable(FileOf(s), WrittenTrailer(s), OffsetOfObj(s, o))
  {
    hide FileOf, ObjectBytes, ObjectTable;
    EntryRead(s, s.table[o]);
  }

  // The writer fails on an object the format does not have, the reader on a container as a
  // dictionary key, and where it cannot keep an object it stops; everything else comes back, and it
  // comes back unchanged exactly when no 128-bit integer needs more than 64 unsigned bits.
  method WriteThenRead(o: Obj, streamIsData: bool) returns (result: Outcome<Plist>)
    requires FitsFormat(o)
    ensures !All(o, Writable) ==> result == Refused
    ensures All(o, Writable) && AllPrimitiveKeys(o) ==>
      result == if KeptWhole(o) then Value(Denote(o, true)) else Stopped
    ensures All(o, Writable) ==> result == Decided(Faults(Flatten(o, EMPTY_FLAT), o, 0), Denote(o, true))
    ensures All(o, Writable) && !AllPrimitiveKeys(o) ==> !result.Value? && (KeptWhole(o) ==> result == Refused)
    ensures All(o, DistinctKeys) ==>
      (result == Value(Denote(o, false)) <==>
        All(o, Writable) && AllPrimitiveKeys(o) && KeptWhole(o) && All(o, FitsUnsigned64))
  {
    hide Denote, KeptWhole, FileBytes, Accepted, ParseOutcome, PlistReading.DescribesTop, Faults, Flatten, Decided;
    ListedIffReachable(o, Writable);
    if All(o, DistinctKeys) && AllPrimitiveKeys(o) {
      NarrowingExact(o);
    }
    var length, stream := PlistWriter.WritePlist(o, streamIsData);
    if length == 0 {
      return Refused;
    }
    WrittenOutcome(o);
    result := PlistReader.TryParse(stream);
  }
}
