// The binary property list reader: the trailer check, and the recursive construction of
// objects with its cache and its record of the path.
module PlistReader {
  import opened SizedInts
  import opened PlistObjects
  import opened PlistFormat
  import opened PlistParse
  import opened PlistReading
  import opened PlistBytes

  // ---------- the trailer check ----------

  // Reads the trailer and checks every size and every offset in the file.
  method GetTopLevelInfo(data: seq<byte>) returns (ok: bool, marker: byte, offset: nat, trailer: Trailer)
    requires |data| < UINT64_LIMIT
    ensures ok <==> Accepted(data)
    ensures ok ==> trailer == TrailerOf(data) && offset == TopOffset(data) && marker == data[offset]
    ensures ok ==>
      EndsWith(data, trailer.intSize, trailer.refSize, trailer.numObjects, trailer.topObject, trailer.tableOffset)
    ensures ok ==>
      offset == BigValue(Part(data, Slot(trailer.tableOffset, trailer.topObject, trailer.intSize), trailer.intSize))
                % 0x1_0000_0000_0000_0000
  {
    hide EndsWith, Part, BigValue;
    ok, marker, offset, trailer := false, 0, 0, Trailer(0, 0, 0, 0, 0);
    if |data| < TRAILER_SIZE + 8 + 1 { return; }
    if data[..7] != HEADER[..7] { return; }
    var trail := TrailerOf(data);
    var sizesOK := CheckSizes(data, trail);
    if !sizesOK { return; }
    var offsetsOK := CheckOffsets(data, trail);
    if !offsetsOK { return; }
    EntryInside(data, trail, trail.topObject);
    var off := GetSizedInt(data, trail.tableOffset + trail.topObject * trail.intSize, trail.intSize);
    if off < 8 || trail.tableOffset <= off { return; }
    TrailerIs(data, trail.intSize, trail.refSize, trail.numObjects, trail.topObject, trail.tableOffset);
    EntryIs(data, trail, trail.topObject);
    return true, data[off], off, trail;
  }

  // The checks on the trailer's numbers, in the reader's order.
  method CheckSizes(data: seq<byte>, trail: Trailer) returns (ok: bool)
    requires TRAILER_SIZE <= |data| < UINT64_LIMIT
    ensures ok <==>
      && Layout(data, trail)
      && trail.topObject < trail.numObjects < Pow256(trail.refSize)
      && trail.tableOffset < Pow256(trail.intSize)
  {
    if LONG_MAX < trail.numObjects { return false; }
    if LONG_MAX < trail.tableOffset { return false; }
    if trail.numObjects < 1 { return false; }
    if trail.numObjects <= trail.topObject { return false; }
    if trail.tableOffset < 9 { return false; }
    if |data| - TRAILER_SIZE <= trail.tableOffset {
      TableNotEmpty(data, trail);
      return false;
    }
    if trail.intSize < 1 { return false; }
    if trail.refSize < 1 { return false; }
    var offsetTableSize := trail.numObjects * trail.intSize;
    MulMonotone(1, trail.numObjects, trail.intSize);
    if UINT64_LIMIT <= offsetTableSize { return false; }
    if offsetTableSize < 1 { return false; }
    var tmpSum := 8 + (trail.tableOffset - 8);
    tmpSum := tmpSum + offsetTableSize;
    tmpSum := tmpSum + TRAILER_SIZE;
    if UINT64_LIMIT <= tmpSum { return false; }
    if |data| != tmpSum { return false; }
    if trail.refSize < 8 && Pow256(trail.refSize) <= trail.numObjects { return false; }
    if trail.intSize < 8 && Pow256(trail.intSize) <= trail.tableOffset { return false; }
    WideSizesFit(trail);
    return true;
  }

  method CheckOffsets(data: seq<byte>, trail: Trailer) returns (ok: bool)
    requires Layout(data, trail)
    ensures ok <==> EntriesInRange(data, trail)
  {
    var maxOffset := trail.tableOffset - 1;
    var bytesptr := trail.tableOffset;
    for idx := 0 to trail.numObjects
      invariant bytesptr == trail.tableOffset + idx * trail.intSize
      invariant forall i :: 0 <= i < idx ==> TableEntry(data, trail, i) < trail.tableOffset
    {
      EntryInside(data, trail, idx);
      var off := GetSizedInt(data, bytesptr, trail.intSize);
      assert off == TableEntry(data, trail, idx);
      if maxOffset < off { return false; }
      bytesptr := bytesptr + trail.intSize;
    }
    return true;
  }

  lemma TableNotEmpty(data: seq<byte>, t: Trailer)
    requires |data| >= TRAILER_SIZE
    requires |data| - TRAILER_SIZE <= t.tableOffset
    ensures !Layout(data, t)
  {
    if Layout(data, t) {
      MulMonotone(1, t.numObjects, t.intSize);
    }
  }

  // From eight bytes on, every count and offset the trailer can hold fits.
  lemma WideSizesFit(t: Trailer)
    requires t.numObjects <= LONG_MAX && t.tableOffset <= LONG_MAX
    ensures t.refSize >= 8 ==> t.numObjects < Pow256(t.refSize)
    ensures t.intSize >= 8 ==> t.tableOffset < Pow256(t.intSize)
  {
    Pow256Values();
    if t.refSize >= 8 { Pow256Monotone(8, t.refSize); }
    if t.intSize >= 8 { Pow256Monotone(8, t.intSize); }
  }

  // ---------- the recursion ----------

  // The offsets on the way down to the object being read.
  class PathSet {
    var elems: set<nat>

    constructor ()
      ensures elems == {}
    {
      elems := {};
    }
  }

  class Reader {
    const data: seq<byte>
    const t: Trailer
    var objects: map<nat, Plist>

    ghost predicate Trusted() {
      Layout(data, t)
    }

    // Every cached object is what its bytes describe, and nothing in it could not be cached.
    ghost predicate CacheOK()
      requires Trusted()
      reads this
    {
      forall off :: off in objects ==> Settled(data, t, off, objects[off])
    }

    ghost function Elems(path: PathSet?): set<nat>
      reads path
    {
      if path == null then {} else path.elems
    }

    // The path down to the object at off, which the objects on it need.
    ghost predicate PathOK(path: PathSet?, off: nat, curDepth: nat)
      requires Trusted()
      reads path
    {
      && (path != null ==> curDepth > 16)
      && PathFits(data, t, Elems(path), curDepth) && PathBelow(data, t, Elems(path), off)
    }

    constructor (data: seq<byte>, t: Trailer)
      ensures this.data == data && this.t == t && objects == map[]
    {
      this.data := data;
      this.t := t;
      objects := map[];
    }

    // It is in the cache, so that it will not be read again, unless it is a constant.
    predicate Remembered(off: nat, v: Plist)
      reads this
    {
      v == PNull || v.PBool? || (off in objects && objects[off] == v)
    }

    // Reads the object at startOffset.  Whatever the cache already holds, the outcome is that of
    // reading without one; and this is never entered deeper than 16 levels plus the size of the
    // object table.
    method CreateObject(startOffset: nat, path: PathSet?, curDepth: nat) returns (outcome: Outcome<Plist>)
      requires Trusted() && CacheOK()
      requires PathOK(path, startOffset, curDepth) && InTable(data, t, startOffset)
      requires curDepth <= 16 + t.numObjects
      modifies this, path
      ensures CacheOK()
      ensures outcome == ReadAt(data, t, startOffset, old(Elems(path)), curDepth)
      ensures outcome.Value? && path != null ==> path.elems == old(path.elems)
      ensures outcome.Value? ==> Remembered(startOffset, outcome.v)
      decreases 16 + t.numObjects - curDepth, 1
    {
      hide Unfold, Clean, ReadRefs, PathFits, PathBelow, Below, ParseAt;
      if startOffset in objects {
        CachedReads(startOffset, Elems(path), curDepth);
        return Value(objects[startOffset]);
      }
      if path != null && startOffset in path.elems {
        return Refused;
      }
      if startOffset < 8 || t.tableOffset <= startOffset {
        return Refused;
      }
      match ParseAt(data, t, startOffset) {
        case Corrupt =>
          return Refused;
        case Leaf(v) =>
          outcome := ReadLeaf(startOffset, v, Elems(path), curDepth);
        case Refs(kind, ptr, count) =>
          outcome := CreateContainer(startOffset, path, curDepth, kind, ptr, count);
      }
    }

    // The constants are not cached.
    method ReadLeaf(startOffset: nat, v: Plist, ghost path: set<nat>, ghost curDepth: nat)
      returns (outcome: Outcome<Plist>)
      requires Trusted() && CacheOK() && 8 <= startOffset < t.tableOffset && ParseAt(data, t, startOffset) == Leaf(v)
      requires PathFits(data, t, path, curDepth) && InTable(data, t, startOffset) && curDepth <= 16 + t.numObjects
      requires startOffset !in path
      modifies this
      ensures CacheOK() && outcome == ReadAt(data, t, startOffset, path, curDepth)
      ensures outcome.Value? ==> Remembered(startOffset, outcome.v)
    {
      hide Unfold, Clean, ReadRefs, PathFits, ParseAt;
      if v == PNull || v.PBool? {
        return Value(v);
      }
      outcome := Keep(startOffset, v, path, curDepth);
    }

    lemma CachedReads(off: nat, path: set<nat>, depth: nat)
      requires Trusted() && CacheOK() && off in objects
      requires PathFits(data, t, path, depth) && PathBelow(data, t, path, off) && InTable(data, t, off)
      requires depth <= 16 + t.numObjects
      ensures ReadAt(data, t, off, path, depth) == Value(objects[off])
    {
      hide Unfold, Clean, ReadAt;
      assert Settled(data, t, off, objects[off]);
      var n: nat :| Unfold(data, t, off, n) == Some(objects[off]) && Clean(data, t, off, n);
      SettledReads(data, t, off, path, depth, n);
    }

    method CreateContainer(startOffset: nat, path: PathSet?, curDepth: nat, kind: Kind, ptr: nat, count: nat)
      returns (outcome: Outcome<Plist>)
      requires Trusted() && CacheOK()
      requires PathOK(path, startOffset, curDepth) && InTable(data, t, startOffset)
      requires startOffset !in Elems(path)
      requires 8 <= startOffset < t.tableOffset && ParseAt(data, t, startOffset) == Refs(kind, ptr, count)
      requires curDepth <= 16 + t.numObjects
      modifies this, path
      ensures CacheOK()
      ensures outcome == ReadAt(data, t, startOffset, old(Elems(path)), curDepth)
      ensures outcome.Value? && path != null ==> path.elems == old(path.elems)
      ensures outcome.Value? ==> Remembered(startOffset, outcome.v)
      decreases 16 + t.numObjects - curDepth, 0
    {
      hide ParseAt, Unfold, ReadRefs, ReadAt, Build, RefTarget, Clean, Below, PathBelow, PathFits, TooMany,
        TableOffsets, Layout, Slot;
      ghost var before := Elems(path);
      DeeperFits(data, t, before, startOffset, curDepth);
      ContainerCases(data, t, startOffset, before, curDepth);
      var entered, inner := Enter(startOffset, path, curDepth);
      if !entered {
        return Stopped;
      }
      var items := ReadItems(startOffset, inner, curDepth, kind, ptr, count, before);
      if items == Refused {
        return Refused;
      }
      if items == Stopped || TooMany(kind, count) {
        return Stopped;
      }
      if inner != null {
        inner.elems := inner.elems - {startOffset};
      }
      outcome := Keep(startOffset, Build(kind, items.v), before, curDepth);
    }

    // Puts an offset on the path, which from depth 16 on is recorded.
    method Enter(startOffset: nat, path: PathSet?, curDepth: nat) returns (entered: bool, inner: PathSet?)
      requires Trusted() && PathOK(path, startOffset, curDepth) && startOffset !in Elems(path)
      modifies path
      ensures entered <==> !(curDepth > 15 && Reserved(startOffset))
      ensures inner == path || (path == null && fresh(inner))
      ensures entered ==> (inner != null <==> curDepth > 15)
      ensures entered ==> Elems(inner) == Deeper(old(Elems(path)), startOffset, curDepth)
    {
      hide PathBelow;
      inner := path;
      if inner == null && 15 < curDepth {
        inner := new PathSet();
      }
      if inner != null {
        if startOffset == HashSlots.SUB_ZERO || startOffset == HashSlots.SUB_ONE {
          return false, inner;
        }
        inner.elems := inner.elems + {startOffset};
      }
      return true, inner;
    }

    // Puts an object that has been read into the cache.
    method Keep(startOffset: nat, v: Plist, ghost path: set<nat>, ghost curDepth: nat) returns (outcome: Outcome<Plist>)
      requires Trusted() && CacheOK()
      requires PathFits(data, t, path, curDepth) && InTable(data, t, startOffset) && curDepth <= 16 + t.numObjects
      requires !Reserved(startOffset) ==> ReadAt(data, t, startOffset, path, curDepth) == Value(v)
      modifies this
      ensures CacheOK()
      ensures outcome == if Reserved(startOffset) then Stopped else Value(v)
      ensures outcome.Value? ==> startOffset in objects && objects[startOffset] == v
    {
      hide Unfold, Clean, ReadAt, PathFits;
      if startOffset == HashSlots.SUB_ZERO || startOffset == HashSlots.SUB_ONE {
        return Stopped;
      }
      ReadSettled(data, t, startOffset, path, curDepth);
      objects := objects[startOffset := v];
      return Value(v);
    }

    // Reads the children in order, up to the first without a value.
    method ReadItems(startOffset: nat, inner: PathSet?, curDepth: nat, kind: Kind, ptr: nat, count: nat,
                     ghost before: set<nat>)
      returns (items: Outcome<seq<Plist>>)
      requires Trusted() && CacheOK() && InTable(data, t, startOffset) && startOffset !in before
      requires 8 <= startOffset < t.tableOffset && ParseAt(data, t, startOffset) == Refs(kind, ptr, count)
      requires PathFits(data, t, before, curDepth) && PathBelow(data, t, before, startOffset)
      requires (inner != null ==> curDepth > 15) && Elems(inner) == Deeper(before, startOffset, curDepth)
      requires PathFits(data, t, Elems(inner), curDepth + 1) && curDepth + 1 <= 16 + t.numObjects
      modifies this, inner
      ensures CacheOK()
      ensures items == ReadRefs(data, t, ptr, count, KeyCount(kind, count), old(Elems(inner)), curDepth + 1)
      ensures items.Value? && inner != null ==> inner.elems == old(inner.elems)
      decreases 16 + t.numObjects - curDepth, 0, 0
    {
      hide ParseAt, Unfold, ReadAt, Build, RefTarget, Clean, Below, PathBelow, PathFits, TooMany, Reserved,
        TableOffsets, InTable, Layout;
      ghost var path' := Elems(inner);
      var keys := KeyCount(kind, count);
      var list: seq<Plist> := [];
      var ref := ptr;
      for idx := 0 to count
        invariant CacheOK() && Elems(inner) == path'
        invariant ref == Slot(ptr, idx, t.refSize)
        invariant ReadRefs(data, t, ptr, idx, keys, path', curDepth + 1) == Value(list)
      {
        var off := RefTarget(data, t, ref);
        TargetInTable(data, t, ref);
        ChildPath(data, t, before, startOffset, curDepth, idx);
        DescendOK(inner, off, curDepth);
        var child := CreateObject(off, inner, curDepth + 1);
        ghost var after := ReadRefs(data, t, ptr, idx + 1, keys, path', curDepth + 1);
        if !child.Value? || (idx < keys && !Primitive(child.v)) {
          FirstDecides(data, t, ptr, idx + 1, count, keys, path', curDepth + 1);
          return if child == Stopped then Stopped else Refused;
        }
        assert after == Value(list + [child.v]);
        list := list + [child.v];
        ref := ref + t.refSize;
      }
      return Value(list);
    }

    lemma DescendOK(inner: PathSet?, off: nat, curDepth: nat)
      requires Trusted() && (inner != null ==> curDepth > 15)
      requires PathFits(data, t, Elems(inner), curDepth + 1) && PathBelow(data, t, Elems(inner), off)
      ensures PathOK(inner, off, curDepth + 1)
    {
    }
  }

  // A container is read as its children say.
  lemma ContainerCases(data: seq<byte>, t: Trailer, off: nat, path: set<nat>, depth: nat)
    requires Layout(data, t) && PathFits(data, t, path, depth) && InTable(data, t, off) && depth <= 16 + t.numObjects
    requires off !in path && 8 <= off < t.tableOffset && ParseAt(data, t, off).Refs?
    requires PathFits(data, t, Deeper(path, off, depth), depth + 1) && depth + 1 <= 16 + t.numObjects
    ensures var Refs(kind, ptr, count) := ParseAt(data, t, off);
      ReadAt(data, t, off, path, depth) ==
        if depth > 15 && Reserved(off) then Stopped
        else
          var items := ReadRefs(data, t, ptr, count, KeyCount(kind, count), Deeper(path, off, depth), depth + 1);
          if items == Refused then Refused
          else if items == Stopped || TooMany(kind, count) then Stopped
          else if Reserved(off) then Stopped else Value(Build(kind, items.v))
  {
  }

  // Parses a whole file.  Whatever the bytes, it ends or stops the program, as the recursion
  // without a cache does.
  method TryParse(data: seq<byte>) returns (outcome: Outcome<Plist>)
    requires |data| < UINT64_LIMIT
    ensures outcome == ParseOutcome(data)
    ensures outcome.Value? ==> Accepted(data) && DescribesTop(data, outcome.v)
    ensures outcome == Refused ==> !Accepted(data) || forall v :: !DescribesTop(data, v)
  {
    hide ReadAt, DescribesTop, SettledTop;
    outcome := Refused;
    if 8 <= |data| {
      var ok, marker, offset, trailer := GetTopLevelInfo(data);
      if ok {
        if TABLE_ROOM < trailer.numObjects {
          return Stopped;
        }
        var reader := new Reader(data, trailer);
        outcome := reader.CreateObject(offset, null, 0);
      }
    }
    forall v ensures outcome == Value(v) ==> Accepted(data) && DescribesTop(data, v) {
      ParseMeaning(data, v);
    }
    if outcome == Refused && Accepted(data) {
      forall v ensures !DescribesTop(data, v) {
        ParseMeaning(data, v);
      }
    }
  }
}
