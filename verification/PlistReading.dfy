// What reading comes to, without the cache that the reader keeps: the recursion over the references
// with its record of the path, its refusals, and where it stops the program.
module PlistReading {
  import opened SizedInts
  import opened PlistObjects
  import opened PlistParse
  import HashSizes
  import HashSlots

  // ---------- the path ----------

  // Reading a needs the object at off, one level further down at the least.
  ghost predicate Below(data: seq<byte>, t: Trailer, off: nat, a: nat)
    requires Layout(data, t)
  {
    forall n: nat :: Unfold(data, t, a, n).Some? ==> n > 0 && Unfold(data, t, off, n - 1).Some?
  }

  // Something that needs itself describes nothing.
  lemma {:induction false} SelfBelow(data: seq<byte>, t: Trailer, off: nat, n: nat)
    requires Layout(data, t) && Below(data, t, off, off)
    ensures Unfold(data, t, off, n) == None
    decreases n
  {
    if Unfold(data, t, off, n).Some? {
      SelfBelow(data, t, off, n - 1);
    }
  }

  // A container needs each object it refers to.
  lemma ChildBelow(data: seq<byte>, t: Trailer, off: nat, i: nat)
    requires Layout(data, t) && 8 <= off < t.tableOffset
    requires ParseAt(data, t, off).Refs? && i < ParseAt(data, t, off).count
    ensures Below(data, t, RefTarget(data, t, Slot(ParseAt(data, t, off).ptr, i, t.refSize)), off)
  {
    var Refs(kind, ptr, count) := ParseAt(data, t, off);
    forall n: nat | Unfold(data, t, off, n).Some?
      ensures n > 0 && Unfold(data, t, RefTarget(data, t, Slot(ptr, i, t.refSize)), n - 1).Some?
    {
      RefsNeedEach(data, t, ptr, count, KeyCount(kind, count), n - 1, i);
    }
  }

  lemma BelowTransitive(data: seq<byte>, t: Trailer, c: nat, b: nat, a: nat)
    requires Layout(data, t) && Below(data, t, c, b) && Below(data, t, b, a)
    ensures Below(data, t, c, a)
  {
    forall n: nat | Unfold(data, t, a, n).Some?
      ensures n > 0 && Unfold(data, t, c, n - 1).Some?
    {
      assert Unfold(data, t, b, n - 1).Some?;
      UnfoldMonotone(data, t, c, n - 2, n - 1);
    }
  }

  // The offsets in the first k entries of the table.
  function TableOffsets(data: seq<byte>, t: Trailer, k: nat): (s: set<nat>)
    requires Layout(data, t) && k <= t.numObjects
    ensures |s| <= k
    ensures forall i :: 0 <= i < k ==> TableEntry(data, t, i) in s
  {
    if k == 0 then {} else
      var s := TableOffsets(data, t, k - 1);
      var e := TableEntry(data, t, k - 1);
      assert |s + {e}| <= |s| + 1;
      s + {e}
  }

  // A set of table offsets has no more elements than the table.
  lemma PathBound(data: seq<byte>, t: Trailer, s: set<nat>)
    requires Layout(data, t) && s <= TableOffsets(data, t, t.numObjects)
    ensures |s| <= t.numObjects
  {
    SubsetSize(s, TableOffsets(data, t, t.numObjects));
  }

  lemma {:induction false} SubsetSize(a: set<nat>, b: set<nat>)
    requires a <= b
    ensures |a| <= |b|
    decreases |a|
  {
    if a != {} {
      var x :| x in a;
      SubsetSize(a - {x}, b - {x});
    }
  }

  // The record of the path starts at depth 16 and has one offset of the table for each level from
  // there on.
  ghost predicate PathFits(data: seq<byte>, t: Trailer, path: set<nat>, depth: nat)
    requires Layout(data, t)
  {
    && path <= TableOffsets(data, t, t.numObjects)
    && (if depth <= 16 then path == {} else depth == 16 + |path|)
  }

  function Deeper(path: set<nat>, off: nat, depth: nat): set<nat> {
    if depth > 15 then path + {off} else path
  }

  // Another offset makes the path longer, and it stays within the table.
  lemma DeeperFits(data: seq<byte>, t: Trailer, path: set<nat>, off: nat, depth: nat)
    requires Layout(data, t) && PathFits(data, t, path, depth)
    requires off in TableOffsets(data, t, t.numObjects) && off !in path
    ensures PathFits(data, t, Deeper(path, off, depth), depth + 1)
    ensures depth + 1 <= 16 + t.numObjects
  {
    if depth > 15 {
      assert |path + {off}| == |path| + 1;
      PathBound(data, t, path + {off});
    }
  }

  ghost predicate InTable(data: seq<byte>, t: Trailer, off: nat)
    requires Layout(data, t)
  {
    off < t.tableOffset ==> off in TableOffsets(data, t, t.numObjects)
  }

  lemma TargetInTable(data: seq<byte>, t: Trailer, ref: nat)
    requires Layout(data, t)
    ensures InTable(data, t, RefTarget(data, t, ref))
  {
  }

  // ---------- outcomes ----------

  // A value, a refusal, or the end of the program as far as anything can be said of it.
  datatype Outcome<+T> = Value(v: T) | Refused | Stopped

  // Offsets are keys of the cache and of the path, which are hash tables and halt at two of them.
  predicate Reserved(off: nat) {
    off == HashSlots.SUB_ZERO || off == HashSlots.SUB_ONE
  }

  // More entries than any hash table has room for make it halt.
  const TABLE_ROOM: nat := HashSizes.Capacity(44)

  // The size of an array in bytes, after a header of 32, is kept in 32 bits.  One whose size does not
  // fit gets too little memory, and its items are written past the end of that: to stop is one way
  // for the program to go from there.
  predicate TooMany(kind: Kind, count: nat) {
    match kind
    case KArray => 32 + 8 * count >= UINT32_LIMIT
    case KSet => count > TABLE_ROOM
    case KDict => count / 2 > TABLE_ROOM
  }

  // So many are too many.
  lemma TooManyAre(n: nat)
    ensures TooMany(KArray, n) <==> n >= 536870908
    ensures TooMany(KSet, n) <==> n > 3241355160
    ensures TooMany(KDict, 2 * n) <==> n > 3241355160
  {
  }

  // Neither cached nor in need of it.
  predicate Constant(v: Plist) {
    v == PNull || v.PBool?
  }

  // What an object read at off becomes when it is put into the cache.
  function Kept(off: nat, v: Plist): Outcome<Plist> {
    if !Constant(v) && Reserved(off) then Stopped else Value(v)
  }

  /** The outcome of reading the object at off, at some depth and below the containers of the path.
      The first child in order that has no value decides the outcome of a container. */
  ghost function ReadAt(data: seq<byte>, t: Trailer, off: nat, path: set<nat>, depth: nat): Outcome<Plist>
    requires Layout(data, t) && PathFits(data, t, path, depth) && InTable(data, t, off) && depth <= 16 + t.numObjects
    decreases 16 + t.numObjects - depth, 1, 0
  {
    if off in path || off < 8 || t.tableOffset <= off then Refused
    else
      match ParseAt(data, t, off)
      case Corrupt => Refused
      case Leaf(v) => Kept(off, v)
      case Refs(kind, ptr, count) =>
        DeeperFits(data, t, path, off, depth);
        if depth > 15 && Reserved(off) then Stopped
        else
          match ReadRefs(data, t, ptr, count, KeyCount(kind, count), Deeper(path, off, depth), depth + 1)
          case Value(ps) => if TooMany(kind, count) then Stopped else Kept(off, Build(kind, ps))
          case Refused => Refused
          case Stopped => Stopped
  }

  ghost function ReadRefs(data: seq<byte>, t: Trailer, ptr: nat, k: nat, keys: nat, path: set<nat>, depth: nat)
    : (r: Outcome<seq<Plist>>)
    requires Layout(data, t) && PathFits(data, t, path, depth) && depth <= 16 + t.numObjects
    ensures r.Value? ==> |r.v| == k
    decreases 16 + t.numObjects - depth, 2, k
  {
    if k == 0 then Value([])
    else
      match ReadRefs(data, t, ptr, k - 1, keys, path, depth)
      case Refused => Refused
      case Stopped => Stopped
      case Value(ps) =>
        TargetInTable(data, t, Slot(ptr, k - 1, t.refSize));
        match ReadAt(data, t, RefTarget(data, t, Slot(ptr, k - 1, t.refSize)), path, depth)
        case Refused => Refused
        case Stopped => Stopped
        case Value(p) => if k - 1 < keys && !Primitive(p) then Refused else Value(ps + [p])
  }

  // ---------- what the outcomes mean ----------

  // Everything met within n levels of chasing references from off can be cached and built.
  ghost predicate Clean(data: seq<byte>, t: Trailer, off: nat, n: nat)
    requires Layout(data, t)
    decreases n, 0
  {
    && n > 0 && 8 <= off < t.tableOffset
    && match ParseAt(data, t, off)
       case Corrupt => false
       case Leaf(v) => Constant(v) || !Reserved(off)
       case Refs(kind, ptr, count) =>
         !Reserved(off) && !TooMany(kind, count) && RefsClean(data, t, ptr, count, n - 1)
  }

  ghost predicate RefsClean(data: seq<byte>, t: Trailer, ptr: nat, k: nat, n: nat)
    requires Layout(data, t)
    decreases n, 2
  {
    forall i: nat :: i < k ==> ChildClean(data, t, ptr, i, n)
  }

  ghost predicate ChildClean(data: seq<byte>, t: Trailer, ptr: nat, i: nat, n: nat)
    requires Layout(data, t)
    decreases n, 1
  {
    Clean(data, t, RefTarget(data, t, Slot(ptr, i, t.refSize)), n)
  }

  // The bytes at off describe v, and everything in it can be cached and built.
  ghost predicate Settled(data: seq<byte>, t: Trailer, off: nat, v: Plist)
    requires Layout(data, t)
  {
    exists n: nat :: Unfold(data, t, off, n) == Some(v) && Clean(data, t, off, n)
  }

  ghost predicate PathBelow(data: seq<byte>, t: Trailer, path: set<nat>, off: nat)
    requires Layout(data, t)
  {
    forall a :: a in path ==> Below(data, t, off, a)
  }

  // Each object on the path needs the children of the one at off, if it needs that one.
  lemma ChildPath(data: seq<byte>, t: Trailer, path: set<nat>, off: nat, depth: nat, i: nat)
    requires Layout(data, t) && 8 <= off < t.tableOffset && PathBelow(data, t, path, off)
    requires ParseAt(data, t, off).Refs? && i < ParseAt(data, t, off).count
    ensures PathBelow(data, t, Deeper(path, off, depth),
      RefTarget(data, t, Slot(ParseAt(data, t, off).ptr, i, t.refSize)))
  {
    hide Below;
    var c := RefTarget(data, t, Slot(ParseAt(data, t, off).ptr, i, t.refSize));
    ChildBelow(data, t, off, i);
    forall a | a in Deeper(path, off, depth) ensures Below(data, t, c, a) {
      if a in path {
        BelowTransitive(data, t, c, off, a);
      }
    }
  }

  // What describes a value and can be cached and built is read as that value, wherever it is met.
  lemma {:induction false} SettledReads(data: seq<byte>, t: Trailer, off: nat, path: set<nat>, depth: nat, n: nat)
    requires Layout(data, t) && PathFits(data, t, path, depth) && InTable(data, t, off) && depth <= 16 + t.numObjects
    requires PathBelow(data, t, path, off)
    requires Unfold(data, t, off, n).Some? && Clean(data, t, off, n)
    ensures ReadAt(data, t, off, path, depth) == Value(Unfold(data, t, off, n).value)
    decreases n, 1, 0
  {
    if off in path {
      SelfBelow(data, t, off, n);
    }
    match ParseAt(data, t, off)
    case Leaf(_) =>
    case Refs(kind, ptr, count) =>
      DeeperFits(data, t, path, off, depth);
      SettledRefsRead(data, t, off, path, depth, count, n);
  }

  lemma {:induction false} SettledRefsRead(data: seq<byte>, t: Trailer, off: nat, path: set<nat>, depth: nat, k: nat,
                                           n: nat)
    requires Layout(data, t) && PathFits(data, t, path, depth) && depth <= 16 + t.numObjects
    requires 8 <= off < t.tableOffset && InTable(data, t, off) && off !in path && PathBelow(data, t, path, off)
    requires n > 0 && ParseAt(data, t, off).Refs? && k <= ParseAt(data, t, off).count
    requires var Refs(kind, ptr, count) := ParseAt(data, t, off);
      RefsClean(data, t, ptr, count, n - 1) && UnfoldRefs(data, t, ptr, k, KeyCount(kind, count), n - 1).Some?
    ensures var Refs(kind, ptr, count) := ParseAt(data, t, off);
      PathFits(data, t, Deeper(path, off, depth), depth + 1) && depth + 1 <= 16 + t.numObjects
      && ReadRefs(data, t, ptr, k, KeyCount(kind, count), Deeper(path, off, depth), depth + 1)
         == Value(UnfoldRefs(data, t, ptr, k, KeyCount(kind, count), n - 1).value)
    decreases n, 0, k
  {
    hide Below, PathFits, Build, PathBelow, ParseAt, Unfold, ReadAt, Slot, RefTarget, Clean;
    var Refs(kind, ptr, count) := ParseAt(data, t, off);
    DeeperFits(data, t, path, off, depth);
    if k > 0 {
      SettledRefsRead(data, t, off, path, depth, k - 1, n);
      assert ChildClean(data, t, ptr, k - 1, n - 1);
      ChildPath(data, t, path, off, depth, k - 1);
      TargetInTable(data, t, Slot(ptr, k - 1, t.refSize));
      SettledReads(data, t, RefTarget(data, t, Slot(ptr, k - 1, t.refSize)), Deeper(path, off, depth), depth + 1,
        n - 1);
    }
  }

  ghost predicate RefsSettled(data: seq<byte>, t: Trailer, ptr: nat, k: nat, keys: nat, ps: seq<Plist>)
    requires Layout(data, t)
  {
    exists n: nat :: UnfoldRefs(data, t, ptr, k, keys, n) == Some(ps) && RefsClean(data, t, ptr, k, n)
  }

  // What has been read as a value describes it, and everything in it can be cached and built.
  lemma {:induction false} ReadSettled(data: seq<byte>, t: Trailer, off: nat, path: set<nat>, depth: nat)
    requires Layout(data, t) && PathFits(data, t, path, depth) && InTable(data, t, off) && depth <= 16 + t.numObjects
    requires ReadAt(data, t, off, path, depth).Value?
    ensures Settled(data, t, off, ReadAt(data, t, off, path, depth).v)
    decreases 16 + t.numObjects - depth, 1, 0
  {
    match ParseAt(data, t, off)
    case Leaf(v) =>
      assert Unfold(data, t, off, 1) == Some(v) && Clean(data, t, off, 1);
    case Refs(kind, ptr, count) =>
      DeeperFits(data, t, path, off, depth);
      ReadRefsSettled(data, t, ptr, count, KeyCount(kind, count), Deeper(path, off, depth), depth + 1);
      var ps := ReadRefs(data, t, ptr, count, KeyCount(kind, count), Deeper(path, off, depth), depth + 1).v;
      SettledUp(data, t, off, ps);
  }

  lemma SettledUp(data: seq<byte>, t: Trailer, off: nat, ps: seq<Plist>)
    requires Layout(data, t) && 8 <= off < t.tableOffset && ParseAt(data, t, off).Refs?
    requires var Refs(kind, ptr, count) := ParseAt(data, t, off);
      |ps| == count && !Reserved(off) && !TooMany(kind, count) &&
        RefsSettled(data, t, ptr, count, KeyCount(kind, count), ps)
    ensures Settled(data, t, off, Build(ParseAt(data, t, off).kind, ps))
  {
    hide UnfoldRefs, RefsClean, Build;
    var Refs(kind, ptr, count) := ParseAt(data, t, off);
    var n: nat :| UnfoldRefs(data, t, ptr, count, KeyCount(kind, count), n) == Some(ps) &&
      RefsClean(data, t, ptr, count, n);
    assert Unfold(data, t, off, n + 1) == Some(Build(kind, ps)) && Clean(data, t, off, n + 1);
  }

  lemma {:induction false} ReadRefsSettled(data: seq<byte>, t: Trailer, ptr: nat, k: nat, keys: nat, path: set<nat>,
                                           depth: nat)
    requires Layout(data, t) && PathFits(data, t, path, depth) && depth <= 16 + t.numObjects
    requires ReadRefs(data, t, ptr, k, keys, path, depth).Value?
    ensures RefsSettled(data, t, ptr, k, keys, ReadRefs(data, t, ptr, k, keys, path, depth).v)
    decreases 16 + t.numObjects - depth, 2, k
  {
    hide ReadAt, Unfold, Clean, PathFits, ParseAt, RefTarget, InTable, Slot;
    if k == 0 {
      assert UnfoldRefs(data, t, ptr, 0, keys, 0) == Some([]) && RefsClean(data, t, ptr, 0, 0);
    } else {
      ReadRefsSettled(data, t, ptr, k - 1, keys, path, depth);
      TargetInTable(data, t, Slot(ptr, k - 1, t.refSize));
      ReadSettled(data, t, RefTarget(data, t, Slot(ptr, k - 1, t.refSize)), path, depth);
      RefsSettledSnoc(data, t, ptr, k - 1, keys, ReadRefs(data, t, ptr, k - 1, keys, path, depth).v,
        ReadAt(data, t, RefTarget(data, t, Slot(ptr, k - 1, t.refSize)), path, depth).v);
    }
  }

  lemma {:induction false} CleanMonotone(data: seq<byte>, t: Trailer, off: nat, n: nat, m: nat)
    requires Layout(data, t) && n <= m && Clean(data, t, off, n)
    ensures Clean(data, t, off, m)
    decreases n
  {
    if ParseAt(data, t, off).Refs? {
      var Refs(kind, ptr, count) := ParseAt(data, t, off);
      var n', m' := n - 1, m - 1;
      forall i: nat | i < count ensures ChildClean(data, t, ptr, i, m') {
        assert ChildClean(data, t, ptr, i, n');
        CleanMonotone(data, t, RefTarget(data, t, Slot(ptr, i, t.refSize)), n', m');
      }
    }
  }

  lemma RefsSettledSnoc(data: seq<byte>, t: Trailer, ptr: nat, k: nat, keys: nat, ps: seq<Plist>, p: Plist)
    requires Layout(data, t) && RefsSettled(data, t, ptr, k, keys, ps)
    requires Settled(data, t, RefTarget(data, t, Slot(ptr, k, t.refSize)), p) && (k < keys ==> Primitive(p))
    ensures RefsSettled(data, t, ptr, k + 1, keys, ps + [p])
  {
    hide Unfold, Clean, RefTarget, Slot;
    var off := RefTarget(data, t, Slot(ptr, k, t.refSize));
    var n: nat :| UnfoldRefs(data, t, ptr, k, keys, n) == Some(ps) && RefsClean(data, t, ptr, k, n);
    var m: nat :| Unfold(data, t, off, m) == Some(p) && Clean(data, t, off, m);
    var l := if n <= m then m else n;
    UnfoldRefsMonotone(data, t, ptr, k, keys, n, l);
    UnfoldMonotone(data, t, off, m, l);
    forall i: nat | i < k + 1 ensures ChildClean(data, t, ptr, i, l) {
      if i < k {
        assert ChildClean(data, t, ptr, i, n);
        CleanMonotone(data, t, RefTarget(data, t, Slot(ptr, i, t.refSize)), n, l);
      } else {
        CleanMonotone(data, t, off, m, l);
      }
    }
    assert RefsClean(data, t, ptr, k + 1, l);
    assert UnfoldRefs(data, t, ptr, k + 1, keys, l) == Some(ps + [p]);
  }

  // What has been refused describes nothing.
  lemma {:induction false} RefusedNothing(data: seq<byte>, t: Trailer, off: nat, path: set<nat>, depth: nat, n: nat)
    requires Layout(data, t) && PathFits(data, t, path, depth) && InTable(data, t, off) && depth <= 16 + t.numObjects
    requires PathBelow(data, t, path, off) && ReadAt(data, t, off, path, depth) == Refused
    ensures Unfold(data, t, off, n) == None
    decreases 16 + t.numObjects - depth, 1, 0
  {
    hide Build;
    if off in path {
      SelfBelow(data, t, off, n);
    } else if n > 0 && 8 <= off < t.tableOffset && ParseAt(data, t, off).Refs? {
      var Refs(kind, ptr, count) := ParseAt(data, t, off);
      DeeperFits(data, t, path, off, depth);
      RefsRefused(data, t, off, path, depth, count, n - 1);
    }
  }

  lemma {:induction false} RefsRefused(data: seq<byte>, t: Trailer, off: nat, path: set<nat>, depth: nat, k: nat,
                                       n: nat)
    requires Layout(data, t) && PathFits(data, t, path, depth) && depth <= 16 + t.numObjects
    requires 8 <= off < t.tableOffset && InTable(data, t, off) && off !in path && PathBelow(data, t, path, off)
    requires ParseAt(data, t, off).Refs? && k <= ParseAt(data, t, off).count
    requires PathFits(data, t, Deeper(path, off, depth), depth + 1) && depth + 1 <= 16 + t.numObjects
    requires var Refs(kind, ptr, count) := ParseAt(data, t, off);
      ReadRefs(data, t, ptr, k, KeyCount(kind, count), Deeper(path, off, depth), depth + 1) == Refused
    ensures var Refs(kind, ptr, count) := ParseAt(data, t, off);
      UnfoldRefs(data, t, ptr, k, KeyCount(kind, count), n) == None
    decreases 16 + t.numObjects - depth, 0, k
  {
    hide ReadAt, Unfold, PathFits, ParseAt, RefTarget, InTable, Slot, Below, PathBelow;
    var Refs(kind, ptr, count) := ParseAt(data, t, off);
    var keys, path', c := KeyCount(kind, count), Deeper(path, off, depth),
      RefTarget(data, t, Slot(ptr, k - 1, t.refSize));
    if ReadRefs(data, t, ptr, k - 1, keys, path', depth + 1) == Refused {
      RefsRefused(data, t, off, path, depth, k - 1, n);
    } else {
      TargetInTable(data, t, Slot(ptr, k - 1, t.refSize));
      ChildPath(data, t, path, off, depth, k - 1);
      if ReadAt(data, t, c, path', depth + 1) == Refused {
        RefusedNothing(data, t, c, path', depth + 1, n);
      } else {
        ReadSettled(data, t, c, path', depth + 1);
        SettledOnly(data, t, c, ReadAt(data, t, c, path', depth + 1).v, n);
      }
    }
  }

  lemma SettledOnly(data: seq<byte>, t: Trailer, off: nat, v: Plist, n: nat)
    requires Layout(data, t) && Settled(data, t, off, v)
    ensures Describes(data, t, off, v)
    ensures Unfold(data, t, off, n).Some? ==> Unfold(data, t, off, n) == Some(v)
  {
    hide Unfold, Clean;
    var m: nat :| Unfold(data, t, off, m) == Some(v) && Clean(data, t, off, m);
    if Unfold(data, t, off, n).Some? {
      DescribesUnique(data, t, off, v, Unfold(data, t, off, n).value);
    }
  }

  // Nothing stops the reader when no table entry is reserved and no container is too large.
  ghost predicate Roomy(data: seq<byte>, t: Trailer)
    requires Layout(data, t)
  {
    && (forall off :: off in TableOffsets(data, t, t.numObjects) ==> !Reserved(off))
    && (forall off :: 8 <= off < t.tableOffset && ParseAt(data, t, off).Refs? ==>
          !TooMany(ParseAt(data, t, off).kind, ParseAt(data, t, off).count))
  }

  lemma {:induction false} RoomyNeverStops(data: seq<byte>, t: Trailer, off: nat, path: set<nat>, depth: nat)
    requires Layout(data, t) && PathFits(data, t, path, depth) && InTable(data, t, off) && depth <= 16 + t.numObjects
    requires Roomy(data, t)
    ensures ReadAt(data, t, off, path, depth) != Stopped
    decreases 16 + t.numObjects - depth, 1, 0
  {
    hide Build, PathFits, TooMany, Reserved, RefTarget, Slot, KeyCount, Roomy, TableOffsets, ParseAt;
    if 8 <= off < t.tableOffset {
      RoomAt(data, t, off);
    }
    if off !in path && 8 <= off < t.tableOffset && ParseAt(data, t, off).Refs? {
      var Refs(kind, ptr, count) := ParseAt(data, t, off);
      DeeperFits(data, t, path, off, depth);
      RoomyRefs(data, t, ptr, count, KeyCount(kind, count), Deeper(path, off, depth), depth + 1);
    }
  }

  lemma RoomAt(data: seq<byte>, t: Trailer, off: nat)
    requires Layout(data, t) && Roomy(data, t) && InTable(data, t, off) && 8 <= off < t.tableOffset
    ensures !Reserved(off)
    ensures ParseAt(data, t, off).Refs? ==> !TooMany(ParseAt(data, t, off).kind, ParseAt(data, t, off).count)
  {
  }

  lemma {:induction false} RoomyRefs(data: seq<byte>, t: Trailer, ptr: nat, k: nat, keys: nat, path: set<nat>,
                                     depth: nat)
    requires Layout(data, t) && PathFits(data, t, path, depth) && depth <= 16 + t.numObjects
    requires Roomy(data, t)
    ensures ReadRefs(data, t, ptr, k, keys, path, depth) != Stopped
    decreases 16 + t.numObjects - depth, 2, k
  {
    hide ReadAt, PathFits, Roomy, RefTarget, Slot, InTable;
    if k > 0 {
      RoomyRefs(data, t, ptr, k - 1, keys, path, depth);
      TargetInTable(data, t, Slot(ptr, k - 1, t.refSize));
      RoomyNeverStops(data, t, RefTarget(data, t, Slot(ptr, k - 1, t.refSize)), path, depth);
    }
  }

  // So it is for files that are not huge.
  lemma SmallIsRoomy(data: seq<byte>, t: Trailer)
    requires Layout(data, t) && EntriesInRange(data, t) && t.tableOffset < 0x1FFF_FFFC
    ensures Roomy(data, t)
  {
    hide ParseAt;
    TableOffsetsWithin(data, t, t.numObjects);
    forall off | 8 <= off < t.tableOffset && ParseAt(data, t, off).Refs?
      ensures !TooMany(ParseAt(data, t, off).kind, ParseAt(data, t, off).count)
    {
      MulMonotone(1, t.refSize, ParseAt(data, t, off).count);
    }
  }

  lemma {:induction false} TableOffsetsWithin(data: seq<byte>, t: Trailer, k: nat)
    requires Layout(data, t) && EntriesInRange(data, t) && k <= t.numObjects
    ensures forall off :: off in TableOffsets(data, t, k) ==> off < t.tableOffset
  {
    if k > 0 {
      TableOffsetsWithin(data, t, k - 1);
    }
  }

  // The first child without a value decides, whatever comes after it.
  lemma {:induction false} FirstDecides(data: seq<byte>, t: Trailer, ptr: nat, k: nat, n: nat, keys: nat,
                                        path: set<nat>, depth: nat)
    requires Layout(data, t) && PathFits(data, t, path, depth) && depth <= 16 + t.numObjects
    requires k <= n && !ReadRefs(data, t, ptr, k, keys, path, depth).Value?
    ensures ReadRefs(data, t, ptr, n, keys, path, depth) == ReadRefs(data, t, ptr, k, keys, path, depth)
    decreases n
  {
    hide ReadAt, PathFits, RefTarget, Slot;
    if k < n {
      FirstDecides(data, t, ptr, k, n - 1, keys, path, depth);
    }
  }

  // ---------- a whole file ----------

  // The outcome of parsing: a file that is not accepted is refused, and one with more objects than
  // the cache has room for stops the program.
  ghost function ParseOutcome(data: seq<byte>): Outcome<Plist> {
    if !Accepted(data) then Refused
    else if TrailerOf(data).numObjects > TABLE_ROOM then Stopped
    else ReadAt(data, TrailerOf(data), TopOffset(data), {}, 0)
  }

  ghost predicate DescribesTop(data: seq<byte>, v: Plist)
    requires Accepted(data)
  {
    Describes(data, TrailerOf(data), TopOffset(data), v)
  }

  // The top object describes v, and everything in it can be cached and built.
  ghost predicate SettledTop(data: seq<byte>, v: Plist)
    requires Accepted(data)
  {
    TrailerOf(data).numObjects <= TABLE_ROOM && Settled(data, TrailerOf(data), TopOffset(data), v)
  }

  // Parsing gives a value exactly when the top object describes it and all that it reaches can be
  // cached and built; when it describes one that cannot, the program stops; a file is refused only
  // when it is not accepted or its top object describes nothing.
  lemma ParseMeaning(data: seq<byte>, v: Plist)
    ensures ParseOutcome(data) == Value(v) <==> Accepted(data) && SettledTop(data, v)
    ensures Accepted(data) && SettledTop(data, v) ==> DescribesTop(data, v)
    ensures Accepted(data) && DescribesTop(data, v) && !SettledTop(data, v) ==> ParseOutcome(data) == Stopped
    ensures ParseOutcome(data) == Refused && Accepted(data) ==> !DescribesTop(data, v)
  {
    hide ReadAt, Unfold, Clean;
    if Accepted(data) && TrailerOf(data).numObjects <= TABLE_ROOM {
      var t, off := TrailerOf(data), TopOffset(data);
      if ReadAt(data, t, off, {}, 0).Value? {
        ReadSettled(data, t, off, {}, 0);
        SettledOnly(data, t, off, ReadAt(data, t, off, {}, 0).v, 0);
      }
      if Settled(data, t, off, v) {
        var n: nat :| Unfold(data, t, off, n) == Some(v) && Clean(data, t, off, n);
        SettledReads(data, t, off, {}, 0, n);
        SettledOnly(data, t, off, v, 0);
      }
      if DescribesTop(data, v) {
        var n: nat :| Unfold(data, t, off, n) == Some(v);
        if ReadAt(data, t, off, {}, 0).Value? {
          SettledOnly(data, t, off, ReadAt(data, t, off, {}, 0).v, n);
        } else if ReadAt(data, t, off, {}, 0) == Refused {
          RefusedNothing(data, t, off, {}, 0, n);
        }
      }
    }
  }

  // No file whose objects end below half a gigabyte stops the program.
  lemma SmallFilesParse(data: seq<byte>)
    requires Accepted(data) && TrailerOf(data).tableOffset < 0x1FFF_FFFC && TrailerOf(data).numObjects <= TABLE_ROOM
    ensures ParseOutcome(data) != Stopped
  {
    SmallIsRoomy(data, TrailerOf(data));
    RoomyNeverStops(data, TrailerOf(data), TopOffset(data), {}, 0);
  }
}
