// What the binary property list reader sees in the bytes: the trailer, one object at a
// time, and the tree that chasing the references unfolds.
module PlistParse {
  import opened SizedInts
  import opened PlistObjects
  import opened PlistFormat

  datatype Option<+T> = None | Some(value: T)

  datatype Trailer = Trailer(intSize: byte, refSize: byte, numObjects: nat, topObject: nat, tableOffset: nat)

  // _getOffsetOfRefAt's failure value
  const MAX_OFFSET: nat := 0xFFFF_FFFF_FFFF_FFFF

  // ---------- the trailer ----------

  function TrailerOf(data: seq<byte>): Trailer
    requires |data| >= TRAILER_SIZE
  {
    var p := |data| - TRAILER_SIZE;
    Trailer(data[p + 6], data[p + 7], SizedInt(data[p + 8..p + 16]),
            SizedInt(data[p + 16..p + 24]), SizedInt(data[p + 24..p + 32]))
  }

  // The parts of a file lie one after the other: object table, offset table, trailer.
  predicate Layout(data: seq<byte>, t: Trailer) {
    && t.intSize >= 1 && t.refSize >= 1
    && 9 <= t.tableOffset <= LONG_MAX
    && 1 <= t.numObjects <= LONG_MAX
    && t.tableOffset + t.numObjects * t.intSize + TRAILER_SIZE == |data|
  }

  lemma EntryInside(data: seq<byte>, t: Trailer, i: nat)
    requires Layout(data, t) && i < t.numObjects
    ensures 0 <= i * t.intSize
    ensures t.tableOffset + i * t.intSize + t.intSize <= |data| - TRAILER_SIZE
  {
    MulMonotone(0, i, t.intSize);
    MulMonotone(i + 1, t.numObjects, t.intSize);
  }

  function TableEntry(data: seq<byte>, t: Trailer, i: nat): nat
    requires Layout(data, t) && i < t.numObjects
  {
    EntryInside(data, t, i);
    var p := t.tableOffset + i * t.intSize;
    SizedInt(data[p..p + t.intSize])
  }

  // Every object starts before the offset table.
  predicate EntriesInRange(data: seq<byte>, t: Trailer)
    requires Layout(data, t)
  {
    forall i :: 0 <= i < t.numObjects ==> TableEntry(data, t, i) < t.tableOffset
  }

  // What the reader demands of a file before it reads any object.
  predicate Accepted(data: seq<byte>) {
    && |data| >= TRAILER_SIZE + 8 + 1
    && data[..7] == HEADER[..7]
    && var t := TrailerOf(data);
    && Layout(data, t)
    && t.topObject < t.numObjects < Pow256(t.refSize)
    && t.tableOffset < Pow256(t.intSize)
    && EntriesInRange(data, t)
    && 8 <= TableEntry(data, t, t.topObject)
  }

  // Where the top object starts.
  function TopOffset(data: seq<byte>): (off: nat)
    requires Accepted(data)
    ensures 8 <= off < TrailerOf(data).tableOffset < |data|
  {
    var t := TrailerOf(data);
    EntryInside(data, t, t.topObject);
    TableEntry(data, t, t.topObject)
  }

  // ---------- one object ----------

  datatype Kind = KArray | KSet | KDict

  /** One object on its own: a leaf with its value, a container with the position and number of
      its references, or bytes that are no object. */
  datatype Parsed = Leaf(v: Plist) | Refs(kind: Kind, ptr: nat, count: nat) | Corrupt

  function ShiftLeft1(n: nat): (r: nat)
    ensures r >= 1
  {
    if n == 0 then 1 else 2 * ShiftLeft1(n - 1)
  }

  // A counted integer object at ptr, and where it ends.  The byte count reaches _getSizedInt as
  // a uint8_t.  In all of the following, a pointer sum that would overflow is past the end too.
  function ReadInt(data: seq<byte>, end: nat, ptr: nat): (r: Option<(nat, nat)>)
    requires end <= |data|
    ensures r.Some? ==> ptr < r.value.1 <= end && r.value.0 < UINT64_LIMIT
  {
    if end <= ptr || data[ptr] / 16 != MARKER_INT / 16 then None
    else
      var cnt := ShiftLeft1(data[ptr] % 16);
      if end < ptr + 1 + cnt then None
      else Some((SizedInt(data[ptr + 1..ptr + 1 + cnt % 256]), ptr + 1 + cnt))
  }

  // The count of a counted object whose marker is at off, and where its contents start.
  function ReadCount(data: seq<byte>, end: nat, off: nat): (r: Option<(nat, nat)>)
    requires off < end <= |data|
    ensures r.Some? ==> off < r.value.1 <= end && r.value.0 <= LONG_MAX
  {
    if data[off] % 16 != 15 then Some((data[off] % 16, off + 1))
    else
      match ReadInt(data, end, off + 1)
      case None => None
      case Some(r) => if LONG_MAX < r.0 then None else Some(r)
  }

  function Widened(bytes: seq<byte>): seq<unichar> {
    seq(|bytes|, i requires 0 <= i < |bytes| => bytes[i] as unichar)
  }

  function SwappedChars(bytes: seq<byte>): seq<unichar> {
    seq(|bytes| / 2, i requires 0 <= i < |bytes| / 2 => bytes[2 * i] as int * 256 + bytes[2 * i + 1])
  }

  function Signed64(v: nat): int {
    if v <= LONG_MAX then v else v - UINT64_LIMIT
  }

  // A container whose references must fit before the offset table, and whose list of
  // pointers must have a size.
  function ParseRefs(kind: Kind, ptr: nat, count: nat, refSize: nat, end: nat): (p: Parsed)
    ensures p.Refs? ==> p == Refs(kind, ptr, count) && count * refSize <= end
  {
    if UINT64_LIMIT <= count || end < ptr + count * refSize || UINT64_LIMIT <= count * 8 then Corrupt
    else Refs(kind, ptr, count)
  }

  function ParseAt(data: seq<byte>, t: Trailer, off: nat): (p: Parsed)
    requires Layout(data, t) && 8 <= off < t.tableOffset
    ensures p.Refs? ==> p.count * t.refSize <= t.tableOffset && (p.kind == KDict ==> p.count % 2 == 0)
  {
    var marker, end, ptr := data[off], t.tableOffset, off + 1;
    var low, high := marker % 16, marker / 16 * 16;
    if high == 0 then
      if marker == 0 then Leaf(PNull)
      else if marker == MARKER_FALSE then Leaf(PBool(false))
      else if marker == MARKER_TRUE then Leaf(PBool(true))
      else Corrupt
    else if high == MARKER_INT then
      var cnt := ShiftLeft1(low);
      if end < ptr + cnt || 16 < cnt then Corrupt
      else
        var v := SizedInt(data[ptr..ptr + cnt]);
        Leaf(PInt(if 8 < cnt then v else Signed64(v)))
    else if high == MARKER_REAL then
      if low == 2 && ptr + 4 <= end then Leaf(PReal32(data[ptr..ptr + 4]))
      else if low == 3 && ptr + 8 <= end then Leaf(PReal64(data[ptr..ptr + 8]))
      else Corrupt
    else if high == MARKER_DATE / 16 * 16 then
      if marker == MARKER_DATE && ptr + 8 <= end then Leaf(PDate(data[ptr..ptr + 8])) else Corrupt
    else if high == MARKER_UID then
      if end < ptr + low + 1 then Corrupt
      else
        var v := SizedInt(data[ptr..ptr + low + 1]);
        if UINT32_LIMIT <= v then Corrupt else Leaf(PUid(v))
    else if high in {MARKER_DATA, MARKER_ASCII, MARKER_UTF16, MARKER_ARRAY, MARKER_SET, MARKER_DICT} then
      match ReadCount(data, end, off)
      case None => Corrupt
      case Some((cnt, start)) => ParseCounted(data, end, t.refSize, high, start, cnt)
    else Corrupt
  }

  // An object that begins with a count, its contents before the end.
  function ParseCounted(data: seq<byte>, end: nat, refSize: nat, high: nat, start: nat, cnt: nat): (p: Parsed)
    requires start <= end <= |data|
    ensures p.Refs? ==> p.count * refSize <= end && (p.kind == KDict ==> p.count % 2 == 0)
  {
    if high == MARKER_DATA then
      if end < start + cnt then Corrupt else Leaf(PData(data[start..start + cnt]))
    else if high == MARKER_ASCII then
      if end < start + cnt then Corrupt else Leaf(PString(Widened(data[start..start + cnt])))
    else if high == MARKER_UTF16 then
      if end < start + 2 * cnt then Corrupt else Leaf(PString(SwappedChars(data[start..start + 2 * cnt])))
    else if high == MARKER_DICT then ParseRefs(KDict, start, 2 * cnt, refSize, end)
    else ParseRefs(if high == MARKER_SET then KSet else KArray, start, cnt, refSize, end)
  }

  // ---------- references ----------

  // The offset that the reference at ptr leads to.
  function RefTarget(data: seq<byte>, t: Trailer, ptr: nat): nat
    requires Layout(data, t)
  {
    if ptr < 8 || t.tableOffset - t.refSize < ptr then MAX_OFFSET
    else
      var ref := SizedInt(data[ptr..ptr + t.refSize]);
      if t.numObjects <= ref then MAX_OFFSET else TableEntry(data, t, ref)
  }

  function KeyCount(kind: Kind, count: nat): nat {
    if kind == KDict then count / 2 else 0
  }

  function Build(kind: Kind, ps: seq<Plist>): Plist
    requires kind == KDict ==> |ps| % 2 == 0
  {
    match kind
    case KArray => PArray(ps)
    case KSet => PSet(set p | p in ps)
    case KDict => PDict(FirstWins(ps[..|ps| / 2], ps[|ps| / 2..]))
  }

  // ---------- the tree ----------

  /** The value at an offset when following references at most n levels deep reaches only
      complete objects; None when it meets something corrupt or does not end within n levels.
      No cache and no record of the path: this is what the bytes mean. */
  function Unfold(data: seq<byte>, t: Trailer, off: nat, n: nat): Option<Plist>
    requires Layout(data, t)
    decreases n, 0
  {
    if n == 0 || off < 8 || t.tableOffset <= off then None
    else
      match ParseAt(data, t, off)
      case Leaf(v) => Some(v)
      case Corrupt => None
      case Refs(kind, ptr, count) =>
        match UnfoldRefs(data, t, ptr, count, KeyCount(kind, count), n - 1)
        case None => None
        case Some(ps) => Some(Build(kind, ps))
  }

  // The first k of the objects referred to from ptr on; the first `keys` must be primitive.
  function UnfoldRefs(data: seq<byte>, t: Trailer, ptr: nat, k: nat, keys: nat, n: nat): (r: Option<seq<Plist>>)
    requires Layout(data, t)
    ensures r.Some? ==> |r.value| == k
    decreases n, 1, k
  {
    if k == 0 then Some([])
    else
      match UnfoldRefs(data, t, ptr, k - 1, keys, n)
      case None => None
      case Some(ps) =>
        match Unfold(data, t, RefTarget(data, t, Slot(ptr, k - 1, t.refSize)), n)
        case None => None
        case Some(p) => if k - 1 < keys && !Primitive(p) then None else Some(ps + [p])
  }

  // The bytes at off describe v: some finite depth of chasing references gives it.
  ghost predicate Describes(data: seq<byte>, t: Trailer, off: nat, v: Plist)
    requires Layout(data, t)
  {
    exists n: nat :: Unfold(data, t, off, n) == Some(v)
  }

  ghost predicate RefsDescribe(data: seq<byte>, t: Trailer, ptr: nat, k: nat, keys: nat, ps: seq<Plist>)
    requires Layout(data, t)
  {
    exists n: nat :: UnfoldRefs(data, t, ptr, k, keys, n) == Some(ps)
  }

  ghost predicate DescribesNothing(data: seq<byte>, t: Trailer, off: nat)
    requires Layout(data, t)
  {
    forall n: nat :: Unfold(data, t, off, n) == None
  }

  lemma {:induction false} UnfoldMonotone(data: seq<byte>, t: Trailer, off: nat, n: nat, m: nat)
    requires Layout(data, t) && n <= m
    requires Unfold(data, t, off, n).Some?
    ensures Unfold(data, t, off, m) == Unfold(data, t, off, n)
    decreases n, 0
  {
    hide UnfoldRefs, ParseAt, Build;
    match ParseAt(data, t, off)
    case Leaf(_) =>
    case Refs(kind, ptr, count) =>
      UnfoldRefsMonotone(data, t, ptr, count, KeyCount(kind, count), n - 1, m - 1);
  }

  lemma {:induction false} UnfoldRefsMonotone(data: seq<byte>, t: Trailer, ptr: nat, k: nat, keys: nat, n: nat, m: nat)
    requires Layout(data, t) && n <= m
    requires UnfoldRefs(data, t, ptr, k, keys, n).Some?
    ensures UnfoldRefs(data, t, ptr, k, keys, m) == UnfoldRefs(data, t, ptr, k, keys, n)
    decreases n, 1, k
  {
    hide Unfold, RefTarget, Slot, Primitive;
    if k > 0 {
      UnfoldRefsMonotone(data, t, ptr, k - 1, keys, n, m);
      UnfoldMonotone(data, t, RefTarget(data, t, Slot(ptr, k - 1, t.refSize)), n, m);
    }
  }

  // The bytes at one offset describe at most one value.
  lemma DescribesUnique(data: seq<byte>, t: Trailer, off: nat, v: Plist, w: Plist)
    requires Layout(data, t)
    requires Describes(data, t, off, v) && Describes(data, t, off, w)
    ensures v == w
  {
    var n: nat :| Unfold(data, t, off, n) == Some(v);
    var m: nat :| Unfold(data, t, off, m) == Some(w);
    if n <= m {
      UnfoldMonotone(data, t, off, n, m);
    } else {
      UnfoldMonotone(data, t, off, m, n);
    }
  }

  lemma {:induction false} RefsNeedEach(data: seq<byte>, t: Trailer, ptr: nat, k: nat, keys: nat, n: nat, i: nat)
    requires Layout(data, t) && i < k
    requires UnfoldRefs(data, t, ptr, k, keys, n).Some?
    ensures UnfoldRefs(data, t, ptr, i, keys, n).Some?
    ensures UnfoldRefs(data, t, ptr, i + 1, keys, n).Some?
    ensures Unfold(data, t, RefTarget(data, t, Slot(ptr, i, t.refSize)), n).Some?
    decreases k
  {
    hide Unfold, RefTarget, Slot, Primitive;
    if i < k - 1 {
      RefsNeedEach(data, t, ptr, k - 1, keys, n, i);
    }
  }

  // One child that describes nothing, or a key that is a container, spoils the container.
  lemma FailedChild(data: seq<byte>, t: Trailer, startOffset: nat, idx: nat, ok: bool, plist: Plist)
    requires Layout(data, t) && 8 <= startOffset < t.tableOffset
    requires ParseAt(data, t, startOffset).Refs? && idx < ParseAt(data, t, startOffset).count
    requires var Refs(kind, ptr, count) := ParseAt(data, t, startOffset);
      var off := RefTarget(data, t, Slot(ptr, idx, t.refSize));
      if ok then Describes(data, t, off, plist) && idx < KeyCount(kind, count) && !Primitive(plist)
      else DescribesNothing(data, t, off)
    ensures DescribesNothing(data, t, startOffset)
  {
    var Refs(kind, ptr, count) := ParseAt(data, t, startOffset);
    var off := RefTarget(data, t, Slot(ptr, idx, t.refSize));
    forall n: nat ensures Unfold(data, t, startOffset, n) == None {
      if Unfold(data, t, startOffset, n).Some? {
        RefsNeedEach(data, t, ptr, count, KeyCount(kind, count), n - 1, idx);
        if ok {
          DescribesUnique(data, t, off, plist, Unfold(data, t, off, n - 1).value);
        }
        assert false;
      }
    }
  }

  lemma ExtendRefs(data: seq<byte>, t: Trailer, ptr: nat, idx: nat, keys: nat, list: seq<Plist>, plist: Plist)
    requires Layout(data, t)
    requires RefsDescribe(data, t, ptr, idx, keys, list)
    requires Describes(data, t, RefTarget(data, t, Slot(ptr, idx, t.refSize)), plist)
    requires idx < keys ==> Primitive(plist)
    ensures RefsDescribe(data, t, ptr, idx + 1, keys, list + [plist])
  {
    var off := RefTarget(data, t, Slot(ptr, idx, t.refSize));
    var n: nat :| UnfoldRefs(data, t, ptr, idx, keys, n) == Some(list);
    var m: nat :| Unfold(data, t, off, m) == Some(plist);
    var k := if n <= m then m else n;
    UnfoldRefsMonotone(data, t, ptr, idx, keys, n, k);
    UnfoldMonotone(data, t, off, m, k);
    assert UnfoldRefs(data, t, ptr, idx + 1, keys, k) == Some(list + [plist]);
  }

  lemma NoRefs(data: seq<byte>, t: Trailer, ptr: nat, keys: nat)
    requires Layout(data, t)
    ensures RefsDescribe(data, t, ptr, 0, keys, [])
  {
    assert UnfoldRefs(data, t, ptr, 0, keys, 0) == Some([]);
  }

  lemma BuildDescribes(data: seq<byte>, t: Trailer, off: nat, list: seq<Plist>)
    requires Layout(data, t) && 8 <= off < t.tableOffset
    requires ParseAt(data, t, off).Refs?
    requires var Refs(kind, ptr, count) := ParseAt(data, t, off);
      RefsDescribe(data, t, ptr, count, KeyCount(kind, count), list)
    ensures ParseAt(data, t, off).kind == KDict ==> |list| % 2 == 0
    ensures Describes(data, t, off, Build(ParseAt(data, t, off).kind, list))
  {
    var Refs(kind, ptr, count) := ParseAt(data, t, off);
    var n: nat :| UnfoldRefs(data, t, ptr, count, KeyCount(kind, count), n) == Some(list);
    assert Unfold(data, t, off, n + 1) == Some(Build(kind, list));
  }
}
