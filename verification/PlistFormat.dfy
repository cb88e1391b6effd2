// The bytes of a binary property list, as functions of the flattened object list.
module PlistFormat {
  import opened SizedInts
  import opened PlistObjects
  import ArrayDeque

  const MARKER_FALSE: byte := 0x08
  const MARKER_TRUE: byte := 0x09
  const MARKER_INT: byte := 0x10
  const MARKER_REAL: byte := 0x20
  const MARKER_DATE: byte := 0x33
  const MARKER_DATA: byte := 0x40
  const MARKER_ASCII: byte := 0x50
  const MARKER_UTF16: byte := 0x60
  const MARKER_UID: byte := 0x80
  const MARKER_ARRAY: byte := 0xA0
  const MARKER_SET: byte := 0xC0
  const MARKER_DICT: byte := 0xD0

  const TRAILER_SIZE: nat := 32

  // "bplist00"
  const HEADER: seq<byte> := [0x62, 0x70, 0x6C, 0x69, 0x73, 0x74, 0x30, 0x30]

  // ---------- flattening ----------

  /** The state of the flattening pass: the object list, the number given to each object, and the
      leaf objects already met. */
  datatype Flat = Flat(list: seq<Obj>, table: map<Obj, nat>, uniquing: set<Obj>)

  const EMPTY_FLAT := Flat([], map[], {})

  // Strings, numbers, dates and data are uniqued; containers and booleans are not, and neither
  // is any other type.
  predicate Uniqued(o: Obj) {
    o.OString? || o.OInt? || o.OInt128? || o.OReal32? || o.OReal64? || o.ODate? || o.OData?
  }

  // The first number given to an object stays.
  function Enlist(o: Obj, s: Flat): Flat {
    Flat(s.list + [o],
         if o in s.table then s.table else s.table[o := |s.list|],
         if Uniqued(o) then s.uniquing + {o} else s.uniquing)
  }

  function Flatten(o: Obj, s: Flat): Flat
    decreases o, 0
  {
    if Uniqued(o) && o in s.uniquing then s else FlattenChildren(o, |Children(o)|, Enlist(o, s))
  }

  function FlattenChildren(o: Obj, k: nat, s: Flat): Flat
    requires k <= |Children(o)|
    decreases o, 0, k
  {
    if k == 0 then s else Flatten(Children(o)[k - 1], FlattenChildren(o, k - 1, s))
  }

  // ---------- objects ----------

  function IntSize(v: nat): nat {
    if v <= 0xFF then 1 else if v <= 0xFFFF then 2 else if v <= 0xFFFF_FFFF then 4 else 8
  }

  function Lg(n: nat): byte {
    if n == 1 then 0 else if n == 2 then 1 else if n == 4 then 2 else 3
  }

  function IntBytes(v: nat): seq<byte> {
    [MARKER_INT + Lg(IntSize(v))] + BigEndian(v, IntSize(v))
  }

  // A marker whose low nibble is the count, or 15 with the count after it.
  function CountedMarker(marker: byte, count: nat): seq<byte>
    requires marker + 15 < 256
  {
    if count < 15 then [marker + count] else [marker + 15] + IntBytes(count)
  }

  predicate IsASCII(chars: seq<unichar>) {
    forall i :: 0 <= i < |chars| ==> chars[i] < 0x80
  }

  function Narrowed(chars: seq<unichar>): seq<byte>
    requires IsASCII(chars)
  {
    seq(|chars|, i requires 0 <= i < |chars| => chars[i] as byte)
  }

  function Utf16BigEndian(chars: seq<unichar>): (s: seq<byte>)
    ensures |s| == 2 * |chars|
  {
    if chars == [] then []
    else
      var n := |chars| - 1;
      Utf16BigEndian(chars[..n]) + [chars[n] / 256, chars[n] % 256]
  }

  function Unsigned64(v: int64): nat {
    if v >= 0 then v else v + UINT64_LIMIT
  }

  // The number the object table holds, 0 when it holds none.
  function RefNumber(table: map<Obj, nat>, o: Obj): nat {
    if o in table then table[o] else 0
  }

  function RefBytes(cs: seq<Obj>, table: map<Obj, nat>, refSize: nat): (s: seq<byte>)
    ensures |s| == |cs| * refSize
  {
    if cs == [] then []
    else
      var n := |cs| - 1;
      RefBytes(cs[..n], table, refSize) + BigEndian(RefNumber(table, cs[n]), refSize)
  }

  function ObjectBytes(o: Obj, table: map<Obj, nat>, refSize: nat): seq<byte> {
    match o
    case OBool(b) => [if b then MARKER_TRUE else MARKER_FALSE]
    case OInt(_, v) => IntBytes(Unsigned64(v))
    case OInt128(_, w) => [MARKER_INT + 4] + BigEndian(Mod128(w), 16)
    case OReal32(_, bits) => [MARKER_REAL + 2] + bits
    case OReal64(_, bits) => [MARKER_REAL + 3] + bits
    case ODate(_, bits) => [MARKER_DATE] + bits
    case OData(_, bytes) => CountedMarker(MARKER_DATA, |bytes|) + bytes
    case OString(_, chars) =>
      if IsASCII(chars) then CountedMarker(MARKER_ASCII, |chars|) + Narrowed(chars)
      else CountedMarker(MARKER_UTF16, |chars|) + Utf16BigEndian(chars)
    case OUid(_, uid) => [MARKER_UID + (IntSize(uid) - 1)] + BigEndian(uid, IntSize(uid))
    case OArray(_, elems) => CountedMarker(MARKER_ARRAY, |elems|) + RefBytes(elems, table, refSize)
    case ODict(_, entries) => CountedMarker(MARKER_DICT, |entries|) + RefBytes(Children(o), table, refSize)
    case OOther(_) => []
  }

  // ---------- the file ----------

  // The first k objects, one after the other.
  function ObjectTable(list: seq<Obj>, k: nat, table: map<Obj, nat>, refSize: nat): seq<byte>
    requires k <= |list|
  {
    if k == 0 then [] else ObjectTable(list, k - 1, table, refSize) + ObjectBytes(list[k - 1], table, refSize)
  }

  function OffsetOf(list: seq<Obj>, k: nat, table: map<Obj, nat>, refSize: nat): nat
    requires k <= |list|
  {
    |HEADER| + |ObjectTable(list, k, table, refSize)|
  }

  function OffsetTable(list: seq<Obj>, k: nat, table: map<Obj, nat>, refSize: nat, intSize: nat): (s: seq<byte>)
    requires k <= |list|
    ensures |s| == k * intSize
  {
    if k == 0 then []
    else OffsetTable(list, k - 1, table, refSize, intSize)
         + BigEndian(OffsetOf(list, k - 1, table, refSize), intSize)
  }

  // Five unused bytes and a sort version, all zero, then the sizes and the counts.  The top
  // object is always the first.
  function TrailerBytes(intSize: byte, refSize: byte, numObjects: nat, tableOffset: nat): (s: seq<byte>)
    ensures |s| == TRAILER_SIZE
  {
    [0, 0, 0, 0, 0, 0, intSize, refSize] + BigEndian(numObjects, 8) + BigEndian(0, 8) + BigEndian(tableOffset, 8)
  }

  function BodyBytes(s: Flat): seq<byte> {
    HEADER + ObjectTable(s.list, |s.list|, s.table, CountSize(|s.list|))
  }

  function FileOf(s: Flat): seq<byte> {
    var refSize, body := CountSize(|s.list|), BodyBytes(s);
    var intSize := CountSize(|body|);
    body + OffsetTable(s.list, |s.list|, s.table, refSize, intSize)
    + TrailerBytes(intSize, refSize, |s.list|, |body|)
  }

  function FileBytes(o: Obj): seq<byte> {
    FileOf(Flatten(o, EMPTY_FLAT))
  }

  // The sizes the writer can carry: the objects are in a CFArray, and the length of the result
  // is a CFIndex.
  predicate FitsFormat(o: Obj) {
    |Flatten(o, EMPTY_FLAT).list| <= ArrayDeque.MAX_COUNT && |FileBytes(o)| <= LONG_MAX / 8
  }
}
