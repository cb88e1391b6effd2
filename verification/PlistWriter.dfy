// The binary property list writer: flattening, appending objects, and the whole file.
module PlistWriter {
  import opened SizedInts
  import opened PlistObjects
  import opened PlistFormat
  import opened PlistWriteBuffer
  import opened PlistBytes

  // The object list, object table and uniquing set that the flattening pass fills.
  class Flattener {
    var objlist: seq<Obj>
    var objtable: map<Obj, nat>
    var uniquingset: set<Obj>

    function State(): Flat
      reads this
    {
      Flat(objlist, objtable, uniquingset)
    }

    constructor ()
      ensures State() == EMPTY_FLAT
    {
      objlist, objtable, uniquingset := [], map[], {};
    }

    method FlattenPlist(plist: Obj)
      modifies this
      ensures State() == Flatten(plist, old(State()))
      decreases plist
    {
      if Uniqued(plist) {
        var before := |uniquingset|;
        var was := uniquingset;
        uniquingset := uniquingset + {plist};
        var after := |uniquingset|;
        SameSize(was, plist);
        if after == before {
          return;
        }
      }
      var refnum := |objlist|;
      objlist := objlist + [plist];
      if plist !in objtable {
        objtable := objtable[plist := refnum];
      }
      assert State() == Enlist(plist, old(State()));
      ghost var enlisted := State();
      var list := Children(plist);
      for idx := 0 to |list|
        invariant State() == FlattenChildren(plist, idx, enlisted)
      {
        FlattenPlist(list[idx]);
      }
    }
  }

  lemma SameSize<T>(s: set<T>, x: T)
    ensures |s + {x}| == |s| <==> x in s
    ensures x in s ==> s + {x} == s
  {
    if x in s {
      assert s + {x} == s;
    } else {
      assert s + {x} != s;
    }
  }

  lemma Assoc(a: seq<byte>, b: seq<byte>, c: seq<byte>)
    ensures a + b + c == a + (b + c)
  {
  }

  method AppendInt(buf: WriteBuffer, bigint: nat)
    requires buf.Valid()
    modifies buf, buf.buffer
    ensures buf.Valid()
    ensures buf.Contents() == old(buf.Contents()) + IntBytes(bigint)
    ensures buf.Contents() == old(buf.Contents()) + IntObject(bigint)
  {
    IntBytesAre(bigint);
    var nbytes: nat, marker: byte;
    if bigint <= 0xFF {
      nbytes, marker := 1, MARKER_INT + 0;
    } else if bigint <= 0xFFFF {
      nbytes, marker := 2, MARKER_INT + 1;
    } else if bigint <= 0xFFFF_FFFF {
      nbytes, marker := 4, MARKER_INT + 2;
    } else {
      nbytes, marker := 8, MARKER_INT + 3;
    }
    buf.Write([marker]);
    buf.Write(BigEndian(bigint, nbytes));
    assert old(buf.Contents()) + [marker] + BigEndian(bigint, nbytes)
        == old(buf.Contents()) + IntBytes(bigint);
  }

  method AppendUID(buf: WriteBuffer, uid: uint32)
    requires buf.Valid()
    modifies buf, buf.buffer
    ensures buf.Valid()
    ensures buf.Contents() == old(buf.Contents()) + ObjectBytes(OUid(0, uid), map[], 1)
  {
    var nbytes: nat;
    if uid <= 0xFF {
      nbytes := 1;
    } else if uid <= 0xFFFF {
      nbytes := 2;
    } else {
      nbytes := 4;
    }
    buf.Write([MARKER_UID + (nbytes - 1)]);
    buf.Write(BigEndian(uid, nbytes));
    assert old(buf.Contents()) + [MARKER_UID + (nbytes - 1)] + BigEndian(uid, nbytes)
        == old(buf.Contents()) + ObjectBytes(OUid(0, uid), map[], 1);
  }

  // The marker of a counted object, with its count when that is 15 or more.
  method AppendCountedMarker(buf: WriteBuffer, marker: byte, count: nat)
    requires buf.Valid() && marker + 15 < 256
    modifies buf, buf.buffer
    ensures buf.Valid()
    ensures buf.Contents() == old(buf.Contents()) + CountedMarker(marker, count)
  {
    var nibble: byte := if count < 15 then count else 15;
    buf.Write([marker + nibble]);
    if 15 <= count {
      AppendInt(buf, count);
      Assoc(old(buf.Contents()), [marker + nibble], IntBytes(count));
    }
  }

  method AppendString(buf: WriteBuffer, chars: seq<unichar>)
    requires buf.Valid()
    modifies buf, buf.buffer
    ensures buf.Valid()
    ensures buf.Contents() == old(buf.Contents()) + ObjectBytes(OString(0, chars), map[], 1)
  {
    if IsASCII(chars) {
      AppendCountedMarker(buf, MARKER_ASCII, |chars|);
      buf.Write(Narrowed(chars));
      Assoc(old(buf.Contents()), CountedMarker(MARKER_ASCII, |chars|), Narrowed(chars));
    } else {
      AppendCountedMarker(buf, MARKER_UTF16, |chars|);
      var swapped: seq<byte> := [];
      for idx := 0 to |chars|
        invariant swapped == Utf16BigEndian(chars[..idx])
      {
        assert chars[..idx + 1][..idx] == chars[..idx];
        swapped := swapped + [chars[idx] / 256, chars[idx] % 256];
      }
      assert chars[..|chars|] == chars;
      buf.Write(swapped);
      Assoc(old(buf.Contents()), CountedMarker(MARKER_UTF16, |chars|), Utf16BigEndian(chars));
    }
  }

  method AppendNumber(buf: WriteBuffer, num: Obj)
    requires buf.Valid()
    requires num.OInt? || num.OInt128? || num.OReal32? || num.OReal64?
    modifies buf, buf.buffer
    ensures buf.Valid()
    ensures buf.Contents() == old(buf.Contents()) + ObjectBytes(num, map[], 1)
  {
    match num
    case OReal32(_, bits) => AppendMarked(buf, MARKER_REAL + 2, bits);
    case OReal64(_, bits) => AppendMarked(buf, MARKER_REAL + 3, bits);
    case OInt128(_, wide) => AppendMarked(buf, MARKER_INT + 4, BigEndian(Mod128(wide), 16));
    case OInt(_, v) => AppendInt(buf, Unsigned64(v));
  }

  method AppendMarked(buf: WriteBuffer, marker: byte, bytes: seq<byte>)
    requires buf.Valid()
    modifies buf, buf.buffer
    ensures buf.Valid()
    ensures buf.Contents() == old(buf.Contents()) + ([marker] + bytes)
  {
    buf.Write([marker]);
    buf.Write(bytes);
    assert old(buf.Contents()) + [marker] + bytes == old(buf.Contents()) + ([marker] + bytes);
  }

  method AppendRefs(buf: WriteBuffer, list: seq<Obj>, objtable: map<Obj, nat>, objRefSize: nat)
    requires buf.Valid()
    modifies buf, buf.buffer
    ensures buf.Valid()
    ensures buf.Contents() == old(buf.Contents()) + RefBytes(list, objtable, objRefSize)
  {
    assert old(buf.Contents()) + [] == old(buf.Contents());
    for idx := 0 to |list|
      invariant buf.Valid()
      invariant buf.Contents() == old(buf.Contents()) + RefBytes(list[..idx], objtable, objRefSize)
    {
      var refnum := RefNumber(objtable, list[idx]);
      buf.Write(BigEndian(refnum, objRefSize));
      assert list[..idx + 1][..idx] == list[..idx];
      Assoc(old(buf.Contents()), RefBytes(list[..idx], objtable, objRefSize), BigEndian(refnum, objRefSize));
    }
    assert list[..|list|] == list;
  }

  method AppendData(buf: WriteBuffer, bytes: seq<byte>)
    requires buf.Valid()
    modifies buf, buf.buffer
    ensures buf.Valid()
    ensures buf.Contents() == old(buf.Contents()) + (CountedMarker(MARKER_DATA, |bytes|) + bytes)
  {
    AppendCountedMarker(buf, MARKER_DATA, |bytes|);
    buf.Write(bytes);
    Assoc(old(buf.Contents()), CountedMarker(MARKER_DATA, |bytes|), bytes);
  }

  // A dictionary or an array: its marker, its count, and a reference to each child.
  method AppendContainer(buf: WriteBuffer, marker: byte, count: nat, list: seq<Obj>,
                         objtable: map<Obj, nat>, objRefSize: nat)
    requires buf.Valid() && marker + 15 < 256
    modifies buf, buf.buffer
    ensures buf.Valid()
    ensures buf.Contents()
         == old(buf.Contents()) + (CountedMarker(marker, count) + RefBytes(list, objtable, objRefSize))
  {
    AppendCountedMarker(buf, marker, count);
    AppendRefs(buf, list, objtable, objRefSize);
    Assoc(old(buf.Contents()), CountedMarker(marker, count), RefBytes(list, objtable, objRefSize));
  }

  // Appends one object; false, and nothing written, for a type the format does not have.
  method AppendObject(buf: WriteBuffer, obj: Obj, objtable: map<Obj, nat>, objRefSize: nat)
    returns (success: bool)
    requires buf.Valid()
    modifies buf, buf.buffer
    ensures buf.Valid()
    ensures success == Writable(obj)
    ensures buf.Contents() == old(buf.Contents()) + ObjectBytes(obj, objtable, objRefSize)
  {
    success := true;
    match obj {
      case OString(_, chars) => AppendString(buf, chars);
      case OInt(_, _) => AppendNumber(buf, obj);
      case OInt128(_, _) => AppendNumber(buf, obj);
      case OReal32(_, _) => AppendNumber(buf, obj);
      case OReal64(_, _) => AppendNumber(buf, obj);
      case OBool(b) => buf.Write([if b then MARKER_TRUE else MARKER_FALSE]);
      case OData(_, bytes) => AppendData(buf, bytes);
      case ODate(_, date) => AppendMarked(buf, MARKER_DATE, date);
      case ODict(_, entries) =>
        AppendContainer(buf, MARKER_DICT, |entries|, DictList(entries), objtable, objRefSize);
      case OArray(_, elems) =>
        AppendContainer(buf, MARKER_ARRAY, |elems|, elems, objtable, objRefSize);
      case OUid(_, uid) => AppendUID(buf, uid);
      case OOther(_) => success := false;
    }
  }

  // Appends every object and notes where each one starts; stops at the first that fails.
  method AppendObjects(buf: WriteBuffer, objlist: seq<Obj>, objtable: map<Obj, nat>, refSize: nat)
    returns (success: bool, offsets: seq<nat>)
    requires buf.Valid() && buf.Contents() == HEADER
    modifies buf, buf.buffer
    ensures buf.Valid()
    ensures success <==> forall o :: o in objlist ==> Writable(o)
    ensures success ==> buf.Contents() == HEADER + ObjectTable(objlist, |objlist|, objtable, refSize)
    ensures success ==> |offsets| == |objlist|
    ensures success ==>
      forall i :: 0 <= i < |objlist| ==> offsets[i] == OffsetOf(objlist, i, objtable, refSize)
  {
    hide ObjectBytes;
    offsets := [];
    assert HEADER + [] == HEADER;
    for idx := 0 to |objlist|
      invariant buf.Valid()
      invariant buf.Contents() == HEADER + ObjectTable(objlist, idx, objtable, refSize)
      invariant |offsets| == idx
      invariant forall i :: 0 <= i < idx ==> offsets[i] == OffsetOf(objlist, i, objtable, refSize)
      invariant forall i :: 0 <= i < idx ==> Writable(objlist[i])
    {
      offsets := offsets + [buf.Position()];
      success := AppendObject(buf, objlist[idx], objtable, refSize);
      if !success {
        return;
      }
      Assoc(HEADER, ObjectTable(objlist, idx, objtable, refSize), ObjectBytes(objlist[idx], objtable, refSize));
    }
    success := true;
  }

  method AppendOffsets(buf: WriteBuffer, offsets: seq<nat>, intSize: nat,
                       ghost objlist: seq<Obj>, ghost objtable: map<Obj, nat>, ghost refSize: nat)
    requires buf.Valid()
    requires |offsets| == |objlist|
    requires forall i :: 0 <= i < |objlist| ==> offsets[i] == OffsetOf(objlist, i, objtable, refSize)
    modifies buf, buf.buffer
    ensures buf.Valid()
    ensures buf.Contents()
         == old(buf.Contents()) + OffsetTable(objlist, |objlist|, objtable, refSize, intSize)
  {
    hide OffsetOf, BigEndian, buf.Contents;
    assert old(buf.Contents()) + [] == old(buf.Contents());
    for idx := 0 to |offsets|
      invariant buf.Valid()
      invariant buf.Contents() == old(buf.Contents()) + OffsetTable(objlist, idx, objtable, refSize, intSize)
    {
      buf.Write(BigEndian(offsets[idx], intSize));
      Assoc(old(buf.Contents()), OffsetTable(objlist, idx, objtable, refSize, intSize),
            BigEndian(offsets[idx], intSize));
    }
  }

  // Writes the whole file to a stream; 0 when some object cannot be written.
  method WritePlist(plist: Obj, streamIsData: bool) returns (length: nat, stream: seq<byte>)
    requires FitsFormat(plist)
    ensures length != 0 <==> forall o :: o in Flatten(plist, EMPTY_FLAT).list ==> Writable(o)
    ensures length != 0 ==> stream == FileBytes(plist) && length == |stream|
  {
    var flattener := new Flattener();
    flattener.FlattenPlist(plist);
    var objlist, objtable := flattener.objlist, flattener.objtable;
    var cnt := |objlist|;
    var buf := new WriteBuffer(streamIsData);
    buf.Write(HEADER);
    assert [] + HEADER == HEADER;
    var refSize := ByteCount(cnt);
    var success, offsets := AppendObjects(buf, objlist, objtable, refSize);
    if !success {
      return 0, buf.stream;
    }
    var lengthSoFar := buf.Position();
    var tableOffset := lengthSoFar;
    var intSize := ByteCount(lengthSoFar);
    AppendOffsets(buf, offsets, intSize, objlist, objtable, refSize);
    lengthSoFar := lengthSoFar + cnt * intSize;
    buf.Write(TrailerBytes(intSize, refSize, cnt, tableOffset));
    buf.Flush();
    lengthSoFar := lengthSoFar + TRAILER_SIZE;
    return lengthSoFar, buf.stream;
  }
}
