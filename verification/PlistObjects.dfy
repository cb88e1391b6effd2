// The object graph the binary property list writer is given, and the property list
// values that its objects stand for.
module PlistObjects {
  import opened SizedInts

  type unichar = x: int | 0 <= x < 0x1_0000
  type uint32 = x: int | 0 <= x < UINT32_LIMIT
  type int64 = x: int | -0x8000_0000_0000_0000 <= x < 0x8000_0000_0000_0000
  type int128 = x: int | -INT128_BOUND <= x < INT128_BOUND
  type bytes4 = s: seq<byte> | |s| == 4 witness [0, 0, 0, 0]
  type bytes8 = s: seq<byte> | |s| == 8 witness [0, 0, 0, 0, 0, 0, 0, 0]

  const INT128_BOUND: int := 0x8000_0000_0000_0000_0000_0000_0000_0000

  /** An acyclic object graph, unfolded from its root.  Every object carries its address, so two
      occurrences are the same object exactly when they are equal here; the two booleans are
      singletons.  A dictionary lists its entries in the order its table enumerates them. */
  datatype Obj =
    | OBool(b: bool)
    | OInt(addr: nat, v: int64)
    | OInt128(addr: nat, wide: int128)
    | OReal32(addr: nat, bits4: bytes4)
    | OReal64(addr: nat, bits8: bytes8)
    | ODate(addr: nat, date: bytes8)
    | OData(addr: nat, bytes: seq<byte>)
    | OString(addr: nat, chars: seq<unichar>)
    | OUid(addr: nat, uid: uint32)
    | OArray(addr: nat, elems: seq<Obj>)
    | ODict(addr: nat, entries: seq<Entry>)
    | OOther(addr: nat)

  datatype Entry = Entry(key: Obj, value: Obj)

  /** Property lists, equal when they are of the same type and value throughout.  Reals and dates are
      kept as their bytes.  CFEqual, by which dictionaries compare keys, tells UIDs apart by address,
      and finds numbers of different types equal. */
  datatype Plist =
    | PNull
    | PBool(b: bool)
    | PInt(v: int)
    | PReal32(bits4: bytes4)
    | PReal64(bits8: bytes8)
    | PDate(date: bytes8)
    | PData(bytes: seq<byte>)
    | PString(chars: seq<unichar>)
    | PUid(uid: uint32)
    | PArray(elems: seq<Plist>)
    | PSet(members: set<Plist>)
    | PDict(entries: map<Plist, Plist>)

  predicate Primitive(p: Plist) {
    !p.PArray? && !p.PSet? && !p.PDict?
  }

  // The keys and then the values, as CFDictionaryGetKeysAndValues fills the writer's list.
  function DictList(entries: seq<Entry>): (cs: seq<Obj>)
    ensures |cs| == 2 * |entries|
    ensures forall i :: 0 <= i < |entries| ==> cs[i] == entries[i].key && cs[|entries| + i] == entries[i].value
  {
    seq(|entries|, i requires 0 <= i < |entries| => entries[i].key) +
    seq(|entries|, i requires 0 <= i < |entries| => entries[i].value)
  }

  function Children(o: Obj): (cs: seq<Obj>)
    ensures forall i :: 0 <= i < |cs| ==> cs[i] < o
    ensures o.ODict? ==> |cs| == 2 * |o.entries|
  {
    match o
    case OArray(_, elems) => elems
    case ODict(_, entries) =>
      var cs := DictList(entries);
      assert forall i :: 0 <= i < |cs| ==>
        cs[i] == if i < |entries| then entries[i].key else entries[i - |entries|].value;
      cs
    case _ => []
  }

  function Mod128(v: int128): nat {
    if v >= 0 then v else v + 2 * INT128_BOUND
  }

  /** Insertion in order where a key that is already present keeps its first value. */
  function FirstWins(ks: seq<Plist>, vs: seq<Plist>): map<Plist, Plist>
    requires |ks| == |vs|
  {
    if ks == [] then map[]
    else
      var n := |ks| - 1;
      var m := FirstWins(ks[..n], vs[..n]);
      if ks[n] in m then m else m[ks[n] := vs[n]]
  }

  // Each key that occurs has the value at the first place where it occurs.
  ghost predicate FirstOfEqual(ks: seq<Plist>, vs: seq<Plist>, m: map<Plist, Plist>)
    requires |ks| == |vs|
  {
    && (forall k :: k in m <==> k in ks)
    && (forall i :: 0 <= i < |ks| && FirstAt(ks, i) ==> ks[i] in m && m[ks[i]] == vs[i])
  }

  ghost predicate FirstAt(ks: seq<Plist>, i: nat)
    requires i < |ks|
  {
    forall j :: 0 <= j < i ==> ks[j] != ks[i]
  }

  lemma FirstWinsStep(ks: seq<Plist>, vs: seq<Plist>)
    requires |ks| == |vs| && ks != []
    ensures var n := |ks| - 1;
      var m, m' := FirstWins(ks[..n], vs[..n]), FirstWins(ks, vs);
      m' == if ks[n] in m then m else m[ks[n] := vs[n]]
  {
  }

  lemma {:induction false} FirstWinsIs(ks: seq<Plist>, vs: seq<Plist>)
    requires |ks| == |vs|
    ensures FirstOfEqual(ks, vs, FirstWins(ks, vs))
    decreases |ks|
  {
    hide FirstWins;
    if ks == [] {
      NothingWins();
    } else {
      var n := |ks| - 1;
      FirstWinsIs(ks[..n], vs[..n]);
      FirstWinsStep(ks, vs);
      FirstOfMore(ks, vs, FirstWins(ks[..n], vs[..n]));
    }
  }

  lemma NothingWins()
    ensures FirstWins([], []) == map[]
  {
  }

  lemma FirstOfMore(ks: seq<Plist>, vs: seq<Plist>, m: map<Plist, Plist>)
    requires |ks| == |vs| && ks != [] && FirstOfEqual(ks[..|ks| - 1], vs[..|ks| - 1], m)
    ensures var n := |ks| - 1;
      FirstOfEqual(ks, vs, if ks[n] in m then m else m[ks[n] := vs[n]])
  {
    var n := |ks| - 1;
    var m' := if ks[n] in m then m else m[ks[n] := vs[n]];
    assert ks == ks[..n] + [ks[n]];
    forall i | 0 <= i < |ks| && FirstAt(ks, i) ensures ks[i] in m' && m'[ks[i]] == vs[i] {
      if i < n {
        assert FirstAt(ks[..n], i);
      }
    }
  }

  lemma {:induction false} FirstPlace(ks: seq<Plist>, k: Plist) returns (i: nat)
    requires k in ks
    ensures i < |ks| && ks[i] == k && FirstAt(ks, i)
    decreases |ks|
  {
    var n := |ks| - 1;
    assert ks == ks[..n] + [ks[n]];
    if k in ks[..n] {
      i := FirstPlace(ks[..n], k);
      assert ks[i] == ks[..n][i] && forall j :: 0 <= j < i ==> ks[j] == ks[..n][j];
    } else {
      i := n;
      forall j | 0 <= j < n ensures ks[j] != k {
        assert ks[..n][j] == ks[j];
      }
    }
  }

  // That leaves no choice.
  lemma FirstOfEqualOnce(ks: seq<Plist>, vs: seq<Plist>, m: map<Plist, Plist>)
    requires |ks| == |vs| && FirstOfEqual(ks, vs, m)
    ensures m == FirstWins(ks, vs)
  {
    FirstWinsIs(ks, vs);
    forall k | k in m ensures k in FirstWins(ks, vs) && m[k] == FirstWins(ks, vs)[k] {
      var i := FirstPlace(ks, k);
    }
  }

  /** The property list an object stands for; with `narrow`, each 128-bit integer is replaced by
      its low 64 bits, which is all the reader keeps of one. */
  function Denote(o: Obj, narrow: bool): Plist
    decreases o, 0
  {
    match o
    case OBool(b) => PBool(b)
    case OInt(_, v) => PInt(v)
    case OInt128(_, w) => PInt(if narrow then w % UINT64_LIMIT else w)
    case OReal32(_, bits) => PReal32(bits)
    case OReal64(_, bits) => PReal64(bits)
    case ODate(_, bits) => PDate(bits)
    case OData(_, bytes) => PData(bytes)
    case OString(_, chars) => PString(chars)
    case OUid(_, uid) => PUid(uid)
    case OArray(_, elems) => PArray(DenoteAll(o, |Children(o)|, narrow))
    case ODict(_, entries) =>
      var all := DenoteAll(o, |Children(o)|, narrow);
      PDict(FirstWins(all[..|entries|], all[|entries|..]))
    case OOther(_) => PNull
  }

  function DenoteAll(o: Obj, k: nat, narrow: bool): (ps: seq<Plist>)
    requires k <= |Children(o)|
    ensures |ps| == k
    ensures forall i :: 0 <= i < k ==> Children(o)[i] < o && ps[i] == Denote(Children(o)[i], narrow)
    decreases o, 0, k
  {
    if k == 0 then [] else DenoteAll(o, k - 1, narrow) + [Denote(Children(o)[k - 1], narrow)]
  }

  // Whether p holds of an object and of everything it contains.
  ghost predicate All(o: Obj, p: Obj -> bool)
    decreases o
  {
    p(o) && forall i :: 0 <= i < |Children(o)| ==> All(Children(o)[i], p)
  }

  predicate Writable(o: Obj) {
    !o.OOther?
  }

  // The reader refuses containers as dictionary keys.
  predicate PrimitiveKeys(o: Obj) {
    o.ODict? ==> forall e :: e in o.entries ==> !e.key.OArray? && !e.key.ODict?
  }

  predicate FitsUnsigned64(o: Obj) {
    o.OInt128? ==> 0 <= o.wide < UINT64_LIMIT
  }

  // No two keys are equal, as a CFDictionary has it for keys of the same type other than UIDs.
  ghost predicate DistinctKeys(o: Obj) {
    o.ODict? ==>
      forall i, j :: 0 <= i < j < |o.entries| ==> Denote(o.entries[i].key, false) != Denote(o.entries[j].key, false)
  }
}
