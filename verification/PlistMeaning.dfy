// What the bytes of a file mean, object by object: leaves are themselves, and containers are made of
// what their references lead to.
module PlistMeaning {
  import opened SizedInts
  import opened PlistObjects
  import opened PlistParse

  // A container is v when its references lead to ps, in this order: an array of them, the set of them,
  // or a dictionary of the first half to the second, in which the first of equal keys decides.
  ghost predicate Assembled(kind: Kind, ps: seq<Plist>, v: Plist) {
    match kind
    case KArray => v == PArray(ps)
    case KSet => v.PSet? && forall p :: p in v.members <==> p in ps
    case KDict =>
      && |ps| % 2 == 0 && v.PDict?
      && FirstOfEqual(ps[..|ps| / 2], ps[|ps| / 2..], v.entries)
  }

  lemma BuildIs(kind: Kind, ps: seq<Plist>, v: Plist)
    requires kind == KDict ==> |ps| % 2 == 0
    ensures Assembled(kind, ps, v) <==> v == Build(kind, ps)
  {
    match kind
    case KArray =>
    case KSet =>
    case KDict =>
      var n := |ps| / 2;
      FirstWinsIs(ps[..n], ps[n..]);
      if Assembled(kind, ps, v) {
        FirstOfEqualOnce(ps[..n], ps[n..], v.entries);
      }
  }

  // Where the i-th reference of the container at off leads.
  function Child(data: seq<byte>, t: Trailer, off: nat, i: nat): nat
    requires Layout(data, t) && 8 <= off < t.tableOffset && ParseAt(data, t, off).Refs?
  {
    RefTarget(data, t, Slot(ParseAt(data, t, off).ptr, i, t.refSize))
  }

  // In a dictionary the keys come first, and none of them is a container.
  predicate MayBe(kind: Kind, count: nat, i: nat, p: Plist) {
    kind == KDict && i < count / 2 ==> !p.PArray? && !p.PSet? && !p.PDict?
  }

  ghost predicate MadeOf(data: seq<byte>, t: Trailer, off: nat, ps: seq<Plist>, k: nat)
    requires Layout(data, t) && 8 <= off < t.tableOffset && ParseAt(data, t, off).Refs?
  {
    && |ps| == k
    && forall i: nat :: i < k ==>
         Describes(data, t, Child(data, t, off, i), ps[i])
         && MayBe(ParseAt(data, t, off).kind, ParseAt(data, t, off).count, i, ps[i])
  }

  lemma {:induction false} MadeOfRefs(data: seq<byte>, t: Trailer, off: nat, ps: seq<Plist>, k: nat)
    requires Layout(data, t) && 8 <= off < t.tableOffset && ParseAt(data, t, off).Refs?
    ensures var Refs(kind, ptr, count) := ParseAt(data, t, off);
      MadeOf(data, t, off, ps, k) <==> RefsDescribe(data, t, ptr, k, KeyCount(kind, count), ps)
    decreases k
  {
    hide Describes, RefsDescribe, RefTarget, ParseAt, Slot;
    var Refs(kind, ptr, count) := ParseAt(data, t, off);
    var keys := KeyCount(kind, count);
    if k == 0 {
      NoRefs(data, t, ptr, keys);
      RefsLast(data, t, ptr, k, keys, ps);
    } else if |ps| > 0 {
      var ps', p := ps[..|ps| - 1], ps[|ps| - 1];
      assert ps == ps' + [p];
      MadeOfRefs(data, t, off, ps', k - 1);
      RefsLast(data, t, ptr, k, keys, ps);
      if MadeOf(data, t, off, ps, k) {
        MadeOfLess(data, t, off, ps, k);
        ExtendRefs(data, t, ptr, k - 1, keys, ps', p);
      }
    } else {
      RefsLast(data, t, ptr, k, keys, ps);
    }
  }

  lemma MadeOfLess(data: seq<byte>, t: Trailer, off: nat, ps: seq<Plist>, k: nat)
    requires Layout(data, t) && 8 <= off < t.tableOffset && ParseAt(data, t, off).Refs?
    requires k > 0 && |ps| > 0 && MadeOf(data, t, off, ps, k)
    ensures MadeOf(data, t, off, ps[..|ps| - 1], k - 1)
    ensures Describes(data, t, Child(data, t, off, k - 1), ps[k - 1])
    ensures MayBe(ParseAt(data, t, off).kind, ParseAt(data, t, off).count, k - 1, ps[k - 1])
  {
    hide Describes, ParseAt, Child, MayBe;
    var n: nat := k - 1;
    assert Describes(data, t, Child(data, t, off, n), ps[n]);
  }

  // What references describe, they describe one by one.
  lemma RefsLast(data: seq<byte>, t: Trailer, ptr: nat, k: nat, keys: nat, ps: seq<Plist>)
    requires Layout(data, t)
    ensures RefsDescribe(data, t, ptr, k, keys, ps) ==> |ps| == k
    ensures RefsDescribe(data, t, ptr, k, keys, ps) && k > 0 ==>
      && RefsDescribe(data, t, ptr, k - 1, keys, ps[..k - 1])
      && Describes(data, t, RefTarget(data, t, Slot(ptr, k - 1, t.refSize)), ps[k - 1])
      && (k - 1 < keys ==> Primitive(ps[k - 1]))
  {
    hide RefTarget, Slot, Unfold;
    if RefsDescribe(data, t, ptr, k, keys, ps) && k > 0 {
      var n: nat :| UnfoldRefs(data, t, ptr, k, keys, n) == Some(ps);
      assert UnfoldRefs(data, t, ptr, k - 1, keys, n) == Some(ps[..k - 1]);
      assert Unfold(data, t, RefTarget(data, t, Slot(ptr, k - 1, t.refSize)), n) == Some(ps[k - 1]);
    }
  }

  // The whole meaning, one object at a time.
  lemma DescribesStep(data: seq<byte>, t: Trailer, off: nat, v: Plist)
    requires Layout(data, t)
    ensures Describes(data, t, off, v) <==>
      && 8 <= off < t.tableOffset
      && match ParseAt(data, t, off)
         case Corrupt => false
         case Leaf(w) => v == w
         case Refs(kind, ptr, count) => exists ps :: MadeOf(data, t, off, ps, count) && Assembled(kind, ps, v)
  {
    hide UnfoldRefs, ParseAt, MadeOf, Assembled, Build, RefsDescribe;
    if 8 <= off < t.tableOffset {
      match ParseAt(data, t, off)
      case Corrupt =>
      case Leaf(w) => assert Unfold(data, t, off, 1) == Some(w);
      case Refs(kind, ptr, count) => ContainerStep(data, t, off, v);
    }
  }

  lemma ContainerStep(data: seq<byte>, t: Trailer, off: nat, v: Plist)
    requires Layout(data, t) && 8 <= off < t.tableOffset && ParseAt(data, t, off).Refs?
    ensures var Refs(kind, ptr, count) := ParseAt(data, t, off);
      Describes(data, t, off, v) <==> exists ps :: MadeOf(data, t, off, ps, count) && Assembled(kind, ps, v)
  {
    hide UnfoldRefs, ParseAt, MadeOf, Assembled, Build;
    var Refs(kind, ptr, count) := ParseAt(data, t, off);
    if Describes(data, t, off, v) {
      var n: nat :| Unfold(data, t, off, n) == Some(v);
      var ps := UnfoldRefs(data, t, ptr, count, KeyCount(kind, count), n - 1).value;
      assert RefsDescribe(data, t, ptr, count, KeyCount(kind, count), ps);
      MadeOfRefs(data, t, off, ps, count);
      EvenCount(data, t, off);
      BuildIs(kind, ps, v);
    }
    if exists ps :: MadeOf(data, t, off, ps, count) && Assembled(kind, ps, v) {
      var ps :| MadeOf(data, t, off, ps, count) && Assembled(kind, ps, v);
      MadeOfRefs(data, t, off, ps, count);
      BuildDescribes(data, t, off, ps);
      BuildIs(kind, ps, v);
    }
  }

  lemma EvenCount(data: seq<byte>, t: Trailer, off: nat)
    requires Layout(data, t) && 8 <= off < t.tableOffset && ParseAt(data, t, off).Refs?
    ensures ParseAt(data, t, off).kind == KDict ==> ParseAt(data, t, off).count % 2 == 0
  {
  }
}
