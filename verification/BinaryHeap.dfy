// A binary heap in an array, with the least item first.
module BinaryHeap {
  import opened ArrayEvents
  import ArrayDeque

  // Positive means that the first item is greater.
  type Comparator = (Item, Item) -> int

  predicate Greater(cmp: Comparator, a: Item, b: Item) {
    cmp(a, b) > 0
  }

  ghost predicate Preorder(cmp: Comparator) {
    && (forall a, b :: Greater(cmp, a, b) ==> !Greater(cmp, b, a))
    && (forall a, b, c :: !Greater(cmp, a, b) && !Greater(cmp, b, c) ==> !Greater(cmp, a, c))
  }

  lemma NotGreater(cmp: Comparator, a: Item, b: Item)
    requires Preorder(cmp) && Greater(cmp, a, b)
    ensures !Greater(cmp, b, a)
  {
  }

  lemma Through(cmp: Comparator, a: Item, b: Item, c: Item)
    requires Preorder(cmp) && !Greater(cmp, a, b) && !Greater(cmp, b, c)
    ensures !Greater(cmp, a, c)
  {
  }

  function Parent(i: nat): nat
    requires i > 0
  {
    (i - 1) / 2
  }

  // No item is less than its parent.
  ghost predicate Edge(cmp: Comparator, s: seq<Item>, i: nat)
    requires 0 < i < |s|
  {
    !Greater(cmp, s[Parent(i)], s[i])
  }

  ghost predicate Ordered(cmp: Comparator, s: seq<Item>) {
    forall i :: 0 < i < |s| ==> Edge(cmp, s, i)
  }

  // The first item is a minimum.
  lemma {:induction false} RootLeast(cmp: Comparator, s: seq<Item>, i: nat)
    requires Preorder(cmp) && Ordered(cmp, s) && i < |s|
    ensures !Greater(cmp, s[0], s[i])
  {
    hide Greater;
    if i == 0 {
      Irreflexive(cmp, s[0]);
    } else {
      RootLeast(cmp, s, Parent(i));
      assert Edge(cmp, s, i);
      Through(cmp, s[0], s[Parent(i)], s[i]);
    }
  }

  lemma Irreflexive(cmp: Comparator, a: Item)
    requires Preorder(cmp)
    ensures !Greater(cmp, a, a)
  {
    if Greater(cmp, a, a) {
      NotGreater(cmp, a, a);
    }
  }

  // ---------- sifting ----------

  // The item at idx may be less than its parent, but what is below it is not less than either.
  ghost predicate Rising(cmp: Comparator, s: seq<Item>, idx: nat) {
    && idx < |s|
    && (forall i :: 0 < i < |s| && i != idx ==> Edge(cmp, s, i))
    && (forall i :: 0 < i < |s| && idx > 0 && Parent(i) == idx ==> !Greater(cmp, s[Parent(idx)], s[i]))
  }

  // The item at idx may be greater than what is below it, but what is above it is not.
  ghost predicate Sinking(cmp: Comparator, s: seq<Item>, idx: nat) {
    && idx < |s|
    && (forall i :: 0 < i < |s| && Parent(i) != idx ==> Edge(cmp, s, i))
    && (forall i :: 0 < i < |s| && idx > 0 && Parent(i) == idx ==> !Greater(cmp, s[Parent(idx)], s[i]))
  }

  lemma RiseStep(cmp: Comparator, s: seq<Item>, idx: nat)
    requires Preorder(cmp) && Rising(cmp, s, idx) && 0 < idx && Greater(cmp, s[Parent(idx)], s[idx])
    ensures Rising(cmp, Swapped(s, idx, Parent(idx)), Parent(idx))
  {
    hide Greater;
    var p, t := Parent(idx), Swapped(s, idx, Parent(idx));
    NotGreater(cmp, s[p], s[idx]);
    forall i | 0 < i < |t| && i != p ensures Edge(cmp, t, i) {
      assert i != idx ==> Edge(cmp, s, i);
      if Parent(i) == p && i != idx {
        Through(cmp, s[idx], s[p], s[i]);
      }
    }
    forall i | 0 < i < |t| && p > 0 && Parent(i) == p ensures !Greater(cmp, t[Parent(p)], t[i]) {
      assert Edge(cmp, s, p);
      assert i != idx ==> Edge(cmp, s, i);
      if i != idx {
        Through(cmp, s[Parent(p)], s[p], s[i]);
      }
    }
  }

  lemma RiseEnd(cmp: Comparator, s: seq<Item>, idx: nat)
    requires Rising(cmp, s, idx) && (idx == 0 || !Greater(cmp, s[Parent(idx)], s[idx]))
    ensures Ordered(cmp, s)
  {
  }

  // c is the child with which the item at idx changes places: one that no other child is less than.
  ghost predicate LeastChild(cmp: Comparator, s: seq<Item>, idx: nat, c: nat) {
    && 0 < c < |s| && Parent(c) == idx
    && (forall i :: 0 < i < |s| && Parent(i) == idx ==> !Greater(cmp, s[c], s[i]))
  }

  lemma SinkStep(cmp: Comparator, s: seq<Item>, idx: nat, c: nat)
    requires Preorder(cmp) && Sinking(cmp, s, idx) && LeastChild(cmp, s, idx, c) && !Greater(cmp, s[c], s[idx])
    ensures Sinking(cmp, Swapped(s, idx, c), c)
  {
    hide Greater;
    var t := Swapped(s, idx, c);
    forall i | 0 < i < |t| && Parent(i) != c ensures Edge(cmp, t, i) {
      assert Parent(i) != idx ==> Edge(cmp, s, i);
    }
    forall i | 0 < i < |t| && Parent(i) == c ensures !Greater(cmp, t[Parent(c)], t[i]) {
      assert Edge(cmp, s, i);
    }
  }

  lemma SinkEnd(cmp: Comparator, s: seq<Item>, idx: nat)
    requires Preorder(cmp) && Sinking(cmp, s, idx)
    requires forall i :: 0 < i < |s| && Parent(i) == idx ==> Greater(cmp, s[i], s[idx])
    ensures Ordered(cmp, s)
  {
    forall i | 0 < i < |s| ensures Edge(cmp, s, i) {
      if Parent(i) == idx {
        NotGreater(cmp, s[i], s[idx]);
      }
    }
  }

  // ---------- the heap ----------

  // An item put in the hole at one place leaves the hole at another.
  lemma HoleMoves(s: seq<Item>, hole: nat, from: nat, value: Item)
    requires hole < |s| && from < |s| && hole != from
    ensures s[hole := s[from]][from := value] == Swapped(s[hole := value], hole, from)
  {
  }

  class Heap {
    const cmp: Comparator
    // whether there are callbacks for retaining and for releasing
    const retains: bool
    const releases: bool
    var buckets: array<Item>
    var count: nat
    ghost var events: seq<Event>

    ghost predicate Valid()
      reads this, buckets
    {
      count <= buckets.Length <= ArrayDeque.MAX_CAPACITY && 4 <= buckets.Length && Ordered(cmp, buckets[..count])
    }

    ghost function Contents(): (s: seq<Item>)
      reads this, buckets
      requires Valid()
      ensures |s| == count
    {
      buckets[..count]
    }

    // What is retained on balance is what the heap holds, each item as often as it occurs.
    ghost predicate Balanced()
      reads this, buckets
      requires Valid()
    {
      retains && releases ==> NeverOver(events) && Held(events) == multiset(Contents())
    }

    constructor (cmp: Comparator, retains: bool, releases: bool)
      ensures Valid() && Balanced() && fresh(buckets) && count == 0 && this.cmp == cmp
      ensures this.retains == retains && this.releases == releases && events == []
    {
      this.cmp, this.retains, this.releases, events := cmp, retains, releases, [];
      var capacity := ArrayDeque.RoundUpCapacity(1);
      buckets := new Item[capacity];
      count := 0;
    }

    method Grow(numNewValues: nat)
      requires Valid() && buckets.Length <= count + numNewValues < ArrayDeque.MAX_CAPACITY
      modifies this`buckets
      ensures Valid() && fresh(buckets) && Contents() == old(Contents()) && count + numNewValues <= buckets.Length
      ensures ArrayDeque.PowerAbove(buckets.Length, count + numNewValues)
    {
      hide Ordered, Edge, ArrayDeque.PowerAbove;
      ghost var was := buckets[..count];
      var capacity := ArrayDeque.RoundUpCapacity(count + numNewValues);
      var grown := new Item[capacity];
      forall i | 0 <= i < buckets.Length {
        grown[i] := buckets[i];
      }
      assert grown[..count] == was;
      buckets := grown;
    }

    method SetBucket(idx: nat, item: Item)
      requires idx < count <= buckets.Length
      modifies buckets
      ensures buckets[..count] == old(buckets[..count])[idx := item]
    {
      buckets[idx] := item;
    }

    // Adds an item, moving greater ones down from its way to the top.
    method AddValue(value: Item)
      requires Valid() && Preorder(cmp) && count < ArrayDeque.MAX_COUNT
      modifies this, buckets
      ensures Valid() && (buckets == old(buckets) || fresh(buckets))
      ensures multiset(Contents()) == old(multiset(Contents())) + multiset{value} && count == old(count) + 1
      ensures events == old(events) + (if retains then [Retained(value)] else [])
      ensures old(Balanced()) ==> Balanced()
    {
      hide Preorder, Ordered, Held, NeverOver;
      AddedBalance(events, Contents(), value);
      if count == buckets.Length {
        Grow(1);
      }
      ghost var was := Contents();
      var cnt := count;
      count := cnt + 1;
      Rise(cnt, value, was);
      events := events + (if retains then [Retained(value)] else []);
    }

    method Rise(last: nat, value: Item, ghost was: seq<Item>)
      requires count == last + 1 <= buckets.Length && buckets[..last] == was && Ordered(cmp, was) && Preorder(cmp)
      modifies buckets
      ensures Ordered(cmp, buckets[..count]) && multiset(buckets[..count]) == multiset(was) + multiset{value}
    {
      hide Preorder, Greater, Ordered, Rising, Swapped;
      var idx := last;
      // the items as they would be with the value put in the hole
      ghost var s := buckets[..count][idx := value];
      assert s == was + [value];
      StartRise(cmp, was, value);
      while 0 < idx
        invariant idx < count && s == buckets[..count][idx := value]
        invariant Rising(cmp, s, idx) && multiset(s) == multiset(was) + multiset{value}
      {
        var pidx := (idx - 1) / 2;
        var item := buckets[pidx];
        if !(cmp(item, value) > 0) {
          break;
        }
        GreaterIs(cmp, item, value);
        RiseStep(cmp, s, idx);
        SwappedBag(s, idx, pidx);
        HoleMoves(buckets[..count], idx, pidx, value);
        SetBucket(idx, item);
        s := Swapped(s, idx, pidx);
        idx := pidx;
      }
      if idx > 0 {
        GreaterIs(cmp, buckets[(idx - 1) / 2], value);
      }
      RiseEnd(cmp, s, idx);
      SetBucket(idx, value);
    }

    // Removes the first item, a minimum, moving the least ones up into its place.
    method RemoveMinimumValue()
      requires Valid() && Preorder(cmp)
      modifies this`count, this`events, buckets
      ensures Valid() && (old(Balanced()) ==> Balanced())
      ensures old(count) == 0 ==> count == 0 && events == old(events)
      ensures old(count) > 0 ==>
        && count == old(count) - 1
        && events == old(events) + (if releases then [Released(old(Contents()[0]))] else [])
        && multiset(Contents()) == old(multiset(Contents())) - multiset{old(Contents()[0])}
        && forall i :: 0 <= i < old(count) ==> !Greater(cmp, old(Contents()[0]), old(Contents()[i]))
    {
      var cnt := count;
      if 0 == cnt {
        return;
      }
      ghost var was := Contents();
      forall i | 0 <= i < cnt ensures !Greater(cmp, was[0], was[i]) {
        RootLeast(cmp, was, i);
      }
      RemovedBalance(events, was);
      count := cnt - 1;
      events := events + (if releases then [Released(buckets[0])] else []);
      var val := buckets[cnt - 1];
      WithoutFirst(cmp, was);
      if cnt > 1 {
        Sink(val, was);
      }
    }

    method Sink(val: Item, ghost was: seq<Item>)
      requires 0 < count == |was| - 1 <= buckets.Length && Preorder(cmp) && val == was[count]
      requires buckets[..count] == was[..count] && Sinking(cmp, was[..count][0 := val], 0)
      modifies buckets
      ensures Ordered(cmp, buckets[..count])
      ensures multiset(buckets[..count]) == multiset(was[..count][0 := val])
    {
      hide Preorder, Greater, Ordered, Sinking, LeastChild, Swapped;
      var idx := 0;
      ghost var s := was[..count][0 := val];
      var cidx := 1;
      while cidx < count
        invariant idx < count && cidx == 2 * idx + 1 && s == buckets[..count][idx := val]
        invariant Sinking(cmp, s, idx) && multiset(s) == multiset(was[..count][0 := val])
        decreases count - idx
      {
        var item := buckets[cidx];
        if cidx + 1 < count {
          var item2 := buckets[cidx + 1];
          GreaterIs(cmp, item, item2);
          if cmp(item, item2) > 0 {
            cidx := cidx + 1;
            item := item2;
          }
        }
        Chosen(cmp, s, idx, cidx);
        GreaterIs(cmp, item, val);
        if cmp(item, val) > 0 {
          NoneLess(cmp, s, idx, cidx);
          break;
        }
        SinkStep(cmp, s, idx, cidx);
        SwappedBag(s, idx, cidx);
        HoleMoves(buckets[..count], idx, cidx, val);
        SetBucket(idx, item);
        s := Swapped(s, idx, cidx);
        idx := cidx;
        cidx := 2 * idx + 1;
      }
      SinkEnd(cmp, s, idx);
      SetBucket(idx, val);
    }
  }

  lemma AddedBalance(es: seq<Event>, was: seq<Item>, value: Item)
    ensures NeverOver(es) && Held(es) == multiset(was) ==>
      NeverOver(es + [Retained(value)]) && Held(es + [Retained(value)]) == multiset(was) + multiset{value}
  {
    hide Held, NeverOver;
    HeldSnoc(es, Retained(value));
    if NeverOver(es) {
      NeverOverSnoc(es, Retained(value));
    }
  }

  lemma RemovedBalance(es: seq<Event>, was: seq<Item>)
    requires was != []
    ensures NeverOver(es) && Held(es) == multiset(was) ==>
      && NeverOver(es + [Released(was[0])])
      && Held(es + [Released(was[0])]) == multiset(was) - multiset{was[0]}
  {
    hide Held, NeverOver;
    HeldSnoc(es, Released(was[0]));
    if NeverOver(es) && Held(es) == multiset(was) {
      NeverOverSnoc(es, Released(was[0]));
    }
  }

  lemma GreaterIs(cmp: Comparator, a: Item, b: Item)
    ensures Greater(cmp, a, b) <==> cmp(a, b) > 0
  {
  }

  lemma StartRise(cmp: Comparator, was: seq<Item>, value: Item)
    requires Ordered(cmp, was)
    ensures Rising(cmp, was + [value], |was|)
  {
    var s := was + [value];
    forall i | 0 < i < |s| && i != |was| ensures Edge(cmp, s, i) {
      assert Edge(cmp, was, i);
    }
  }

  lemma WithoutFirst(cmp: Comparator, was: seq<Item>)
    requires was != [] && Ordered(cmp, was)
    ensures var n := |was| - 1;
      n > 0 ==>
        && Sinking(cmp, was[..n][0 := was[n]], 0)
        && multiset(was[..n][0 := was[n]]) == multiset(was) - multiset{was[0]}
    ensures |was| == 1 ==> multiset(was) - multiset{was[0]} == multiset{} && Ordered(cmp, was[..0])
  {
    var n := |was| - 1;
    assert was == was[..n] + [was[n]];
    if n > 0 {
      var s := was[..n][0 := was[n]];
      forall i | 0 < i < |s| && Parent(i) != 0 ensures Edge(cmp, s, i) {
        assert Edge(cmp, was, i);
      }
    }
  }

  // The lesser of the one or two children.
  lemma Chosen(cmp: Comparator, s: seq<Item>, idx: nat, c: nat)
    requires Preorder(cmp) && idx < |s| && 2 * idx + 1 <= c <= 2 * idx + 2 && c < |s|
    requires c == 2 * idx + 1 && c + 1 < |s| ==> !Greater(cmp, s[c], s[c + 1])
    requires c == 2 * idx + 2 ==> Greater(cmp, s[c - 1], s[c])
    ensures LeastChild(cmp, s, idx, c)
  {
    hide Greater;
    forall i | 0 < i < |s| && Parent(i) == idx ensures !Greater(cmp, s[c], s[i]) {
      if i == c {
        Irreflexive(cmp, s[c]);
      } else if c == 2 * idx + 2 {
        NotGreater(cmp, s[c - 1], s[c]);
      }
    }
  }

  // A child that all others are not less than is greater: so are they.
  lemma NoneLess(cmp: Comparator, s: seq<Item>, idx: nat, c: nat)
    requires Preorder(cmp) && LeastChild(cmp, s, idx, c) && idx < |s| && Greater(cmp, s[c], s[idx])
    ensures forall i :: 0 < i < |s| && Parent(i) == idx ==> Greater(cmp, s[i], s[idx])
  {
    hide Greater, Preorder;
    forall i | 0 < i < |s| && Parent(i) == idx ensures Greater(cmp, s[i], s[idx]) {
      if !Greater(cmp, s[i], s[idx]) {
        Through(cmp, s[c], s[i], s[idx]);
      }
    }
  }

  // Another heap with the same items.
  method CreateCopy(heap: Heap) returns (copy: Heap)
    requires heap.Valid() && Preorder(heap.cmp) && heap.count <= ArrayDeque.MAX_COUNT
    ensures fresh(copy) && fresh(copy.buckets) && copy.Valid() && copy.cmp == heap.cmp
    ensures multiset(copy.Contents()) == multiset(heap.Contents()) && copy.count == heap.count
    ensures copy.Balanced() && copy.retains == heap.retains && copy.releases == heap.releases
  {
    hide Preorder, Ordered, Held, NeverOver, heap.Contents, heap.Balanced;
    ghost var s := heap.Contents();
    ContentsAre(heap);
    copy := new Heap(heap.cmp, heap.retains, heap.releases);
    for idx := 0 to heap.count
      invariant fresh(copy) && fresh(copy.buckets) && copy.Valid() && copy.cmp == heap.cmp
      invariant copy.Balanced() && copy.retains == heap.retains && copy.releases == heap.releases
      invariant multiset(copy.Contents()) == multiset(s[..idx]) && copy.count == idx
    {
      BagOfPrefix(s, idx);
      copy.AddValue(heap.buckets[idx]);
    }
    assert s[..heap.count] == s;
  }

  lemma ContentsAre(heap: Heap)
    requires heap.Valid()
    ensures heap.Contents() == heap.buckets[..heap.count]
  {
  }

  lemma BagOfPrefix(s: seq<Item>, i: nat)
    requires i < |s|
    ensures multiset(s[..i + 1]) == multiset(s[..i]) + multiset{s[i]}
  {
    assert s[..i + 1] == s[..i] + [s[i]];
  }

  ghost predicate Ascending(cmp: Comparator, s: seq<Item>) {
    forall i, j :: 0 <= i < j < |s| ==> !Greater(cmp, s[i], s[j])
  }

  // Nothing in the first string is greater than anything in the second.
  ghost predicate Below(cmp: Comparator, s: seq<Item>, t: seq<Item>) {
    forall i, j :: 0 <= i < |s| && 0 <= j < |t| ==> !Greater(cmp, s[i], t[j])
  }

  lemma NothingYet(cmp: Comparator, t: seq<Item>)
    ensures Ascending(cmp, []) && Below(cmp, [], t)
  {
  }

  // The items of a heap in ascending order; the heap keeps them.
  method GetValues(heap: Heap) returns (values: seq<Item>)
    requires heap.Valid() && Preorder(heap.cmp) && heap.count <= ArrayDeque.MAX_COUNT
    ensures Ascending(heap.cmp, values) && multiset(values) == multiset(heap.Contents())
  {
    hide Preorder, Ordered, Greater, Ascending, Below;
    values := [];
    var copy := CreateCopy(heap);
    NothingYet(heap.cmp, copy.Contents());
    ghost var all := multiset(heap.Contents());
    while 0 < copy.count
      invariant fresh(copy) && fresh(copy.buckets) && copy.Valid() && copy.cmp == heap.cmp
      invariant multiset(values) + multiset(copy.Contents()) == all
      invariant Ascending(heap.cmp, values)
      invariant Below(heap.cmp, values, copy.Contents())
      decreases copy.count
    {
      ghost var was := copy.Contents();
      var value := copy.buckets[0];
      copy.RemoveMinimumValue();
      Popped(heap.cmp, values, was, copy.Contents());
      values := values + [value];
    }
    assert copy.Contents() == [];
  }

  // Taking the first item, a minimum, goes on ascending.
  lemma Popped(cmp: Comparator, values: seq<Item>, was: seq<Item>, now: seq<Item>)
    requires was != [] && multiset(now) == multiset(was) - multiset{was[0]}
    requires Ascending(cmp, values)
    requires Below(cmp, values, was)
    requires forall j :: 0 <= j < |was| ==> !Greater(cmp, was[0], was[j])
    ensures Ascending(cmp, values + [was[0]])
    ensures multiset(values + [was[0]]) + multiset(now) == multiset(values) + multiset(was)
    ensures Below(cmp, values + [was[0]], now)
  {
    hide Greater;
    assert was[0] in multiset(was);
    forall j | 0 <= j < |now| ensures exists k :: 0 <= k < |was| && was[k] == now[j] {
      assert now[j] in multiset(now);
      assert now[j] in multiset(was);
    }
  }
}
