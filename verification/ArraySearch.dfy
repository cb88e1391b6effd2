// Searching a sorted range by halving powers of two, and the simple sort.
module ArraySearch {
  import opened ArrayEvents
  import opened ArrayDeque

  // A comparator is a total preorder: negative means less.
  type Comparator = (Item, Item) -> int

  ghost predicate Preorder(cmp: Comparator) {
    && (forall a, b :: cmp(a, b) < 0 ==> !(cmp(b, a) < 0))
    && (forall a, b, c :: cmp(a, c) < 0 ==> cmp(a, b) < 0 || cmp(b, c) < 0)
  }

  ghost predicate Sorted(s: seq<Item>, cmp: Comparator) {
    forall i, j :: 0 <= i < j < |s| ==> !(cmp(s[j], s[i]) < 0)
  }

  // The first k of s are less than the value, and the others are not.
  ghost predicate SplitAt(s: seq<Item>, value: Item, cmp: Comparator, k: nat) {
    && k <= |s|
    && (forall i :: 0 <= i < k ==> cmp(s[i], value) < 0)
    && (forall i :: k <= i < |s| ==> !(cmp(s[i], value) < 0))
  }

  // Less at one index is less at all before it.
  lemma LessBefore(s: seq<Item>, value: Item, cmp: Comparator, k: nat)
    requires Preorder(cmp) && Sorted(s, cmp) && k < |s|
    ensures cmp(s[k], value) < 0 ==> forall i :: 0 <= i <= k ==> cmp(s[i], value) < 0
    ensures !(cmp(s[k], value) < 0) ==> forall i :: k <= i < |s| ==> !(cmp(s[i], value) < 0)
  {
    hide Preorder;
    forall i | 0 <= i < k ensures cmp(s[k], value) < 0 ==> cmp(s[i], value) < 0 {
      if cmp(s[k], value) < 0 { Between(cmp, s[k], s[i], value); }
    }
    forall i | k < i < |s| ensures cmp(s[i], value) < 0 ==> cmp(s[k], value) < 0 {
      if cmp(s[i], value) < 0 { Between(cmp, s[i], s[k], value); }
    }
  }

  lemma Between(cmp: Comparator, a: Item, b: Item, c: Item)
    requires Preorder(cmp) && cmp(a, c) < 0
    ensures cmp(a, b) < 0 || cmp(b, c) < 0
  {
  }

  // All up to idx are less, and none from bound on.
  ghost predicate Bracket(s: seq<Item>, value: Item, cmp: Comparator, idx: int, bound: int) {
    && -1 <= idx < bound <= |s|
    && (forall i :: 0 <= i <= idx ==> cmp(s[i], value) < 0)
    && (forall i :: bound <= i < |s| ==> !(cmp(s[i], value) < 0))
  }

  // The place of a value in a sorted range: the index of its first item that is not less than the
  // value, or the end of the range.  As many items are looked at as the range's length has bits,
  // and two more.
  method BSearchValues(items: seq<Item>, location: nat, length: nat, value: Item, cmp: Comparator)
    returns (place: nat, ghost probes: nat)
    requires location + length <= |items| && length < 0x8000_0000
    requires Preorder(cmp) && Sorted(items[location..location + length], cmp)
    ensures location <= place
    ensures SplitAt(items[location..location + length], value, cmp, place - location)
    ensures probes <= 2 + Flsl(length)
  {
    hide Preorder, Sorted, Bracket, SplitAt, Pow2, Flsl;
    ghost var s := items[location..location + length];
    probes := 0;
    Ends(s, value, cmp);
    if length <= 0 {
      return location, 0;
    }
    probes := 1;
    if cmp(items[location + length - 1], value) < 0 {
      return location + length, probes;
    }
    probes := 2;
    if cmp(value, items[location]) < 0 {
      return location, probes;
    }
    var lg := Flsl(length) - 1;
    probes := 3;
    FirstHalf(s, value, cmp, lg);
    var idx: int := if cmp(items[location + (-1 + Pow2(lg))], value) < 0 then length - Pow2(lg) else -1;
    ghost var more;
    idx, more := Narrow(items, location, length, value, cmp, idx, lg);
    idx := idx + 1;
    Found(s, value, cmp, idx);
    return idx + location, probes + more;
  }

  // Halves a bracket until one item is left.
  method Narrow(items: seq<Item>, location: nat, length: nat, value: Item, cmp: Comparator, start: int, log: nat)
    returns (idx: int, ghost probes: nat)
    requires location + length <= |items| && Preorder(cmp) && Sorted(items[location..location + length], cmp)
    requires Bracket(items[location..location + length], value, cmp, start, start + Pow2(log))
    ensures Bracket(items[location..location + length], value, cmp, idx, idx + Pow2(0))
    ensures probes == log
  {
    hide Preorder, Sorted, Bracket, Pow2;
    ghost var s := items[location..location + length];
    var lg := log;
    idx, probes := start, 0;
    while lg > 0
      invariant 0 <= lg && Bracket(s, value, cmp, idx, idx + Pow2(lg))
      invariant probes + lg == log
    {
      Halve(s, value, cmp, idx, lg);
      lg := lg - 1;
      probes := probes + 1;
      if cmp(items[location + (idx + Pow2(lg))], value) < 0 {
        idx := idx + Pow2(lg);
      }
    }
  }

  // The cases that the ends of the range decide.
  lemma Ends(s: seq<Item>, value: Item, cmp: Comparator)
    requires Preorder(cmp) && Sorted(s, cmp)
    ensures s == [] ==> SplitAt(s, value, cmp, 0)
    ensures s != [] && cmp(s[|s| - 1], value) < 0 ==> SplitAt(s, value, cmp, |s|)
    ensures s != [] && cmp(value, s[0]) < 0 ==> SplitAt(s, value, cmp, 0)
  {
    if s != [] {
      LessBefore(s, value, cmp, |s| - 1);
      LessBefore(s, value, cmp, 0);
      if cmp(value, s[0]) < 0 {
        Asymmetric(cmp, value, s[0]);
      }
    }
  }

  // One probe halves the bracket.
  lemma Halve(s: seq<Item>, value: Item, cmp: Comparator, idx: int, lg: nat)
    requires Preorder(cmp) && Sorted(s, cmp) && lg > 0 && Bracket(s, value, cmp, idx, idx + Pow2(lg))
    ensures 0 <= idx + Pow2(lg - 1) < |s|
    ensures cmp(s[idx + Pow2(lg - 1)], value) < 0 ==>
      Bracket(s, value, cmp, idx + Pow2(lg - 1), idx + Pow2(lg - 1) + Pow2(lg - 1))
    ensures !(cmp(s[idx + Pow2(lg - 1)], value) < 0) ==> Bracket(s, value, cmp, idx, idx + Pow2(lg - 1))
  {
    hide Preorder, Sorted;
    LessBefore(s, value, cmp, idx + Pow2(lg - 1));
  }

  lemma Found(s: seq<Item>, value: Item, cmp: Comparator, place: int)
    requires Bracket(s, value, cmp, place - 1, place - 1 + Pow2(0))
    ensures 0 <= place && SplitAt(s, value, cmp, place)
  {
  }

  lemma Asymmetric(cmp: Comparator, a: Item, b: Item)
    requires Preorder(cmp) && cmp(a, b) < 0
    ensures !(cmp(b, a) < 0)
  {
  }

  // The first two overlapping halves, each of the largest power of two.
  lemma FirstHalf(s: seq<Item>, value: Item, cmp: Comparator, lg: nat)
    requires Preorder(cmp) && Sorted(s, cmp) && s != [] && !(cmp(s[|s| - 1], value) < 0)
    requires lg == Flsl(|s|) - 1
    ensures Pow2(lg) <= |s| < 2 * Pow2(lg)
    ensures cmp(s[Pow2(lg) - 1], value) < 0 ==> Bracket(s, value, cmp, |s| - Pow2(lg), |s|)
    ensures !(cmp(s[Pow2(lg) - 1], value) < 0) ==> Bracket(s, value, cmp, -1, Pow2(lg) - 1)
  {
    assert Pow2(lg + 1) == 2 * Pow2(lg);
    LessBefore(s, value, cmp, Pow2(lg) - 1);
    LessBefore(s, value, cmp, |s| - 1);
  }

  // ---------- the simple sort ----------

  // What is at cnt and after, within the range, is in order and not less than anything before it.
  ghost predicate Settled(s: seq<Item>, location: nat, length: nat, cnt: nat, cmp: Comparator) {
    && location + length <= |s|
    && forall i, j :: location <= i < j < location + length && location + cnt <= j ==> !(cmp(s[j], s[i]) < 0)
  }

  // The item at idx is not less than those of the range before it.
  ghost predicate Highest(s: seq<Item>, location: nat, idx: nat, cmp: Comparator) {
    idx < |s| && forall i :: location <= i < idx ==> !(cmp(s[idx], s[i]) < 0)
  }

  // One comparison carries the highest item on.
  lemma Carried(s: seq<Item>, location: nat, length: nat, cnt: nat, idx: nat, cmp: Comparator)
    requires Preorder(cmp) && Settled(s, location, length, cnt, cmp) && Highest(s, location, idx, cmp)
    requires location <= idx && idx + 1 < location + cnt <= location + length
    ensures cmp(s[idx + 1], s[idx]) < 0 ==>
      && Settled(Swapped(s, idx, idx + 1), location, length, cnt, cmp)
      && Highest(Swapped(s, idx, idx + 1), location, idx + 1, cmp)
    ensures !(cmp(s[idx + 1], s[idx]) < 0) ==> Highest(s, location, idx + 1, cmp)
  {
    hide Preorder;
    if cmp(s[idx + 1], s[idx]) < 0 {
      Asymmetric(cmp, s[idx + 1], s[idx]);
    } else {
      forall i | location <= i < idx + 1 ensures !(cmp(s[idx + 1], s[i]) < 0) {
        if cmp(s[idx + 1], s[i]) < 0 {
          Between(cmp, s[idx + 1], s[idx], s[i]);
        }
      }
    }
  }

  // Only the items of the range have moved.
  ghost predicate Rearranged(was: seq<Item>, now: seq<Item>, location: nat, length: nat) {
    && |now| == |was| && multiset(now) == multiset(was)
    && (forall i :: 0 <= i < |was| && !(location <= i < location + length) ==> now[i] == was[i])
  }

  lemma SwapRearranges(was: seq<Item>, now: seq<Item>, location: nat, length: nat, i: nat)
    requires Rearranged(was, now, location, length) && location <= i && i + 1 < location + length <= |was|
    ensures Rearranged(was, Swapped(now, i, i + 1), location, length)
    ensures multiset(Swapped(now, i, i + 1)) == multiset(now)
  {
  }

  // One pass over the unsettled items carries the highest of them to their end.
  method CarryHighest(list: MutableArray, location: nat, length: nat, cnt: nat, cmp: Comparator, ghost was: seq<Item>)
    requires list.Valid() && list.Balanced() && location + length <= list.count && Preorder(cmp) && 1 < cnt <= length
    requires location + length <= |was| && Rearranged(was, list.Contents(), location, length)
    requires Settled(list.Contents(), location, length, cnt, cmp)
    modifies list.store
    ensures list.Valid() && list.Balanced()
    ensures Rearranged(was, list.Contents(), location, length)
    ensures Settled(list.Contents(), location, length, cnt - 1, cmp)
  {
    hide Preorder, Settled, Highest, Rearranged, Swapped, list.Contents, list.Balanced;
    HighestStarts(list.Contents(), location, cmp);
    for idx := location to location + cnt - 1
      invariant list.Valid() && list.Balanced()
      invariant Rearranged(was, list.Contents(), location, length)
      invariant Settled(list.Contents(), location, length, cnt, cmp) && Highest(list.Contents(), location, idx, cmp)
    {
      ghost var s := list.Contents();
      Carried(s, location, length, cnt, idx, cmp);
      SwapRearranges(was, s, location, length, idx);
      SwappedBag(s, idx, idx + 1);
      var a := list.GetValueAtIndex(idx);
      var b := list.GetValueAtIndex(idx + 1);
      if cmp(b, a) < 0 {
        list.ExchangeValuesAtIndices(idx, idx + 1);
      }
    }
    HighestSettles(list.Contents(), location, length, cnt, cmp);
  }

  // Sorts a range by exchanging neighbours, so that no item is ever retained or released.
  method ZSort(list: MutableArray, location: nat, length: nat, cmp: Comparator)
    requires list.Valid() && list.Balanced() && location + length <= list.count && Preorder(cmp)
    modifies list.store
    ensures list.Valid() && list.Balanced() && list.count == old(list.count)
    ensures Rearranged(old(list.Contents()), list.Contents(), location, length)
    ensures Settled(list.Contents(), location, length, 0, cmp)
  {
    hide Preorder, Settled, Highest, Rearranged, Swapped, list.Contents, list.Balanced;
    ghost var was := list.Contents();
    var cnt := length;
    SortStarts(was, location, length, cmp);
    while 1 < cnt
      invariant 0 <= cnt <= length && list.Valid() && list.Balanced()
      invariant Rearranged(was, list.Contents(), location, length)
      invariant Settled(list.Contents(), location, length, cnt, cmp)
    {
      CarryHighest(list, location, length, cnt, cmp, was);
      cnt := cnt - 1;
    }
    SortEnds(list.Contents(), location, length, cnt, cmp);
  }

  lemma SortStarts(s: seq<Item>, location: nat, length: nat, cmp: Comparator)
    requires location + length <= |s|
    ensures Settled(s, location, length, length, cmp) && Rearranged(s, s, location, length)
  {
  }

  lemma HighestStarts(s: seq<Item>, location: nat, cmp: Comparator)
    ensures location < |s| ==> Highest(s, location, location, cmp)
  {
  }

  lemma HighestSettles(s: seq<Item>, location: nat, length: nat, cnt: nat, cmp: Comparator)
    requires cnt > 0 && Settled(s, location, length, cnt, cmp) && Highest(s, location, location + cnt - 1, cmp)
    ensures Settled(s, location, length, cnt - 1, cmp)
  {
  }

  lemma SortEnds(s: seq<Item>, location: nat, length: nat, cnt: nat, cmp: Comparator)
    requires Settled(s, location, length, cnt, cmp) && cnt <= 1
    ensures Settled(s, location, length, 0, cmp)
  {
  }
}
