// A mutable array stored in a gap on both sides of its items, which are moved aside to make room.
module ArrayDeque {
  import opened ArrayEvents

  function Pow2(n: nat): (p: nat)
    ensures p > 0
  {
    if n == 0 then 1 else 2 * Pow2(n - 1)
  }

  // The number of the highest bit set, counting from 1.
  function Flsl(n: nat): (k: nat)
    ensures n > 0 ==> k > 0 && Pow2(k - 1) <= n
    ensures n < Pow2(k)
  {
    if n == 0 then 0 else Flsl(n / 2) + 1
  }

  lemma {:induction false} Pow2Order(m: nat, n: nat)
    requires m <= n
    ensures Pow2(m) <= Pow2(n)
    decreases n
  {
    if m < n {
      Pow2Order(m, n - 1);
    }
  }

  // Where the int that capacities are shifted in holds them.
  const MAX_CAPACITY: nat := 0x4000_0000
  const MAX_COUNT: nat := 0x3FFF_0000

  lemma MaxCapacityPower()
    ensures Pow2(30) == MAX_CAPACITY
  {
    assert Pow2(10) == 0x400;
    assert Pow2(20) == 0x10_0000;
  }

  lemma FlslRange(n: nat)
    requires n < MAX_CAPACITY
    ensures Pow2(Flsl(n)) <= MAX_CAPACITY
  {
    MaxCapacityPower();
    if n > 0 && Flsl(n) > 30 {
      Pow2Order(30, Flsl(n) - 1);
    } else {
      Pow2Order(Flsl(n), 30);
    }
  }

  // The power of two above the capacity asked for, and 4 at the least.
  ghost predicate PowerAbove(r: nat, capacity: nat) {
    if capacity < 4 then r == 4 else capacity < r <= 2 * capacity && exists k: nat :: r == Pow2(k)
  }

  function RoundUpCapacity(capacity: nat): (r: nat)
    requires capacity < MAX_CAPACITY
    ensures capacity <= r && 4 <= r <= MAX_CAPACITY
    ensures PowerAbove(r, capacity)
  {
    if capacity < 4 then 4
    else
      FlslRange(capacity);
      Pow2(Flsl(capacity))
  }

  // The room below which a store counts as tight.
  function Wiggle(capacity: nat): nat
  {
    if capacity / 0x2_0000 < 4 then 4 else capacity / 0x2_0000
  }

  lemma WiggleIs(capacity: nat)
    ensures Wiggle(capacity) == if capacity < 4 * 131072 then 4 else capacity / 131072
  {
  }

  lemma WiggleBound(capacity: nat)
    requires capacity <= MAX_CAPACITY
    ensures 4 <= Wiggle(capacity) <= 0x2000
  {
  }

  // ---------- regions of buckets ----------

  // The n items at d are those that were at s.
  ghost predicate Placed(now: seq<Item>, d: nat, was: seq<Item>, s: nat, n: nat) {
    && d + n <= |now| && s + n <= |was|
    && forall j :: d <= j < d + n ==> now[j] == was[j - d + s]
  }

  function Moved(dst: seq<Item>, d: nat, src: seq<Item>, s: nat, n: nat): (r: seq<Item>)
    requires d + n <= |dst| && s + n <= |src|
    ensures |r| == |dst|
  {
    seq(|dst|, i requires 0 <= i < |dst| => if d <= i < d + n then src[i - d + s] else dst[i])
  }

  function Zeroed(dst: seq<Item>, d: nat, n: nat): (r: seq<Item>)
    requires d + n <= |dst|
    ensures |r| == |dst|
  {
    seq(|dst|, i requires 0 <= i < |dst| => if d <= i < d + n then 0 else dst[i])
  }

  lemma ZeroedAre(dst: seq<Item>, d: nat, n: nat)
    requires d + n <= |dst|
    ensures forall i :: d <= i < d + n ==> Zeroed(dst, d, n)[i] == 0
  {
  }

  lemma MovedPlaced(dst: seq<Item>, d: nat, src: seq<Item>, s: nat, n: nat)
    requires d + n <= |dst| && s + n <= |src|
    ensures Placed(Moved(dst, d, src, s, n), d, src, s, n)
  {
  }

  lemma MovedSlice(dst: seq<Item>, src: seq<Item>, i: nat, j: nat)
    requires i <= j <= |src| <= |dst|
    ensures Moved(dst, 0, src, 0, |src|)[i..j] == src[i..j]
  {
  }

  // Regions elsewhere stay.
  lemma MovedKeeps(dst: seq<Item>, d: nat, src: seq<Item>, s: nat, n: nat, p: nat, was: seq<Item>, q: nat, m: nat)
    requires d + n <= |dst| && s + n <= |src| && Placed(dst, p, was, q, m)
    requires p + m <= d || d + n <= p
    ensures Placed(Moved(dst, d, src, s, n), p, was, q, m)
  {
  }

  lemma ZeroedKeeps(dst: seq<Item>, d: nat, n: nat, p: nat, was: seq<Item>, q: nat, m: nat)
    requires d + n <= |dst| && Placed(dst, p, was, q, m)
    requires p + m <= d || d + n <= p
    ensures Placed(Zeroed(dst, d, n), p, was, q, m)
  {
  }

  lemma PlacedAgain(a: seq<Item>, d: nat, b: seq<Item>, s: nat, c: seq<Item>, t: nat, n: nat)
    requires Placed(a, d, b, s, n) && Placed(b, s, c, t, n)
    ensures Placed(a, d, c, t, n)
  {
    forall j | d <= j < d + n ensures a[j] == c[j - d + t] {
      assert b[j - d + s] == c[j - d + s - s + t];
    }
  }

  lemma InPlace(a: seq<Item>, d: nat, n: nat)
    requires d + n <= |a|
    ensures Placed(a, d, a, d, n)
  {
  }

  // Two regions of one store, moved one after the other without the first running over the second.
  lemma MovedBoth(was: seq<Item>, d1: nat, s1: nat, n1: nat, d2: nat, s2: nat, n2: nat)
    requires d1 + n1 <= |was| && s1 + n1 <= |was| && d2 + n2 <= |was| && s2 + n2 <= |was|
    requires d1 + n1 <= s2 || s2 + n2 <= d1
    requires d1 + n1 <= d2 || d2 + n2 <= d1
    ensures var once := Moved(was, d1, was, s1, n1);
      var twice := Moved(once, d2, once, s2, n2);
      Placed(twice, d1, was, s1, n1) && Placed(twice, d2, was, s2, n2)
  {
    hide Moved, Placed;
    var once := Moved(was, d1, was, s1, n1);
    MovedPlaced(was, d1, was, s1, n1);
    InPlace(was, s2, n2);
    MovedKeeps(was, d1, was, s1, n1, s2, was, s2, n2);
    MovedPlaced(once, d2, once, s2, n2);
    PlacedAgain(Moved(once, d2, once, s2, n2), d2, once, s2, was, s2, n2);
    MovedKeeps(once, d2, once, s2, n2, d1, was, s1, n1);
  }

  lemma ZeroedNone(dst: seq<Item>, d: nat)
    requires d <= |dst|
    ensures Zeroed(dst, d, 0) == dst
  {
  }

  lemma ZeroedStep(dst: seq<Item>, d: nat, n: nat)
    requires d + n < |dst|
    ensures Zeroed(dst, d, n + 1) == Zeroed(dst, d, n)[d + n := 0] && Zeroed(dst, d, n)[d + n] == dst[d + n]
  {
  }

  // Copies n items, as if through a buffer: the two regions may overlap.
  method MoveItems(dst: array<Item>, d: nat, src: array<Item>, s: nat, n: nat)
    requires d + n <= dst.Length && s + n <= src.Length
    modifies dst
    ensures dst[..] == Moved(old(dst[..]), d, old(src[..]), s, n)
  {
    forall i | d <= i < d + n {
      dst[i] := src[i - d + s];
    }
  }

  method ZeroItems(dst: array<Item>, d: nat, n: nat)
    requires d + n <= dst.Length
    modifies dst
    ensures dst[..] == Zeroed(old(dst[..]), d, n)
  {
    forall i | d <= i < d + n {
      dst[i] := 0;
    }
  }

  // How large the store is and where its items begin when the B of its A + B + C items, the first of
  // them at L, have made room for newCount others: what is tight is allocated anew with the items in
  // its middle; else the smaller end moves away if there is room on its side, and otherwise what room
  // there is is shared.
  ghost predicate AsPlanned(capacity: nat, L: nat, A: nat, B: nat, C: nat, newCount: nat, newCapacity: nat, newL: nat) {
    var R, more, futureCnt := capacity - (L + A + B + C), newCount - B, A + newCount + C;
    var wiggle := if capacity < 4 * 131072 then 4 else capacity / 131072;
    if capacity < futureCnt || (more > 0 && L + R < wiggle) then
      PowerAbove(newCapacity, futureCnt + wiggle) && newL == (newCapacity - futureCnt) / 2
    else
      && newCapacity == capacity
      && newL == if C < A && more <= R then L
                 else if more < 0 || (more <= L && A <= C) then L - more
                 else
                   var half := (L + R - more) / 2;
                   half - half / 2
  }

  // Buckets that held items and no longer do are 0.
  ghost predicate ExposedZero(s: seq<Item>, oldL: nat, oldCount: nat, newL: nat, newCount: nat) {
    forall i :: 0 <= i < |s| && oldL <= i < oldL + oldCount && !(newL <= i < newL + newCount) ==> s[i] == 0
  }

  // How much of the room goes to the left.
  function Center(room: nat): (l: nat)
    ensures l <= room
  {
    room / 2 - room / 2 / 2
  }

  class MutableArray {
    // whether there are callbacks for retaining and for releasing
    const retains: bool
    const releases: bool
    var store: array?<Item>
    var leftIdx: nat
    var count: nat
    ghost var events: seq<Event>

    ghost predicate Valid()
      reads this`store, this`leftIdx, this`count
    {
      && count <= MAX_COUNT
      && (store == null ==> count == 0)
      && (store != null ==> leftIdx + count <= store.Length <= MAX_CAPACITY)
    }

    ghost function Contents(): (s: seq<Item>)
      reads this`store, this`leftIdx, this`count, store
      requires Valid()
      ensures |s| == count
    {
      if store == null then [] else store[leftIdx..leftIdx + count]
    }

    // What is retained on balance is what the array holds, each item as often as it occurs.
    ghost predicate Balanced()
      reads this, store
      requires Valid()
    {
      retains && releases ==> NeverOver(events) && Held(events) == multiset(Contents())
    }

    constructor (retains: bool, releases: bool)
      ensures Valid() && Contents() == [] && Balanced() && store == null
      ensures this.retains == retains && this.releases == releases
    {
      this.retains, this.releases := retains, releases;
      store, leftIdx, count, events := null, 0, 0, [];
    }

    ghost function RetainEvents(items: seq<Item>): seq<Event> {
      if retains then Retains(items) else []
    }

    ghost function ReleaseEvents(items: seq<Item>): seq<Event> {
      if releases then Releases(items) else []
    }

    // Moves what is left and right of the range so that newCount items fit between them.
    method RepositionDequeRegions(location: nat, length: nat, newCount: nat)
      requires Valid() && store != null && location + length <= count && newCount != length
      requires count - length + newCount <= MAX_COUNT
      modifies this`store, this`leftIdx, store
      ensures store != null && (store == old(store) || fresh(store))
      ensures leftIdx + (count - length + newCount) <= store.Length <= MAX_CAPACITY
      ensures Placed(store[..], leftIdx, old(store[..]), old(leftIdx), location)
      ensures Placed(store[..], leftIdx + location + newCount, old(store[..]), old(leftIdx) + location + length,
                     count - location - length)
      ensures AsPlanned(old(store.Length), old(leftIdx), location, length, count - location - length, newCount,
                        store.Length, leftIdx)
      ensures store == old(store) ==>
        ExposedZero(store[..], old(leftIdx), count, leftIdx, count - length + newCount)
    {
      hide Placed, Wiggle, PowerAbove, ExposedZero;
      WiggleIs(store.Length);
      var capacity := store.Length;
      var futureCnt := count - length + newCount;
      WiggleBound(capacity);
      var L, A, B := leftIdx, location, length;
      var C := count - B - A;
      var R := capacity - count - L;
      var numNewElems := newCount - B;
      var wiggle := Wiggle(capacity);
      if capacity < futureCnt || (count < futureCnt && L + R < wiggle) {
        Regrow(A, B, C, newCount, wiggle);
        return;
      }
      if (numNewElems < 0 && C < A) || (numNewElems <= R && C < A) {
        MoveRight(A, B, C, newCount);
      } else if numNewElems < 0 || (numNewElems <= L && A <= C) {
        MoveLeft(A, B, C, newCount);
      } else {
        Recenter(A, B, C, R, newCount);
      }
    }

    // Reallocates and centers everything.
    method Regrow(A: nat, B: nat, C: nat, newCount: nat, wiggle: nat)
      requires Valid() && store != null && A + B + C == count
      requires A + newCount + C <= MAX_COUNT && wiggle <= 0x2000
      modifies this`store, this`leftIdx
      ensures fresh(store) && leftIdx + A + newCount + C <= store.Length <= MAX_CAPACITY
      ensures PowerAbove(store.Length, A + newCount + C + wiggle)
      ensures leftIdx == (store.Length - (A + newCount + C)) / 2
      ensures Placed(store[..], leftIdx, old(store[..]), old(leftIdx), A)
      ensures Placed(store[..], leftIdx + A + newCount, old(store[..]), old(leftIdx) + A + B, C)
    {
      hide Placed, Moved, PowerAbove;
      var buckets, oldL := store, leftIdx;
      var capacity := RoundUpCapacity(A + newCount + C + wiggle);
      var newBuckets := new Item[capacity];
      var newL := (capacity - (A + newCount + C)) / 2;
      var oldC0, newC0 := oldL + A + B, newL + A + newCount;
      ghost var zero, was := newBuckets[..], buckets[..];
      MoveItems(newBuckets, newL, buckets, oldL, A);
      MovedPlaced(zero, newL, was, oldL, A);
      MovedKeeps(Moved(zero, newL, was, oldL, A), newC0, was, oldC0, C, newL, was, oldL, A);
      MovedPlaced(Moved(zero, newL, was, oldL, A), newC0, was, oldC0, C);
      MoveItems(newBuckets, newC0, buckets, oldC0, C);
      store, leftIdx := newBuckets, newL;
    }

    method MoveRight(A: nat, B: nat, C: nat, newCount: nat)
      requires Valid() && store != null && A + B + C == count && leftIdx + A + newCount + C <= store.Length
      modifies store
      ensures Placed(store[..], leftIdx, old(store[..]), old(leftIdx), A)
      ensures Placed(store[..], leftIdx + A + newCount, old(store[..]), old(leftIdx) + A + B, C)
      ensures ExposedZero(store[..], leftIdx, count, leftIdx, A + newCount + C)
    {
      hide Placed, Moved, Zeroed;
      var oldC0, newC0 := leftIdx + A + B, leftIdx + A + newCount;
      ghost var was := store[..];
      InPlace(was, leftIdx, A);
      MovedKeeps(was, newC0, was, oldC0, C, leftIdx, was, leftIdx, A);
      MovedPlaced(was, newC0, was, oldC0, C);
      MoveItems(store, newC0, store, oldC0, C);
      if oldC0 > newC0 {
        Clear(newC0 + C, oldC0 - newC0, was, leftIdx, A, newC0, oldC0, C);
      }
    }

    // Zeroes buckets that no longer hold items.
    method Clear(d: nat, n: nat, ghost was: seq<Item>, ghost oldL: nat, ghost A: nat, ghost newC0: nat,
                 ghost oldC0: nat, ghost C: nat)
      requires store != null && d + n <= store.Length
      requires Placed(store[..], leftIdx, was, oldL, A) && Placed(store[..], newC0, was, oldC0, C)
      requires (leftIdx + A <= d || d + n <= leftIdx) && (newC0 + C <= d || d + n <= newC0)
      modifies store
      ensures Placed(store[..], leftIdx, was, oldL, A) && Placed(store[..], newC0, was, oldC0, C)
      ensures forall i :: d <= i < d + n ==> store[i] == 0
    {
      hide Placed, Zeroed;
      ZeroedAre(store[..], d, n);
      ZeroedKeeps(store[..], d, n, leftIdx, was, oldL, A);
      ZeroedKeeps(store[..], d, n, newC0, was, oldC0, C);
      ZeroItems(store, d, n);
    }

    method MoveLeft(A: nat, B: nat, C: nat, newCount: nat)
      requires Valid() && store != null && A + B + C == count && newCount - B <= leftIdx
      modifies this`leftIdx, store
      ensures leftIdx == old(leftIdx) - (newCount - B)
      ensures Placed(store[..], leftIdx, old(store[..]), old(leftIdx), A)
      ensures Placed(store[..], leftIdx + A + newCount, old(store[..]), old(leftIdx) + A + B, C)
      ensures ExposedZero(store[..], old(leftIdx), count, leftIdx, A + newCount + C)
    {
      hide Placed, Moved, Zeroed;
      var oldL := leftIdx;
      var newL := oldL - (newCount - B);
      ghost var was, oldC0 := store[..], oldL + A + B;
      leftIdx := newL;
      InPlace(was, oldC0, C);
      MovedKeeps(was, newL, was, oldL, A, oldC0, was, oldC0, C);
      MovedPlaced(was, newL, was, oldL, A);
      MoveItems(store, newL, store, oldL, A);
      if newL > oldL {
        Clear(oldL, newL - oldL, was, oldL, A, oldC0, oldC0, C);
      }
    }

    // Shares what room there is between both sides; which region moves first matters.
    method Recenter(A: nat, B: nat, C: nat, R: nat, newCount: nat)
      requires Valid() && store != null && A + B + C == count && leftIdx + count + R == store.Length
      requires A + newCount + C <= store.Length && B < newCount
      modifies this`leftIdx, store
      ensures leftIdx + A + newCount + C <= store.Length
      ensures var half := (old(leftIdx) + R - (newCount - B)) / 2; leftIdx == half - half / 2
      ensures Placed(store[..], leftIdx, old(store[..]), old(leftIdx), A)
      ensures Placed(store[..], leftIdx + A + newCount, old(store[..]), old(leftIdx) + A + B, C)
      ensures ExposedZero(store[..], old(leftIdx), count, leftIdx, A + newCount + C)
    {
      hide Placed, Moved, Zeroed;
      var oldL := leftIdx;
      var newL := Center(oldL + R - (newCount - B));
      var oldC0, newC0 := oldL + A + B, newL + A + newCount;
      ghost var was := store[..];
      leftIdx := newL;
      if newL < oldL {
        MovedBoth(was, newL, oldL, A, newC0, oldC0, C);
        MoveItems(store, newL, store, oldL, A);
        MoveItems(store, newC0, store, oldC0, C);
        if oldC0 > newC0 {
          Clear(newC0 + C, oldC0 - newC0, was, oldL, A, newC0, oldC0, C);
        }
      } else {
        MovedBoth(was, newC0, oldC0, C, newL, oldL, A);
        MoveItems(store, newC0, store, oldC0, C);
        MoveItems(store, newL, store, oldL, A);
        if newL > oldL {
          Clear(oldL, newL - oldL, was, oldL, A, newC0, oldC0, C);
        }
      }
    }

    // Releases the items of a range, in order, and clears their buckets.
    method ReleaseValues(location: nat, length: nat)
      requires Valid() && location + length <= count
      modifies this`events, store
      ensures events == old(events) + ReleaseEvents(old(Contents())[location..location + length])
      ensures store != null ==> store[..] == Zeroed(old(store[..]), leftIdx + location, length)
    {
      hide Zeroed, ReleaseEvents, Contents;
      ghost var items := Contents()[location..location + length];
      ReleaseNone(events, items);
      ContentsAre();
      if store == null {
        return;
      }
      ghost var was, first := store[..], leftIdx + location;
      Inside(was, leftIdx, count, location, length);
      ZeroedNone(was, first);
      for idx := 0 to length
        invariant store[..] == Zeroed(was, first, idx)
        invariant events == old(events) + ReleaseEvents(items[..idx])
      {
        ZeroedStep(was, first, idx);
        ReleaseSnoc(old(events), items, idx);
        ReleaseOne(leftIdx + location + idx);
      }
      WholeSlice(items);
    }

    lemma Inside(s: seq<Item>, i: nat, n: nat, j: nat, m: nat)
      requires i + n <= |s| && j + m <= n
      ensures s[i..i + n][j..j + m] == s[i + j..i + j + m]
    {
      var inner, slice := s[i..i + n][j..j + m], s[i + j..i + j + m];
      forall k | 0 <= k < m ensures inner[k] == slice[k] {
        assert inner[k] == s[i..i + n][j + k] == s[i + (j + k)];
      }
    }

    lemma WholeSlice(s: seq<Item>)
      ensures s[..|s|] == s
    {
    }

    method ReleaseOne(b: nat)
      requires store != null && b < store.Length
      modifies this`events, store
      ensures store[..] == old(store[..])[b := 0]
      ensures events == old(events) + ReleaseEvents([old(store[b])])
    {
      if releases {
        events := events + Releases([store[b]]);
      }
      store[b] := 0;
    }

    lemma ReleaseNone(es: seq<Event>, items: seq<Item>)
      ensures es + ReleaseEvents(items[..0]) == es
      ensures items == [] ==> items[..0] == items
    {
    }

    lemma ReleaseSnoc(es: seq<Event>, items: seq<Item>, idx: nat)
      requires idx < |items|
      ensures es + ReleaseEvents(items[..idx + 1]) == (es + ReleaseEvents(items[..idx])) + ReleaseEvents([items[idx]])
    {
    }

    // The items of an array left and right of a range are in their buckets.
    ghost predicate Around(was: seq<Item>, location: nat, length: nat, gap: nat)
      reads this`store, this`leftIdx, store
    {
      && store != null && location + length <= |was|
      && Placed(store[..], leftIdx, was, 0, location)
      && Placed(store[..], leftIdx + location + gap, was, location + length, |was| - location - length)
    }

    lemma ContentsAre()
      requires Valid()
      ensures if store == null then Contents() == [] else Contents() == store[leftIdx..leftIdx + count]
    {
    }

    // Clearing the range leaves the others.
    lemma ClearedAround(before: seq<Item>, was: seq<Item>, location: nat, length: nat)
      requires store != null && leftIdx + |was| <= |before| && was == before[leftIdx..leftIdx + |was|]
      requires location + length <= |was|
      requires store[..] == Zeroed(before, leftIdx + location, length)
      ensures Around(was, location, length, length)
    {
    }

    // Makes room for newCount items where length have been, allocating a store if there is none.
    method OpenGap(location: nat, length: nat, newCount: nat, ghost was: seq<Item>)
      requires Valid() && location + length <= count == |was| && count - length + newCount <= MAX_COUNT
      requires store != null ==> Around(was, location, length, length)
      modifies this`store, this`leftIdx, store
      ensures store != null && (store == old(store) || fresh(store))
      ensures leftIdx + (count - length + newCount) <= store.Length <= MAX_CAPACITY
      ensures Around(was, location, length, newCount)
      ensures old(store) == null ==>
        PowerAbove(store.Length, newCount) && leftIdx == (store.Length - newCount) / 2
      ensures old(store) != null && length == newCount ==> store == old(store) && leftIdx == old(leftIdx)
      ensures old(store) != null && length != newCount ==>
        AsPlanned(old(store.Length), old(leftIdx), location, length, count - location - length, newCount,
                  store.Length, leftIdx)
    {
      hide Placed, PowerAbove, AsPlanned;
      if store == null {
        var capacity := RoundUpCapacity(newCount);
        store := new Item[capacity];
        leftIdx := (capacity - newCount) / 2;
        NothingPlaced(store[..], leftIdx, was);
        NothingPlaced(store[..], leftIdx + newCount, was);
      } else if length != newCount {
        ghost var before, l, C := store[..], leftIdx, count - location - length;
        RepositionDequeRegions(location, length, newCount);
        PlacedAgain(store[..], leftIdx, before, l, was, 0, location);
        PlacedAgain(store[..], leftIdx + location + newCount, before, l + location + length, was, location + length, C);
      }
    }

    lemma NothingPlaced(now: seq<Item>, d: nat, was: seq<Item>)
      requires d <= |now|
      ensures Placed(now, d, was, 0, 0)
    {
    }

    // Replaces the items of a range by others, of any number.
    method ReplaceValues(location: nat, length: nat, newValues: seq<Item>)
      requires Valid() && location + length <= count
      requires count - length + |newValues| <= MAX_COUNT
      modifies this, store
      ensures Valid() && store != null && (store == old(store) || fresh(store))
      ensures Contents() == old(Contents())[..location] + newValues + old(Contents())[location + length..]
      ensures events == old(events) + RetainEvents(newValues)
        + ReleaseEvents(old(Contents())[location..location + length])
    {
      hide Placed, Zeroed, Moved, Contents, ReleaseEvents, RetainEvents, Around;
      var newCount := |newValues|;
      var futureCnt := count - length + newCount;
      ghost var was := Contents();
      ContentsAre();
      RetainValues(newValues);
      ReleaseValues(location, length);
      if store != null {
        ClearedAround(old(store[..]), was, location, length);
      }
      OpenGap(location, length, newCount, was);
      CopiedIn(was, location, length, newValues);
      CopyIn(location, newValues);
      count := futureCnt;
      Spliced(was, location, length, newValues);
    }

    // Copying into the gap fills it and leaves the rest.
    lemma CopiedIn(was: seq<Item>, location: nat, length: nat, newValues: seq<Item>)
      requires store != null && Around(was, location, length, |newValues|) &&
        leftIdx + location + |newValues| <= store.Length
      ensures var now := Moved(store[..], leftIdx + location, newValues, 0, |newValues|);
        && Placed(now, leftIdx, was, 0, location) && Placed(now, leftIdx + location, newValues, 0, |newValues|)
        && Placed(now, leftIdx + location + |newValues|, was, location + length, |was| - location - length)
    {
      hide Placed, Moved;
      var n, C := |newValues|, |was| - location - length;
      MovedPlaced(store[..], leftIdx + location, newValues, 0, n);
      MovedKeeps(store[..], leftIdx + location, newValues, 0, n, leftIdx, was, 0, location);
      MovedKeeps(store[..], leftIdx + location, newValues, 0, n, leftIdx + location + n, was, location + length, C);
    }

    method RetainValues(newValues: seq<Item>)
      modifies this`events
      ensures events == old(events) + RetainEvents(newValues)
    {
      if retains {
        for idx := 0 to |newValues|
          invariant events == old(events) + Retains(newValues[..idx])
        {
          events := events + [Retained(newValues[idx])];
          assert Retains(newValues[..idx + 1]) == Retains(newValues[..idx]) + [Retained(newValues[idx])];
        }
        assert newValues[..|newValues|] == newValues;
      }
    }

    method CopyIn(location: nat, newValues: seq<Item>)
      requires store != null && leftIdx + location + |newValues| <= store.Length
      modifies store
      ensures store[..] == Moved(old(store[..]), leftIdx + location, newValues, 0, |newValues|)
    {
      var first := leftIdx + location;
      forall i | first <= i < first + |newValues| {
        store[i] := newValues[i - first];
      }
    }

    // The three regions, in their places, are the contents.
    lemma Spliced(was: seq<Item>, location: nat, length: nat, newValues: seq<Item>)
      requires Valid() && store != null && location + length <= |was|
      requires count == |was| - length + |newValues|
      requires Placed(store[..], leftIdx, was, 0, location)
      requires Placed(store[..], leftIdx + location, newValues, 0, |newValues|)
      requires Placed(store[..], leftIdx + location + |newValues|, was, location + length, |was| - location - length)
      ensures Contents() == was[..location] + newValues + was[location + length..]
    {
    }

    // ---------- the operations ----------

    // Replacing keeps the balance: every item is retained as often as the array holds it.
    lemma ReplaceBalance(es: seq<Event>, was: seq<Item>, location: nat, length: nat, newValues: seq<Item>)
      requires NeverOver(es) && Held(es) == multiset(was) && location + length <= |was|
      ensures var now := es + Retains(newValues) + Releases(was[location..location + length]);
        && NeverOver(now)
        && Held(now) == multiset(was[..location] + newValues + was[location + length..])
    {
      hide NeverOver, Held, Retains, Releases;
      var B := was[location..location + length];
      assert was == was[..location] + B + was[location + length..];
      HeldRetains(es, newValues);
      HeldReleases(es + Retains(newValues), B);
    }

    method Replace(location: nat, length: nat, newValues: seq<Item>)
      requires Valid() && Balanced() && location + length <= count
      requires count - length + |newValues| <= MAX_COUNT
      modifies this, store
      ensures Valid() && Balanced() && (store == old(store) || fresh(store))
      ensures Contents() == old(Contents())[..location] + newValues + old(Contents())[location + length..]
      ensures events == old(events) + RetainEvents(newValues)
        + ReleaseEvents(old(Contents())[location..location + length])
    {
      hide Contents, Held, NeverOver, Retains, Releases;
      if retains && releases {
        ReplaceBalance(events, Contents(), location, length, newValues);
      }
      ReplaceValues(location, length, newValues);
    }

    method Append(value: Item)
      requires Valid() && Balanced() && count < MAX_COUNT
      modifies this, store
      ensures Valid() && Balanced() && (store == old(store) || fresh(store))
      ensures Contents() == old(Contents()) + [value]
    {
      hide Contents, Held, NeverOver, Retains, Releases, Balanced;
      Replace(count, 0, [value]);
    }

    method RemoveAt(idx: nat)
      requires Valid() && Balanced() && idx < count
      modifies this, store
      ensures Valid() && Balanced() && (store == old(store) || fresh(store))
      ensures Contents() == old(Contents())[..idx] + old(Contents())[idx + 1..]
    {
      hide Contents, Held, NeverOver, Retains, Releases, Balanced;
      Replace(idx, 1, []);
    }

    lemma SetBalance(es: seq<Event>, was: seq<Item>, idx: nat, value: Item)
      requires NeverOver(es) && Held(es) == multiset(was) && idx < |was|
      ensures var now := es + Retains([value]) + Releases([was[idx]]);
        NeverOver(now) && Held(now) == multiset(was[idx := value])
    {
      hide NeverOver, Held, Retains, Releases;
      ReplaceBalance(es, was, idx, 1, [value]);
      SetSplit(was, idx, value);
    }

    lemma SetSplit(was: seq<Item>, idx: nat, value: Item)
      requires idx < |was|
      ensures was[idx..idx + 1] == [was[idx]] && was[idx := value] == was[..idx] + [value] + was[idx + 1..]
    {
    }

    // The new item is retained before the old one is released.
    method SetBucket(idx: nat, value: Item)
      requires Valid() && Balanced() && idx < count
      modifies this`events, store
      ensures Valid() && Balanced() && Contents() == old(Contents())[idx := value]
      ensures events == old(events) + RetainEvents([value]) + ReleaseEvents([old(Contents())[idx]])
    {
      hide Held, NeverOver, Retains, Releases;
      if retains && releases {
        SetBalance(events, Contents(), idx, value);
      }
      var oldValue := store[leftIdx + idx];
      RetainValues([value]);
      store[leftIdx + idx] := value;
      events := events + ReleaseEvents([oldValue]);
      assert Contents() == old(Contents())[idx := value];
    }

    // Sets one item, or appends it at the end.
    method SetValueAtIndex(idx: nat, value: Item)
      requires Valid() && Balanced() && idx <= count && (idx == count ==> count < MAX_COUNT)
      modifies this, store
      ensures Valid() && Balanced() && (store == old(store) || fresh(store))
      ensures Contents() == if idx < old(count) then old(Contents())[idx := value] else old(Contents()) + [value]
    {
      hide Contents, Held, NeverOver, Retains, Releases, Balanced;
      if idx == count {
        Append(value);
      } else {
        SetBucket(idx, value);
      }
    }

    method GetValueAtIndex(idx: nat) returns (value: Item)
      requires Valid() && idx < count
      ensures value == Contents()[idx]
    {
      value := store[leftIdx + idx];
    }

    // Calls no callback.
    method ExchangeValuesAtIndices(idx1: nat, idx2: nat)
      requires Valid() && Balanced() && idx1 < count && idx2 < count
      modifies store
      ensures Valid() && Balanced()
      ensures Contents() == old(Contents())[idx1 := old(Contents())[idx2]][idx2 := old(Contents())[idx1]]
      ensures multiset(Contents()) == old(multiset(Contents()))
    {
      hide Held, NeverOver, Contents, Swapped;
      SwappedBag(Contents(), idx1, idx2);
      ExchangeItems(idx1, idx2);
    }

    method ExchangeItems(idx1: nat, idx2: nat)
      requires Valid() && idx1 < count && idx2 < count
      modifies store
      ensures Valid() && Contents() == Swapped(old(Contents()), idx1, idx2)
    {
      ghost var was := Contents();
      var tmp := store[leftIdx + idx1];
      store[leftIdx + idx1] := store[leftIdx + idx2];
      store[leftIdx + idx2] := tmp;
      assert Contents() == Swapped(was, idx1, idx2);
    }

    // Releases everything and lets the store go.
    method RemoveAllValues()
      requires Valid() && Balanced()
      modifies this, store
      ensures Valid() && Balanced() && Contents() == [] && store == null
      ensures events == old(events) + ReleaseEvents(old(Contents()))
      ensures retains && releases ==> Held(events) == multiset{}
    {
      hide Held, NeverOver, Retains, Releases;
      ghost var was := Contents();
      assert was[0..count] == was;
      if retains && releases {
        HeldReleases(events, was);
      }
      ReleaseValues(0, count);
      count := 0;
      store := null;
    }

    // Makes the store larger; only growing is safe.
    method SetCapacity(cap: nat)
      requires Valid() && Balanced() && cap < MAX_CAPACITY && count <= cap
      requires store != null ==> store.Length <= RoundUpCapacity(cap)
      modifies this
      ensures Valid() && Balanced() && Contents() == old(Contents()) && events == old(events)
      ensures fresh(store) && store.Length == RoundUpCapacity(cap) && PowerAbove(store.Length, cap)
      ensures leftIdx == if old(store) == null then store.Length / 2 else old(leftIdx)
    {
      hide Held, NeverOver, Contents, RoundUpCapacity, Flsl, Pow2, PowerAbove;
      ContentsAre();
      var capacity := RoundUpCapacity(cap);
      if store == null {
        store := new Item[capacity];
        leftIdx := capacity / 2;
      } else {
        Reallocate(capacity);
      }
      ContentsAre();
    }

    method Reallocate(capacity: nat)
      requires store != null && leftIdx + count <= store.Length <= capacity
      modifies this`store
      ensures fresh(store) && store.Length == capacity
      ensures store[leftIdx..leftIdx + count] == old(store[leftIdx..leftIdx + count])
    {
      hide Moved;
      var deque := new Item[capacity];
      MovedSlice(deque[..], store[..], leftIdx, leftIdx + count);
      SliceOfAll(store, leftIdx, leftIdx + count);
      MoveItems(deque, 0, store, 0, store.Length);
      SliceOfAll(deque, leftIdx, leftIdx + count);
      store := deque;
    }

    lemma SliceOfAll(a: array<Item>, i: nat, j: nat)
      requires i <= j <= a.Length
      ensures a[..][i..j] == a[i..j]
    {
    }
  }
}
