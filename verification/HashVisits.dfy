// Walks over all slots of a table: what they count, visit and compare.
module HashVisits {
  import opened HashSizes
  import opened HashSlots
  import opened HashLaws
  import opened HashModel
  import opened HashTable

  function Sum(counts: seq<nat>): nat {
    if counts == [] then 0 else Sum(counts[..|counts| - 1]) + counts[|counts| - 1]
  }

  lemma SumSnoc(counts: seq<nat>, k: nat)
    requires k < |counts|
    ensures Sum(counts[..k + 1]) == Sum(counts[..k]) + counts[k]
  {
    assert counts[..k + 1][..k] == counts[..k];
  }

  // The counts of the first k slots are those of the entries they hold.
  lemma {:induction false} SumTotal(c: Config, s: Slots, m: Model, k: nat)
    requires Inv(c, s, m) && k <= |s.counts| == |s.keys| == |s.values|
    ensures Shape(s) && Sum(s.counts[..k]) == Total(Partial(c, s, m, k))
  {
    hide Reachable, Refines, Partial, HeldBefore, ClassAt;
    if k == 0 {
      PartialEnds(c, s, m);
    } else {
      SumTotal(c, s, m, k - 1);
      SumSnoc(s.counts, k - 1);
      PartialStep(c, s, m, k - 1);
      if Live(s.values[k - 1]) {
        var r, part := ClassAt(c, s, k - 1), Partial(c, s, m, k - 1);
        TotalPut(part, r, EntryAt(s, k - 1));
        assert part - {r} == part;
      }
    }
  }

  lemma SlotsTotal(c: Config, s: Slots, m: Model)
    requires Inv(c, s, m)
    ensures Sum(s.counts) == Total(m)
  {
    hide Reachable, Refines, Partial;
    PartialEnds(c, s, m);
    SumTotal(c, s, m, |s.counts|);
    assert s.counts[..|s.counts|] == s.counts;
  }

  lemma {:induction false} OnesTotal(m: Model)
    requires forall r :: r in m ==> m[r].count == 1
    ensures Total(m) == |m|
    decreases |m|
  {
    if r :| r in m {
      TotalRemove(m, r);
      Fewer(m, r);
      OnesTotal(m - {r});
    }
  }

  // The number of instances of all entries.
  method GetCount(h: BasicHash) returns (count: nat)
    requires h.Valid()
    ensures count == Total(h.model)
  {
    hide h.Core, h.Mirror, Inv, DeletedCount, Size;
    h.CoreInv();
    h.MirrorSizes();
    h.MirrorArrays();
    if h.c.hasCounts {
      var total := 0;
      var cnt := Size(h.numBucketsIdx);
      for idx := 0 to cnt
        invariant total == Sum(h.slots.counts[..idx])
      {
        SumSnoc(h.slots.counts, idx);
        total := total + h.counts[idx];
      }
      assert h.slots.counts[..cnt] == h.slots.counts;
      SlotsTotal(h.c, h.slots, h.model);
      return total;
    }
    h.CoreProper();
    OnesTotal(h.model);
    return h.usedBuckets;
  }

  // ---------- visiting ----------

  function BucketAt(s: Slots, i: nat): Bucket
    requires i < |s.values| && i < |s.keys| && i < |s.counts|
  {
    Bucket(i, Decode(s.keys[i]), Decode(s.values[i]), s.counts[i])
  }

  // The live buckets among the first k, in order.
  function BucketsOf(s: Slots, k: nat): seq<Bucket>
    requires k <= |s.values| == |s.keys| == |s.counts|
  {
    if k == 0 then []
    else BucketsOf(s, k - 1) + if Live(s.values[k - 1]) then [BucketAt(s, k - 1)] else []
  }

  // No live bucket is left once as many have been seen as there are.
  lemma {:induction false} BucketsEnd(s: Slots, k: nat, n: nat)
    requires k <= n == |s.values| == |s.keys| == |s.counts|
    requires |LiveBag(s.values[..k])| == |LiveBag(s.values)|
    ensures BucketsOf(s, k) == BucketsOf(s, n)
    decreases n - k
  {
    if k < n {
      BagSnoc(s.values, k);
      BagPrefix(s.values, k + 1);
      BucketsEnd(s, k + 1, n);
    }
  }

  lemma {:induction false} BucketsPrefix(s: Slots, k: nat, n: nat)
    requires k <= n <= |s.values| == |s.keys| == |s.counts|
    ensures BucketsOf(s, k) <= BucketsOf(s, n)
    decreases n
  {
    if k < n {
      BucketsPrefix(s, k, n - 1);
    }
  }

  // The buckets of all slots are the entries of the model, each once.
  ghost predicate EachOnce(c: Config, m: Model, bs: seq<Bucket>) {
    && |bs| == |m|
    && (forall i :: 0 <= i < |bs| ==>
          && c.keyClass(bs[i].weakKey) in m
          && m[c.keyClass(bs[i].weakKey)] == Entry(bs[i].weakKey, bs[i].weakValue, bs[i].count))
    && (forall i, j :: 0 <= i < j < |bs| ==> c.keyClass(bs[i].weakKey) != c.keyClass(bs[j].weakKey))
    && (forall r :: r in m ==> exists i :: 0 <= i < |bs| && c.keyClass(bs[i].weakKey) == r)
  }

  lemma {:induction false} BucketsPartial(c: Config, s: Slots, m: Model, k: nat)
    requires Inv(c, s, m) && k <= |s.values| == |s.keys| == |s.counts|
    ensures Shape(s) && EachOnce(c, Partial(c, s, m, k), BucketsOf(s, k))
  {
    hide Reachable, Refines, Partial, HeldBefore, Decode, EachOnce;
    if k == 0 {
      PartialEnds(c, s, m);
      NoneOnce(c);
    } else {
      BucketsPartial(c, s, m, k - 1);
      PartialStep(c, s, m, k - 1);
      if Live(s.values[k - 1]) {
        EachOnceSnoc(c, Partial(c, s, m, k - 1), BucketsOf(s, k - 1), BucketAt(s, k - 1));
      } else {
        assert BucketsOf(s, k) == BucketsOf(s, k - 1);
      }
    }
  }

  lemma NoneOnce(c: Config)
    ensures EachOnce(c, map[], [])
  {
  }

  lemma EachOnceSnoc(c: Config, m: Model, bs: seq<Bucket>, b: Bucket)
    requires EachOnce(c, m, bs) && c.keyClass(b.weakKey) !in m
    ensures EachOnce(c, m[c.keyClass(b.weakKey) := Entry(b.weakKey, b.weakValue, b.count)], bs + [b])
  {
    var m' := m[c.keyClass(b.weakKey) := Entry(b.weakKey, b.weakValue, b.count)];
    var bs' := bs + [b];
    forall r | r in m' ensures exists i :: 0 <= i < |bs'| && c.keyClass(bs'[i].weakKey) == r {
      if r in m {
        var i :| 0 <= i < |bs| && c.keyClass(bs[i].weakKey) == r;
        assert bs'[i] == bs[i];
      } else {
        assert bs'[|bs|] == b;
      }
    }
  }

  lemma AllBuckets(c: Config, s: Slots, m: Model)
    requires Inv(c, s, m) && |s.values| == |s.keys| == |s.counts|
    ensures EachOnce(c, m, BucketsOf(s, |s.values|))
  {
    hide Reachable, Refines, Partial;
    PartialEnds(c, s, m);
    BucketsPartial(c, s, m, |s.values|);
  }

  function ReleasingAll(c: Config, bs: seq<Bucket>): seq<Call> {
    if bs == [] then []
    else ReleasingAll(c, bs[..|bs| - 1]) + Releasing(c, bs[|bs| - 1].weakKey, bs[|bs| - 1].weakValue)
  }

  lemma {:induction false} DrainedBuckets(c: Config, s: Slots, k: nat)
    requires Shape(s) && k <= |s.values|
    ensures Drained(c, s, k) == ReleasingAll(c, BucketsOf(s, k))
    decreases k
  {
    hide Decode, Releasing, Discarding;
    if k > 0 {
      DrainedBuckets(c, s, k - 1);
      DiscardCases(c, s.keys[k - 1], s.values[k - 1], Drained(c, s, k - 1));
      if Live(s.values[k - 1]) {
        assert BucketsOf(s, k)[..|BucketsOf(s, k)| - 1] == BucketsOf(s, k - 1);
      } else {
        assert BucketsOf(s, k) == BucketsOf(s, k - 1) && !Live(s.keys[k - 1]);
      }
    }
  }

  // Removing everything releases the value and the key of every entry, each entry once.
  lemma DrainedOnce(c: Config, s: Slots, m: Model)
    requires Inv(c, s, m) && |s.values| == |s.keys| == |s.counts|
    ensures exists all :: EachOnce(c, m, all) && Drained(c, s, |s.values|) == ReleasingAll(c, all)
  {
    hide Reachable, Refines, EachOnce, Drained, ReleasingAll;
    AllBuckets(c, s, m);
    DrainedBuckets(c, s, |s.values|);
  }

  method GetBucket(h: BasicHash, idx: nat) returns (bkt: Bucket)
    requires h.Mirror() && Shape(h.slots) && idx < |h.slots.values| == |h.slots.keys| == |h.slots.counts|
    ensures bkt.idx == idx
    ensures if Live(h.slots.values[idx]) then bkt == BucketAt(h.slots, idx) && bkt.count > 0 else bkt.count == 0
  {
    var value := h.GetValueWord(idx);
    if value == 0 || value == WORD_MAX {
      return Bucket(idx, 0, 0, 0);
    }
    var key := h.GetKeyWord(idx);
    var count := h.GetSlotCount(idx);
    return Bucket(idx, Decode(key), Decode(value), count);
  }

  lemma VisitEnds(s: Slots)
    requires |s.values| == |s.keys| == |s.counts|
    ensures BucketsOf(s, 0) == [] && |LiveBag(s.values[..0])| == 0
    ensures s.values[..|s.values|] == s.values
  {
  }

  lemma VisitStep(s: Slots, k: nat)
    requires k < |s.values| == |s.keys| == |s.counts|
    ensures BucketsOf(s, k + 1) == BucketsOf(s, k) + if Live(s.values[k]) then [BucketAt(s, k)] else []
    ensures BucketsOf(s, k) <= BucketsOf(s, k + 1) <= BucketsOf(s, |s.values|)
    ensures |LiveBag(s.values[..k + 1])| == |LiveBag(s.values[..k])| + if Live(s.values[k]) then 1 else 0
  {
    BagSnoc(s.values, k);
    BucketsPrefix(s, k + 1, |s.values|);
  }

  // What a walk that block may stop has visited of all there is.
  ghost predicate Visited(block: Bucket -> bool, visited: seq<Bucket>, all: seq<Bucket>) {
    && visited <= all
    && (forall i :: 0 <= i < |visited| - 1 ==> block(visited[i]))
    && (visited == all || (visited != [] && !block(visited[|visited| - 1])))
  }

  // Visits the live buckets until block is false, counting down those in use to stop early: all
  // of them, each once, if it never is.
  method Apply(h: BasicHash, block: Bucket -> bool) returns (visited: seq<Bucket>)
    requires h.Valid()
    ensures exists all :: EachOnce(h.c, h.model, all) && Visited(block, visited, all)
  {
    hide h.Core, h.Mirror, Inv, Sound, Shape, DeletedCount, Size, BucketAt, BucketsOf, EachOnce, LiveBag, Live;
    h.CoreInv();
    h.CoreUsed();
    h.MirrorSizes();
    AllBuckets(h.c, h.slots, h.model);
    ghost var s := h.slots;
    var used, cnt := h.usedBuckets, Size(h.numBucketsIdx);
    ghost var all := BucketsOf(s, cnt);
    visited := [];
    var idx := 0;
    VisitEnds(s);
    while 0 < used && idx < cnt
      invariant 0 <= used && idx <= cnt && visited == BucketsOf(s, idx)
      invariant forall i :: 0 <= i < |visited| ==> block(visited[i])
      invariant used + |LiveBag(s.values[..idx])| == |LiveBag(s.values)|
    {
      VisitStep(s, idx);
      var bkt := GetBucket(h, idx);
      if 0 < bkt.count {
        visited := visited + [bkt];
        if !block(bkt) {
          assert Visited(block, visited, all);
          return;
        }
        used := used - 1;
      }
      idx := idx + 1;
    }
    if idx < cnt {
      BucketsEnd(s, idx, cnt);
    }
    assert Visited(block, visited, all);
  }

  // ---------- comparing ----------

  // Every entry of part is one of m, as often, with an equal value where there are keys.
  ghost predicate Agree(c: Config, part: Model, m: Model) {
    forall r :: r in part ==>
      && r in m && part[r].count == m[r].count
      && (c.hasKeys ==> c.valueClass(part[r].value) == c.valueClass(m[r].value))
  }

  lemma {:induction false} PartialFull(c: Config, s: Slots, m: Model, k: nat)
    requires Inv(c, s, m) && k <= |s.values| == |s.keys| == |s.counts|
    requires |LiveBag(s.values[..k])| == |LiveBag(s.values)|
    ensures Shape(s) && Partial(c, s, m, k) == m
    decreases |s.values| - k
  {
    hide Reachable, Refines, Partial, LiveBag;
    PartialEnds(c, s, m);
    if k < |s.values| {
      BagSnoc(s.values, k);
      BagPrefix(s.values, k + 1);
      PartialStep(c, s, m, k);
      PartialFull(c, s, m, k + 1);
    }
  }

  // The pigeonhole: with equal totals, all of the first table agreeing leaves nothing else in
  // the second.
  lemma AgreeAll(c: Config, m1: Model, m2: Model)
    requires Agree(c, m1, m2) && Total(m1) == Total(m2)
    requires forall r :: r in m2 ==> m2[r].count > 0
    ensures SameEntries(c, m1, m2)
  {
    PartTotal(m2, m1);
  }

  predicate Matches(c: Config, b: Bucket, m: Model) {
    var r := c.keyClass(b.weakKey);
    && r in m && b.count == m[r].count
    && (c.hasKeys ==> c.valueClass(b.weakValue) == c.valueClass(m[r].value))
  }

  // One more entry compared.
  lemma AgreeStep(c: Config, s: Slots, m: Model, m2: Model, k: nat)
    requires Inv(c, s, m) && k < |s.values| == |s.keys| == |s.counts| && Shape(s)
    requires Agree(c, Partial(c, s, m, k), m2)
    ensures !Live(s.values[k]) ==> Agree(c, Partial(c, s, m, k + 1), m2)
    ensures Live(s.values[k]) && Matches(c, BucketAt(s, k), m2) ==> Agree(c, Partial(c, s, m, k + 1), m2)
    ensures Live(s.values[k]) && !Matches(c, BucketAt(s, k), m2) ==> !SameEntries(c, m, m2)
  {
    hide Reachable, HeldBefore, Partial;
    PartialStep(c, s, m, k);
    if Live(s.values[k]) {
      HeldOnce(c, s, m, k);
    }
  }

  method SameInBoth(h1: BasicHash, h2: BasicHash, bkt1: Bucket) returns (same: bool)
    requires h2.Valid() && h1.c.keyClass == h2.c.keyClass && bkt1.count > 0
    ensures same <==> Matches(h1.c, bkt1, h2.model)
  {
    hide h2.Core, h2.Mirror, h2.Valid, h2.Free, Inv, Sound, Shape, LiveBag, Holds;
    ValidParts(h2);
    var bkt2 := h2.FindBucket(bkt1.weakKey, h2.model);
    if bkt1.count != bkt2.count {
      return false;
    }
    if h1.c.hasKeys && bkt1.weakValue != bkt2.weakValue
      && h1.c.valueClass(bkt1.weakValue) != h1.c.valueClass(bkt2.weakValue) {
      return false;
    }
    return true;
  }

  // Looks up every entry of the first table in the second, until one is not there.
  method AllMatch(h1: BasicHash, h2: BasicHash) returns (same: bool)
    requires h1.Valid() && h2.Valid() && h1.c.keyClass == h2.c.keyClass
    ensures same ==> Agree(h1.c, h1.model, h2.model)
    ensures !same ==> !SameEntries(h1.c, h1.model, h2.model)
  {
    hide h1.Core, h1.Mirror, h1.Valid, h1.Free, Inv, Sound, Shape, DeletedCount, Size, BucketAt, LiveBag, Live,
      Partial, Total, Proper, SameEntries, Agree, Matches;
    ValidParts(h1);
    ghost var c, s, m1, m2 := h1.c, h1.slots, h1.model, h2.model;
    VisitEnds(s);
    AgreeStart(c, s, m1, m2);
    var used, cnt, idx := h1.usedBuckets, Size(h1.numBucketsIdx), 0;
    while 0 < used && idx < cnt
      invariant 0 <= used && idx <= cnt && Agree(c, Partial(c, s, m1, idx), m2)
      invariant used + |LiveBag(s.values[..idx])| == |LiveBag(s.values)|
    {
      VisitStep(s, idx);
      AgreeStep(c, s, m1, m2, idx);
      var bkt1 := GetBucket(h1, idx);
      if 0 < bkt1.count {
        same := SameInBoth(h1, h2, bkt1);
        if !same {
          return;
        }
        used := used - 1;
      }
      idx := idx + 1;
    }
    PartialFull(c, s, m1, idx);
    return true;
  }

  // Compares two tables whose keys are compared the same way.
  method AreEqual(h1: BasicHash, h2: BasicHash) returns (equal: bool)
    requires h1.Valid() && h2.Valid() && h1.c.keyClass == h2.c.keyClass
    ensures equal <==> SameEntries(h1.c, h1.model, h2.model)
  {
    hide h1.Core, h1.Mirror, h1.Valid, h1.Free, Inv, Sound, Shape, Total, Proper, SameEntries, Agree;
    ValidParts(h2);
    TotalCases(h1, h2);
    var cnt1 := GetCount(h1);
    var cnt2 := GetCount(h2);
    if cnt1 != cnt2 {
      return false;
    }
    if 0 == cnt1 {
      return true;
    }
    equal := AllMatch(h1, h2);
    if equal {
      AgreeAll(h1.c, h1.model, h2.model);
    }
  }

  lemma ValidParts(h: BasicHash)
    requires h.Valid()
    ensures h.Core() && h.Mirror() && Inv(h.c, h.slots, h.model) && Shape(h.slots)
    ensures |h.slots.values| == |h.slots.keys| == |h.slots.counts| == Size(h.numBucketsIdx)
    ensures |LiveBag(h.slots.values)| == h.usedBuckets
    ensures forall r :: r in h.model ==> h.model[r].count > 0
  {
    h.CoreProper();
  }

  lemma AgreeStart(c: Config, s: Slots, m1: Model, m2: Model)
    requires Inv(c, s, m1)
    ensures Shape(s) && Agree(c, Partial(c, s, m1, 0), m2)
  {
    PartialEnds(c, s, m1);
  }

  lemma TotalCases(h1: BasicHash, h2: BasicHash)
    requires h1.Valid() && h2.Valid()
    ensures Total(h1.model) != Total(h2.model) ==> !SameEntries(h1.c, h1.model, h2.model)
    ensures Total(h1.model) == Total(h2.model) == 0 ==> SameEntries(h1.c, h1.model, h2.model)
  {
    ValidParts(h1);
    ValidParts(h2);
    NoneTotal(h1.model);
    NoneTotal(h2.model);
    if SameEntries(h1.c, h1.model, h2.model) {
      SameTotal(h1.c, h1.model, h2.model);
    }
  }
}
