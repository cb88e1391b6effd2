// What the operations of a hash table mean for its entries: a map when it has keys, a multiset
// when it has counts, and otherwise a set.
module HashModel {
  import opened HashSizes
  import opened HashSlots

  // The callbacks a table makes, for values when it has such callbacks and for keys when it has keys.
  datatype Call = RetainValue(w: Word) | RetainKey(w: Word) | ReleaseValue(w: Word) | ReleaseKey(w: Word)

  function Retaining(c: Config, k: Word, v: Word): seq<Call> {
    (if c.retainsValues then [RetainValue(v)] else []) + (if c.hasKeys then [RetainKey(k)] else [])
  }

  function Releasing(c: Config, k: Word, v: Word): seq<Call> {
    (if c.retainsValues then [ReleaseValue(v)] else []) + (if c.hasKeys then [ReleaseKey(k)] else [])
  }

  // Replacing an entry that is there retains the new words before it releases the old ones.
  function Exchanging(c: Config, m: Model, k: Word, v: Word): seq<Call> {
    if c.keyClass(k) in m then Retaining(c, k, v) + Releasing(c, m[c.keyClass(k)].key, m[c.keyClass(k)].value) else []
  }

  const COUNT_MAX: nat := 0x7FFF_FFFF_FFFF_FFFF

  // What may be given to a table for storage; without keys a value is its own key.
  predicate Legal(c: Config, k: Word, v: Word) {
    Storable(k) && Storable(v) && (!c.hasKeys ==> k == v)
  }

  function CountOf(c: Config, m: Model, k: Word): nat {
    if Storable(k) && c.keyClass(k) in m then m[c.keyClass(k)].count else 0
  }

  // A count at its maximum is clamped there.
  function Added(c: Config, m: Model, k: Word, v: Word): Model {
    var r := c.keyClass(k);
    if r !in m then m[r := Entry(k, v, 1)]
    else if c.hasCounts && m[r].count < COUNT_MAX then m[r := m[r].(count := m[r].count + 1)]
    else m
  }

  function Replaced(c: Config, m: Model, k: Word, v: Word): Model {
    var r := c.keyClass(k);
    if r in m then m[r := Entry(k, v, m[r].count)] else m
  }

  function SetTo(c: Config, m: Model, k: Word, v: Word): Model {
    if c.keyClass(k) in m then Replaced(c, m, k, v) else m[c.keyClass(k) := Entry(k, v, 1)]
  }

  function Removed(c: Config, m: Model, k: Word): Model {
    var r := c.keyClass(k);
    if CountOf(c, m, k) == 0 then m
    else if CountOf(c, m, k) == 1 then m - {r}
    else if c.hasCounts && m[r].count < COUNT_MAX then m[r := m[r].(count := m[r].count - 1)]
    else m
  }

  // How many entries a table has room for.  Aggressive growth goes one size further than it has to,
  // so that it may not need the last.
  function MaxItems(c: Config): nat {
    if c.fastGrow then Capacity(LAST_INDEX - 1) else MAX_ITEMS
  }

  // What every reachable table holds: positive counts, in range, and 1 where none are kept.
  ghost predicate Proper(c: Config, m: Model) {
    && |m| <= MaxItems(c)
    && (forall r :: r in m ==>
          && 0 < m[r].count <= COUNT_MAX && (!c.hasCounts ==> m[r].count == 1)
          && Legal(c, m[r].key, m[r].value) && c.keyClass(m[r].key) == r)
  }

  // ---------- totals ----------

  // The number of instances of all entries.
  ghost function Total(m: Model): nat {
    if m == map[] then 0
    else
      var r :| r in m;
      m[r].count + Total(m - {r})
  }

  lemma {:induction false} TotalRemove(m: Model, r: Word)
    requires r in m
    ensures Total(m) == m[r].count + Total(m - {r})
    decreases |m|
  {
    var q :| q in m && Total(m) == m[q].count + Total(m - {q});
    if q != r {
      Fewer(m, q);
      Fewer(m, r);
      TotalRemove(m - {q}, r);
      TotalRemove(m - {r}, q);
      assert m - {q} - {r} == m - {r} - {q};
    }
  }

  lemma Fewer(m: Model, r: Word)
    requires r in m
    ensures |m - {r}| == |m| - 1
  {
    assert (m - {r}).Keys == m.Keys - {r};
  }

  lemma TotalPut(m: Model, r: Word, e: Entry)
    ensures Total(m[r := e]) == e.count + Total(m - {r})
  {
    TotalRemove(m[r := e], r);
    assert m[r := e] - {r} == m - {r};
  }

  lemma EmptyTotal()
    ensures Total(map[]) == 0
  {
  }

  // A part with the whole total is the whole, when every count is positive.
  lemma {:induction false} PartTotal(m: Model, part: Model)
    requires forall r :: r in m ==> m[r].count > 0
    requires forall r :: r in part ==> r in m && part[r].count == m[r].count
    ensures Total(part) <= Total(m)
    ensures Total(part) == Total(m) ==> part.Keys == m.Keys
    decreases |part|
  {
    hide Total;
    if r :| r in part {
      TotalRemove(part, r);
      TotalRemove(m, r);
      Fewer(part, r);
      PartTotal(m - {r}, part - {r});
      assert part.Keys == (part - {r}).Keys + {r} && m.Keys == (m - {r}).Keys + {r};
    } else {
      EmptyTotal();
      assert part == map[];
      if r :| r in m {
        TotalRemove(m, r);
      }
    }
  }

  // ---------- what the operations do to counts and totals ----------

  // Adding changes the model unless a count cannot be raised.
  lemma AddedCases(c: Config, m: Model, k: Word, v: Word)
    ensures c.keyClass(k) !in m ==>
      Added(c, m, k, v) == m[c.keyClass(k) := Entry(k, v, 1)] != m
    ensures c.keyClass(k) in m && c.hasCounts && m[c.keyClass(k)].count < COUNT_MAX ==>
      Added(c, m, k, v) == m[c.keyClass(k) := m[c.keyClass(k)].(count := m[c.keyClass(k)].count + 1)] != m
    ensures c.keyClass(k) in m && !(c.hasCounts && m[c.keyClass(k)].count < COUNT_MAX) ==>
      Added(c, m, k, v) == m
  {
    var r := c.keyClass(k);
    if r in m && c.hasCounts && m[r].count < COUNT_MAX {
      assert Added(c, m, k, v)[r].count != m[r].count;
    } else if r !in m {
      assert r in Added(c, m, k, v);
    }
  }

  // Adding makes one more instance, unless the count is at its maximum or none is kept.
  lemma AddedTotal(c: Config, m: Model, k: Word, v: Word)
    ensures Total(Added(c, m, k, v)) == Total(m)
      + (if c.keyClass(k) !in m || (c.hasCounts && m[c.keyClass(k)].count < COUNT_MAX) then 1 else 0)
  {
    hide Total;
    var r := c.keyClass(k);
    if r in m {
      TotalRemove(m, r);
      TotalPut(m, r, m[r].(count := m[r].count + 1));
    } else {
      TotalPut(m, r, Entry(k, v, 1));
      assert m - {r} == m;
    }
  }

  lemma RemovedTotal(c: Config, m: Model, k: Word)
    requires Proper(c, m)
    ensures Total(Removed(c, m, k)) + (if 0 < CountOf(c, m, k) < COUNT_MAX then 1 else 0) == Total(m)
  {
    hide Total;
    var r := c.keyClass(k);
    if CountOf(c, m, k) > 0 {
      TotalRemove(m, r);
      TotalPut(m, r, m[r].(count := m[r].count - 1));
    }
  }

  // Removing takes back what adding added, except where a count reaches its maximum, and where
  // adding to a table without counts did nothing.
  lemma AddThenRemove(c: Config, m: Model, k: Word, v: Word)
    requires Proper(c, m) && Legal(c, k, v)
    ensures Removed(c, Added(c, m, k, v), k) == m
      <==> c.keyClass(k) !in m || (c.hasCounts && m[c.keyClass(k)].count != COUNT_MAX - 1)
  {
    var r := c.keyClass(k);
    if r in m && c.hasCounts && m[r].count == COUNT_MAX - 1 {
      assert Removed(c, Added(c, m, k, v), k)[r].count != m[r].count;
    } else if r in m && c.hasCounts {
      assert Removed(c, Added(c, m, k, v), k) == m;
    } else {
      assert r !in Removed(c, Added(c, m, k, v), k);
    }
  }

  // Every operation keeps a proper table proper.
  lemma AddedProper(c: Config, m: Model, k: Word, v: Word)
    requires Proper(c, m) && Legal(c, k, v) && (c.keyClass(k) in m || |m| < MaxItems(c))
    ensures Proper(c, Added(c, m, k, v)) && |Added(c, m, k, v)| <= |m| + 1
  {
    assert Added(c, m, k, v).Keys == m.Keys + {c.keyClass(k)};
  }

  lemma SetProper(c: Config, m: Model, k: Word, v: Word)
    requires Proper(c, m) && Legal(c, k, v) && (c.keyClass(k) in m || |m| < MaxItems(c))
    ensures Proper(c, SetTo(c, m, k, v)) && |SetTo(c, m, k, v)| <= |m| + 1
  {
    assert SetTo(c, m, k, v).Keys == m.Keys + {c.keyClass(k)};
  }

  lemma ReplacedProper(c: Config, m: Model, k: Word, v: Word)
    requires Proper(c, m) && Legal(c, k, v)
    ensures Proper(c, Replaced(c, m, k, v)) && |Replaced(c, m, k, v)| == |m|
  {
    assert Replaced(c, m, k, v).Keys == m.Keys;
  }

  lemma RemovedProper(c: Config, m: Model, k: Word)
    requires Proper(c, m)
    ensures Proper(c, Removed(c, m, k)) && |Removed(c, m, k)| <= |m|
  {
    if CountOf(c, m, k) == 1 {
      Fewer(m, c.keyClass(k));
    } else {
      assert Removed(c, m, k).Keys == m.Keys;
    }
  }

  // ---------- equality ----------

  // Whether two tables hold equal keys, as often each, with equal values where there are keys.
  ghost predicate SameEntries(c: Config, m1: Model, m2: Model) {
    && m1.Keys == m2.Keys
    && (forall r :: r in m1 ==>
          && m1[r].count == m2[r].count
          && (c.hasKeys ==> c.valueClass(m1[r].value) == c.valueClass(m2[r].value)))
  }

  lemma SameTotal(c: Config, m1: Model, m2: Model)
    requires forall r :: r in m1 ==> m1[r].count > 0
    requires SameEntries(c, m1, m2)
    ensures Total(m1) == Total(m2)
  {
    PartTotal(m1, m2);
    PartTotal(m2, m1);
  }

  lemma NoneTotal(m: Model)
    requires forall r :: r in m ==> m[r].count > 0
    ensures Total(m) == 0 <==> m == map[]
  {
    if r :| r in m {
      TotalRemove(m, r);
    }
  }
}
