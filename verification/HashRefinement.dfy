// One table refines a set, a multiset and a map, over every run of operations.
module HashRefinement {
  import opened HashSlots
  import opened HashModel
  import opened HashRuns

  // ---------- a set: what keys are there ----------

  function SetAfter(c: Config, ops: seq<Op>): set<Word> {
    if ops == [] then {}
    else
      var s := SetAfter(c, ops[..|ops| - 1]);
      match ops[|ops| - 1]
      case Add(k, _) => s + {c.keyClass(k)}
      case Set(k, _) => s + {c.keyClass(k)}
      case Remove(k) => if Storable(k) then s - {c.keyClass(k)} else s
      case RemoveAll => {}
      case _ => s
  }

  // Without counts, the keys of a table are those of a set.
  lemma {:induction false} RefinesSet(c: Config, ops: seq<Op>)
    requires !c.hasCounts
    ensures AfterAll(c, ops).Keys == SetAfter(c, ops)
    ensures forall r :: r in AfterAll(c, ops) ==> AfterAll(c, ops)[r].count == 1
    decreases |ops|
  {
    if ops != [] {
      RefinesSet(c, ops[..|ops| - 1]);
    }
  }

  // ---------- a map: what value each key has ----------

  function MapAfter(c: Config, ops: seq<Op>): map<Word, Word> {
    if ops == [] then map[]
    else
      var m := MapAfter(c, ops[..|ops| - 1]);
      match ops[|ops| - 1]
      case Add(k, v) => if c.keyClass(k) in m then m else m[c.keyClass(k) := v]
      case Replace(k, v) => if c.keyClass(k) in m then m[c.keyClass(k) := v] else m
      case Set(k, v) => m[c.keyClass(k) := v]
      case Remove(k) => if Storable(k) then m - {c.keyClass(k)} else m
      case RemoveAll => map[]
      case _ => m
  }

  ghost predicate SameValues(m: Model, plain: map<Word, Word>) {
    m.Keys == plain.Keys && forall r :: r in m ==> m[r].value == plain[r]
  }

  // Without counts, the values of a table are those of a map: adding keeps what is there, setting
  // overwrites it, replacing changes only what is there.
  lemma {:induction false} RefinesMap(c: Config, ops: seq<Op>)
    requires !c.hasCounts
    ensures SameValues(AfterAll(c, ops), MapAfter(c, ops))
    decreases |ops|
  {
    if ops != [] {
      RefinesMap(c, ops[..|ops| - 1]);
      RefinesSet(c, ops[..|ops| - 1]);
    }
  }

  // So a lookup after any run finds what the map has, and nothing else.
  lemma LookupIsMap(c: Config, ops: seq<Op>, k: Word)
    requires !c.hasCounts
    ensures var answer, r := Answer(c, AfterAll(c, ops), Lookup(k)), c.keyClass(k);
      if Storable(k) && r in MapAfter(c, ops) then answer.Found? && answer.entry.value == MapAfter(c, ops)[r]
      else answer == NotFound
  {
    RefinesMap(c, ops);
    RefinesSet(c, ops);
  }

  // ---------- a multiset: how often each key is there ----------

  function BagStep(c: Config, b: multiset<Word>, op: Op): multiset<Word> {
    match op
    case Add(k, _) => b + multiset{c.keyClass(k)}
    case Set(k, _) => if c.keyClass(k) in b then b else b + multiset{c.keyClass(k)}
    case Remove(k) => if Storable(k) then b - multiset{c.keyClass(k)} else b
    case RemoveAll => multiset{}
    case _ => b
  }

  function BagAfter(c: Config, ops: seq<Op>): multiset<Word> {
    if ops == [] then multiset{} else BagStep(c, BagAfter(c, ops[..|ops| - 1]), ops[|ops| - 1])
  }

  ghost predicate SameCounts(m: Model, b: multiset<Word>) {
    (forall r :: r in b <==> r in m) && (forall r :: r in m ==> m[r].count == b[r])
  }

  lemma AddedSame(c: Config, m: Model, b: multiset<Word>, k: Word, v: Word)
    requires c.hasCounts && SameCounts(m, b) && forall r :: r in m ==> m[r].count < COUNT_MAX
    ensures SameCounts(Added(c, m, k, v), b + multiset{c.keyClass(k)})
  {
    var r, b' := c.keyClass(k), b + multiset{c.keyClass(k)};
    assert forall q :: b'[q] == b[q] + if q == r then 1 else 0;
  }

  lemma SetSame(c: Config, m: Model, b: multiset<Word>, k: Word, v: Word)
    requires SameCounts(m, b)
    ensures SameCounts(SetTo(c, m, k, v), if c.keyClass(k) in b then b else b + multiset{c.keyClass(k)})
    ensures SameCounts(Replaced(c, m, k, v), b)
  {
    var r, b' := c.keyClass(k), b + multiset{c.keyClass(k)};
    assert forall q :: b'[q] == b[q] + if q == r then 1 else 0;
  }

  lemma RemovedSame(c: Config, m: Model, b: multiset<Word>, k: Word)
    requires c.hasCounts && SameCounts(m, b) && forall r :: r in m ==> m[r].count < COUNT_MAX
    ensures SameCounts(Removed(c, m, k), if Storable(k) then b - multiset{c.keyClass(k)} else b)
  {
    var r, b' := c.keyClass(k), b - multiset{c.keyClass(k)};
    assert forall q :: b'[q] == if q == r && b[q] > 0 then b[q] - 1 else b[q];
  }

  lemma BagStepSame(c: Config, m: Model, b: multiset<Word>, op: Op)
    requires c.hasCounts && SameCounts(m, b) && forall r :: r in m ==> m[r].count < COUNT_MAX
    ensures SameCounts(After(c, m, op), BagStep(c, b, op))
  {
    hide Added, Replaced, SetTo, Removed, SameCounts;
    NothingCounted();
    match op
    case Add(k, v) => AddedSame(c, m, b, k, v);
    case Set(k, v) => SetSame(c, m, b, k, v);
    case Replace(k, v) => SetSame(c, m, b, k, v);
    case Remove(k) => RemovedSame(c, m, b, k);
    case _ =>
  }

  // With counts, a table is a multiset, as long as no count can reach its maximum.
  lemma {:induction false} RefinesBag(c: Config, ops: seq<Op>)
    requires c.hasCounts && |ops| < COUNT_MAX
    ensures SameCounts(AfterAll(c, ops), BagAfter(c, ops))
    ensures |BagAfter(c, ops)| <= |ops|
    decreases |ops|
  {
    hide After, SameCounts;
    if ops == [] {
      NothingCounted();
    } else {
      var ops', op := ops[..|ops| - 1], ops[|ops| - 1];
      RefinesBag(c, ops');
      SmallCounts(AfterAll(c, ops'), BagAfter(c, ops'));
      BagStepSame(c, AfterAll(c, ops'), BagAfter(c, ops'), op);
      BagGrows(c, BagAfter(c, ops'), op);
    }
  }

  lemma NothingCounted()
    ensures SameCounts(map[], multiset{})
  {
  }

  lemma BagGrows(c: Config, b: multiset<Word>, op: Op)
    ensures |BagStep(c, b, op)| <= |b| + 1
  {
  }

  lemma SmallCounts(m: Model, b: multiset<Word>)
    requires SameCounts(m, b)
    ensures forall r :: r in m ==> m[r].count <= |b|
  {
    forall r | r in m ensures m[r].count <= |b| {
      CountWithin(b, r);
    }
  }

  lemma CountWithin(b: multiset<Word>, r: Word)
    ensures b[r] <= |b|
  {
    var only := multiset{}[r := b[r]];
    assert only <= b && |only| == b[r];
    assert b == only + (b - only);
  }

  // And its total is the size of the multiset.
  lemma {:induction false} BagTotal(m: Model, b: multiset<Word>)
    requires SameCounts(m, b)
    ensures Total(m) == |b|
    decreases |m|
  {
    if r :| r in m {
      var rest := b[r := 0];
      assert b == rest + multiset{}[r := b[r]];
      Fewer(m, r);
      TotalRemove(m, r);
      BagTotal(m - {r}, rest);
    } else {
      assert b == multiset{};
    }
  }
}
