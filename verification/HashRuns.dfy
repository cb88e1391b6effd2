// Runs of operations on one table, and copies of tables.
module HashRuns {
  import opened HashSizes
  import opened HashSlots
  import opened HashModel
  import opened HashTable

  // ---------- copying ----------

  // The first idx slots of s have been copied to the arrays of h, and retained.
  ghost predicate Copied(h: BasicHash, s: Slots, idx: nat)
    reads h`values, h`keys, h`retainedValues, h`retainedKeys, h.values, h.keys
  {
    && CopiedColumn(h.values[..], s.values, idx, h.c.retainsValues, h.retainedValues)
    && (if h.c.hasKeys then CopiedColumn(h.keys[..], s.keys, idx, true, h.retainedKeys)
        else h.keys.Length == 0 && h.retainedKeys == multiset{})
    && |s.keys| == |s.values|
  }

  ghost predicate CopiedColumn(ws: seq<Word>, column: seq<Word>, idx: nat, kept: bool, held: multiset<Word>) {
    && idx <= |ws| == |column| && ws[..idx] == column[..idx]
    && held == if kept then LiveBag(column[..idx]) else multiset{}
  }

  lemma DeadAdds(w: Word, held: multiset<Word>)
    ensures !Live(w) ==> held + Bag1(w) == held
  {
  }

  lemma ColumnStep(ws: seq<Word>, column: seq<Word>, idx: nat, kept: bool, held: multiset<Word>)
    requires idx < |ws| && CopiedColumn(ws, column, idx, kept, held)
    ensures CopiedColumn(ws[idx := column[idx]], column, idx + 1, kept, if kept then held + Bag1(column[idx]) else held)
    ensures !Live(column[idx]) && kept ==> held + Bag1(column[idx]) == held
  {
    hide LiveBag, Bag1, Live;
    BagSnoc(column, idx);
    DeadAdds(column[idx], held);
    assert ws[idx := column[idx]][..idx + 1] == ws[..idx] + [column[idx]] == column[..idx + 1];
  }

  // Slot idx as stored again after reading: a live word through the callbacks, a dead one as it is.
  method CopyValue(h: BasicHash, idx: nat, value: Word, ghost column: seq<Word>)
    requires CopiedColumn(h.values[..], column, idx, h.c.retainsValues, h.retainedValues)
    requires idx < |column| && value == column[idx]
    modifies h`calls, h`retainedValues, h.values
    ensures CopiedColumn(h.values[..], column, idx + 1, h.c.retainsValues, h.retainedValues)
  {
    hide Encode, Decode, Bag1, Live, CopiedColumn;
    ColumnSizes(h.values[..], column, idx, h.c.retainsValues, h.retainedValues);
    WordAgain(value);
    ColumnStep(h.values[..], column, idx, h.c.retainsValues, h.retainedValues);
    if value != 0 && value != WORD_MAX {
      h.ImportValue(Decode(value));
      h.SetValue(idx, Decode(value), true, false);
    } else {
      h.SetValue(idx, value, true, true);
    }
  }

  method CopyKey(h: BasicHash, idx: nat, key: Word, ghost column: seq<Word>)
    requires CopiedColumn(h.keys[..], column, idx, true, h.retainedKeys)
    requires idx < |column| && key == column[idx]
    modifies h`calls, h`retainedKeys, h.keys
    ensures CopiedColumn(h.keys[..], column, idx + 1, true, h.retainedKeys)
  {
    hide Encode, Decode, Bag1, Live, CopiedColumn;
    ColumnSizes(h.keys[..], column, idx, true, h.retainedKeys);
    WordAgain(key);
    ColumnStep(h.keys[..], column, idx, true, h.retainedKeys);
    if key != 0 && key != WORD_MAX {
      h.ImportKey(Decode(key));
      h.SetKey(idx, Decode(key), true, false);
    } else {
      h.SetKey(idx, key, true, true);
    }
  }

  lemma ColumnSizes(ws: seq<Word>, column: seq<Word>, idx: nat, kept: bool, held: multiset<Word>)
    requires CopiedColumn(ws, column, idx, kept, held)
    ensures idx <= |ws| == |column|
  {
  }

  lemma WordAgain(w: Word)
    ensures Live(w) <==> w != 0 && w != WORD_MAX
    ensures Live(w) ==> Encode(Decode(w)) == w && Bag1(w) == multiset{Decode(w)}
  {
  }

  // A table with the same entries that shares nothing with the first, and has retained them too.
  method CreateCopy(src: BasicHash) returns (h: BasicHash)
    requires src.Valid()
    ensures fresh(h) && fresh(h.Repr()) && h.c == src.c
    ensures h.Valid() && h.model == src.model
    ensures h.retainedValues == src.retainedValues && h.retainedKeys == src.retainedKeys
  {
    hide h.Valid, h.Core, h.Mirror, Inv, Shape;
    ValidShape(src);
    h := new BasicHash.Like(src);
    CopyArrays(h, src);
  }

  lemma ValidShape(src: BasicHash)
    requires src.Valid()
    ensures Shape(src.slots)
  {
  }

  method CopyArrays(h: BasicHash, src: BasicHash)
    requires src.Valid() && src != h && src.Repr() !! h.Repr() && Shape(src.slots)
    requires h.c == src.c && h.slots == src.slots && h.model == src.model
    requires h.numBucketsIdx == src.numBucketsIdx && h.usedBuckets == src.usedBuckets
    requires h.deleted == src.deleted && h.countsWidth == src.countsWidth
    requires h.values.Length == src.values.Length && h.keys.Length == src.keys.Length &&
      h.counts.Length == src.counts.Length
    requires h.values != h.keys && h.values as object != h.counts && h.keys as object != h.counts
    requires h.retainedValues == h.retainedKeys == multiset{}
    modifies h`calls, h`retainedValues, h`retainedKeys, h.values, h.keys, h.counts
    ensures h.Valid()
    ensures h.retainedValues == src.retainedValues && h.retainedKeys == src.retainedKeys
  {
    hide h.Valid, h.Core, h.Mirror, Copied, Shape;
    ghost var s := src.slots;
    SourceArrays(src);
    CopyStart(h, src);
    for idx := 0 to src.values.Length
      invariant Copied(h, s, idx)
    {
      CopySlot(h, idx, src.values[idx], if h.c.hasKeys then src.keys[idx] else 0, s);
    }
    CopyCounts(h, src);
    CopyEnd(h, src);
  }

  lemma SourceArrays(src: BasicHash)
    requires src.Valid()
    ensures src.slots.values == src.values[..]
    ensures src.c.hasKeys ==> src.slots.keys == src.keys[..] && |src.slots.keys| == |src.slots.values|
  {
  }

  method CopySlot(h: BasicHash, idx: nat, value: Word, key: Word, ghost s: Slots)
    requires Copied(h, s, idx) && idx < |s.values| && value == s.values[idx] && h.values != h.keys
    requires h.c.hasKeys ==> idx < |s.keys| && key == s.keys[idx]
    modifies h`calls, h`retainedValues, h`retainedKeys, h.values, h.keys
    ensures Copied(h, s, idx + 1)
  {
    hide CopiedColumn;
    CopyValue(h, idx, value, s.values);
    if h.c.hasKeys {
      CopyKey(h, idx, key, s.keys);
    }
  }

  method CopyCounts(h: BasicHash, src: BasicHash)
    requires h.counts.Length == src.counts.Length && h.counts != src.counts
    modifies h.counts
    ensures h.counts[..] == src.counts[..]
  {
    for idx := 0 to src.counts.Length
      invariant h.counts[..idx] == src.counts[..idx]
    {
      h.counts[idx] := src.counts[idx];
    }
    assert h.counts[..] == src.counts[..];
  }

  lemma CopyStart(h: BasicHash, src: BasicHash)
    requires src.Valid() && h.c == src.c && h.values.Length == src.values.Length && h.keys.Length == src.keys.Length
    requires h.retainedValues == h.retainedKeys == multiset{}
    ensures Copied(h, src.slots, 0)
  {
    src.MirrorSizes();
  }

  lemma CopyEnd(h: BasicHash, src: BasicHash)
    requires src.Valid() && h.c == src.c && h.slots == src.slots && h.model == src.model
    requires h.numBucketsIdx == src.numBucketsIdx && h.usedBuckets == src.usedBuckets
    requires h.deleted == src.deleted && h.countsWidth == src.countsWidth
    requires h.values.Length == src.values.Length && h.counts[..] == src.counts[..]
    requires h.values != h.keys && h.values as object != h.counts && h.keys as object != h.counts
    requires Copied(h, src.slots, |src.slots.values|)
    ensures h.Valid()
    ensures h.retainedValues == src.retainedValues && h.retainedKeys == src.retainedKeys
  {
    hide Inv, Shape, LiveBag, DeletedCount, CountsFit, Size, Capacity, LiveCounts;
    var s, n := src.slots, |src.slots.values|;
    assert h.values[..n] == h.values[..] && s.values[..n] == s.values && s.keys[..n] == s.keys;
    assert h.c.hasKeys ==> h.keys[..n] == h.keys[..];
  }

  // ---------- runs ----------

  datatype Op =
    | Add(key: Word, value: Word)
    | Replace(key: Word, value: Word)
    | Set(key: Word, value: Word)
    | Remove(key: Word)
    | RemoveAll
    | SetCapacity(capacity: nat)
    | CountOfKey(key: Word)
    | Lookup(key: Word)

  datatype Reply = Done | IsNew(isNew: bool) | Count(count: nat) | Found(entry: Entry) | NotFound

  // What callers may ask of a table.
  predicate Asked(c: Config, op: Op) {
    match op
    case Add(k, v) => Legal(c, k, v)
    case Replace(k, v) => Legal(c, k, v)
    case Set(k, v) => Legal(c, k, v)
    case SetCapacity(n) => n <= MaxItems(c)
    case _ => true
  }

  // The operations on a plain map.
  function After(c: Config, m: Model, op: Op): Model {
    match op
    case Add(k, v) => Added(c, m, k, v)
    case Replace(k, v) => Replaced(c, m, k, v)
    case Set(k, v) => SetTo(c, m, k, v)
    case Remove(k) => Removed(c, m, k)
    case RemoveAll => map[]
    case _ => m
  }

  // What the operations answer.
  ghost function Answer(c: Config, m: Model, op: Op): Reply {
    match op
    case Add(k, v) => IsNew(Added(c, m, k, v) != m)
    case Remove(k) => Count(CountOf(c, m, k))
    case CountOfKey(k) => Count(CountOf(c, m, k))
    case Lookup(k) => if CountOf(c, m, k) > 0 then Found(m[c.keyClass(k)]) else NotFound
    case _ => Done
  }

  ghost function AfterAll(c: Config, ops: seq<Op>): Model {
    if ops == [] then map[] else After(c, AfterAll(c, ops[..|ops| - 1]), ops[|ops| - 1])
  }

  // Every map a run reaches is proper: counts are positive, and there are no more entries than
  // operations.
  lemma {:induction false} RunProper(c: Config, ops: seq<Op>)
    requires |ops| <= MaxItems(c) && forall i :: 0 <= i < |ops| ==> Asked(c, ops[i])
    ensures Proper(c, AfterAll(c, ops)) && |AfterAll(c, ops)| <= |ops|
    decreases |ops|
  {
    hide Added, Replaced, SetTo, Removed, Proper;
    if ops == [] {
      EmptyProper(c);
    } else {
      var ops', op := ops[..|ops| - 1], ops[|ops| - 1];
      RunProper(c, ops');
      var m := AfterAll(c, ops');
      match op
      case Add(k, v) => AddedProper(c, m, k, v);
      case Replace(k, v) => ReplacedProper(c, m, k, v);
      case Set(k, v) => SetProper(c, m, k, v);
      case Remove(k) => RemovedProper(c, m, k);
      case RemoveAll => EmptyProper(c);
      case _ =>
    }
  }

  lemma EmptyProper(c: Config)
    ensures Proper(c, map[])
  {
  }

  lemma AfterNone(c: Config, ops: seq<Op>)
    ensures AfterAll(c, ops[..0]) == map[] && Answered(c, ops, [], 0)
  {
  }

  lemma AfterSnoc(c: Config, ops: seq<Op>, i: nat)
    requires i < |ops|
    ensures AfterAll(c, ops[..i + 1]) == After(c, AfterAll(c, ops[..i]), ops[i])
  {
    assert ops[..i + 1][..i] == ops[..i];
  }

  method Perform(h: BasicHash, op: Op) returns (answer: Reply)
    requires h.Valid() && Asked(h.c, op) && |h.model| < MaxItems(h.c)
    modifies h, h.values, h.keys, h.counts
    ensures h.Valid() && fresh(h.Repr() - old(h.Repr()))
    ensures h.model == After(h.c, old(h.model), op) && answer == Answer(h.c, old(h.model), op)
  {
    hide h.Valid, Added, Replaced, SetTo, Removed, Legal, CountOf;
    CountOfIn(h.c, h.model, op);
    answer := Done;
    match op
    case Add(k, v) =>
      var isNew := h.Add(k, v);
      answer := IsNew(isNew);
    case Replace(k, v) => h.Replace(k, v);
    case Set(k, v) => h.Set(k, v);
    case Remove(k) =>
      var count := h.Remove(k);
      answer := Count(count);
    case RemoveAll => h.RemoveAll();
    case SetCapacity(n) => h.SetCapacity(n);
    case CountOfKey(k) =>
      var count := h.GetCountOfKey(k);
      answer := Count(count);
    case Lookup(k) =>
      var bkt := h.Lookup(k);
      answer := if bkt.count > 0 then Found(Entry(bkt.weakKey, bkt.weakValue, bkt.count)) else NotFound;
  }

  lemma CountOfIn(c: Config, m: Model, op: Op)
    ensures op.Lookup? && CountOf(c, m, op.key) > 0 ==> c.keyClass(op.key) in m
  {
  }

  // The answers are those of a plain map.
  ghost predicate Answered(c: Config, ops: seq<Op>, answers: seq<Reply>, n: nat) {
    n <= |ops| && |answers| == n && forall i :: 0 <= i < n ==> answers[i] == Answer(c, AfterAll(c, ops[..i]), ops[i])
  }

  lemma AnsweredSnoc(c: Config, ops: seq<Op>, answers: seq<Reply>, n: nat, answer: Reply)
    requires n < |ops| && Answered(c, ops, answers, n) && answer == Answer(c, AfterAll(c, ops[..n]), ops[n])
    ensures Answered(c, ops, answers + [answer], n + 1)
  {
    hide Answer, AfterAll;
  }

  method PerformNext(h: BasicHash, ops: seq<Op>, i: nat, ghost answers: seq<Reply>) returns (answer: Reply)
    requires i < |ops| <= MaxItems(h.c) && forall j :: 0 <= j < |ops| ==> Asked(h.c, ops[j])
    requires h.Valid() && h.model == AfterAll(h.c, ops[..i]) && Answered(h.c, ops, answers, i)
    modifies h, h.values, h.keys, h.counts
    ensures h.Valid() && fresh(h.Repr() - old(h.Repr())) && h.model == AfterAll(h.c, ops[..i + 1])
    ensures Answered(h.c, ops, answers + [answer], i + 1)
  {
    hide h.Valid, Answer, Answered, After, AfterAll, Proper, Asked;
    AfterSnoc(h.c, ops, i);
    RunProper(h.c, ops[..i]);
    answer := Perform(h, ops[i]);
    AnsweredSnoc(h.c, ops, answers, i, answer);
  }

  // A new table, run through any operations, answers each as a plain map would, whatever
  // rehashing, growing and shrinking comes between; and all that it has retained is what it holds.
  method Run(c: Config, ops: seq<Op>) returns (h: BasicHash, answers: seq<Reply>)
    requires |ops| <= MaxItems(c) && forall i :: 0 <= i < |ops| ==> Asked(c, ops[i])
    ensures fresh(h) && h.Valid() && h.c == c && h.model == AfterAll(c, ops)
    ensures Answered(c, ops, answers, |ops|)
  {
    hide h.Valid, Answer, Answered, After, AfterAll, Proper, Asked;
    AfterNone(c, ops);
    h := new BasicHash(c);
    answers := [];
    for i := 0 to |ops|
      invariant h.Valid() && h.c == c && fresh(h) && fresh(h.Repr()) && h.model == AfterAll(c, ops[..i])
      invariant Answered(c, ops, answers, i)
    {
      var answer := PerformNext(h, ops, i, answers);
      answers := answers + [answer];
    }
    assert ops[..|ops|] == ops;
  }
}
