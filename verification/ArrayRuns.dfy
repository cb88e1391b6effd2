// Runs of operations on one array: what it holds, what it answers, and what is retained at the end.
module ArrayRuns {
  import opened ArrayEvents
  import opened ArrayDeque

  datatype Op =
    | Replace(location: nat, length: nat, newValues: seq<Item>)
    | Append(value: Item)
    | RemoveAt(idx: nat)
    | SetAt(idx: nat, value: Item)
    | Exchange(idx1: nat, idx2: nat)
    | RemoveAll
    | Get(idx: nat)

  datatype Reply = Done | Found(item: Item)

  // What callers may ask of an array that holds s.
  predicate Asked(s: seq<Item>, op: Op) {
    match op
    case Replace(location, length, newValues) =>
      location + length <= |s| && |s| - length + |newValues| <= MAX_COUNT
    case Append(_) => |s| < MAX_COUNT
    case RemoveAt(idx) => idx < |s|
    case SetAt(idx, _) => idx <= |s| && (idx == |s| ==> |s| < MAX_COUNT)
    case Exchange(idx1, idx2) => idx1 < |s| && idx2 < |s|
    case RemoveAll => true
    case Get(idx) => idx < |s|
  }

  // The operations on a plain sequence.
  function After(s: seq<Item>, op: Op): seq<Item>
    requires Asked(s, op)
  {
    match op
    case Replace(location, length, newValues) => s[..location] + newValues + s[location + length..]
    case Append(value) => s + [value]
    case RemoveAt(idx) => s[..idx] + s[idx + 1..]
    case SetAt(idx, value) => if idx < |s| then s[idx := value] else s + [value]
    case Exchange(idx1, idx2) => s[idx1 := s[idx2]][idx2 := s[idx1]]
    case RemoveAll => []
    case Get(_) => s
  }

  function Answer(s: seq<Item>, op: Op): Reply
    requires Asked(s, op)
  {
    match op
    case Get(idx) => Found(s[idx])
    case _ => Done
  }

  predicate AskedAll(s: seq<Item>, ops: seq<Op>)
    decreases |ops|
  {
    ops == [] || (Asked(s, ops[0]) && AskedAll(After(s, ops[0]), ops[1..]))
  }

  function AfterAll(s: seq<Item>, ops: seq<Op>): seq<Item>
    requires AskedAll(s, ops)
    decreases |ops|
  {
    if ops == [] then s else AfterAll(After(s, ops[0]), ops[1..])
  }

  function Answers(s: seq<Item>, ops: seq<Op>): seq<Reply>
    requires AskedAll(s, ops)
    decreases |ops|
  {
    if ops == [] then [] else [Answer(s, ops[0])] + Answers(After(s, ops[0]), ops[1..])
  }

  lemma RunStep(s: seq<Item>, ops: seq<Op>, i: nat)
    requires i < |ops| && AskedAll(s, ops[i..])
    ensures Asked(s, ops[i]) && AskedAll(After(s, ops[i]), ops[i + 1..])
    ensures AfterAll(s, ops[i..]) == AfterAll(After(s, ops[i]), ops[i + 1..])
    ensures Answers(s, ops[i..]) == [Answer(s, ops[i])] + Answers(After(s, ops[i]), ops[i + 1..])
  {
    hide Asked, After;
    assert ops[i..][1..] == ops[i + 1..];
  }

  method Perform(a: MutableArray, op: Op) returns (answer: Reply)
    requires a.Valid() && a.Balanced() && Asked(a.Contents(), op)
    modifies a, a.store
    ensures a.Valid() && a.Balanced() && (a.store == null || a.store == old(a.store) || fresh(a.store))
    ensures a.Contents() == After(old(a.Contents()), op) && answer == Answer(old(a.Contents()), op)
  {
    hide a.Contents, a.Balanced;
    answer := Done;
    match op
    case Replace(location, length, newValues) => a.Replace(location, length, newValues);
    case Append(value) => a.Append(value);
    case RemoveAt(idx) => a.RemoveAt(idx);
    case SetAt(idx, value) => a.SetValueAtIndex(idx, value);
    case Exchange(idx1, idx2) => a.ExchangeValuesAtIndices(idx1, idx2);
    case RemoveAll => a.RemoveAllValues();
    case Get(idx) =>
      var item := a.GetValueAtIndex(idx);
      answer := Found(item);
  }

  lemma Earlier(es: seq<Event>)
    requires es != [] && NeverOver(es)
    ensures var n := |es| - 1;
      NeverOver(es[..n]) && (es[n].Released? ==> es[n].item in Held(es[..n]))
  {
    hide Held;
    var n := |es| - 1;
    forall i | 0 <= i < n && es[..n][i].Released? ensures es[..n][i].item in Held(es[..n][..i]) {
      assert es[..n][..i] == es[..i];
    }
  }

  lemma BagOfEvents(es: seq<Event>)
    requires es != []
    ensures multiset(es) == multiset(es[..|es| - 1]) + multiset{es[|es| - 1]}
  {
    assert es == es[..|es| - 1] + [es[|es| - 1]];
  }

  // In any order that never releases what is not held, an item is held as often as it has been
  // retained and not released.
  lemma {:induction false} HeldCounts(es: seq<Event>, x: Item)
    requires NeverOver(es)
    ensures multiset(es)[Retained(x)] == Held(es)[x] + multiset(es)[Released(x)]
    decreases |es|
  {
    hide NeverOver;
    if es != [] {
      Earlier(es);
      BagOfEvents(es);
      HeldCounts(es[..|es| - 1], x);
    }
  }

  // A new array, run through any operations, holds and answers what a plain sequence would, however
  // the items have been moved in their store; and every item has been retained as often as it has
  // been released and occurs in the array.
  method Run(retains: bool, releases: bool, ops: seq<Op>) returns (a: MutableArray, answers: seq<Reply>)
    requires AskedAll([], ops)
    ensures fresh(a) && a.Valid() && a.retains == retains && a.releases == releases
    ensures a.Contents() == AfterAll([], ops) && answers == Answers([], ops)
    ensures retains && releases ==> NeverOver(a.events) && Held(a.events) == multiset(AfterAll([], ops))
    ensures retains && releases ==> forall x ::
      multiset(a.events)[Retained(x)] == multiset(AfterAll([], ops))[x] + multiset(a.events)[Released(x)]
  {
    hide Asked, AskedAll, After, AfterAll, Answers, Answer, NeverOver, Held;
    a := new MutableArray(retains, releases);
    answers := [];
    assert ops[0..] == ops;
    for i := 0 to |ops|
      invariant fresh(a) && (a.store == null || fresh(a.store)) && a.Valid() && a.Balanced()
      invariant a.retains == retains && a.releases == releases
      invariant AskedAll(a.Contents(), ops[i..]) && AfterAll(a.Contents(), ops[i..]) == AfterAll([], ops)
      invariant answers + Answers(a.Contents(), ops[i..]) == Answers([], ops)
    {
      RunStep(a.Contents(), ops, i);
      var answer := Perform(a, ops[i]);
      answers := answers + [answer];
    }
    RunEnds(a.Contents(), ops, answers);
    if retains && releases {
      forall x ensures multiset(a.events)[Retained(x)] == Held(a.events)[x] + multiset(a.events)[Released(x)] {
        HeldCounts(a.events, x);
      }
    }
  }

  lemma RunEnds(s: seq<Item>, ops: seq<Op>, answers: seq<Reply>)
    requires AskedAll(s, ops[|ops|..])
    ensures AfterAll(s, ops[|ops|..]) == s && answers + Answers(s, ops[|ops|..]) == answers
  {
  }
}
