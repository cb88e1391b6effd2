// What an array's callbacks have been called for, in order.
module ArrayEvents {

  // A pointer; 0 is NULL.
  type Item = int

  // Two items of a list change places.
  function Swapped(s: seq<Item>, i: nat, j: nat): seq<Item>
    requires i < |s| && j < |s|
  {
    s[i := s[j]][j := s[i]]
  }

  lemma SwappedBag(s: seq<Item>, i: nat, j: nat)
    requires i < |s| && j < |s|
    ensures multiset(Swapped(s, i, j)) == multiset(s) && Swapped(s, i, j) == s[i := s[j]][j := s[i]]
  {
  }

  datatype Event = Retained(item: Item) | Released(item: Item)

  function Retains(items: seq<Item>): (es: seq<Event>)
    ensures |es| == |items|
  {
    seq(|items|, i requires 0 <= i < |items| => Retained(items[i]))
  }

  function Releases(items: seq<Item>): (es: seq<Event>)
    ensures |es| == |items|
  {
    seq(|items|, i requires 0 <= i < |items| => Released(items[i]))
  }

  function Afterwards(held: multiset<Item>, e: Event): multiset<Item> {
    match e
    case Retained(x) => held + multiset{x}
    case Released(x) => held - multiset{x}
  }

  // What is retained on balance.
  function Held(es: seq<Event>): multiset<Item> {
    if es == [] then multiset{} else Afterwards(Held(es[..|es| - 1]), es[|es| - 1])
  }

  // Nothing is released that is not held at the time.
  ghost predicate NeverOver(es: seq<Event>) {
    forall i :: 0 <= i < |es| && es[i].Released? ==> es[i].item in Held(es[..i])
  }

  lemma HeldSnoc(es: seq<Event>, e: Event)
    ensures Held(es + [e]) == Afterwards(Held(es), e)
  {
    assert (es + [e])[..|es|] == es;
  }

  lemma NeverOverSnoc(es: seq<Event>, e: Event)
    requires NeverOver(es) && (e.Released? ==> e.item in Held(es))
    ensures NeverOver(es + [e])
  {
    forall i | 0 <= i < |es + [e]| && (es + [e])[i].Released? ensures (es + [e])[i].item in Held((es + [e])[..i]) {
      assert (es + [e])[..i] == es[..i];
      if i == |es| {
        assert es[..i] == es;
      }
    }
  }

  lemma EventsSnoc(es: seq<Event>, items: seq<Item>)
    requires items != []
    ensures var n := |items| - 1;
      && items == items[..n] + [items[n]] && multiset(items) == multiset(items[..n]) + multiset{items[n]}
      && es + Retains(items) == (es + Retains(items[..n])) + [Retained(items[n])]
      && es + Releases(items) == (es + Releases(items[..n])) + [Released(items[n])]
  {
    var n := |items| - 1;
    assert items == items[..n] + [items[n]];
    assert Retains(items) == Retains(items[..n]) + [Retained(items[n])];
    assert Releases(items) == Releases(items[..n]) + [Released(items[n])];
  }

  lemma NoEvents(es: seq<Event>)
    ensures es + Retains([]) == es && es + Releases([]) == es
  {
  }

  lemma {:induction false} HeldRetains(es: seq<Event>, items: seq<Item>)
    requires NeverOver(es)
    ensures Held(es + Retains(items)) == Held(es) + multiset(items) && NeverOver(es + Retains(items))
    decreases |items|
  {
    hide Held, NeverOver, Retains, Releases;
    NoEvents(es);
    if items != [] {
      var items', x := items[..|items| - 1], items[|items| - 1];
      HeldRetains(es, items');
      EventsSnoc(es, items);
      HeldSnoc(es + Retains(items'), Retained(x));
      NeverOverSnoc(es + Retains(items'), Retained(x));
    }
  }

  lemma TakeOne(held: multiset<Item>, taken: multiset<Item>, x: Item)
    requires taken + multiset{x} <= held
    ensures x in held - taken && held - taken - multiset{x} == held - (taken + multiset{x}) && taken <= held
  {
    assert (taken + multiset{x})[x] == taken[x] + 1;
    assert (held - taken)[x] >= 1;
  }

  lemma {:induction false} HeldReleases(es: seq<Event>, items: seq<Item>)
    requires NeverOver(es) && multiset(items) <= Held(es)
    ensures Held(es + Releases(items)) == Held(es) - multiset(items) && NeverOver(es + Releases(items))
    decreases |items|
  {
    hide Held, NeverOver, Retains, Releases;
    NoEvents(es);
    if items != [] {
      var items', x := items[..|items| - 1], items[|items| - 1];
      EventsSnoc(es, items);
      TakeOne(Held(es), multiset(items'), x);
      HeldReleases(es, items');
      HeldSnoc(es + Releases(items'), Released(x));
      NeverOverSnoc(es + Releases(items'), Released(x));
    }
  }

  lemma EventsPrefix(es: seq<Event>, added: seq<Item>, dropped: seq<Item>, k: nat)
    requires k <= |added| + |dropped|
    ensures (es + Retains(added) + Releases(dropped))[..|es| + k]
         == if k <= |added| then es + Retains(added[..k]) else es + Retains(added) + Releases(dropped[..k - |added|])
  {
    if k <= |added| {
      assert Retains(added)[..k] == Retains(added[..k]);
    } else {
      assert Releases(dropped)[..k - |added|] == Releases(dropped[..k - |added|]);
    }
  }

  lemma PrefixBag(items: seq<Item>, j: nat)
    requires j <= |items|
    ensures multiset(items[..j]) <= multiset(items)
  {
    assert items == items[..j] + items[j..];
    assert multiset(items) == multiset(items[..j]) + multiset(items[j..]);
  }

  // Replacing retains all the new items before it releases any old one: at every moment in
  // between, either everything held before or everything held afterwards is held, so that what is
  // kept never reaches a balance of zero.
  lemma KeptThroughout(es: seq<Event>, added: seq<Item>, dropped: seq<Item>, k: nat)
    requires NeverOver(es) && multiset(dropped) <= Held(es)
    requires k <= |added| + |dropped|
    ensures var now := Held((es + Retains(added) + Releases(dropped))[..|es| + k]);
      Held(es) <= now || Held(es) + multiset(added) - multiset(dropped) <= now
  {
    hide Held, NeverOver, Retains, Releases;
    EventsPrefix(es, added, dropped, k);
    if k <= |added| {
      HeldRetains(es, added[..k]);
    } else {
      var j := k - |added|;
      HeldRetains(es, added);
      PrefixBag(dropped, j);
      HeldReleases(es + Retains(added), dropped[..j]);
    }
  }
}
