// What the flattening pass guarantees about the object list and the object table.
module PlistFlatten {
  import opened PlistObjects
  import opened PlistFormat

  // Numbers and list positions agree.
  ghost predicate Consistent(s: Flat) {
    && (forall o :: o in s.table ==> s.table[o] < |s.list| && s.list[s.table[o]] == o)
    && (forall i :: 0 <= i < |s.list| ==> s.list[i] in s.table)
    && (forall o :: o in s.uniquing ==> o in s.table)
  }

  // Nothing already listed or numbered changes.
  ghost predicate Extends(s: Flat, s': Flat) {
    && |s.list| <= |s'.list|
    && (forall i :: 0 <= i < |s.list| ==> s'.list[i] == s.list[i])
    && (forall o :: o in s.table ==> o in s'.table && s'.table[o] == s.table[o])
  }

  ghost predicate HasChildren(o: Obj, k: nat, s: Flat)
    requires k <= |Children(o)|
  {
    forall j :: 0 <= j < k ==> Children(o)[j] in s.table
  }

  // From position `from` on, everything that a listed object contains is numbered.
  ghost predicate ClosedFrom(s: Flat, from: nat) {
    forall i :: from <= i < |s.list| ==> HasChildren(s.list[i], |Children(s.list[i])|, s)
  }

  lemma HasChildrenExtends(o: Obj, k: nat, s: Flat, s': Flat)
    requires k <= |Children(o)| && HasChildren(o, k, s) && Extends(s, s')
    ensures HasChildren(o, k, s')
  {
  }

  lemma EnlistLaws(o: Obj, s: Flat)
    requires Consistent(s)
    ensures Consistent(Enlist(o, s)) && Extends(s, Enlist(o, s)) && o in Enlist(o, s).table
  {
  }

  lemma ExtendsTransitive(a: Flat, b: Flat, c: Flat)
    requires Extends(a, b) && Extends(b, c)
    ensures Extends(a, c)
  {
  }

  lemma ClosedExtends(s: Flat, s': Flat, from: nat)
    requires ClosedFrom(s, from) && Extends(s, s') && ClosedFrom(s', |s.list|)
    ensures ClosedFrom(s', from)
  {
    forall i | from <= i < |s'.list|
      ensures HasChildren(s'.list[i], |Children(s'.list[i])|, s')
    {
      if i < |s.list| {
        HasChildrenExtends(s.list[i], |Children(s.list[i])|, s, s');
      }
    }
  }

  lemma {:induction false} FlattenLaws(o: Obj, s: Flat)
    requires Consistent(s)
    ensures var s' := Flatten(o, s);
      Consistent(s') && Extends(s, s') && o in s'.table && ClosedFrom(s', |s.list|)
    decreases o, 0
  {
    if Uniqued(o) && o in s.uniquing {
    } else {
      var s1 := Enlist(o, s);
      EnlistLaws(o, s);
      FlattenChildrenLaws(o, |Children(o)|, s1);
      var s' := Flatten(o, s);
      assert s'.list[|s.list|] == o;
      forall i | |s.list| <= i < |s'.list|
        ensures HasChildren(s'.list[i], |Children(s'.list[i])|, s')
      {
        if i > |s.list| {
          assert |s1.list| <= i;
        }
      }
    }
  }

  lemma {:induction false} FlattenChildrenLaws(o: Obj, k: nat, s: Flat)
    requires Consistent(s) && k <= |Children(o)|
    ensures var s' := FlattenChildren(o, k, s);
      Consistent(s') && Extends(s, s') && HasChildren(o, k, s') && ClosedFrom(s', |s.list|)
    decreases o, 0, k
  {
    hide Consistent, Extends, ClosedFrom, HasChildren, Flatten, Children;
    if k == 0 {
      NothingDone(o, s);
    } else {
      FlattenChildrenLaws(o, k - 1, s);
      var s1 := FlattenChildren(o, k - 1, s);
      FlattenLaws(Children(o)[k - 1], s1);
      var s' := FlattenChildren(o, k, s);
      ExtendsTransitive(s, s1, s');
      HasChildrenExtends(o, k - 1, s1, s');
      OneMoreChild(o, k, s');
      ClosedExtends(s1, s', |s.list|);
    }
  }

  lemma NothingDone(o: Obj, s: Flat)
    ensures Extends(s, s) && HasChildren(o, 0, s) && ClosedFrom(s, |s.list|)
  {
  }

  lemma OneMoreChild(o: Obj, k: nat, s: Flat)
    requires 0 < k <= |Children(o)| && HasChildren(o, k - 1, s) && Children(o)[k - 1] in s.table
    ensures HasChildren(o, k, s)
  {
  }

  ghost predicate ListAll(s: Flat, p: Obj -> bool) {
    forall i :: 0 <= i < |s.list| ==> All(s.list[i], p)
  }

  // Only what the root contains is listed.
  lemma {:induction false} FlattenKeeps(o: Obj, s: Flat, p: Obj -> bool)
    requires ListAll(s, p) && All(o, p)
    ensures ListAll(Flatten(o, s), p)
    decreases o, 0
  {
    if Uniqued(o) && o in s.uniquing {
    } else {
      FlattenChildrenKeeps(o, |Children(o)|, Enlist(o, s), p);
    }
  }

  lemma {:induction false} FlattenChildrenKeeps(o: Obj, k: nat, s: Flat, p: Obj -> bool)
    requires ListAll(s, p) && All(o, p) && k <= |Children(o)|
    ensures ListAll(FlattenChildren(o, k, s), p)
    decreases o, 0, k
  {
    if k > 0 {
      FlattenChildrenKeeps(o, k - 1, s, p);
      FlattenKeeps(Children(o)[k - 1], FlattenChildren(o, k - 1, s), p);
    }
  }

  // The whole pass: the root is object 0, every listed object is numbered with a position it
  // is at, and so is everything it contains.
  lemma FlattenRoot(o: Obj)
    ensures var s := Flatten(o, EMPTY_FLAT);
      Consistent(s) && ClosedFrom(s, 0) && |s.list| >= 1 && o in s.table && s.table[o] == 0
  {
    FlattenLaws(o, EMPTY_FLAT);
    var s1 := Enlist(o, EMPTY_FLAT);
    assert Consistent(s1);
    FlattenChildrenLaws(o, |Children(o)|, s1);
    assert o in s1.table;
  }

  // A property of everything reachable is a property of everything listed.
  lemma ListedIffReachable(o: Obj, p: Obj -> bool)
    ensures All(o, p) <==> forall x :: x in Flatten(o, EMPTY_FLAT).list ==> p(x)
  {
    var s := Flatten(o, EMPTY_FLAT);
    if All(o, p) {
      FlattenKeeps(o, EMPTY_FLAT, p);
    }
    if forall x :: x in s.list ==> p(x) {
      FlattenRoot(o);
      ReachableFromListed(o, s, p);
    }
  }

  lemma {:induction false} ReachableFromListed(o: Obj, s: Flat, p: Obj -> bool)
    requires Consistent(s) && ClosedFrom(s, 0) && o in s.table
    requires forall x :: x in s.list ==> p(x)
    ensures All(o, p)
    decreases o
  {
    assert s.list[s.table[o]] == o;
    forall j | 0 <= j < |Children(o)| ensures All(Children(o)[j], p) {
      ReachableFromListed(Children(o)[j], s, p);
    }
  }

  // ---------- how often an object is listed ----------

  // Strings, numbers, dates and data.
  predicate Shared(o: Obj) {
    match o
    case OString(_, _) => true
    case OInt(_, _) => true
    case OInt128(_, _) => true
    case OReal32(_, _) => true
    case OReal64(_, _) => true
    case ODate(_, _) => true
    case OData(_, _) => true
    case OBool(_) => false
    case OUid(_, _) => false
    case OArray(_, _) => false
    case ODict(_, _) => false
    case OOther(_) => false
  }

  // How often x is met in a graph, going down from o.
  function Occurs(o: Obj, x: Obj): nat
    decreases o, 0
  {
    (if o == x then 1 else 0) + OccursBelow(o, |Children(o)|, x)
  }

  function OccursBelow(o: Obj, k: nat, x: Obj): nat
    requires k <= |Children(o)|
    decreases o, 0, k
  {
    if k == 0 then 0 else OccursBelow(o, k - 1, x) + Occurs(Children(o)[k - 1], x)
  }

  function Capped(n: nat, once: bool): nat {
    if once && n > 1 then 1 else n
  }

  ghost predicate UniquedSoFar(s: Flat) {
    forall x :: x in s.uniquing <==> Shared(x) && x in s.list
  }

  // Of two stretches met one after the other.
  lemma CappedSum(a: nat, b: nat, c: nat, once: bool)
    ensures Capped(Capped(a + b, once) + c, once) == Capped(a + (b + c), once)
  {
  }

  lemma EnlistCounts(o: Obj, s: Flat, x: Obj)
    requires UniquedSoFar(s) && !(Shared(o) && o in s.list)
    ensures UniquedSoFar(Enlist(o, s))
    ensures multiset(Enlist(o, s).list)[x] == multiset(s.list)[x] + if o == x then 1 else 0
  {
  }

  lemma {:induction false} FlattenCounts(o: Obj, s: Flat, x: Obj)
    requires UniquedSoFar(s) && multiset(s.list)[x] == Capped(multiset(s.list)[x], Shared(x))
    ensures UniquedSoFar(Flatten(o, s))
    ensures multiset(Flatten(o, s).list)[x] == Capped(multiset(s.list)[x] + Occurs(o, x), Shared(x))
    decreases o, 1
  {
    hide UniquedSoFar, Shared, Uniqued, Enlist, FlattenChildren, OccursBelow, Children, Capped;
    UniquedIs(o, s);
    var before := multiset(s.list)[x];
    if Uniqued(o) && o in s.uniquing {
      NoChildren(o, x);
      CappedAgain(before, o == x, Shared(x));
    } else {
      EnlistCounts(o, s, x);
      CappedOnce(before, o == x, Shared(x));
      FlattenChildrenCounts(o, |Children(o)|, Enlist(o, s), x);
      CappedSum(before, if o == x then 1 else 0, OccursBelow(o, |Children(o)|, x), Shared(x));
    }
  }

  lemma CappedAgain(n: nat, again: bool, once: bool)
    ensures n == Capped(n, once) && (again ==> once && n >= 1) ==>
      n == Capped(n + if again then 1 else 0, once)
  {
  }

  lemma CappedOnce(n: nat, more: bool, once: bool)
    ensures n == Capped(n, once) && (more && once ==> n == 0) ==>
      var now := n + if more then 1 else 0;
      now == Capped(now, once)
  {
  }

  lemma UniquedIs(o: Obj, s: Flat)
    requires UniquedSoFar(s)
    ensures Uniqued(o) <==> Shared(o)
    ensures Shared(o) ==> (o in s.uniquing <==> o in s.list)
    ensures o in s.list <==> multiset(s.list)[o] >= 1
  {
    if o in s.list {
      assert o in multiset(s.list);
    }
  }

  lemma NoChildren(o: Obj, x: Obj)
    requires Shared(o)
    ensures Occurs(o, x) == if o == x then 1 else 0
  {
  }

  lemma {:induction false} FlattenChildrenCounts(o: Obj, k: nat, s: Flat, x: Obj)
    requires UniquedSoFar(s) && k <= |Children(o)|
    requires multiset(s.list)[x] == Capped(multiset(s.list)[x], Shared(x))
    ensures UniquedSoFar(FlattenChildren(o, k, s))
    ensures multiset(FlattenChildren(o, k, s).list)[x]
         == Capped(multiset(s.list)[x] + OccursBelow(o, k, x), Shared(x))
    decreases o, 0, k
  {
    hide UniquedSoFar, Flatten, Occurs, Children, Shared;
    if k > 0 {
      FlattenChildrenCounts(o, k - 1, s, x);
      FlattenCounts(Children(o)[k - 1], FlattenChildren(o, k - 1, s), x);
      CappedSum(multiset(s.list)[x], OccursBelow(o, k - 1, x), Occurs(Children(o)[k - 1], x), Shared(x));
    }
  }

  // A string, number, date or piece of data is listed once, however often it is met; every other
  // object once for each time that it is met.
  lemma ListedAsOften(o: Obj, x: Obj)
    ensures multiset(Flatten(o, EMPTY_FLAT).list)[x] == Capped(Occurs(o, x), Shared(x))
  {
    FlattenCounts(o, EMPTY_FLAT, x);
  }

  lemma NotTwice(o: Obj, i: nat, j: nat)
    requires i < j < |Flatten(o, EMPTY_FLAT).list|
    requires Flatten(o, EMPTY_FLAT).list[i] == Flatten(o, EMPTY_FLAT).list[j]
    ensures !Shared(Flatten(o, EMPTY_FLAT).list[i])
  {
    hide Flatten, Shared;
    var list := Flatten(o, EMPTY_FLAT).list;
    ListedAsOften(o, list[i]);
    assert list == list[..j] + list[j..];
    assert list[..j][i] in multiset(list[..j]) && list[j..][0] in multiset(list[j..]);
    assert multiset(list) == multiset(list[..j]) + multiset(list[j..]);
  }
}
