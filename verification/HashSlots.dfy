// The slots of an open-addressing hash table: what they hold, the invariant that keeps every
// key reachable by probing, and what each change of one slot does to it.
module HashSlots {

  type Word = x: int | 0 <= x <= WORD_MAX
  const WORD_MAX: int := 0xFFFF_FFFF_FFFF_FFFF

  // The raw contents of dead slots, and what stands for these words as data.
  const EMPTY: Word := 0
  const DELETED: Word := WORD_MAX
  const SUB_ZERO: Word := 0xa7baadb1
  const SUB_ONE: Word := 0xa5baadb9

  /** How a table is used.  Keys are equal when they have the same class, and the hash is of the
      class: any equality test that is an equivalence and agrees with the hash has this form. */
  datatype Config = Config(hasKeys: bool, hasCounts: bool, fastGrow: bool, retainsValues: bool,
                           keyClass: Word -> Word, valueClass: Word -> Word, hash: Word -> nat)

  datatype Entry = Entry(key: Word, value: Word, count: nat)

  // The contents of a table, by class of key.
  type Model = map<Word, Entry>

  // In a table without keys, the keys are the values.
  datatype Slots = Slots(values: seq<Word>, keys: seq<Word>, counts: seq<nat>)

  function Encode(w: Word): Word {
    if w == 0 then SUB_ZERO else if w == WORD_MAX then SUB_ONE else w
  }

  function Decode(w: Word): Word {
    if w == SUB_ZERO then 0 else if w == SUB_ONE then WORD_MAX else w
  }

  predicate Live(w: Word) {
    w != EMPTY && w != DELETED
  }

  lemma LiveWord(w: Word)
    ensures Live(w) <==> w != 0 && w != WORD_MAX
  {
  }

  // A word that a table can store; the others make it halt.
  predicate Storable(w: Word) {
    w != SUB_ZERO && w != SUB_ONE
  }

  // 0 and ~0 as data never read back as empty or deleted.
  lemma SentinelsSafe(w: Word)
    requires Storable(w)
    ensures Live(Encode(w)) && Decode(Encode(w)) == w
    ensures Encode(0) == 0xA7BAADB1 && Encode(0xFFFF_FFFF_FFFF_FFFF) == 0xA5BAADB9
  {
  }

  // ---------- probing ----------

  function Home(c: Config, n: nat, k: Word): (h: nat)
    requires n > 0
    ensures h < n
  {
    c.hash(c.keyClass(k)) % n
  }

  // d steps after h, around the end of the table.
  function Step(n: nat, h: nat, d: nat): (i: nat)
    requires h < n && d < n
    ensures i < n
  {
    if h + d < n then h + d else h + d - n
  }

  function Dist(n: nat, h: nat, i: nat): (d: nat)
    requires h < n && i < n
    ensures d < n && Step(n, h, d) == i
    ensures forall e :: 0 <= e < n && Step(n, h, e) == i ==> e == d
  {
    if h <= i then i - h else i - h + n
  }

  // No empty slot among the first d probes from h.
  ghost predicate Clear(keys: seq<Word>, h: nat, d: nat)
    requires h < |keys| && d <= |keys|
  {
    forall e :: 0 <= e < d ==> keys[Step(|keys|, h, e)] != EMPTY
  }

  // ---------- the invariant ----------

  // Values, keys and counts agree on which slots are dead.
  ghost predicate Shape(s: Slots) {
    && |s.keys| == |s.values| == |s.counts|
    && (forall i :: 0 <= i < |s.values| ==>
          && (s.values[i] == EMPTY <==> s.keys[i] == EMPTY)
          && (s.values[i] == DELETED <==> s.keys[i] == DELETED)
          && (Live(s.values[i]) <==> s.counts[i] > 0))
  }

  function EntryAt(s: Slots, i: nat): Entry
    requires i < |s.values| && i < |s.keys| && i < |s.counts|
  {
    Entry(Decode(s.keys[i]), Decode(s.values[i]), s.counts[i])
  }

  function ClassAt(c: Config, s: Slots, i: nat): Word
    requires i < |s.keys|
  {
    c.keyClass(Decode(s.keys[i]))
  }

  // Every live slot is reached by probing for its key before any empty slot.
  ghost predicate Reachable(c: Config, s: Slots)
    requires Shape(s)
  {
    forall i :: 0 <= i < |s.keys| && Live(s.values[i]) ==>
      Clear(s.keys, Home(c, |s.keys|, Decode(s.keys[i])), Dist(|s.keys|, Home(c, |s.keys|, Decode(s.keys[i])), i))
  }

  ghost predicate Holds(c: Config, s: Slots, r: Word, i: nat)
    requires Shape(s)
  {
    i < |s.keys| && Live(s.values[i]) && ClassAt(c, s, i) == r
  }

  // The live slots hold the entries of m, each once.
  ghost predicate Refines(c: Config, s: Slots, m: Model)
    requires Shape(s)
  {
    && (forall i :: 0 <= i < |s.keys| && Live(s.values[i]) ==>
          ClassAt(c, s, i) in m && m[ClassAt(c, s, i)] == EntryAt(s, i))
    && (forall i, j :: 0 <= i < j < |s.keys| && Live(s.values[i]) && Live(s.values[j]) ==>
          ClassAt(c, s, i) != ClassAt(c, s, j))
    && (forall r :: r in m ==> exists i :: Holds(c, s, r, i))
  }

  ghost predicate Inv(c: Config, s: Slots, m: Model) {
    Shape(s) && Reachable(c, s) && Refines(c, s, m)
  }

  // ---------- looking up ----------

  // Slot b is where a key with home h may be added: dead, with no empty slot before it.
  ghost predicate Vacant(s: Slots, h: nat, b: nat)
    requires Shape(s)
  {
    b < |s.keys| && h < |s.keys| && !Live(s.values[b]) && Clear(s.keys, h, Dist(|s.keys|, h, b))
  }

  // The first d probes for k met no slot with an equal key.
  ghost predicate Missed(c: Config, s: Slots, k: Word, d: nat)
    requires Shape(s) && 0 < |s.keys| && d <= |s.keys|
  {
    forall e :: 0 <= e < d ==>
      !Holds(c, s, c.keyClass(k), Step(|s.keys|, Home(c, |s.keys|, k), e))
  }

  // A live slot with an equal key is the one that holds the entry.
  lemma FoundLaw(c: Config, s: Slots, m: Model, k: Word, i: nat)
    requires Inv(c, s, m) && i < |s.keys| && Live(s.keys[i])
    requires c.keyClass(Decode(s.keys[i])) == c.keyClass(k)
    ensures Holds(c, s, c.keyClass(k), i) && s.counts[i] > 0
    ensures c.keyClass(k) in m && m[c.keyClass(k)] == EntryAt(s, i)
  {
  }

  // One more probe that met no equal key.
  lemma MissedStep(c: Config, s: Slots, k: Word, d: nat)
    requires Shape(s) && 0 < |s.keys| && d < |s.keys| && Missed(c, s, k, d)
    requires var w := s.keys[Step(|s.keys|, Home(c, |s.keys|, k), d)];
      !Live(w) || c.keyClass(Decode(w)) != c.keyClass(k)
    ensures Missed(c, s, k, d + 1)
  {
  }

  lemma ClearStep(keys: seq<Word>, h: nat, d: nat)
    requires h < |keys| && d < |keys| && Clear(keys, h, d) && keys[Step(|keys|, h, d)] != EMPTY
    ensures Clear(keys, h, d + 1)
  {
  }

  // A dead slot reached over no empty one may be filled.
  // Of the dead slots the first on the way from h.
  ghost predicate FirstDead(s: Slots, h: nat, b: nat)
    requires Shape(s)
  {
    && b < |s.keys| && h < |s.keys| && !Live(s.values[b])
    && forall e :: 0 <= e < Dist(|s.keys|, h, b) ==> Live(s.keys[Step(|s.keys|, h, e)])
  }

  lemma DeadFirst(s: Slots, h: nat, d: nat)
    requires Shape(s) && h < |s.keys| && d < |s.keys| && !Live(s.keys[Step(|s.keys|, h, d)])
    requires forall e :: 0 <= e < d ==> Live(s.keys[Step(|s.keys|, h, e)])
    ensures FirstDead(s, h, Step(|s.keys|, h, d))
  {
    assert Dist(|s.keys|, h, Step(|s.keys|, h, d)) == d;
  }

  lemma DeadVacant(s: Slots, h: nat, d: nat)
    requires Shape(s) && h < |s.keys| && d < |s.keys| && Clear(s.keys, h, d)
    requires !Live(s.keys[Step(|s.keys|, h, d)])
    ensures Vacant(s, h, Step(|s.keys|, h, d))
  {
    assert Dist(|s.keys|, h, Step(|s.keys|, h, d)) == d;
  }

  // Probing everywhere and finding only live slots leaves none dead.
  lemma AllProbedLive(s: Slots, h: nat)
    requires Shape(s) && h < |s.keys|
    requires forall e :: 0 <= e < |s.keys| ==> Live(s.keys[Step(|s.keys|, h, e)])
    ensures forall i :: 0 <= i < |s.keys| ==> Live(s.values[i])
  {
    forall i | 0 <= i < |s.keys| ensures Live(s.values[i]) {
      assert Step(|s.keys|, h, Dist(|s.keys|, h, i)) == i;
    }
  }

  // An empty slot ends the search: the key is nowhere.
  lemma EmptyMeansAbsent(c: Config, s: Slots, m: Model, k: Word, d: nat)
    requires Inv(c, s, m) && d < |s.keys| && Missed(c, s, k, d)
    requires s.keys[Step(|s.keys|, Home(c, |s.keys|, k), d)] == EMPTY
    ensures c.keyClass(k) !in m
  {
    var n, h := |s.keys|, Home(c, |s.keys|, k);
    forall i | 0 <= i < n ensures !Holds(c, s, c.keyClass(k), i) {
      assert Step(n, h, Dist(n, h, i)) == i;
    }
  }

  // So does having looked everywhere.
  lemma AllProbedMeansAbsent(c: Config, s: Slots, m: Model, k: Word)
    requires Inv(c, s, m) && 0 < |s.keys| && Missed(c, s, k, |s.keys|)
    ensures c.keyClass(k) !in m
  {
    var n, h := |s.keys|, Home(c, |s.keys|, k);
    forall i | 0 <= i < n ensures !Holds(c, s, c.keyClass(k), i) {
      assert Step(n, h, Dist(n, h, i)) == i;
    }
  }

  // ---------- changing one slot ----------

  function Put(s: Slots, b: nat, key: Word, value: Word, count: nat): Slots
    requires b < |s.values| && b < |s.keys| && b < |s.counts|
  {
    Slots(s.values[b := value], s.keys[b := key], s.counts[b := count])
  }

  lemma ClearKept(keys: seq<Word>, b: nat, w: Word, h: nat, d: nat)
    requires b < |keys| && h < |keys| && d <= |keys|
    requires w != EMPTY && Clear(keys, h, d)
    ensures Clear(keys[b := w], h, d)
  {
  }

  lemma ReachableKept(c: Config, s: Slots, b: nat, key: Word, value: Word, count: nat)
    requires Shape(s) && Reachable(c, s) && b < |s.values| && key != EMPTY
    requires Shape(Put(s, b, key, value, count))
    requires Live(value) ==>
      Clear(s.keys, Home(c, |s.keys|, Decode(key)), Dist(|s.keys|, Home(c, |s.keys|, Decode(key)), b))
    ensures Reachable(c, Put(s, b, key, value, count))
  {
    hide Dist, Home;
    var s', n := Put(s, b, key, value, count), |s.keys|;
    forall i | 0 <= i < n && Live(s'.values[i])
      ensures Clear(s'.keys, Home(c, n, Decode(s'.keys[i])), Dist(n, Home(c, n, Decode(s'.keys[i])), i))
    {
      ClearKept(s.keys, b, key, Home(c, n, Decode(s'.keys[i])), Dist(n, Home(c, n, Decode(s'.keys[i])), i));
    }
  }

  // Filling a vacant slot adds an entry.
  lemma AddCountedLaw(c: Config, s: Slots, m: Model, b: nat, k: Word, v: Word, count: nat)
    requires Inv(c, s, m) && Storable(k) && Storable(v) && count > 0
    requires 0 < |s.keys| && Vacant(s, Home(c, |s.keys|, k), b) && c.keyClass(k) !in m
    ensures Inv(c, Put(s, b, Encode(k), Encode(v), count), m[c.keyClass(k) := Entry(k, v, count)])
  {
    hide Clear, Dist, Step, Home, Encode, Decode;
    SentinelsSafe(k);
    SentinelsSafe(v);
    var s', m' := Put(s, b, Encode(k), Encode(v), count), m[c.keyClass(k) := Entry(k, v, count)];
    ReachableKept(c, s, b, Encode(k), Encode(v), count);
    assert Holds(c, s', c.keyClass(k), b);
    forall r | r in m' ensures exists i :: Holds(c, s', r, i) {
      if r != c.keyClass(k) {
        var i :| Holds(c, s, r, i);
        assert Holds(c, s', r, i);
      }
    }
  }

  // Overwriting a live slot, with an equal key, changes that entry only.
  lemma ChangeLaw(c: Config, s: Slots, m: Model, b: nat, k: Word, v: Word, count: nat)
    requires Inv(c, s, m) && Storable(k) && Storable(v) && count > 0
    requires Holds(c, s, c.keyClass(k), b)
    ensures Inv(c, Put(s, b, Encode(k), Encode(v), count), m[c.keyClass(k) := Entry(k, v, count)])
  {
    hide Clear, Dist, Step, Encode, Decode;
    SentinelsSafe(k);
    SentinelsSafe(v);
    var s', m' := Put(s, b, Encode(k), Encode(v), count), m[c.keyClass(k) := Entry(k, v, count)];
    ReachableKept(c, s, b, Encode(k), Encode(v), count);
    assert Holds(c, s', c.keyClass(k), b);
    forall r | r in m' ensures exists i :: Holds(c, s', r, i) {
      if r != c.keyClass(k) {
        var i :| Holds(c, s, r, i);
        assert Holds(c, s', r, i);
      }
    }
  }

  // A tombstone takes the entry away and leaves every other key reachable.
  lemma RemoveLaw(c: Config, s: Slots, m: Model, b: nat, r: Word)
    requires Inv(c, s, m) && Holds(c, s, r, b)
    ensures Inv(c, Put(s, b, DELETED, DELETED, 0), m - {r})
  {
    hide Clear, Dist, Step, Home, Encode, Decode;
    var s' := Put(s, b, DELETED, DELETED, 0);
    ReachableKept(c, s, b, DELETED, DELETED, 0);
    forall q | q in m - {r} ensures exists i :: Holds(c, s', q, i) {
      var i :| Holds(c, s, q, i);
      assert Holds(c, s', q, i);
    }
  }

  // ---------- counting ----------

  function Bag1(w: Word): multiset<Word> {
    if Live(w) then multiset{Decode(w)} else multiset{}
  }

  // The live words of a column, decoded.
  function LiveBag(ws: seq<Word>): (b: multiset<Word>)
    ensures |b| <= |ws|
  {
    if ws == [] then multiset{} else LiveBag(ws[..|ws| - 1]) + Bag1(ws[|ws| - 1])
  }

  function DeletedCount(ws: seq<Word>): (d: nat)
    ensures |LiveBag(ws)| + d <= |ws|
  {
    if ws == [] then 0
    else DeletedCount(ws[..|ws| - 1]) + (if ws[|ws| - 1] == DELETED then 1 else 0)
  }

  lemma {:induction false} BagUpdate(ws: seq<Word>, b: nat, w: Word)
    requires b < |ws|
    ensures LiveBag(ws[b := w]) + Bag1(ws[b]) == LiveBag(ws) + Bag1(w)
    decreases |ws|
  {
    hide Bag1;
    var n := |ws| - 1;
    if b < n {
      BagUpdate(ws[..n], b, w);
      assert ws[b := w][..n] == ws[..n][b := w];
      BagSwap(LiveBag(ws[..n][b := w]), Bag1(ws[b]), LiveBag(ws[..n]), Bag1(w), Bag1(ws[n]));
    } else {
      assert ws[b := w][..n] == ws[..n];
    }
  }

  lemma BagSwap(a': multiset<Word>, x: multiset<Word>, a: multiset<Word>, y: multiset<Word>, l: multiset<Word>)
    requires a' + x == a + y
    ensures a' + l + x == a + l + y
  {
    assert a' + l + x == (a' + x) + l;
    assert a + l + y == (a + y) + l;
  }

  lemma {:induction false} DeletedUpdate(ws: seq<Word>, b: nat, w: Word)
    requires b < |ws|
    ensures DeletedCount(ws[b := w]) + (if ws[b] == DELETED then 1 else 0)
         == DeletedCount(ws) + (if w == DELETED then 1 else 0)
    decreases |ws|
  {
    hide LiveBag;
    var n := |ws| - 1;
    if b < n {
      DeletedUpdate(ws[..n], b, w);
      assert ws[b := w][..n] == ws[..n][b := w];
    } else {
      assert ws[b := w][..n] == ws[..n];
    }
  }

  lemma {:induction false} AllLive(ws: seq<Word>)
    requires forall i :: 0 <= i < |ws| ==> Live(ws[i])
    ensures |LiveBag(ws)| == |ws|
    decreases |ws|
  {
    if ws != [] {
      AllLive(ws[..|ws| - 1]);
    }
  }

  lemma {:induction false} AllEmpty(ws: seq<Word>)
    requires forall i :: 0 <= i < |ws| ==> ws[i] == EMPTY
    ensures LiveBag(ws) == multiset{} && DeletedCount(ws) == 0
    decreases |ws|
  {
    if ws != [] {
      AllEmpty(ws[..|ws| - 1]);
    }
  }

  lemma {:induction false} BagPrefix(ws: seq<Word>, i: nat)
    requires i <= |ws|
    ensures |LiveBag(ws[..i])| <= |LiveBag(ws)|
    decreases |ws|
  {
    if i < |ws| {
      BagPrefix(ws[..|ws| - 1], i);
      assert ws[..|ws| - 1][..i] == ws[..i];
    } else {
      assert ws[..i] == ws;
    }
  }

  lemma BagSnoc(ws: seq<Word>, i: nat)
    requires i < |ws|
    ensures LiveBag(ws[..i + 1]) == LiveBag(ws[..i]) + Bag1(ws[i])
    ensures Live(ws[i]) ==> |LiveBag(ws[..i])| < |LiveBag(ws)|
  {
    assert ws[..i + 1][..i] == ws[..i];
    BagPrefix(ws, i + 1);
  }

  // ---------- moving to another table ----------

  // Whether one of the first k slots holds class r.
  ghost predicate HeldBefore(c: Config, s: Slots, r: Word, k: nat)
    requires Shape(s)
  {
    exists i: nat :: i < k && Holds(c, s, r, i)
  }

  // The part of a model that the first k slots hold.
  ghost function Partial(c: Config, s: Slots, m: Model, k: nat): Model
    requires Shape(s)
  {
    map r | r in m && HeldBefore(c, s, r, k) :: m[r]
  }

  lemma PartialEnds(c: Config, s: Slots, m: Model)
    requires Inv(c, s, m)
    ensures Partial(c, s, m, 0) == map[] && Partial(c, s, m, |s.keys|) == m
  {
    hide Reachable;
    forall r | r in m ensures HeldBefore(c, s, r, |s.keys|) {
      var i: nat :| Holds(c, s, r, i);
    }
  }

  lemma HeldStep(c: Config, s: Slots, r: Word, k: nat)
    requires Shape(s)
    ensures HeldBefore(c, s, r, k + 1) <==> HeldBefore(c, s, r, k) || Holds(c, s, r, k)
  {
    hide Holds;
    if HeldBefore(c, s, r, k) {
      var i: nat :| i < k && Holds(c, s, r, i);
      assert i < k + 1;
    }
  }

  // No other slot has the class of a live one.
  lemma HeldOnce(c: Config, s: Slots, m: Model, k: nat)
    requires Inv(c, s, m) && k < |s.keys| && Live(s.values[k])
    ensures Holds(c, s, ClassAt(c, s, k), k) && !HeldBefore(c, s, ClassAt(c, s, k), k)
    ensures ClassAt(c, s, k) in m && m[ClassAt(c, s, k)] == EntryAt(s, k)
  {
    hide Reachable;
  }

  lemma PartialStep(c: Config, s: Slots, m: Model, k: nat)
    requires Inv(c, s, m) && k < |s.keys|
    ensures Live(s.values[k]) ==>
      && ClassAt(c, s, k) !in Partial(c, s, m, k)
      && Partial(c, s, m, k + 1) == Partial(c, s, m, k)[ClassAt(c, s, k) := EntryAt(s, k)]
    ensures !Live(s.values[k]) ==> Partial(c, s, m, k + 1) == Partial(c, s, m, k)
  {
    forall r | r in m
      ensures r in Partial(c, s, m, k + 1) <==> r in Partial(c, s, m, k) || Holds(c, s, r, k)
    {
      HeldStep(c, s, r, k);
    }
    if Live(s.values[k]) {
      HeldOnce(c, s, m, k);
    }
    hide Reachable, Refines, HeldBefore;
  }

  lemma EmptySlots(c: Config, s: Slots)
    requires |s.keys| == |s.values| == |s.counts|
    requires forall i :: 0 <= i < |s.keys| ==> s.keys[i] == EMPTY && s.values[i] == EMPTY && s.counts[i] == 0
    ensures Inv(c, s, map[])
  {
  }

  // What a live slot holds can be stored again.
  lemma DecodeStorable(w: Word)
    requires Live(w)
    ensures Storable(Decode(w)) && Encode(Decode(w)) == w
  {
  }
}
