// The invariant of a whole table, apart from where its slots are stored, and what adding,
// replacing, counting and removing do to it.
module HashLaws {
  import opened HashSlots

  // Some slot is dead when fewer are live than there are.
  lemma DeadSlot(ws: seq<Word>)
    requires |LiveBag(ws)| < |ws|
    ensures exists i :: 0 <= i < |ws| && !Live(ws[i])
  {
    if forall i :: 0 <= i < |ws| ==> Live(ws[i]) {
      AllLive(ws);
    }
  }

  lemma SomeTombstone(ws: seq<Word>, b: nat)
    requires b < |ws| && ws[b] == DELETED
    ensures DeletedCount(ws) > 0
  {
    DeletedUpdate(ws, b, EMPTY);
  }

  lemma {:induction false} NoTombstones(ws: seq<Word>)
    requires forall i :: 0 <= i < |ws| ==> ws[i] != DELETED
    ensures DeletedCount(ws) == 0
    decreases |ws|
  {
    if ws != [] {
      NoTombstones(ws[..|ws| - 1]);
    }
  }

  lemma BagHas(ws: seq<Word>, b: nat)
    requires b < |ws| && Live(ws[b])
    ensures Decode(ws[b]) in LiveBag(ws)
  {
    BagUpdate(ws, b, EMPTY);
    assert LiveBag(ws) == LiveBag(ws[b := EMPTY]) + multiset{Decode(ws[b])};
  }

  // What the table has retained: values when it has callbacks for them, and keys when it has keys.
  function ValueBag(c: Config, s: Slots): multiset<Word> {
    if c.retainsValues then LiveBag(s.values) else multiset{}
  }

  function ValueBag1(c: Config, v: Word): multiset<Word> {
    if c.retainsValues then multiset{v} else multiset{}
  }

  function KeyBag(c: Config, s: Slots): multiset<Word> {
    if c.hasKeys then LiveBag(s.keys) else multiset{}
  }

  function KeyBag1(c: Config, k: Word): multiset<Word> {
    if c.hasKeys then multiset{k} else multiset{}
  }

  /** The slots hold the model; the count of used slots, and what has been retained for values
      and for keys, are those of the live slots. */
  ghost predicate Sound(c: Config, s: Slots, m: Model, used: nat, values: multiset<Word>, keys: multiset<Word>) {
    && Inv(c, s, m)
    && used == |LiveBag(s.values)| == |m|
    && values == ValueBag(c, s)
    && keys == KeyBag(c, s)
  }

  // One word of a column changes.
  lemma BagPut(ws: seq<Word>, b: nat, w: Word)
    requires b < |ws|
    ensures LiveBag(ws[b := w]) == LiveBag(ws) + Bag1(w) - Bag1(ws[b])
    ensures |LiveBag(ws[b := w])| + (if Live(ws[b]) then 1 else 0) == |LiveBag(ws)| + (if Live(w) then 1 else 0)
  {
    hide LiveBag;
    BagUpdate(ws, b, w);
    ghost var all := LiveBag(ws) + Bag1(w);
    assert LiveBag(ws[b := w]) == all - Bag1(ws[b]);
    assert |LiveBag(ws[b := w]) + Bag1(ws[b])| == |all|;
  }

  lemma KeyBagPut(c: Config, s: Slots, b: nat, key: Word, value: Word, count: nat)
    requires b < |s.values| && b < |s.keys| && b < |s.counts|
    ensures KeyBag(c, Put(s, b, key, value, count))
         == if c.hasKeys then KeyBag(c, s) + Bag1(key) - Bag1(s.keys[b]) else multiset{}
  {
    BagPut(s.keys, b, key);
  }

  lemma ValueBagPut(c: Config, s: Slots, b: nat, key: Word, value: Word, count: nat)
    requires b < |s.values| && b < |s.keys| && b < |s.counts|
    ensures ValueBag(c, Put(s, b, key, value, count))
         == if c.retainsValues then ValueBag(c, s) + Bag1(value) - Bag1(s.values[b]) else multiset{}
    ensures |LiveBag(s.values[b := value])| + (if Live(s.values[b]) then 1 else 0)
         == |LiveBag(s.values)| + (if Live(value) then 1 else 0)
  {
    BagPut(s.values, b, value);
  }

  lemma StoredBag(w: Word)
    requires Storable(w)
    ensures Bag1(Encode(w)) == multiset{w} && Live(Encode(w))
  {
  }

  lemma DeadBag(w: Word, b: multiset<Word>)
    requires !Live(w)
    ensures b - Bag1(w) == b
  {
  }

  lemma VacantDead(s: Slots, h: nat, b: nat)
    requires Shape(s) && Vacant(s, h, b)
    ensures b < |s.values| && !Live(s.values[b]) && !Live(s.keys[b]) && s.counts[b] == 0
  {
  }

  // The slot of a class holds the entry of the class.
  lemma HeldLaw(c: Config, s: Slots, m: Model, r: Word, b: nat)
    requires Inv(c, s, m) && Holds(c, s, r, b)
    ensures b < |s.keys| && Live(s.values[b]) && Live(s.keys[b]) && s.counts[b] > 0
    ensures r in m && m[r] == EntryAt(s, b)
  {
  }

  // Both words of the slot are retained.
  lemma HeldRetained(c: Config, s: Slots, m: Model, used: nat, values: multiset<Word>, keys: multiset<Word>, r: Word,
                     b: nat)
    requires Sound(c, s, m, used, values, keys) && Shape(s) && Holds(c, s, r, b)
    ensures b < |s.keys|
    ensures c.retainsValues ==> Decode(s.values[b]) in values
    ensures c.hasKeys ==> Decode(s.keys[b]) in keys
  {
    HeldLaw(c, s, m, r, b);
    BagHas(s.values, b);
    BagHas(s.keys, b);
  }

  lemma SoundAdd(c: Config, s: Slots, m: Model, used: nat, values: multiset<Word>, keys: multiset<Word>,
                 b: nat, k: Word, v: Word, count: nat)
    requires Sound(c, s, m, used, values, keys) && Shape(s)
    requires 0 < |s.keys| && Vacant(s, Home(c, |s.keys|, k), b)
    requires c.keyClass(k) !in m && Storable(k) && Storable(v) && count > 0
    ensures Sound(c, Put(s, b, Encode(k), Encode(v), count), m[c.keyClass(k) := Entry(k, v, count)],
                  used + 1, values + ValueBag1(c, v), keys + KeyBag1(c, k))
  {
    hide Inv, Home, Vacant, LiveBag, Bag1, Encode, Live, Storable;
    VacantDead(s, Home(c, |s.keys|, k), b);
    StoredBag(k);
    StoredBag(v);
    AddCountedLaw(c, s, m, b, k, v, count);
    ValueBagPut(c, s, b, Encode(k), Encode(v), count);
    KeyBagPut(c, s, b, Encode(k), Encode(v), count);
    DeadBag(s.values[b], values + multiset{v});
    DeadBag(s.keys[b], keys + multiset{k});
  }

  lemma SoundChange(c: Config, s: Slots, m: Model, used: nat, values: multiset<Word>, keys: multiset<Word>,
                    b: nat, k: Word, v: Word, count: nat)
    requires Sound(c, s, m, used, values, keys) && Shape(s)
    requires Holds(c, s, c.keyClass(k), b) && Storable(k) && Storable(v) && count > 0
    ensures Sound(c, Put(s, b, Encode(k), Encode(v), count), m[c.keyClass(k) := Entry(k, v, count)], used,
                  if c.retainsValues then values + multiset{v} - Bag1(s.values[b]) else values,
                  if c.hasKeys then keys + multiset{k} - Bag1(s.keys[b]) else keys)
  {
    hide Inv, Holds, LiveBag, Bag1, Encode, Live, Storable;
    HeldLaw(c, s, m, c.keyClass(k), b);
    StoredBag(k);
    StoredBag(v);
    ChangeLaw(c, s, m, b, k, v, count);
    ValueBagPut(c, s, b, Encode(k), Encode(v), count);
    KeyBagPut(c, s, b, Encode(k), Encode(v), count);
    assert m[c.keyClass(k) := Entry(k, v, count)].Keys == m.Keys;
  }

  lemma SameWords(s: Slots, b: nat)
    requires b < |s.values| && b < |s.keys| && Live(s.values[b]) && Live(s.keys[b])
    ensures Storable(Decode(s.values[b])) && Encode(Decode(s.values[b])) == s.values[b]
    ensures Storable(Decode(s.keys[b])) && Encode(Decode(s.keys[b])) == s.keys[b]
    ensures s.values[b := s.values[b]] == s.values && s.keys[b := s.keys[b]] == s.keys
  {
    DecodeStorable(s.keys[b]);
    DecodeStorable(s.values[b]);
  }

  lemma SoundCount(c: Config, s: Slots, m: Model, used: nat, values: multiset<Word>, keys: multiset<Word>,
                   b: nat, r: Word, count: nat)
    requires Sound(c, s, m, used, values, keys) && Shape(s) && Holds(c, s, r, b) && count > 0
    ensures r in m
    ensures Sound(c, s.(counts := s.counts[b := count]), m[r := m[r].(count := count)], used, values, keys)
  {
    hide Inv, LiveBag, Encode, Decode, Storable, Live;
    HeldLaw(c, s, m, r, b);
    SameWords(s, b);
    ChangeLaw(c, s, m, b, Decode(s.keys[b]), Decode(s.values[b]), count);
    assert Put(s, b, s.keys[b], s.values[b], count) == s.(counts := s.counts[b := count]);
    assert m[r := m[r].(count := count)].Keys == m.Keys;
  }

  lemma TombstoneBag()
    ensures Bag1(DELETED) == multiset{} && !Live(DELETED)
  {
  }

  lemma SoundRemove(c: Config, s: Slots, m: Model, used: nat, values: multiset<Word>, keys: multiset<Word>,
                    b: nat, r: Word)
    requires Sound(c, s, m, used, values, keys) && Shape(s) && Holds(c, s, r, b)
    ensures used > 0
    ensures Sound(c, Put(s, b, DELETED, DELETED, 0), m - {r}, used - 1,
                  if c.retainsValues then values - Bag1(s.values[b]) else values,
                  if c.hasKeys then keys - Bag1(s.keys[b]) else keys)
  {
    hide Inv, Holds, LiveBag, Bag1, Live;
    TombstoneBag();
    HeldLaw(c, s, m, r, b);
    RemoveLaw(c, s, m, b, r);
    assert (m - {r}).Keys == m.Keys - {r};
    ValueBagPut(c, s, b, DELETED, DELETED, 0);
    KeyBagPut(c, s, b, DELETED, DELETED, 0);
  }
}
