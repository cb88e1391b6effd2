// The hash table itself: slot arrays that are rewritten in place and replaced when rehashing.
module HashTable {
  import opened HashSizes
  import opened HashSlots
  import opened HashLaws
  import opened HashModel

  const NOT_FOUND: int := -1

  // The counts a slot may hold before its array is widened: half the range of 8, 16, 32
  // and 64 bits.
  function MaxCount(width: nat): nat {
    if width == 0 then 0x7F else if width == 1 then 0x7FFF
    else if width == 2 then 0x7FFF_FFFF else 0x7FFF_FFFF_FFFF_FFFF
  }

  ghost predicate CountsFit(counts: seq<nat>, width: nat) {
    forall i :: 0 <= i < |counts| ==> counts[i] <= MaxCount(width)
  }

  // The counts of a table that stores none.
  function LiveCounts(ws: seq<Word>): seq<nat> {
    seq(|ws|, i requires 0 <= i < |ws| => if Live(ws[i]) then 1 else 0)
  }

  lemma LiveCountsUpdate(ws: seq<Word>, b: nat, w: Word)
    requires b < |ws|
    ensures LiveCounts(ws[b := w]) == LiveCounts(ws)[b := if Live(w) then 1 else 0]
  {
  }

  lemma NothingStored(c: Config, s: Slots, m: Model, k: Word)
    requires Inv(c, s, m) && |s.keys| == 0
    ensures c.keyClass(k) !in m
  {
  }

  lemma NothingProbed(c: Config, s: Slots, k: Word)
    requires Shape(s) && 0 < |s.keys|
    ensures Missed(c, s, k, 0) && Clear(s.keys, Home(c, |s.keys|, k), 0)
  {
  }

  lemma LiveCountsSame(ws: seq<Word>, b: nat, w: Word)
    requires b < |ws| && Live(ws[b]) && Live(w)
    ensures LiveCounts(ws[b := w]) == LiveCounts(ws)
  {
  }

  // The word that stands for a value in a slot.
  function Stored(w: Word, literal: bool): Word {
    if literal then w else Encode(w)
  }

  ghost predicate NoDeleted(ws: seq<Word>) {
    forall i :: 0 <= i < |ws| ==> ws[i] != DELETED
  }

  ghost predicate AllSlotsLive(ws: seq<Word>) {
    forall i :: 0 <= i < |ws| ==> Live(ws[i])
  }

  lemma NoDeletedPut(s: Slots, b: nat, key: Word, value: Word, count: nat)
    requires b < |s.values| && b < |s.keys| && b < |s.counts|
    requires NoDeleted(s.values) && Live(Encode(value))
    ensures NoDeleted(Put(s, b, Encode(key), Encode(value), count).values)
  {
  }

  lemma PutCount(s: Slots, b: nat, key: Word, value: Word, x: nat, y: nat)
    requires b < |s.values| && b < |s.keys| && b < |s.counts|
    ensures b < |Put(s, b, key, value, x).counts|
    ensures Put(s, b, key, value, x).counts[b] == x
    ensures Put(s, b, key, value, x).(counts := Put(s, b, key, value, x).counts[b := y]) == Put(s, b, key, value, y)
  {
  }

  // What is still held of a column after the words before i have been given up.
  ghost predicate Left(held: multiset<Word>, kept: bool, ws: seq<Word>, i: nat)
    requires i <= |ws|
  {
    if kept then held + LiveBag(ws[..i]) == LiveBag(ws) else held == multiset{}
  }

  lemma LeftStart(kept: bool, ws: seq<Word>)
    ensures Left(if kept then LiveBag(ws) else multiset{}, kept, ws, 0)
  {
  }

  lemma LeftEnd(held: multiset<Word>, kept: bool, ws: seq<Word>)
    requires Left(held, kept, ws, |ws|)
    ensures held == multiset{}
  {
    assert ws[..|ws|] == ws;
  }

  // The next word is still held, and can be given up.
  lemma LeftStep(held: multiset<Word>, kept: bool, ws: seq<Word>, i: nat)
    requires i < |ws| && Left(held, kept, ws, i)
    ensures !Live(ws[i]) ==> Left(held, kept, ws, i + 1)
    ensures Live(ws[i]) && kept ==> Decode(ws[i]) in held && Left(held - multiset{Decode(ws[i])}, kept, ws, i + 1)
    ensures !kept ==> Left(held, kept, ws, i + 1)
  {
    hide LiveBag, Live, Decode;
    BagSnoc(ws, i);
    PrefixWithin(ws, i + 1);
    OneWord(ws[i]);
    if Live(ws[i]) && kept {
      TakeOne(held, LiveBag(ws[..i]), Decode(ws[i]), LiveBag(ws));
    }
  }

  lemma OneWord(w: Word)
    ensures Bag1(w) == if Live(w) then multiset{Decode(w)} else multiset{}
  {
  }

  lemma TakeOne(held: multiset<Word>, before: multiset<Word>, w: Word, all: multiset<Word>)
    requires held + before == all && before + multiset{w} <= all
    ensures w in held && held - multiset{w} + (before + multiset{w}) == all
  {
    assert (before + multiset{w})[w] == before[w] + 1;
    assert all[w] == held[w] + before[w];
  }

  lemma {:induction false} PrefixWithin(ws: seq<Word>, i: nat)
    requires i <= |ws|
    ensures LiveBag(ws[..i]) <= LiveBag(ws)
    decreases |ws|
  {
    if i < |ws| {
      PrefixWithin(ws[..|ws| - 1], i);
      assert ws[..|ws| - 1][..i] == ws[..i];
    } else {
      assert ws[..i] == ws;
    }
  }

  // What overwriting a slot that holds these words releases.
  function Discarding(c: Config, key: Word, value: Word): seq<Call> {
    (if c.retainsValues && Live(value) then [ReleaseValue(Decode(value))] else [])
    + (if c.hasKeys && Live(key) then [ReleaseKey(Decode(key))] else [])
  }

  lemma DiscardCases(c: Config, key: Word, value: Word, before: seq<Call>)
    ensures !Live(key) && !Live(value) ==> before + Discarding(c, key, value) == before
    ensures Live(key) && Live(value) ==> Discarding(c, key, value) == Releasing(c, Decode(key), Decode(value))
  {
  }

  lemma DiscardInTurn(c: Config, key: Word, value: Word, before: seq<Call>)
    ensures var first := if c.retainsValues && Live(value) then before + [ReleaseValue(Decode(value))] else before;
      (if c.hasKeys && Live(key) then first + [ReleaseKey(Decode(key))] else first) ==
        before + Discarding(c, key, value)
  {
  }

  // Giving up the first k slots, one after the other.
  function Drained(c: Config, s: Slots, k: nat): seq<Call>
    requires k <= |s.values| == |s.keys|
  {
    if k == 0 then [] else Drained(c, s, k - 1) + Discarding(c, s.keys[k - 1], s.values[k - 1])
  }

  lemma DrainedNone(c: Config, s: Slots, before: seq<Call>)
    requires |s.values| == |s.keys|
    ensures before + Drained(c, s, 0) == before
  {
  }

  lemma ReleasedInTurn(c: Config, key: Word, value: Word, before: seq<Call>)
    ensures var first := if c.retainsValues then before + [ReleaseValue(value)] else before;
      (if c.hasKeys then first + [ReleaseKey(key)] else first) == before + Releasing(c, key, value)
  {
  }

  lemma DrainedStep(c: Config, s: Slots, k: nat, before: seq<Call>)
    requires k < |s.values| == |s.keys| && (Live(s.values[k]) <==> Live(s.keys[k]))
    ensures before + Drained(c, s, k + 1) == (before + Drained(c, s, k)) + Discarding(c, s.keys[k], s.values[k])
    ensures !Live(s.values[k]) ==> before + Drained(c, s, k + 1) == before + Drained(c, s, k)
  {
    hide Live;
    CallsInTurn(before, Drained(c, s, k), Discarding(c, s.keys[k], s.values[k]));
    DiscardCases(c, s.keys[k], s.values[k], before + Drained(c, s, k));
  }

  lemma CallsInTurn(a: seq<Call>, b: seq<Call>, d: seq<Call>)
    ensures (a + b) + d == a + (b + d)
  {
  }

  datatype Bucket = Bucket(idx: int, weakKey: Word, weakValue: Word, count: nat)

  ghost predicate Place(c: Config, s: Slots, k: Word, bktIdx: int)
    requires Shape(s)
  {
    if bktIdx == NOT_FOUND then AllSlotsLive(s.values)
    else 0 <= bktIdx && 0 < |s.keys| && Vacant(s, Home(c, |s.keys|, k), bktIdx)
  }

  class BasicHash {
    const c: Config
    var values: array<Word>
    var keys: array<Word>
    var counts: array<nat>
    var countsWidth: nat
    var numBucketsIdx: nat
    var usedBuckets: nat
    var deleted: nat
    // what the arrays hold, as a value
    ghost var slots: Slots
    // the entries that they stand for
    ghost var model: Model
    // the callbacks made, in order, and what they retain on balance
    ghost var calls: seq<Call>
    ghost var retainedValues: multiset<Word>
    ghost var retainedKeys: multiset<Word>

    ghost function Repr(): set<object>
      reads this
    {
      {values as object, keys, counts}
    }

    ghost predicate Mirror()
      reads this`values, this`keys, this`counts, this`countsWidth, this`numBucketsIdx, this`slots
      reads values, keys, counts
    {
      && numBucketsIdx <= LAST_INDEX && countsWidth <= 3
      && values.Length == Size(numBucketsIdx)
      && values != keys && values as object != counts && keys as object != counts
      && keys.Length == (if c.hasKeys then values.Length else 0)
      && counts.Length == (if c.hasCounts then values.Length else 0)
      && slots.values == values[..]
      && slots.keys == (if c.hasKeys then keys[..] else values[..])
      && slots.counts == (if c.hasCounts then counts[..] else LiveCounts(values[..]))
      && CountsFit(slots.counts, countsWidth)
    }

    // Everything but the count of tombstones.
    ghost predicate Core()
      reads this`values, this`keys, this`counts, this`countsWidth, this`numBucketsIdx, this`slots
      reads this`model, this`usedBuckets, this`retainedValues, this`retainedKeys
      reads values, keys, counts
    {
      && Mirror()
      && Sound(c, slots, model, usedBuckets, retainedValues, retainedKeys)
      && usedBuckets <= Capacity(numBucketsIdx) && usedBuckets <= MaxItems(c)
    }

    ghost predicate Valid()
      reads this, values, keys, counts
    {
      Core() && deleted == DeletedCount(slots.values) && deleted < 0x1_0000
    }

    constructor (c: Config)
      ensures Valid() && this.c == c && model == map[] && retainedValues == retainedKeys == multiset{} && calls == []
      ensures fresh(Repr())
    {
      this.c := c;
      values, keys, counts := new Word[0], new Word[0], new nat[0];
      countsWidth, numBucketsIdx, usedBuckets, deleted := 0, 0, 0, 0;
      slots := Slots([], [], []);
      model, calls, retainedValues, retainedKeys := map[], [], multiset{}, multiset{};
    }

    // A table with the same settings and new arrays, yet to be filled.
    constructor Like(src: BasicHash)
      ensures c == src.c && slots == src.slots && model == src.model
      ensures numBucketsIdx == src.numBucketsIdx && usedBuckets == src.usedBuckets
      ensures deleted == src.deleted && countsWidth == src.countsWidth
      ensures fresh(Repr()) && values != keys && values as object != counts && keys as object != counts
      ensures values.Length == src.values.Length && keys.Length == src.keys.Length && counts.Length == src.counts.Length
      ensures retainedValues == retainedKeys == multiset{} && calls == []
    {
      c := src.c;
      values, keys, counts := new Word[src.values.Length], new Word[src.keys.Length], new nat[src.counts.Length];
      numBucketsIdx, usedBuckets, deleted, countsWidth := src.numBucketsIdx, src.usedBuckets, src.deleted,
        src.countsWidth;
      slots, model := src.slots, src.model;
      calls, retainedValues, retainedKeys := [], multiset{}, multiset{};
    }

    lemma MirrorSizes()
      requires Mirror()
      ensures |slots.values| == |slots.keys| == |slots.counts| == values.Length == Size(numBucketsIdx)
      ensures numBucketsIdx <= LAST_INDEX && countsWidth <= 3
      ensures CountsFit(slots.counts, countsWidth)
      ensures !c.hasKeys ==> slots.keys == slots.values
      ensures !c.hasCounts ==> slots.counts == LiveCounts(slots.values)
    {
    }

    lemma MirrorArrays()
      requires Mirror()
      ensures values != keys && values as object != counts && keys as object != counts
      ensures slots.values == values[..] && |slots.values| == values.Length
      ensures slots.keys == (if c.hasKeys then keys[..] else values[..])
      ensures keys.Length == (if c.hasKeys then values.Length else 0)
      ensures counts.Length == (if c.hasCounts then values.Length else 0)
      ensures slots.counts == (if c.hasCounts then counts[..] else LiveCounts(values[..]))
    {
    }

    // The stored words of a slot.
    method GetKeyWord(idx: nat) returns (w: Word)
      requires Mirror() && idx < |slots.keys|
      ensures w == slots.keys[idx]
    {
      w := if c.hasKeys then keys[idx] else values[idx];
    }

    method GetValueWord(idx: nat) returns (w: Word)
      requires Mirror() && idx < |slots.values|
      ensures w == slots.values[idx]
    {
      w := values[idx];
    }

    // The count of a live slot.
    method GetSlotCount(idx: nat) returns (n: nat)
      requires Mirror() && idx < |slots.values| && Live(slots.values[idx])
      ensures idx < |slots.counts| && n == slots.counts[idx]
    {
      n := if c.hasCounts then counts[idx] else 1;
    }

    // ---------- slot counts ----------

    // Doubles the width of the counts.
    method BumpCounts()
      requires Mirror() && countsWidth < 3 && c.hasCounts
      modifies this`counts, this`countsWidth
      ensures Mirror() && countsWidth == old(countsWidth) + 1 && fresh(counts)
    {
      hide Size, LiveCounts;
      var narrow, width := counts, countsWidth;
      var wide := new nat[narrow.Length];
      for idx := 0 to narrow.Length
        invariant wide[..idx] == narrow[..idx]
      {
        wide[idx] := narrow[idx];
      }
      assert wide[..] == narrow[..];
      counts := wide;
      countsWidth := width + 1;
    }

    // Raises one count, widening all of them first when it has no room.
    method IncSlotCount(idx: nat)
      requires Mirror() && c.hasCounts
      requires idx < |slots.counts| && slots.counts[idx] < MaxCount(3)
      modifies this`counts, this`countsWidth, this`slots, counts
      ensures Mirror() && (counts == old(counts) || fresh(counts))
      ensures slots == old(slots).(counts := old(slots).counts[idx := old(slots).counts[idx] + 1])
      decreases 3 - countsWidth
    {
      hide Size, LiveCounts;
      var val := counts[idx];
      if val < MaxCount(countsWidth) {
        counts[idx] := val + 1;
        slots := slots.(counts := counts[..]);
        return;
      }
      BumpCounts();
      IncSlotCount(idx);
    }

    method DecSlotCount(idx: nat)
      requires Mirror() && c.hasCounts
      requires idx < |slots.counts| && slots.counts[idx] > 0
      modifies this`slots, counts
      ensures Mirror()
      ensures slots == old(slots).(counts := old(slots).counts[idx := old(slots).counts[idx] - 1])
    {
      hide Size, LiveCounts;
      counts[idx] := counts[idx] - 1;
      slots := slots.(counts := counts[..]);
    }

    // ---------- slot values and keys ----------

    // Stores a value; unless told to ignore it, gives up the value that was there.
    method SetValue(idx: nat, stackValue: Word, ignoreOld: bool, literal: bool)
      requires idx < values.Length
      requires !ignoreOld && c.retainsValues && Live(values[idx]) ==> Decode(values[idx]) in retainedValues
      modifies values, this`calls, this`retainedValues
      ensures values[..] == old(values[..])[idx := Stored(stackValue, literal)]
      ensures retainedValues
           == if ignoreOld || !c.retainsValues then old(retainedValues)
             else old(retainedValues) - Bag1(old(values[idx]))
      ensures calls == if ignoreOld || !c.retainsValues || !Live(old(values[idx])) then old(calls)
        else old(calls) + [ReleaseValue(Decode(old(values[idx])))]
    {
      var oldValue := if ignoreOld then 0 else values[idx];
      var stored := stackValue;
      if !literal {
        if 0 == stored { stored := SUB_ZERO; }
        if WORD_MAX == stored { stored := SUB_ONE; }
      }
      values[idx] := stored;
      if !ignoreOld {
        if !(oldValue == 0 || oldValue == WORD_MAX) {
          EjectValue(Decode(oldValue));
        }
      }
    }

    method SetKey(idx: nat, stackKey: Word, ignoreOld: bool, literal: bool)
      requires idx < keys.Length
      requires !ignoreOld && Live(keys[idx]) ==> Decode(keys[idx]) in retainedKeys
      modifies keys, this`calls, this`retainedKeys
      ensures keys[..] == old(keys[..])[idx := Stored(stackKey, literal)]
      ensures retainedKeys
           == if ignoreOld then old(retainedKeys) else old(retainedKeys) - Bag1(old(keys[idx]))
      ensures calls == if ignoreOld || !Live(old(keys[idx])) then old(calls)
        else old(calls) + [ReleaseKey(Decode(old(keys[idx])))]
    {
      var oldKey := if ignoreOld then 0 else keys[idx];
      var stored := stackKey;
      if !literal {
        if 0 == stored { stored := SUB_ZERO; }
        if WORD_MAX == stored { stored := SUB_ONE; }
      }
      keys[idx] := stored;
      if !ignoreOld {
        if !(oldKey == 0 || oldKey == WORD_MAX) {
          EjectKey(Decode(oldKey));
        }
      }
    }

    // The callbacks.  A word is given up only while it is held.
    ghost method ImportValue(v: Word)
      modifies this`calls, this`retainedValues
      ensures retainedValues == if c.retainsValues then old(retainedValues) + multiset{v} else old(retainedValues)
      ensures calls == if c.retainsValues then old(calls) + [RetainValue(v)] else old(calls)
    {
      if c.retainsValues {
        retainedValues := retainedValues + multiset{v};
        calls := calls + [RetainValue(v)];
      }
    }

    ghost method ImportKey(k: Word)
      modifies this`calls, this`retainedKeys
      ensures retainedKeys == old(retainedKeys) + multiset{k} && calls == old(calls) + [RetainKey(k)]
    {
      retainedKeys := retainedKeys + multiset{k};
      calls := calls + [RetainKey(k)];
    }

    ghost method EjectValue(v: Word)
      requires c.retainsValues ==> v in retainedValues
      modifies this`calls, this`retainedValues
      ensures retainedValues == if c.retainsValues then old(retainedValues) - multiset{v} else old(retainedValues)
      ensures calls == if c.retainsValues then old(calls) + [ReleaseValue(v)] else old(calls)
    {
      if c.retainsValues {
        retainedValues := retainedValues - multiset{v};
        calls := calls + [ReleaseValue(v)];
      }
    }

    ghost method EjectKey(k: Word)
      requires k in retainedKeys
      modifies this`calls, this`retainedKeys
      ensures retainedKeys == old(retainedKeys) - multiset{k} && calls == old(calls) + [ReleaseKey(k)]
    {
      retainedKeys := retainedKeys - multiset{k};
      calls := calls + [ReleaseKey(k)];
    }

    // The count that slot b has after its words are written, before its stored count is.
    ghost function CountAfter(b: nat, stored: Word): nat
      reads this`slots
      requires b < |slots.counts|
    {
      if c.hasCounts then slots.counts[b] else if Live(stored) then 1 else 0
    }

    lemma Written(before: Slots, b: nat, key: Word, value: Word)
      requires b < |before.values| && b < |before.keys| && b < |before.counts|
      requires numBucketsIdx <= LAST_INDEX && countsWidth <= 3
      requires values != keys && values as object != counts && keys as object != counts
      requires values.Length == Size(numBucketsIdx)
      requires keys.Length == (if c.hasKeys then values.Length else 0)
      requires counts.Length == (if c.hasCounts then values.Length else 0)
      requires values[..] == before.values[b := value]
      requires before.keys[b := key] == if c.hasKeys then keys[..] else values[..]
      requires if c.hasCounts then before.counts == counts[..] else before.counts == LiveCounts(before.values)
      requires CountsFit(before.counts, countsWidth)
      requires slots == Put(before, b, key, value,
        if c.hasCounts then before.counts[b] else if Live(value) then 1 else 0)
      ensures Mirror()
    {
      hide Size, Live, LiveCounts;
      LiveCountsUpdate(before.values, b, value);
    }

    // Value and key of a slot.
    method WriteSlot(b: nat, stackKey: Word, stackValue: Word, literal: bool)
      requires Mirror() && b < |slots.values| && b < |slots.keys| && b < |slots.counts|
      requires c.retainsValues && Live(slots.values[b]) ==> Decode(slots.values[b]) in retainedValues
      requires c.hasKeys && Live(slots.keys[b]) ==> Decode(slots.keys[b]) in retainedKeys
      requires !c.hasKeys ==> stackKey == stackValue
      modifies values, keys, this`slots, this`calls, this`retainedValues, this`retainedKeys
      ensures Mirror()
      ensures slots == Put(old(slots), b, Stored(stackKey, literal),
                           Stored(stackValue, literal), old(CountAfter(b, Stored(stackValue, literal))))
      ensures retainedValues
           == if c.retainsValues then old(retainedValues) - Bag1(old(slots).values[b]) else old(retainedValues)
      ensures retainedKeys == if c.hasKeys then old(retainedKeys) - Bag1(old(slots).keys[b]) else old(retainedKeys)
      ensures calls == old(calls) + Discarding(c, old(slots).keys[b], old(slots).values[b])
    {
      hide Mirror, Size, Bag1, Decode, Stored, Live, LiveCounts, CountsFit, Discarding;
      DiscardInTurn(c, slots.keys[b], slots.values[b], calls);
      MirrorSizes();
      MirrorArrays();
      ghost var before := slots;
      ghost var value := Stored(stackValue, literal);
      ghost var key := Stored(stackKey, literal);
      SetValue(b, stackValue, false, literal);
      if c.hasKeys {
        SetKey(b, stackKey, false, literal);
      }
      slots := Put(slots, b, key, value, CountAfter(b, value));
      Written(before, b, key, value);
    }

    // Gives a live slot another value without any callback.
    method Renumber(idx: nat, stackValue: Word)
      requires Mirror() && idx < |slots.values| && c.hasKeys
      requires Live(slots.values[idx]) && Storable(stackValue)
      modifies values, this`slots, this`calls, this`retainedValues
      ensures Mirror() && retainedValues == old(retainedValues) && calls == old(calls)
      ensures slots == old(slots).(values := old(slots).values[idx := Encode(stackValue)])
    {
      hide Size, Live, Encode, LiveCounts, CountsFit, Decode, Bag1, Storable;
      SentinelsSafe(stackValue);
      LiveCountsSame(values[..], idx, Encode(stackValue));
      SetValue(idx, stackValue, true, false);
      slots := slots.(values := values[..]);
    }

    // ---------- finding ----------

    // The bucket that a search for a new key gives: vacant, or none when every slot is live.
    ghost predicate Free(stackKey: Word, bktIdx: int)
      requires Shape(slots)
      reads this`slots
    {
      Place(c, slots, stackKey, bktIdx)
    }

    lemma HomeIs(stackKey: Word, n: nat)
      requires n > 0
      ensures Home(c, n, stackKey) == c.hash(c.keyClass(stackKey)) % n
    {
    }

    // The bucket at a live slot with an equal key.
    method Hit(stackKey: Word, probe: nat, ghost m: Model) returns (bkt: Bucket)
      requires Mirror() && Inv(c, slots, m) && probe < values.Length
      requires Live(slots.keys[probe]) && c.keyClass(Decode(slots.keys[probe])) == c.keyClass(stackKey)
      ensures bkt.count > 0 && bkt.idx == probe && Holds(c, slots, c.keyClass(stackKey), bkt.idx)
      ensures c.keyClass(stackKey) in m
      ensures Entry(bkt.weakKey, bkt.weakValue, bkt.count) == EntryAt(slots, bkt.idx) == m[c.keyClass(stackKey)]
    {
      hide Mirror, Reachable, Refines, Holds, Decode, Size;
      MirrorSizes();
      FoundLaw(c, slots, m, stackKey, probe);
      var currKey := GetKeyWord(probe);
      var count := GetSlotCount(probe);
      var value := GetValueWord(probe);
      return Bucket(probe, Decode(currKey), Decode(value), count);
    }

    // The bucket that holds the key, or else the one that an addition should fill: the first
    // tombstone met, or the empty slot that ended the search.
    method FindBucket(stackKey: Word, ghost m: Model) returns (bkt: Bucket)
      requires Mirror() && Inv(c, slots, m)
      ensures bkt.count > 0 ==>
        && 0 <= bkt.idx && Holds(c, slots, c.keyClass(stackKey), bkt.idx)
        && c.keyClass(stackKey) in m
        && Entry(bkt.weakKey, bkt.weakValue, bkt.count) == EntryAt(slots, bkt.idx) == m[c.keyClass(stackKey)]
      ensures bkt.count == 0 ==> c.keyClass(stackKey) !in m
      ensures bkt.count == 0 ==> Free(stackKey, bkt.idx)
      // the first dead slot from the one that the hash gives
      ensures bkt.count == 0 && bkt.idx != NOT_FOUND ==>
        0 < |slots.keys| && FirstDead(slots, c.hash(c.keyClass(stackKey)) % |slots.keys|, bkt.idx)
    {
      hide Mirror, Reachable, Refines, Missed, Clear, Vacant, FirstDead, Home, Holds, Decode, Capacity;
      MirrorSizes();
      if numBucketsIdx == 0 {
        NothingStored(c, slots, m, stackKey);
        return Bucket(NOT_FOUND, 0, 0, 0);
      }
      TableLaws(numBucketsIdx);
      hide Size;
      var n := values.Length;
      var h1 := Home(c, n, stackKey);
      HomeIs(stackKey, n);
      var deletedIdx: int := NOT_FOUND;
      var probe := h1;
      NothingProbed(c, slots, stackKey);
      for idx := 0 to n
        invariant idx < n ==> probe == Step(n, h1, idx)
        invariant Missed(c, slots, stackKey, idx) && Clear(slots.keys, h1, idx)
        invariant deletedIdx == NOT_FOUND ==> forall e :: 0 <= e < idx ==> Live(slots.keys[Step(n, h1, e)])
        invariant deletedIdx != NOT_FOUND ==>
          0 <= deletedIdx && Vacant(slots, h1, deletedIdx) && FirstDead(slots, h1, deletedIdx)
      {
        var currKey := GetKeyWord(probe);
        if currKey == 0 {
          EmptyMeansAbsent(c, slots, m, stackKey, idx);
          DeadVacant(slots, h1, idx);
          if deletedIdx == NOT_FOUND {
            DeadFirst(slots, h1, idx);
          }
          return Bucket(if deletedIdx == NOT_FOUND then probe else deletedIdx, 0, 0, 0);
        } else if currKey == WORD_MAX {
          if deletedIdx == NOT_FOUND {
            deletedIdx := probe;
            DeadVacant(slots, h1, idx);
            DeadFirst(slots, h1, idx);
          }
        } else {
          currKey := Decode(currKey);
          if currKey == stackKey || c.keyClass(currKey) == c.keyClass(stackKey) {
            bkt := Hit(stackKey, probe, m);
            return;
          }
        }
        MissedStep(c, slots, stackKey, idx);
        ClearStep(slots.keys, h1, idx);
        probe := probe + 1;
        if n <= probe {
          probe := probe - n;
        }
      }
      AllProbedMeansAbsent(c, slots, m, stackKey);
      if deletedIdx == NOT_FOUND {
        AllProbedLive(slots, h1);
      }
      return Bucket(deletedIdx, 0, 0, 0);
    }

    // As above, when the key is known to be new and there are no tombstones.
    method FindBucketNoCollision(stackKey: Word, ghost m: Model) returns (idx: nat)
      requires Mirror() && Inv(c, slots, m)
      requires NoDeleted(slots.values) && |LiveBag(slots.values)| < |slots.values|
      ensures 0 < |slots.keys| && Vacant(slots, Home(c, |slots.keys|, stackKey), idx)
    {
      hide Mirror, Reachable, Refines, Clear, Vacant, Home, LiveBag, Decode, Capacity, Size;
      MirrorSizes();
      DeadSlot(slots.values);
      var n := values.Length;
      var h1 := Home(c, n, stackKey);
      var probe := h1;
      NothingProbed(c, slots, stackKey);
      for i := 0 to n
        invariant i < n ==> probe == Step(n, h1, i)
        invariant Clear(slots.keys, h1, i)
        invariant forall e :: 0 <= e < i ==> Live(slots.keys[Step(n, h1, e)])
      {
        var currKey := GetKeyWord(probe);
        if currKey == 0 {
          DeadVacant(slots, h1, i);
          return probe;
        }
        ClearStep(slots.keys, h1, i);
        probe := probe + 1;
        if n <= probe {
          probe := probe - n;
        }
      }
      AllProbedLive(slots, h1);
      assert false;
    }

    // ---------- rehashing ----------

    lemma Emptied()
      requires numBucketsIdx <= LAST_INDEX && countsWidth <= 3
      requires values != keys && values as object != counts && keys as object != counts
      requires values.Length == Size(numBucketsIdx)
      requires keys.Length == (if c.hasKeys then values.Length else 0)
      requires counts.Length == (if c.hasCounts then values.Length else 0)
      requires forall i :: 0 <= i < values.Length ==> values[i] == EMPTY
      requires forall i :: 0 <= i < keys.Length ==> keys[i] == EMPTY
      requires forall i :: 0 <= i < counts.Length ==> counts[i] == 0
      requires slots == Slots(seq(values.Length, _ => EMPTY), seq(values.Length, _ => EMPTY),
        seq(values.Length, _ => 0))
      ensures Mirror()
    {
      hide Size;
    }

    lemma EmptySound(n: nat)
      requires slots == Slots(seq(n, _ => EMPTY), seq(n, _ => EMPTY), seq(n, _ => 0))
      ensures Sound(c, slots, map[], 0, multiset{}, multiset{}) && NoDeleted(slots.values)
    {
      EmptySlots(c, slots);
      AllEmpty(slots.values);
      AllEmpty(slots.keys);
    }

    // Fresh empty arrays of another size.
    method Allocate(newIdx: nat)
      requires countsWidth <= 3 && newIdx <= LAST_INDEX
      modifies this`values, this`keys, this`counts, this`numBucketsIdx, this`deleted, this`slots
      ensures fresh(Repr())
      ensures Mirror() && numBucketsIdx == newIdx && deleted == 0
      ensures Sound(c, slots, map[], 0, multiset{}, multiset{})
      ensures |slots.values| == Size(newIdx) && NoDeleted(slots.values)
    {
      hide Size, Sound, Mirror, NoDeleted;
      var n := Size(newIdx);
      values := new Word[n](_ => EMPTY);
      keys := new Word[if c.hasKeys then n else 0](_ => EMPTY);
      counts := new nat[if c.hasCounts then n else 0](_ => 0);
      numBucketsIdx := newIdx;
      deleted := 0;
      slots := Slots(seq(n, _ => EMPTY), seq(n, _ => EMPTY), seq(n, _ => 0));
      Emptied();
      EmptySound(n);
    }

    // The first idx slots of s, which hold m, have been carried over to the present arrays.
    ghost predicate Carried(s: Slots, m: Model, idx: nat)
      requires Shape(s) && idx <= |s.values|
      reads this, values, keys, counts
    {
      && Mirror() && NoDeleted(slots.values)
      && Sound(c, slots, Partial(c, s, m, idx), |LiveBag(s.values[..idx])|,
               if c.retainsValues then LiveBag(s.values[..idx]) else multiset{},
               if c.hasKeys then LiveBag(s.keys[..idx]) else multiset{})
    }

    // What rehashing has to carry over from an old slot.
    lemma OldSlot(s: Slots, m: Model, i: nat)
      requires Inv(c, s, m) && i < |s.values|
      ensures !Live(s.values[i]) ==> Bag1(s.values[i]) == multiset{} == Bag1(s.keys[i])
      ensures Live(s.values[i]) ==>
        && s.counts[i] > 0
        && Storable(Decode(s.values[i])) && Storable(Decode(s.keys[i]))
        && ClassAt(c, s, i) == c.keyClass(Decode(s.keys[i]))
        && EntryAt(s, i) == Entry(Decode(s.keys[i]), Decode(s.values[i]), s.counts[i])
        && Bag1(s.values[i]) == multiset{Decode(s.values[i])} && Bag1(s.keys[i]) == multiset{Decode(s.keys[i])}
    {
      if Live(s.values[i]) {
        DecodeStorable(s.values[i]);
        DecodeStorable(s.keys[i]);
      }
    }

    lemma OldBags(s: Slots, m: Model, idx: nat)
      requires Inv(c, s, m) && idx < |s.values|
      ensures Shape(s) && idx < |s.keys| && idx < |s.counts|
      ensures LiveBag(s.values[..idx + 1]) == LiveBag(s.values[..idx]) + Bag1(s.values[idx])
      ensures LiveBag(s.keys[..idx + 1]) == LiveBag(s.keys[..idx]) + Bag1(s.keys[idx])
      ensures Live(s.values[idx]) ==> |LiveBag(s.values[..idx])| < |LiveBag(s.values)|
    {
      BagSnoc(s.values, idx);
      BagSnoc(s.keys, idx);
    }

    lemma CarriedParts(s: Slots, m: Model, idx: nat)
      requires Inv(c, s, m) && idx <= |s.values| && Carried(s, m, idx)
      ensures Shape(s) && Mirror() && NoDeleted(slots.values)
      ensures Inv(c, slots, Partial(c, s, m, idx)) && Shape(slots)
      ensures |LiveBag(slots.values)| == |LiveBag(s.values[..idx])|
    {
    }

    lemma CarriedFill(s: Slots, m: Model, idx: nat, was: Slots, b: nat)
      requires Inv(c, s, m) && idx < |s.values| && Live(s.values[idx])
      requires Mirror() && NoDeleted(was.values)
      requires Sound(c, was, Partial(c, s, m, idx), |LiveBag(s.values[..idx])|,
                     if c.retainsValues then LiveBag(s.values[..idx]) else multiset{},
                     if c.hasKeys then LiveBag(s.keys[..idx]) else multiset{})
      requires Shape(was) && 0 < |was.keys| && Vacant(was, Home(c, |was.keys|, Decode(s.keys[idx])), b)
      requires b < |was.values| && b < |was.keys| && b < |was.counts|
      requires slots == Put(was, b, Encode(Decode(s.keys[idx])), Encode(Decode(s.values[idx])), s.counts[idx])
      ensures Carried(s, m, idx + 1)
    {
      hide Mirror, Sound, Inv, Shape, LiveBag, Bag1, Vacant, Home, Partial, Decode, Encode, NoDeleted, Live, Put,
        ClassAt, EntryAt;
      OldBags(s, m, idx);
      var key, value, count := Decode(s.keys[idx]), Decode(s.values[idx]), s.counts[idx];
      OldSlot(s, m, idx);
      PartialStep(c, s, m, idx);
      SentinelsSafe(value);
      NoDeletedPut(was, b, key, value, count);
      SoundAdd(c, was, Partial(c, s, m, idx), |LiveBag(s.values[..idx])|,
               if c.retainsValues then LiveBag(s.values[..idx]) else multiset{},
               if c.hasKeys then LiveBag(s.keys[..idx]) else multiset{}, b, key, value, count);
      ghost var none: multiset<Word> := multiset{};
      assert none + none == none;
      assert Partial(c, s, m, idx + 1) == Partial(c, s, m, idx)[c.keyClass(key) := Entry(key, value, count)];
    }

    lemma CarriedSkip(s: Slots, m: Model, idx: nat)
      requires Inv(c, s, m) && idx < |s.values| && !Live(s.values[idx])
      requires Carried(s, m, idx)
      ensures Carried(s, m, idx + 1)
    {
      hide Mirror, Inv, Shape, LiveBag, Bag1, Partial, NoDeleted, Live;
      OldBags(s, m, idx);
      OldSlot(s, m, idx);
      PartialStep(c, s, m, idx);
      assert LiveBag(s.values[..idx]) + multiset{} == LiveBag(s.values[..idx]);
      assert LiveBag(s.keys[..idx]) + multiset{} == LiveBag(s.keys[..idx]);
    }

    method SetSlotCount(idx: nat, count: nat)
      requires Mirror() && c.hasCounts
      requires idx < |slots.counts| && count <= MaxCount(countsWidth)
      modifies this`slots, counts
      ensures Mirror()
      ensures slots == old(slots).(counts := old(slots).counts[idx := count])
    {
      hide Size, LiveCounts;
      counts[idx] := count;
      slots := slots.(counts := counts[..]);
    }

    // Fills a vacant slot.
    method Fill(b: nat, stackKey: Word, stackValue: Word, count: nat, ghost h: nat)
      requires Mirror() && Shape(slots) && Vacant(slots, h, b)
      requires Storable(stackKey) && Storable(stackValue)
      requires !c.hasKeys ==> stackKey == stackValue
      requires 0 < count <= MaxCount(countsWidth) && (!c.hasCounts ==> count == 1)
      modifies values, keys, counts, this`slots, this`calls, this`retainedValues, this`retainedKeys
      ensures Mirror() && b < |old(slots).values| && b < |old(slots).keys| && b < |old(slots).counts|
      ensures slots == Put(old(slots), b, Encode(stackKey), Encode(stackValue), count)
      ensures retainedValues == old(retainedValues) && retainedKeys == old(retainedKeys) && calls == old(calls)
    {
      hide Mirror, Vacant, Shape, Decode, Encode, Bag1, Live, Put, MaxCount, Discarding;
      MirrorSizes();
      VacantDead(slots, h, b);
      SentinelsSafe(stackValue);
      DeadBag(slots.values[b], retainedValues);
      DiscardCases(c, slots.keys[b], slots.values[b], calls);
      DeadBag(slots.keys[b], retainedKeys);
      WriteSlot(b, stackKey, stackValue, false);
      PutCount(old(slots), b, Encode(stackKey), Encode(stackValue), old(CountAfter(b, Encode(stackValue))), count);
      if c.hasCounts {
        SetSlotCount(b, count);
      }
    }

    // Carries one old slot over.
    method TransferOne(oldValue: Word, oldKey: Word, oldCount: nat, ghost s: Slots, ghost m: Model, ghost idx: nat)
      requires Inv(c, s, m) && idx < |s.values| && Carried(s, m, idx)
      requires oldValue == s.values[idx] && oldKey == s.keys[idx]
      requires Live(oldValue) ==> oldCount == s.counts[idx] <= MaxCount(countsWidth)
      requires Live(oldValue) && !c.hasCounts ==> oldCount == 1
      requires !c.hasKeys ==> oldKey == oldValue
      requires |LiveBag(s.values)| <= |slots.values|
      modifies values, keys, counts, this`slots, this`calls, this`retainedValues, this`retainedKeys
      ensures Carried(s, m, idx + 1)
      ensures retainedValues == old(retainedValues) && retainedKeys == old(retainedKeys) && calls == old(calls)
      ensures |slots.values| == old(|slots.values|)
    {
      hide Mirror, Sound, Inv, Shape, LiveBag, Bag1, Decode, Encode, Partial, MaxCount, ClassAt, EntryAt, Vacant, Home;
      CarriedParts(s, m, idx);
      if oldValue != 0 && oldValue != WORD_MAX {
        OldBags(s, m, idx);
        OldSlot(s, m, idx);
        var stackKey, stackValue := Decode(oldKey), Decode(oldValue);
        var b := FindBucketNoCollision(stackKey, Partial(c, s, m, idx));
        ghost var was := slots;
        Fill(b, stackKey, stackValue, oldCount, Home(c, |slots.keys|, stackKey));
        CarriedFill(s, m, idx, was, b);
      } else {
        CarriedSkip(s, m, idx);
      }
    }

    // What replaced arrays hold.
    ghost predicate Held(s: Slots, oldValues: array<Word>, oldKeys: array<Word>, oldCounts: array<nat>)
      reads this, oldValues, oldKeys, oldCounts
    {
      && |s.values| == |s.keys| == |s.counts|
      && s.values == oldValues[..] && s.keys == (if c.hasKeys then oldKeys[..] else oldValues[..])
      && s.counts == (if c.hasCounts then oldCounts[..] else LiveCounts(oldValues[..]))
      && CountsFit(s.counts, countsWidth)
    }

    // Carries every entry of the old arrays over to the new ones.
    method Transfer(oldValues: array<Word>, oldKeys: array<Word>, oldCounts: array<nat>, ghost s: Slots, ghost m: Model)
      requires Shape(s) && Inv(c, s, m) && Carried(s, m, 0) && Held(s, oldValues, oldKeys, oldCounts)
      requires {oldValues as object, oldKeys, oldCounts} !! Repr()
      requires |LiveBag(s.values)| <= |slots.values|
      modifies values, keys, counts, this`slots, this`calls, this`retainedValues, this`retainedKeys
      ensures Carried(s, m, |s.values|)
      ensures retainedValues == old(retainedValues) && retainedKeys == old(retainedKeys) && calls == old(calls)
    {
      hide Inv, Shape, LiveBag, Carried, LiveCounts, MaxCount, Bag1;
      for idx := 0 to oldValues.Length
        invariant retainedValues == old(retainedValues) && retainedKeys == old(retainedKeys) && calls == old(calls)
        invariant Carried(s, m, idx) && |slots.values| == old(|slots.values|)
      {
        var oldKey := if c.hasKeys then oldKeys[idx] else oldValues[idx];
        var oldCount := if c.hasCounts then oldCounts[idx] else 1;
        if !c.hasCounts {
          OldCount(s.values, idx);
        }
        TransferOne(oldValues[idx], oldKey, oldCount, s, m, idx);
      }
    }

    lemma OldCount(vs: seq<Word>, i: nat)
      requires i < |vs|
      ensures Live(vs[i]) ==> LiveCounts(vs)[i] == 1 <= MaxCount(countsWidth)
    {
    }

    lemma NothingCarried(s: Slots, m: Model)
      requires Inv(c, s, m) && Mirror() && NoDeleted(slots.values)
      requires Sound(c, slots, map[], 0, multiset{}, multiset{})
      ensures Shape(s) && Carried(s, m, 0)
    {
      hide Reachable, Refines, Mirror;
      PartialEnds(c, s, m);
      assert s.values[..0] == [] && s.keys[..0] == [];
    }

    lemma CoreHeld()
      requires Core()
      ensures Held(slots, values, keys, counts) && Inv(c, slots, model) && Shape(slots)
      ensures |LiveBag(slots.values)| == usedBuckets && Mirror()
      ensures countsWidth <= 3 && usedBuckets <= MaxItems(c)
      ensures usedBuckets <= Capacity(numBucketsIdx)
      ensures Sound(c, slots, model, usedBuckets, retainedValues, retainedKeys)
      ensures usedBuckets == |model|
    {
    }

    lemma AllCarried(s: Slots, m: Model)
      requires Sound(c, s, m, usedBuckets, retainedValues, retainedKeys) && Shape(s)
      requires Carried(s, m, |s.values|)
      ensures Mirror() && NoDeleted(slots.values) && DeletedCount(slots.values) == 0
      ensures Sound(c, slots, m, usedBuckets, retainedValues, retainedKeys)
    {
      hide Inv, Mirror;
      PartialEnds(c, s, m);
      NoTombstones(slots.values);
      assert s.values[..|s.values|] == s.values && s.keys[..|s.values|] == s.keys;
    }

    method Move(newIdx: nat)
      requires Core() && newIdx <= LAST_INDEX
      requires usedBuckets <= Capacity(newIdx) <= Size(newIdx)
      modifies this
      ensures Valid() && deleted == 0 && numBucketsIdx == newIdx
      ensures model == old(model) && usedBuckets == old(usedBuckets)
      ensures retainedValues == old(retainedValues) && retainedKeys == old(retainedKeys) && calls == old(calls)
      ensures fresh(Repr()) && NoDeleted(slots.values)
    {
      hide Mirror, Sound, Inv, Shape, LiveBag, Carried, Size, Capacity, NoDeleted, DeletedCount;
      ghost var s := slots;
      var oldValues, oldKeys, oldCounts := values, keys, counts;
      CoreHeld();
      Allocate(newIdx);
      NothingCarried(s, model);
      Transfer(oldValues, oldKeys, oldCounts, s, model);
      AllCarried(s, model);
    }

    // Moves every entry to new arrays: of the same size for 0, of a size for the given number of
    // further items when it is positive, and of the least size that will do when it is negative.
    method Rehash(newItemCount: int)
      requires Core()
      requires usedBuckets + newItemCount <= MaxItems(c)
      modifies this
      ensures Valid() && deleted == 0
      ensures model == old(model) && usedBuckets == old(usedBuckets)
      ensures retainedValues == old(retainedValues) && retainedKeys == old(retainedKeys) && calls == old(calls)
      ensures fresh(Repr()) && NoDeleted(slots.values)
      ensures newItemCount == 0 ==> numBucketsIdx == old(numBucketsIdx)
      ensures newItemCount < 0 ==> LeastFor(numBucketsIdx, usedBuckets)
      ensures newItemCount > 0 ==> FitsMore(numBucketsIdx, usedBuckets, newItemCount)
      ensures newItemCount > 0 ==> usedBuckets + newItemCount <= Capacity(numBucketsIdx)
    {
      hide Size, Capacity, Mirror, Sound, Inv, Shape, LiveBag, NoDeleted, DeletedCount, LeastFor, FitsMore;
      CoreHeld();
      var newIdx := ChooseIndex(newItemCount);
      Move(newIdx);
    }

    // The least size that will do, and one more where growth for a single item is aggressive.
    ghost predicate FitsMore(idx: nat, used: nat, newItemCount: nat) {
      if newItemCount == 1 && c.fastGrow then idx > 0 && LeastFor(idx - 1, used + 1)
      else LeastFor(idx, used + newItemCount)
    }

    method ChooseIndex(newItemCount: int) returns (newIdx: nat)
      requires usedBuckets <= Capacity(numBucketsIdx) && numBucketsIdx <= LAST_INDEX
      requires usedBuckets <= MaxItems(c) && usedBuckets + newItemCount <= MaxItems(c)
      ensures newIdx <= LAST_INDEX && usedBuckets <= Capacity(newIdx) <= Size(newIdx)
      ensures newItemCount == 0 ==> newIdx == numBucketsIdx
      ensures newItemCount < 0 ==> LeastFor(newIdx, usedBuckets)
      ensures newItemCount > 0 ==> FitsMore(newIdx, usedBuckets, newItemCount)
      ensures newItemCount > 0 ==> usedBuckets + newItemCount <= Capacity(newIdx)
    {
      hide Size, Capacity, MaxItems;
      newIdx := numBucketsIdx;
      LastSizes();
      if 0 != newItemCount {
        var req := if newItemCount < 0 then usedBuckets else usedBuckets + newItemCount;
        newIdx := IndexForCapacity(req);
        TableLaws(newIdx);
        if 1 == newItemCount && c.fastGrow {
          newIdx := newIdx + 1;
        }
      }
      TableLaws(newIdx);
    }

    lemma LastSizes()
      ensures MaxItems(c) <= MAX_ITEMS == Capacity(LAST_INDEX)
      ensures c.fastGrow ==> MaxItems(c) == Capacity(LAST_INDEX - 1)
    {
    }

    // ---------- adding, replacing and removing at a bucket ----------

    // Retains a value and its key and stores them in a slot, giving up what was there.
    method Store(b: nat, stackKey: Word, stackValue: Word)
      requires Mirror() && b < |slots.values| && b < |slots.keys| && b < |slots.counts|
      requires c.retainsValues && Live(slots.values[b]) ==> Decode(slots.values[b]) in retainedValues
      requires c.hasKeys && Live(slots.keys[b]) ==> Decode(slots.keys[b]) in retainedKeys
      requires !c.hasKeys ==> stackKey == stackValue
      modifies values, keys, this`slots, this`calls, this`retainedValues, this`retainedKeys
      ensures Mirror()
      ensures slots == Put(old(slots), b, Encode(stackKey), Encode(stackValue), old(CountAfter(b, Encode(stackValue))))
      ensures retainedValues == if c.retainsValues
        then old(retainedValues) + multiset{stackValue} - Bag1(old(slots).values[b]) else old(retainedValues)
      ensures retainedKeys == if c.hasKeys
        then old(retainedKeys) + multiset{stackKey} - Bag1(old(slots).keys[b]) else old(retainedKeys)
      ensures calls == old(calls)
        + (Retaining(c, stackKey, stackValue) + Discarding(c, old(slots).keys[b], old(slots).values[b]))
    {
      hide Mirror, Put, Bag1, Live, Encode, Decode, CountAfter, Discarding;
      ImportValue(stackValue);
      if c.hasKeys {
        ImportKey(stackKey);
      }
      assert calls == old(calls) + Retaining(c, stackKey, stackValue);
      CallsInTurn(old(calls), Retaining(c, stackKey, stackValue), Discarding(c, slots.keys[b], slots.values[b]));
      WriteSlot(b, stackKey, stackValue, false);
    }

    // Fills a dead slot, counting it once.
    method StoreNew(b: nat, stackKey: Word, stackValue: Word)
      requires Mirror() && b < |slots.values| && b < |slots.keys| && b < |slots.counts|
      requires !Live(slots.values[b]) && !Live(slots.keys[b]) && slots.counts[b] == 0
      requires Legal(c, stackKey, stackValue)
      modifies values, keys, counts, this`counts, this`countsWidth, this`slots, this`calls, this`retainedValues,
        this`retainedKeys
      ensures Mirror() && (counts == old(counts) || fresh(counts))
      ensures slots == Put(old(slots), b, Encode(stackKey), Encode(stackValue), 1)
      ensures retainedValues == old(retainedValues) + ValueBag1(c, stackValue)
      ensures retainedKeys == old(retainedKeys) + KeyBag1(c, stackKey)
      ensures calls == old(calls) + Retaining(c, stackKey, stackValue)
    {
      hide Mirror, Put, Bag1, Live, Encode, Decode, Discarding, Retaining;
      DiscardCases(c, slots.keys[b], slots.values[b], Retaining(c, stackKey, stackValue));
      SentinelsSafe(stackValue);
      DeadBag(slots.values[b], retainedValues + multiset{stackValue});
      DeadBag(slots.keys[b], retainedKeys + multiset{stackKey});
      KeyBagNone(retainedValues);
      KeyBagNone(retainedKeys);
      Store(b, stackKey, stackValue);
      PutCount(old(slots), b, Encode(stackKey), Encode(stackValue), old(CountAfter(b, Encode(stackValue))), 1);
      if c.hasCounts {
        IncSlotCount(b);
      }
    }

    // What a vacant slot is, and what filling it comes to.
    lemma FillLaw(b: nat, stackKey: Word, stackValue: Word)
      requires Core() && Shape(slots) && 0 < |slots.keys| && Vacant(slots, Home(c, |slots.keys|, stackKey), b)
      requires c.keyClass(stackKey) !in model && Legal(c, stackKey, stackValue)
      ensures b < |slots.values| && b < |slots.keys| && b < |slots.counts|
      ensures !Live(slots.values[b]) && !Live(slots.keys[b]) && slots.counts[b] == 0
      ensures var filled := Put(slots, b, Encode(stackKey), Encode(stackValue), 1);
        && DeletedCount(filled.values) + (if slots.values[b] == DELETED then 1 else 0) == DeletedCount(slots.values)
        && Sound(c, filled, model[c.keyClass(stackKey) := Entry(stackKey, stackValue, 1)], usedBuckets + 1,
                 retainedValues + ValueBag1(c, stackValue), retainedKeys + KeyBag1(c, stackKey))
    {
      hide Mirror, Sound, Inv, Shape, Vacant, Home, Size, Capacity, LiveBag, DeletedCount, Put, Bag1, Live, Encode,
        Decode, ValueBag1, KeyBag1;
      CoreHeld();
      MirrorSizes();
      VacantDead(slots, Home(c, |slots.keys|, stackKey), b);
      SentinelsSafe(stackValue);
      DeletedFill(slots, b, stackKey, stackValue, 1);
      SoundAdd(c, slots, model, usedBuckets, retainedValues, retainedKeys, b, stackKey, stackValue, 1);
    }

    // Stores a new entry of count 1 in a vacant slot, without counting the slot as used.
    method StoreFirst(b: nat, stackKey: Word, stackValue: Word)
      requires Core() && Shape(slots) && 0 < |slots.keys| && Vacant(slots, Home(c, |slots.keys|, stackKey), b)
      requires c.keyClass(stackKey) !in model && Legal(c, stackKey, stackValue)
      modifies values, keys, counts, this`counts, this`countsWidth, this`slots, this`calls, this`retainedValues,
        this`retainedKeys
      ensures Mirror() && (counts == old(counts) || fresh(counts))
      ensures Sound(c, slots, model[c.keyClass(stackKey) := Entry(stackKey, stackValue, 1)], usedBuckets + 1,
                    retainedValues, retainedKeys)
      ensures calls == old(calls) + Retaining(c, stackKey, stackValue) && b < |old(slots).values|
      ensures DeletedCount(slots.values) + (if old(slots).values[b] == DELETED then 1 else 0)
           == old(DeletedCount(slots.values))
    {
      hide Mirror, Sound, Inv, Shape, Vacant, Home, Size, Capacity, LiveBag, DeletedCount, Put, Bag1, Live, Encode,
        Decode, ValueBag1, KeyBag1, Retaining, Legal;
      FillLaw(b, stackKey, stackValue);
      StoreNew(b, stackKey, stackValue);
    }

    // Fills a vacant slot with a new entry of count 1.
    method FillNew(b: nat, stackKey: Word, stackValue: Word)
      requires Core() && usedBuckets < Capacity(numBucketsIdx) && usedBuckets < MaxItems(c)
      requires Shape(slots) && 0 < |slots.keys| && Vacant(slots, Home(c, |slots.keys|, stackKey), b)
      requires c.keyClass(stackKey) !in model && Legal(c, stackKey, stackValue)
      modifies this, values, keys, counts
      ensures Core() && fresh(Repr() - old(Repr()))
      ensures model == old(model)[c.keyClass(stackKey) := Entry(stackKey, stackValue, 1)]
      ensures b < |old(slots).values| && deleted == old(deleted) && numBucketsIdx == old(numBucketsIdx)
      ensures calls == old(calls) + Retaining(c, stackKey, stackValue)
      ensures DeletedCount(slots.values) + (if old(slots).values[b] == DELETED then 1 else 0)
           == old(DeletedCount(slots.values))
    {
      hide Mirror, Sound, Inv, Shape, Vacant, Home, Size, Capacity, DeletedCount, Retaining, Legal, MaxItems;
      StoreFirst(b, stackKey, stackValue);
      usedBuckets := usedBuckets + 1;
      model := model[c.keyClass(stackKey) := Entry(stackKey, stackValue, 1)];
    }

    lemma KeyBagNone(b: multiset<Word>)
      ensures b + multiset{} == b
    {
    }

    lemma DeletedFill(s: Slots, b: nat, key: Word, value: Word, count: nat)
      requires b < |s.values| && b < |s.keys| && b < |s.counts| && Live(Encode(value))
      ensures DeletedCount(Put(s, b, Encode(key), Encode(value), count).values)
            + (if s.values[b] == DELETED then 1 else 0) == DeletedCount(s.values)
    {
      DeletedUpdate(s.values, b, Encode(value));
    }

    // Within its capacity a table is not full.
    lemma RoomLeft()
      requires Core() && usedBuckets < Capacity(numBucketsIdx)
      ensures |LiveBag(slots.values)| < |slots.values| && !AllSlotsLive(slots.values)
    {
      hide Inv, LiveBag, Capacity, Size;
      TableLaws(numBucketsIdx);
      DeadSlot(slots.values);
    }

    // Rehashes to make room for one more, and finds the bucket of a new key.
    method Grow(stackKey: Word) returns (b: nat)
      requires Valid() && usedBuckets < MaxItems(c)
      modifies this
      ensures Valid() && deleted == 0 && usedBuckets < Capacity(numBucketsIdx)
      ensures model == old(model) && usedBuckets == old(usedBuckets) && FitsMore(numBucketsIdx, usedBuckets, 1)
      ensures retainedValues == old(retainedValues) && retainedKeys == old(retainedKeys) && calls == old(calls)
      ensures Shape(slots) && 0 < |slots.keys| && Vacant(slots, Home(c, |slots.keys|, stackKey), b)
      ensures fresh(Repr()) && (b < |slots.values| ==> slots.values[b] != DELETED)
    {
      hide Core, Sound, Inv, Shape, Home, Vacant, LiveBag, DeletedCount, Capacity, Size, NoDeleted, LeastFor, FitsMore;
      Rehash(1);
      CoreHeld();
      RoomLeft();
      b := FindBucketNoCollision(stackKey, model);
      NothingDeletedAt(b);
    }

    method AddValueAt(bktIdx: int, stackKey: Word, stackValue: Word)
      requires Valid() && usedBuckets < MaxItems(c) && Shape(slots) && Free(stackKey, bktIdx)
      requires c.keyClass(stackKey) !in model && Legal(c, stackKey, stackValue)
      modifies this, values, keys, counts
      ensures Valid() && fresh(Repr() - old(Repr()))
      ensures model == old(model)[c.keyClass(stackKey) := Entry(stackKey, stackValue, 1)]
      ensures calls == old(calls) + Retaining(c, stackKey, stackValue)
      ensures if old(usedBuckets) < Capacity(old(numBucketsIdx)) then numBucketsIdx == old(numBucketsIdx)
              else FitsMore(numBucketsIdx, old(usedBuckets), 1)
    {
      hide Core, Sound, Inv, Shape, Home, Vacant, LiveBag, DeletedCount, Capacity, Size, Storable, NoDeleted,
        AllSlotsLive, Retaining, LeastFor, FitsMore;
      var b := PlaceFor(bktIdx, stackKey);
      FillNew(b, stackKey, stackValue);
    }

    // Grows the table at its capacity; otherwise the new entry may take the place of a tombstone.
    method PlaceFor(bktIdx: int, stackKey: Word) returns (b: nat)
      requires Valid() && usedBuckets < MaxItems(c) && Shape(slots) && Free(stackKey, bktIdx)
      modifies this
      ensures Core() && usedBuckets < Capacity(numBucketsIdx) && (Repr() == old(Repr()) || fresh(Repr()))
      ensures Shape(slots) && 0 < |slots.keys| && Vacant(slots, Home(c, |slots.keys|, stackKey), b)
      ensures model == old(model) && calls == old(calls) && usedBuckets == old(usedBuckets)
      ensures b < |slots.values| && deleted < 0x1_0000
      ensures deleted + (if slots.values[b] == DELETED then 1 else 0) == DeletedCount(slots.values)
      ensures if old(usedBuckets) < Capacity(old(numBucketsIdx)) then numBucketsIdx == old(numBucketsIdx)
              else FitsMore(numBucketsIdx, old(usedBuckets), 1)
    {
      hide Core, Sound, Inv, Shape, Home, Vacant, LiveBag, DeletedCount, Capacity, Size, NoDeleted, AllSlotsLive,
        LeastFor, FitsMore;
      CoreHeld();
      MirrorSizes();
      if Capacity(numBucketsIdx) < usedBuckets + 1 {
        b := Grow(stackKey);
        CoreHeld();
        MirrorSizes();
        VacantDead(slots, Home(c, |slots.keys|, stackKey), b);
      } else {
        RoomLeft();
        b := bktIdx;
        VacantDead(slots, Home(c, |slots.keys|, stackKey), b);
        var word := GetValueWord(b);
        if word == DELETED {
          SomeTombstone(slots.values, b);
          deleted := deleted - 1;
        }
      }
    }

    lemma NothingDeletedAt(b: nat)
      requires NoDeleted(slots.values)
      ensures b < |slots.values| ==> slots.values[b] != DELETED
    {
    }

    // Stores over a live slot, keeping its count.
    method Overwrite(b: nat, stackKey: Word, stackValue: Word)
      requires Mirror() && b < |slots.values| && b < |slots.keys| && b < |slots.counts| && Live(slots.values[b])
      requires c.retainsValues ==> Decode(slots.values[b]) in retainedValues
      requires c.hasKeys ==> Decode(slots.keys[b]) in retainedKeys
      requires Legal(c, stackKey, stackValue)
      modifies values, keys, this`slots, this`calls, this`retainedValues, this`retainedKeys
      ensures Mirror()
      ensures slots == Put(old(slots), b, Encode(stackKey), Encode(stackValue), old(slots).counts[b])
      ensures retainedValues == if c.retainsValues
        then old(retainedValues) + multiset{stackValue} - Bag1(old(slots).values[b]) else old(retainedValues)
      ensures retainedKeys == if c.hasKeys
        then old(retainedKeys) + multiset{stackKey} - Bag1(old(slots).keys[b]) else old(retainedKeys)
      ensures Live(old(slots).keys[b]) ==>
        calls == old(calls)
          + (Retaining(c, stackKey, stackValue) +
            Releasing(c, Decode(old(slots).keys[b]), Decode(old(slots).values[b])))
    {
      hide Mirror, Decode, Live, Bag1, Put, LiveCounts, Encode, MaxCount, Discarding, Retaining, Releasing;
      DiscardCases(c, slots.keys[b], slots.values[b], calls);
      MirrorSizes();
      SentinelsSafe(stackValue);
      OldCount(slots.values, b);
      Store(b, stackKey, stackValue);
    }

    // Overwrites value and key of a live slot with an equal key.
    method ReplaceValueAt(b: nat, stackKey: Word, stackValue: Word)
      requires Valid() && Shape(slots) && Holds(c, slots, c.keyClass(stackKey), b)
      requires Legal(c, stackKey, stackValue) && c.keyClass(stackKey) in model
      modifies this, values, keys
      ensures Valid() && Repr() == old(Repr())
      ensures model == old(model)[c.keyClass(stackKey) :=
        Entry(stackKey, stackValue, old(model)[c.keyClass(stackKey)].count)]
      // the new words are retained before the old ones are released
      ensures calls == old(calls) + (Retaining(c, stackKey, stackValue)
        + Releasing(c, old(model)[c.keyClass(stackKey)].key, old(model)[c.keyClass(stackKey)].value))
    {
      hide Mirror, Sound, Inv, Shape, Holds, LiveBag, DeletedCount, Capacity, Size, Encode, Decode, Live, Bag1, Put,
        Storable, Retaining, Releasing;
      ghost var r := c.keyClass(stackKey);
      CoreHeld();
      MirrorSizes();
      HeldLaw(c, slots, model, r, b);
      HeldRetained(c, slots, model, usedBuckets, retainedValues, retainedKeys, r, b);
      ghost var count := slots.counts[b];
      SentinelsSafe(stackValue);
      DeletedFill(slots, b, stackKey, stackValue, count);
      SoundChange(c, slots, model, usedBuckets, retainedValues, retainedKeys, b, stackKey, stackValue, count);
      DeletedNotLive();
      Overwrite(b, stackKey, stackValue);
      model := model[r := Entry(stackKey, stackValue, count)];
    }

    lemma DeletedNotLive()
      ensures !Live(DELETED)
    {
    }

    // Makes a slot of count 1 a tombstone, giving up what was there.
    method Erase(b: nat)
      requires Mirror() && b < |slots.values| && b < |slots.keys| && b < |slots.counts| && slots.counts[b] == 1
      requires c.retainsValues && Live(slots.values[b]) ==> Decode(slots.values[b]) in retainedValues
      requires c.hasKeys && Live(slots.keys[b]) ==> Decode(slots.keys[b]) in retainedKeys
      modifies values, keys, counts, this`slots, this`calls, this`retainedValues, this`retainedKeys
      ensures Mirror() && slots == Put(old(slots), b, DELETED, DELETED, 0)
      ensures retainedValues
           == if c.retainsValues then old(retainedValues) - Bag1(old(slots).values[b]) else old(retainedValues)
      ensures retainedKeys == if c.hasKeys then old(retainedKeys) - Bag1(old(slots).keys[b]) else old(retainedKeys)
      ensures calls == old(calls) + Discarding(c, old(slots).keys[b], old(slots).values[b])
    {
      hide Mirror, Decode, Live, Bag1, Put, Discarding;
      DeletedNotLive();
      WriteSlot(b, WORD_MAX, WORD_MAX, true);
      PutCount(old(slots), b, WORD_MAX, WORD_MAX, old(CountAfter(b, WORD_MAX)), 0);
      if c.hasCounts {
        DecSlotCount(b);
      }
    }

    // Empties a live slot of count 1, leaving a tombstone.
    method BuryAt(b: nat, ghost r: Word)
      requires Core() && Shape(slots) && Holds(c, slots, r, b) && slots.counts[b] == 1
      modifies this, values, keys, counts
      ensures Core() && Repr() == old(Repr()) && numBucketsIdx == old(numBucketsIdx)
      ensures r in old(model) && model == old(model) - {r} && deleted == old(deleted)
      ensures usedBuckets == old(usedBuckets) - 1
      ensures calls == old(calls) + Releasing(c, old(model)[r].key, old(model)[r].value)
      ensures DeletedCount(slots.values) == old(DeletedCount(slots.values)) + 1
    {
      hide Mirror, Sound, Inv, Shape, Holds, LiveBag, DeletedCount, Capacity, Size, Encode, Decode, Live, Bag1, Put,
        LiveCounts, MaxCount, Discarding, Releasing;
      CoreHeld();
      MirrorSizes();
      HeldLaw(c, slots, model, r, b);
      DiscardCases(c, slots.keys[b], slots.values[b], calls);
      HeldRetained(c, slots, model, usedBuckets, retainedValues, retainedKeys, r, b);
      SoundRemove(c, slots, model, usedBuckets, retainedValues, retainedKeys, b, r);
      DeletedBury(slots, b);
      Erase(b);
      usedBuckets := usedBuckets - 1;
      model := model - {r};
    }

    lemma DeletedBury(s: Slots, b: nat)
      requires b < |s.values| && b < |s.keys| && b < |s.counts| && Live(s.values[b])
      ensures DeletedCount(Put(s, b, DELETED, DELETED, 0).values) == DeletedCount(s.values) + 1
    {
      DeletedUpdate(s.values, b, DELETED);
    }

    // So few slots are used that the table shrinks: they would fit a much smaller one.
    ghost predicate Sparse(idx: nat, used: nat) {
      if c.fastGrow then 5 < idx && used < Capacity(idx - 5) else 2 < idx && used < Capacity(idx - 2)
    }

    // One more tombstone is too many: they are a quarter of all slots, or their 16-bit count rolls over.
    ghost predicate Littered(idx: nat, deleted: nat) {
      deleted == 0xFFFF || (20 <= Size(idx) && Size(idx) / 4 <= deleted + 1)
    }

    // Removes the only instance of an entry.  The table shrinks when few slots are in use, and is
    // rehashed in place when there are many tombstones or their 16-bit count has rolled over.
    method RemoveValueAt(b: nat, ghost r: Word)
      requires Valid() && Shape(slots) && Holds(c, slots, r, b) && slots.counts[b] == 1
      modifies this, values, keys, counts
      ensures Valid() && fresh(Repr() - old(Repr()))
      ensures r in old(model) && model == old(model) - {r}
      ensures calls == old(calls) + Releasing(c, old(model)[r].key, old(model)[r].value)
      ensures usedBuckets == old(usedBuckets) - 1
      ensures if Sparse(old(numBucketsIdx), usedBuckets) then LeastFor(numBucketsIdx, usedBuckets) && deleted == 0
              else numBucketsIdx == old(numBucketsIdx)
                   && deleted == if Littered(numBucketsIdx, old(deleted)) then 0 else old(deleted) + 1
    {
      hide Core, Sound, Inv, Shape, Holds, LiveBag, DeletedCount, Capacity, Size, NoDeleted, Releasing, LeastFor,
        Sparse, Littered;
      BuryAt(b, r);
      deleted := (deleted + 1) % 0x1_0000;
      Tidy(old(deleted));
    }

    // Shrinks the table or rids it of its tombstones, if it is time for that.
    method Tidy(ghost was: nat)
      requires Core() && was < 0x1_0000 && deleted == (was + 1) % 0x1_0000 && DeletedCount(slots.values) == was + 1
      modifies this
      ensures Valid() && (Repr() == old(Repr()) || fresh(Repr()))
      ensures model == old(model) && calls == old(calls) && usedBuckets == old(usedBuckets)
      ensures if Sparse(old(numBucketsIdx), usedBuckets) then LeastFor(numBucketsIdx, usedBuckets) && deleted == 0
              else numBucketsIdx == old(numBucketsIdx) && deleted == if Littered(numBucketsIdx, was) then 0 else was + 1
    {
      hide Core, Sound, Inv, Shape, LiveBag, DeletedCount, Capacity, Size, NoDeleted, LeastFor, FitsMore;
      CoreHeld();
      var doShrink;
      if c.fastGrow {
        doShrink := 5 < numBucketsIdx && usedBuckets < Capacity(numBucketsIdx - 5);
      } else {
        doShrink := 2 < numBucketsIdx && usedBuckets < Capacity(numBucketsIdx - 2);
      }
      if doShrink {
        Rehash(-1);
        return;
      }
      doShrink := 0 == deleted;
      var numBuckets := Size(numBucketsIdx);
      doShrink := doShrink || (20 <= numBuckets && numBuckets / 4 <= deleted);
      if doShrink {
        Rehash(0);
      }
    }

    // ---------- the operations ----------

    lemma CoreProper()
      requires Core()
      ensures Proper(c, model)
    {
      hide Reachable, Mirror, Size, Capacity, MaxItems, LiveBag, Legal, Decode;
      CoreHeld();
      forall r | r in model
        ensures 0 < model[r].count <= COUNT_MAX && (!c.hasCounts ==> model[r].count == 1)
        ensures Legal(c, model[r].key, model[r].value) && c.keyClass(model[r].key) == r
      {
        var i: nat :| Holds(c, slots, r, i);
        EntryProper(r, i);
      }
    }

    lemma EntryProper(r: Word, i: nat)
      requires Mirror() && Shape(slots) && Holds(c, slots, r, i)
      ensures var e := EntryAt(slots, i);
        && 0 < e.count <= COUNT_MAX && (!c.hasCounts ==> e.count == 1)
        && Legal(c, e.key, e.value) && c.keyClass(e.key) == r
    {
      hide Size, Decode;
      MirrorSizes();
      DecodeStorable(slots.keys[i]);
      DecodeStorable(slots.values[i]);
      OldCount(slots.values, i);
    }

    method IncCountAt(b: nat, ghost r: Word)
      requires Valid() && c.hasCounts && Shape(slots) && Holds(c, slots, r, b)
      requires r in model && model[r].count < COUNT_MAX && model[r] == EntryAt(slots, b)
      modifies this, counts
      ensures Valid() && fresh(Repr() - old(Repr()))
      ensures calls == old(calls)
      ensures model == old(model)[r := old(model)[r].(count := old(model)[r].count + 1)]
    {
      hide Mirror, Sound, Inv, Shape, Holds, LiveBag, DeletedCount, Capacity, Size, Encode, Decode, Live, LiveCounts;
      CoreHeld();
      MirrorSizes();
      HeldLaw(c, slots, model, r, b);
      SoundCount(c, slots, model, usedBuckets, retainedValues, retainedKeys, b, r, model[r].count + 1);
      IncSlotCount(b);
      model := model[r := model[r].(count := model[r].count + 1)];
    }

    method DecCountAt(b: nat, ghost r: Word)
      requires Valid() && c.hasCounts && Shape(slots) && Holds(c, slots, r, b)
      requires r in model && model[r].count > 1 && model[r] == EntryAt(slots, b)
      modifies this, counts
      ensures Valid() && Repr() == old(Repr())
      ensures calls == old(calls)
      ensures model == old(model)[r := old(model)[r].(count := old(model)[r].count - 1)]
    {
      hide Mirror, Sound, Inv, Shape, Holds, LiveBag, DeletedCount, Capacity, Size, Encode, Decode, Live, LiveCounts;
      CoreHeld();
      MirrorSizes();
      HeldLaw(c, slots, model, r, b);
      SoundCount(c, slots, model, usedBuckets, retainedValues, retainedKeys, b, r, model[r].count - 1);
      DecSlotCount(b);
      model := model[r := model[r].(count := model[r].count - 1)];
    }

    // Adds an entry, or one more instance of it where counts are kept.
    lemma CoreUsed()
      requires Core()
      ensures |LiveBag(slots.values)| == usedBuckets
    {
    }

    lemma CoreInv()
      requires Core()
      ensures Mirror() && Inv(c, slots, model) && Shape(slots) && usedBuckets == |model| <= MaxItems(c)
      ensures countsWidth <= 3
    {
    }

    method Add(stackKey: Word, stackValue: Word) returns (added: bool)
      requires Valid() && Legal(c, stackKey, stackValue)
      requires c.keyClass(stackKey) in model || |model| < MaxItems(c)
      modifies this, values, keys, counts
      ensures Valid() && fresh(Repr() - old(Repr()))
      ensures model == Added(c, old(model), stackKey, stackValue)
      ensures added <==> model != old(model)
      ensures calls == old(calls)
        + if c.keyClass(stackKey) in old(model) then [] else Retaining(c, stackKey, stackValue)
    {
      hide Core, Sound, Inv, Shape, Holds, Free, DeletedCount, Decode, Storable, Added, Retaining;
      CoreInv();
      AddedCases(c, model, stackKey, stackValue);
      var bkt := FindBucket(stackKey, model);
      if 0 < bkt.count {
        if c.hasCounts && bkt.count < COUNT_MAX {
          IncCountAt(bkt.idx, c.keyClass(stackKey));
          return true;
        }
      } else {
        AddValueAt(bkt.idx, stackKey, stackValue);
        return true;
      }
      return false;
    }

    // Changes an entry that is there; the key is replaced with the value.
    method Replace(stackKey: Word, stackValue: Word)
      requires Valid() && Legal(c, stackKey, stackValue)
      modifies this, values, keys
      ensures Valid() && Repr() == old(Repr())
      ensures model == Replaced(c, old(model), stackKey, stackValue)
      ensures calls == old(calls) + Exchanging(c, old(model), stackKey, stackValue)
    {
      hide Core, Sound, Inv, Shape, Holds, Free, DeletedCount, Decode, Storable, Retaining, Releasing;
      CoreInv();
      var bkt := FindBucket(stackKey, model);
      if 0 < bkt.count {
        ReplaceValueAt(bkt.idx, stackKey, stackValue);
      }
    }

    method Set(stackKey: Word, stackValue: Word)
      requires Valid() && Legal(c, stackKey, stackValue)
      requires c.keyClass(stackKey) in model || |model| < MaxItems(c)
      modifies this, values, keys, counts
      ensures Valid() && fresh(Repr() - old(Repr()))
      ensures model == SetTo(c, old(model), stackKey, stackValue)
      ensures calls == old(calls) + if c.keyClass(stackKey) in old(model)
        then Exchanging(c, old(model), stackKey, stackValue) else Retaining(c, stackKey, stackValue)
    {
      hide Core, Sound, Inv, Shape, Holds, Free, DeletedCount, Decode, Storable, Retaining, Releasing;
      CoreInv();
      var bkt := FindBucket(stackKey, model);
      if 0 < bkt.count {
        ReplaceValueAt(bkt.idx, stackKey, stackValue);
      } else {
        AddValueAt(bkt.idx, stackKey, stackValue);
      }
    }

    // Removes one instance of an entry, and returns how many there were.
    method Remove(stackKey: Word) returns (count: nat)
      requires Valid()
      modifies this, values, keys, counts
      ensures Valid() && fresh(Repr() - old(Repr()))
      ensures model == Removed(c, old(model), stackKey)
      ensures count == CountOf(c, old(model), stackKey)
      ensures calls == old(calls) + if count != 1 then []
        else Releasing(c, old(model)[c.keyClass(stackKey)].key, old(model)[c.keyClass(stackKey)].value)
    {
      hide Core, Sound, Inv, Shape, Holds, Free, DeletedCount, Decode, Releasing;
      if SUB_ZERO == stackKey || SUB_ONE == stackKey {
        return 0;
      }
      CoreInv();
      var bkt := FindBucket(stackKey, model);
      if 1 < bkt.count {
        if c.hasCounts && bkt.count < COUNT_MAX {
          DecCountAt(bkt.idx, c.keyClass(stackKey));
        }
      } else if 0 < bkt.count {
        RemoveValueAt(bkt.idx, c.keyClass(stackKey));
      }
      return bkt.count;
    }

    method GetCountOfKey(stackKey: Word) returns (count: nat)
      requires Valid()
      ensures count == CountOf(c, model, stackKey)
    {
      hide Core, Sound, Inv, Shape, Holds, Free, DeletedCount, Decode;
      if SUB_ZERO == stackKey || SUB_ONE == stackKey {
        return 0;
      }
      CoreInv();
      if 0 == usedBuckets {
        return 0;
      }
      var bkt := FindBucket(stackKey, model);
      return bkt.count;
    }

    // The entry of a key, or none.
    method Lookup(stackKey: Word) returns (bkt: Bucket)
      requires Valid()
      ensures bkt.count == CountOf(c, model, stackKey)
      ensures bkt.count > 0 ==> Entry(bkt.weakKey, bkt.weakValue, bkt.count) == model[c.keyClass(stackKey)]
      ensures !Storable(stackKey) ==> bkt == Bucket(-1, 0, 0, 0)
    {
      hide Core, Sound, Inv, Shape, Holds, Free, DeletedCount, Decode;
      if SUB_ZERO == stackKey || SUB_ONE == stackKey {
        return Bucket(NOT_FOUND, 0, 0, 0);
      }
      CoreInv();
      bkt := FindBucket(stackKey, model);
    }

    method SetCapacity(capacity: nat)
      requires Valid() && capacity <= MaxItems(c)
      modifies this
      ensures Valid() && model == old(model) && calls == old(calls)
      ensures old(usedBuckets) < capacity ==>
        FitsMore(numBucketsIdx, old(usedBuckets), capacity - old(usedBuckets))
      ensures if old(usedBuckets) < capacity then fresh(Repr()) && capacity <= Capacity(numBucketsIdx)
              else Repr() == old(Repr()) && numBucketsIdx == old(numBucketsIdx)
    {
      hide Core, DeletedCount, Capacity, NoDeleted, LeastFor, FitsMore;
      if usedBuckets < capacity {
        Rehash(capacity - usedBuckets);
      }
    }

    // ---------- emptying ----------

    lemma NoneHeld()
      requires Core() && numBucketsIdx == 0
      ensures model == map[] && retainedValues == multiset{} && retainedKeys == multiset{}
      ensures slots.values == [] && slots.keys == [] && calls + Drained(c, slots, 0) == calls
    {
      assert slots.values == [] && slots.keys == [];
    }

    lemma EmptyValid()
      requires values.Length == keys.Length == counts.Length == 0 && values != keys
      requires slots == Slots([], [], []) && numBucketsIdx == usedBuckets == deleted == 0 && countsWidth <= 3
      requires model == map[] && retainedValues == retainedKeys == multiset{}
      ensures Valid()
    {
    }

    lemma CoreRetained()
      requires Core()
      ensures slots.values == values[..] && slots.keys == (if c.hasKeys then keys[..] else values[..])
      ensures |slots.keys| == |slots.values| && countsWidth <= 3
      ensures retainedValues == if c.retainsValues then LiveBag(slots.values) else multiset{}
      ensures retainedKeys == if c.hasKeys then LiveBag(slots.keys) else multiset{}
      ensures Shape(slots)
    {
    }

    lemma SameDead(s: Slots, i: nat)
      requires Shape(s) && i < |s.values|
      ensures i < |s.keys| && (Live(s.values[i]) <==> Live(s.keys[i]))
    {
    }

    // Gives up everything, slot by slot, after taking the arrays away.
    method RemoveAll()
      requires Valid()
      modifies this
      ensures Valid() && model == map[] && fresh(Repr() - old(Repr()))
      ensures retainedValues == multiset{} && retainedKeys == multiset{}
      ensures |old(slots).keys| == |old(slots).values|
      ensures calls == old(calls) + Drained(c, old(slots), |old(slots).values|)
    {
      hide Core, Mirror, Sound, Inv, Shape, LiveBag, DeletedCount, CountsFit, LiveCounts, Live, Decode, Size,
        Capacity, Left, Drained;
      CoreInv();
      if 0 == numBucketsIdx {
        NoneHeld();
        return;
      }
      Drain();
      EmptyValid();
    }

    method Drain()
      requires Core()
      modifies this
      ensures retainedValues == multiset{} && retainedKeys == multiset{} && model == map[]
      ensures values.Length == keys.Length == counts.Length == 0 && values != keys
      ensures slots == Slots([], [], []) && numBucketsIdx == usedBuckets == deleted == 0 && countsWidth <= 3
      ensures fresh(Repr()) && |old(slots).keys| == |old(slots).values|
      ensures calls == old(calls) + Drained(c, old(slots), |old(slots).values|)
    {
      hide Core, Mirror, Sound, Inv, Shape, LiveBag, CountsFit, LiveCounts, Live, Decode, Size, Capacity, Left, Drained;
      CoreRetained();
      ghost var s := slots;
      LeftStart(c.retainsValues, s.values);
      LeftStart(c.hasKeys, s.keys);
      var oldValues, oldKeys := TakeArrays();
      GiveUp(oldValues, oldKeys, s);
    }

    method TakeArrays() returns (oldValues: array<Word>, oldKeys: array<Word>)
      modifies this`values, this`keys, this`counts, this`slots, this`numBucketsIdx, this`usedBuckets, this`deleted,
        this`model
      ensures oldValues == old(values) && oldKeys == old(keys) && model == map[]
      ensures values.Length == keys.Length == counts.Length == 0 && values != keys
      ensures slots == Slots([], [], []) && numBucketsIdx == usedBuckets == deleted == 0
      ensures fresh(Repr())
    {
      oldValues, oldKeys := values, keys;
      values, keys, counts := new Word[0], new Word[0], new nat[0];
      slots := Slots([], [], []);
      numBucketsIdx, usedBuckets, deleted := 0, 0, 0;
      model := map[];
    }

    method GiveUp(oldValues: array<Word>, oldKeys: array<Word>, ghost s: Slots)
      requires Shape(s) && |s.keys| == |s.values|
      requires s.values == oldValues[..] && s.keys == (if c.hasKeys then oldKeys[..] else oldValues[..])
      requires Left(retainedValues, c.retainsValues, s.values, 0) && Left(retainedKeys, c.hasKeys, s.keys, 0)
      modifies this`calls, this`retainedValues, this`retainedKeys
      ensures retainedValues == multiset{} && retainedKeys == multiset{}
      ensures calls == old(calls) + Drained(c, s, |s.values|)
    {
      hide Shape, Live, Decode, Left, Drained, Discarding, Releasing;
      DrainedNone(c, s, calls);
      for idx := 0 to oldValues.Length
        invariant Left(retainedValues, c.retainsValues, s.values, idx) && Left(retainedKeys, c.hasKeys, s.keys, idx)
        invariant calls == old(calls) + Drained(c, s, idx)
      {
        ghost var before := calls;
        SameDead(s, idx);
        DrainedStep(c, s, idx, old(calls));
        DiscardCases(c, s.keys[idx], s.values[idx], before);
        ReleasedInTurn(c, Decode(s.keys[idx]), Decode(s.values[idx]), before);
        LeftStep(retainedValues, c.retainsValues, s.values, idx);
        LeftStep(retainedKeys, c.hasKeys, s.keys, idx);
        LiveWord(s.values[idx]);
        var oldValue := oldValues[idx];
        if oldValue != 0 && oldValue != WORD_MAX {
          EjectValue(Decode(oldValue));
          if c.hasKeys {
            EjectKey(Decode(oldKeys[idx]));
          }
        }
      }
      LeftEnd(retainedValues, c.retainsValues, s.values);
      LeftEnd(retainedKeys, c.hasKeys, s.keys);
    }
  }
}
