// Tables that number their keys: inserting at a number moves the later ones up, and removing a
// number moves them down.
module HashIntegers {
  import opened HashSizes
  import opened HashSlots
  import opened HashLaws
  import opened HashModel
  import opened HashTable

  // Keys with plain integers for values, on which there are no callbacks.
  predicate Numbering(c: Config) {
    c.hasKeys && !c.retainsValues
  }

  // The values are 0, 1, ... |m| - 1, each once.
  ghost predicate Numbered(m: Model) {
    && (forall r :: r in m ==> m[r].value < |m|)
    && Distinct(m)
    && (forall j :: 0 <= j < |m| ==> Taken(m, j))
  }

  ghost predicate Distinct(m: Model) {
    forall q, r :: q in m && r in m && m[q].value == m[r].value ==> q == r
  }

  ghost predicate Taken(m: Model, j: int) {
    exists r :: HasValue(m, r, j)
  }

  ghost predicate HasValue(m: Model, r: Word, j: int) {
    r in m && m[r].value == j
  }

  function Up(i: Word, w: Word): Word {
    if i <= w then (w + 1) % (WORD_MAX + 1) else w
  }

  function Down(i: Word, w: Word): Word {
    if i < w then w - 1 else w
  }

  datatype Shift = UpFrom(i: Word) | DownFrom(i: Word)

  function Moved(d: Shift, w: Word): Word {
    match d
    case UpFrom(i) => Up(i, w)
    case DownFrom(i) => Down(i, w)
  }

  // No number becomes one of the words that a table cannot store.
  ghost predicate MovesSafely(m: Model, d: Shift) {
    forall r :: r in m ==> Storable(Moved(d, m[r].value))
  }

  // One entry alone has the number i, and has it once.
  ghost predicate HoldsAlone(m: Model, r: Word, i: Word) {
    && HasValue(m, r, i) && m[r].count == 1
    && forall q :: q in m && m[q].value == i ==> q == r
  }

  ghost predicate HeldAlone(m: Model, i: Word) {
    exists r :: HoldsAlone(m, r, i)
  }

  function Renumbered(m: Model, d: Shift): Model {
    map r | r in m :: m[r].(value := Moved(d, m[r].value))
  }

  function AddedInt(c: Config, m: Model, k: Word, i: Word): Model {
    if c.keyClass(k) in m then m
    else Renumbered(m, UpFrom(i))[c.keyClass(k) := Entry(k, i, 1)]
  }

  function RemovedInt(m: Model, i: Word): Model {
    map r | r in m && m[r].value != i :: m[r].(value := Down(i, m[r].value))
  }

  // ---------- what the operations mean ----------

  lemma UpLaw(i: Word, w: Word)
    requires w < WORD_MAX
    ensures Up(i, w) == if i <= w then w + 1 else w
  {
  }

  lemma AddedIntParts(c: Config, m: Model, k: Word, i: Word)
    requires c.keyClass(k) !in m && forall r :: r in m ==> m[r].value < WORD_MAX
    ensures AddedInt(c, m, k, i).Keys == m.Keys + {c.keyClass(k)} && |AddedInt(c, m, k, i)| == |m| + 1
    ensures AddedInt(c, m, k, i)[c.keyClass(k)] == Entry(k, i, 1)
    ensures forall r :: r in m ==>
      AddedInt(c, m, k, i)[r] == m[r].(value := if i <= m[r].value then m[r].value + 1 else m[r].value)
  {
    hide Up;
    forall r | r in m ensures AddedInt(c, m, k, i)[r]
      == m[r].(value := if i <= m[r].value then m[r].value + 1 else m[r].value)
    {
      UpLaw(i, m[r].value);
    }
    assert AddedInt(c, m, k, i).Keys == m.Keys + {c.keyClass(k)};
  }

  lemma MovedStorable(i: Word, w: Word)
    requires w < SUB_ONE - 1
    ensures Storable(Moved(UpFrom(i), w)) && Storable(Moved(DownFrom(i), w))
  {
  }

  // Where the keys are numbered, any number may be added or removed.
  lemma NumberedMoves(m: Model, i: Word)
    requires Numbered(m) && |m| < SUB_ONE && forall r :: r in m ==> m[r].count == 1
    ensures MovesSafely(m, UpFrom(i)) && MovesSafely(m, DownFrom(i))
    ensures i < |m| ==> HeldAlone(m, i)
  {
    forall r | r in m ensures Storable(Moved(UpFrom(i), m[r].value)) && Storable(Moved(DownFrom(i), m[r].value)) {
      MovedStorable(i, m[r].value);
    }
    hide Storable, Moved;
    if i < |m| {
      assert Taken(m, i);
      var r :| HasValue(m, r, i);
      assert HoldsAlone(m, r, i);
    }
  }

  // Inserting anywhere in the range, the end included, keeps the keys numbered without gaps.
  lemma AddKeepsNumbered(c: Config, m: Model, k: Word, i: Word)
    requires Numbered(m) && |m| <= MAX_ITEMS && i <= |m|
    ensures Numbered(AddedInt(c, m, k, i))
  {
    hide AddedInt, Taken, Distinct;
    AddedIntIn(c, m, k, i);
    if c.keyClass(k) !in m {
      AddDistinct(c, m, k, i);
      AddedIntParts(c, m, k, i);
      forall j | 0 <= j < |m| + 1 ensures Taken(AddedInt(c, m, k, i), j) {
        AddTaken(c, m, k, i, j);
      }
    }
  }

  lemma AddedIntIn(c: Config, m: Model, k: Word, i: Word)
    ensures c.keyClass(k) in m ==> AddedInt(c, m, k, i) == m
  {
  }

  lemma AddDistinct(c: Config, m: Model, k: Word, i: Word)
    requires Distinct(m) && (forall r :: r in m ==> m[r].value < WORD_MAX) && c.keyClass(k) !in m
    ensures Distinct(AddedInt(c, m, k, i))
  {
    hide AddedInt;
    AddedIntParts(c, m, k, i);
  }

  lemma AddTaken(c: Config, m: Model, k: Word, i: Word, j: nat)
    requires Numbered(m) && |m| <= MAX_ITEMS && i <= |m| && j <= |m| && c.keyClass(k) !in m
    ensures Taken(AddedInt(c, m, k, i), j)
  {
    hide AddedInt;
    AddedIntParts(c, m, k, i);
    var m' := AddedInt(c, m, k, i);
    if j == i {
      assert HasValue(m', c.keyClass(k), j);
    } else {
      var j' := if j < i then j else j - 1;
      assert Taken(m, j');
      var q :| HasValue(m, q, j');
      assert HasValue(m', q, j);
    }
  }

  lemma RemovedIntParts(m: Model, i: Word, r: Word)
    requires Numbered(m) && HasValue(m, r, i)
    ensures RemovedInt(m, i).Keys == m.Keys - {r} && |RemovedInt(m, i)| == |m| - 1
    ensures forall q :: q in m && q != r ==> m[q].value != i
    ensures forall q :: q in m && q != r ==>
      RemovedInt(m, i)[q] == m[q].(value := if i < m[q].value then m[q].value - 1 else m[q].value)
  {
    hide Taken;
    assert RemovedInt(m, i).Keys == m.Keys - {r};
  }

  lemma RemoveDistinct(m: Model, i: Word)
    requires Distinct(m)
    ensures Distinct(RemovedInt(m, i))
  {
  }

  lemma RemoveKeepsNumbered(m: Model, i: Word)
    requires Numbered(m) && i < |m|
    ensures Numbered(RemovedInt(m, i)) && |RemovedInt(m, i)| == |m| - 1
  {
    hide RemovedInt, Distinct;
    assert Taken(m, i);
    var r :| HasValue(m, r, i);
    RemovedIntParts(m, i, r);
    RemoveDistinct(m, i);
    var m' := RemovedInt(m, i);
    forall j | 0 <= j < |m'| ensures Taken(m', j) {
      var j' := if j < i then j else j + 1;
      assert Taken(m, j');
      var q :| HasValue(m, q, j');
      assert HasValue(m', q, j);
    }
  }

  // Removing takes back what adding a new key did.
  lemma AddThenRemoveInt(c: Config, m: Model, k: Word, i: Word)
    requires c.keyClass(k) !in m && forall r :: r in m ==> m[r].value < WORD_MAX
    ensures RemovedInt(AddedInt(c, m, k, i), i) == m
  {
    hide AddedInt, Up;
    AddedIntParts(c, m, k, i);
    var m' := AddedInt(c, m, k, i);
    assert RemovedInt(m', i).Keys == m.Keys;
  }

  // The order of the other keys is kept.
  lemma AddKeepsOrder(c: Config, m: Model, k: Word, i: Word, q: Word, r: Word)
    requires q in m && r in m && m[q].value < m[r].value < WORD_MAX
    ensures AddedInt(c, m, k, i)[q].value < AddedInt(c, m, k, i)[r].value || c.keyClass(k) in {q, r}
  {
  }

  // ---------- renumbering the slots ----------

  function Renum(w: Word, d: Shift): Word {
    if Live(w) then Encode(Moved(d, Decode(w))) else w
  }

  // The first idx slots of s have been renumbered, and nothing else has changed.
  ghost predicate Renumbering(s: Slots, s': Slots, d: Shift, idx: nat) {
    && |s.values| == |s.keys| == |s.counts| == |s'.values| && s'.keys == s.keys && s'.counts == s.counts
    && (forall j :: 0 <= j < |s.values| ==>
          s'.values[j] == if j < idx then Renum(s.values[j], d) else s.values[j])
  }

  ghost predicate KeepsStorable(s: Slots, d: Shift) {
    forall j :: 0 <= j < |s.values| && Live(s.values[j]) ==> Storable(Moved(d, Decode(s.values[j])))
  }

  // The same slots are live.
  lemma RenumLive(s: Slots, s': Slots, d: Shift)
    requires KeepsStorable(s, d) && Renumbering(s, s', d, |s.values|)
    ensures forall j :: 0 <= j < |s.values| ==>
      && (s'.values[j] == EMPTY <==> s.values[j] == EMPTY)
      && (s'.values[j] == DELETED <==> s.values[j] == DELETED)
      && (Live(s.values[j]) ==> Live(s'.values[j]) && Decode(s'.values[j]) == Moved(d, Decode(s.values[j])))
  {
    forall j | 0 <= j < |s.values| && Live(s.values[j])
      ensures Live(s'.values[j]) && Decode(s'.values[j]) == Moved(d, Decode(s.values[j]))
    {
      SentinelsSafe(Moved(d, Decode(s.values[j])));
    }
  }

  lemma {:induction false} SameLiveness(ws: seq<Word>, ws': seq<Word>)
    requires |ws| == |ws'|
    requires forall j :: 0 <= j < |ws| ==>
      (ws[j] == EMPTY <==> ws'[j] == EMPTY) && (ws[j] == DELETED <==> ws'[j] == DELETED)
    ensures |LiveBag(ws)| == |LiveBag(ws')| && DeletedCount(ws) == DeletedCount(ws')
    decreases |ws|
  {
    if ws != [] {
      SameLiveness(ws[..|ws| - 1], ws'[..|ws| - 1]);
    }
  }

  lemma RenumRefines(c: Config, s: Slots, s': Slots, m: Model, d: Shift)
    requires Shape(s) && Shape(s') && Refines(c, s, m) && KeepsStorable(s, d) && Renumbering(s, s', d, |s.values|)
    ensures Refines(c, s', Renumbered(m, d))
  {
    hide Encode, Decode, Renum;
    RenumLive(s, s', d);
    forall r | r in Renumbered(m, d) ensures exists i :: Holds(c, s', r, i) {
      var i :| Holds(c, s, r, i);
      assert Holds(c, s', r, i);
    }
  }

  lemma RenumInv(c: Config, s: Slots, s': Slots, m: Model, d: Shift)
    requires Inv(c, s, m) && KeepsStorable(s, d) && Renumbering(s, s', d, |s.values|)
    ensures Inv(c, s', Renumbered(m, d))
  {
    hide Clear, Dist, Home, Encode, Decode, Renum, Refines;
    RenumLive(s, s', d);
    RenumRefines(c, s, s', m, d);
  }

  lemma RenumSound(c: Config, s: Slots, s': Slots, m: Model, used: nat, values: multiset<Word>, keys: multiset<Word>,
                   d: Shift)
    requires Numbering(c) && Sound(c, s, m, used, values, keys)
    requires KeepsStorable(s, d) && Renumbering(s, s', d, |s.values|)
    ensures Sound(c, s', Renumbered(m, d), used, values, keys)
    ensures DeletedCount(s'.values) == DeletedCount(s.values)
  {
    hide Inv, LiveBag, DeletedCount;
    RenumInv(c, s, s', m, d);
    RenumLive(s, s', d);
    SameLiveness(s.values, s'.values);
    assert Renumbered(m, d).Keys == m.Keys;
  }

  // The place for a new key stays one.
  lemma RenumPlace(c: Config, s: Slots, s': Slots, d: Shift, k: Word, bktIdx: int)
    requires KeepsStorable(s, d) && Renumbering(s, s', d, |s.values|) && Shape(s) && Shape(s')
    requires Place(c, s, k, bktIdx)
    ensures Place(c, s', k, bktIdx)
  {
    hide Clear, Home;
    RenumLive(s, s', d);
  }

  lemma FreeIsPlace(h: BasicHash, k: Word, bktIdx: int)
    requires Shape(h.slots)
    ensures h.Free(k, bktIdx) <==> Place(h.c, h.slots, k, bktIdx)
  {
  }

  // ---------- the operations ----------

  lemma SlotsMoveSafely(c: Config, s: Slots, m: Model, d: Shift)
    requires Inv(c, s, m) && MovesSafely(m, d)
    ensures KeepsStorable(s, d)
  {
    hide Reachable, Decode, Storable, Moved;
    forall j | 0 <= j < |s.values| && Live(s.values[j]) ensures Storable(Moved(d, Decode(s.values[j]))) {
      assert m[ClassAt(c, s, j)] == EntryAt(s, j);
    }
  }

  // What a loop over the slots needs of a table, and what it keeps.
  lemma Walked(h: BasicHash)
    requires h.Core()
    ensures h.Mirror() && Inv(h.c, h.slots, h.model) && Shape(h.slots)
    ensures |h.slots.values| == |h.slots.keys| == |h.slots.counts| == Size(h.numBucketsIdx)
    ensures Sound(h.c, h.slots, h.model, h.usedBuckets, h.retainedValues, h.retainedKeys)
    ensures h.usedBuckets <= Capacity(h.numBucketsIdx) && |h.model| == h.usedBuckets <= MaxItems(h.c)
  {
  }

  lemma RenumStep(s: Slots, s': Slots, d: Shift, idx: nat)
    requires Renumbering(s, s', d, idx) && idx < |s.values| && KeepsStorable(s, d)
    ensures s'.values[idx] == s.values[idx]
    ensures !Live(s.values[idx]) ==> Renumbering(s, s', d, idx + 1)
    ensures Live(s.values[idx]) ==>
      && Storable(Moved(d, Decode(s.values[idx])))
      && Renumbering(s, s'.(values := s'.values[idx := Encode(Moved(d, Decode(s.values[idx])))]), d, idx + 1)
    ensures Live(s.values[idx]) && Moved(d, Decode(s.values[idx])) == Decode(s.values[idx]) ==>
      Renumbering(s, s', d, idx + 1)
  {
    if Live(s.values[idx]) {
      DecodeStorable(s.values[idx]);
    }
  }

  // Moves up the values of all slots.
  method MoveUpSlots(h: BasicHash, intValue: Word)
    requires h.Mirror() && h.c.hasKeys && KeepsStorable(h.slots, UpFrom(intValue))
    modifies h`slots, h`calls, h`retainedValues, h.values
    ensures h.Mirror() && Renumbering(old(h.slots), h.slots, UpFrom(intValue), |old(h.slots).values|)
    ensures h.retainedValues == old(h.retainedValues) && h.calls == old(h.calls)
  {
    hide h.Mirror, Size, Renumbering, KeepsStorable, Encode, Decode, Live, Moved;
    h.MirrorSizes();
    ghost var s, d := h.slots, UpFrom(intValue);
    RenumNone(s, d);
    var cnt := Size(h.numBucketsIdx);
    for idx := 0 to cnt
      invariant h.Mirror() && Renumbering(s, h.slots, d, idx) && |h.slots.values| == |s.values|
      invariant h.retainedValues == old(h.retainedValues) && h.calls == old(h.calls)
    {
      RenumStep(s, h.slots, d, idx);
      MovedCases(intValue, Decode(s.values[idx]));
      var word := h.GetValueWord(idx);
      LiveWord(word);
      if word != 0 && word != WORD_MAX {
        var stackValue := Decode(word);
        if intValue <= stackValue {
          h.Renumber(idx, (stackValue + 1) % (WORD_MAX + 1));
        }
      }
    }
  }

  // Renumbers every entry, keeping the place found for a new key.
  method MoveUp(h: BasicHash, intValue: Word, ghost stackKey: Word, ghost bktIdx: int)
    requires h.Valid() && Numbering(h.c) && MovesSafely(h.model, UpFrom(intValue))
    requires Shape(h.slots) && h.Free(stackKey, bktIdx)
    modifies h`slots, h`model, h`calls, h`retainedValues, h.values
    ensures h.Valid() && h.model == Renumbered(old(h.model), UpFrom(intValue)) && h.calls == old(h.calls)
    ensures Shape(h.slots) && h.Free(stackKey, bktIdx)
  {
    hide Inv, Sound, Shape, h.Mirror, h.Free, Place, Capacity, Size, Renumbering, KeepsStorable, DeletedCount,
      Renumbered, MovesSafely;
    Walked(h);
    ghost var s, d := h.slots, UpFrom(intValue);
    SlotsMoveSafely(h.c, s, h.model, d);
    FreeIsPlace(h, stackKey, bktIdx);
    MoveUpSlots(h, intValue);
    RenumSound(h.c, s, h.slots, h.model, h.usedBuckets, h.retainedValues, h.retainedKeys, d);
    RenumShape(h.c, h.slots, Renumbered(h.model, d), h.usedBuckets, h.retainedValues, h.retainedKeys);
    RenumPlace(h.c, s, h.slots, d, stackKey, bktIdx);
    FreeIsPlace(h, stackKey, bktIdx);
    h.model := Renumbered(h.model, d);
  }

  lemma RenumShape(c: Config, s: Slots, m: Model, used: nat, values: multiset<Word>, keys: multiset<Word>)
    requires Sound(c, s, m, used, values, keys)
    ensures Shape(s)
  {
  }

  lemma RenumNone(s: Slots, d: Shift)
    requires |s.values| == |s.keys| == |s.counts|
    ensures Renumbering(s, s, d, 0)
  {
  }

  lemma MovedCases(i: Word, w: Word)
    ensures Moved(UpFrom(i), w) == if i <= w then (w + 1) % (WORD_MAX + 1) else w
    ensures Moved(DownFrom(i), w) == if i < w then w - 1 else w
  {
  }

  // Room for a new key is made before renumbering.
  method MakeRoom(h: BasicHash, stackKey: Word, bktIdx: int) returns (b: int)
    requires h.Valid() && |h.model| < MaxItems(h.c) && Shape(h.slots) && h.Free(stackKey, bktIdx)
    modifies h
    ensures h.Valid() && h.model == old(h.model) && h.calls == old(h.calls) && fresh(h.Repr() - old(h.Repr()))
    ensures Shape(h.slots) && h.Free(stackKey, b)
    ensures h.usedBuckets < Capacity(h.numBucketsIdx)
    ensures if old(h.usedBuckets) < Capacity(old(h.numBucketsIdx))
            then b == bktIdx && h.slots == old(h.slots) && h.numBucketsIdx == old(h.numBucketsIdx)
            else h.FitsMore(h.numBucketsIdx, h.usedBuckets, 1)
  {
    hide h.Core, h.Mirror, h.Free, h.FitsMore, Inv, Sound, Shape, DeletedCount, Capacity;
    Walked(h);
    b := bktIdx;
    if Capacity(h.numBucketsIdx) < h.usedBuckets + 1 {
      b := h.Grow(stackKey);
      VacantFree(h, stackKey, b);
    }
  }

  // Adds a new key with the number given, moving that number and the later ones up.
  method AddIntValueAndInc(h: BasicHash, stackKey: Word, intValue: Word) returns (added: bool)
    requires h.Valid() && Numbering(h.c) && Legal(h.c, stackKey, intValue)
    requires h.c.keyClass(stackKey) !in h.model ==> MovesSafely(h.model, UpFrom(intValue))
    requires h.c.keyClass(stackKey) in h.model || |h.model| < MaxItems(h.c)
    modifies h, h.values, h.keys, h.counts
    ensures h.Valid() && fresh(h.Repr() - old(h.Repr()))
    ensures h.model == AddedInt(h.c, old(h.model), stackKey, intValue)
    ensures added <==> h.c.keyClass(stackKey) !in old(h.model)
    ensures h.calls == if added then old(h.calls) + Retaining(h.c, stackKey, intValue) else old(h.calls)
  {
    hide h.Valid, h.Core, h.Mirror, h.Free, Inv, Sound, Shape, Capacity, Renumbered, Moved, MovesSafely, AddedInt,
      Legal, Holds, Decode, Retaining;
    ValidCore(h);
    Walked(h);
    AddedIntCases(h.c, h.model, stackKey, intValue);
    var bkt := h.FindBucket(stackKey, h.model);
    if 0 < bkt.count {
      return false;
    }
    AddNewInt(h, stackKey, intValue, bkt.idx);
    return true;
  }

  method AddNewInt(h: BasicHash, stackKey: Word, intValue: Word, bktIdx: int)
    requires h.Valid() && Numbering(h.c) && Legal(h.c, stackKey, intValue) && Shape(h.slots) && h.Free(stackKey, bktIdx)
    requires h.c.keyClass(stackKey) !in h.model && MovesSafely(h.model, UpFrom(intValue)) && |h.model| < MaxItems(h.c)
    modifies h, h.values, h.keys, h.counts
    ensures h.Valid() && fresh(h.Repr() - old(h.Repr()))
    ensures h.model == AddedInt(h.c, old(h.model), stackKey, intValue)
    ensures h.calls == old(h.calls) + Retaining(h.c, stackKey, intValue)
  {
    hide h.Valid, h.Core, h.Mirror, h.Free, Inv, Sound, Shape, Capacity, Renumbered, Moved, MovesSafely, AddedInt,
      Legal, Retaining;
    AddedIntCases(h.c, h.model, stackKey, intValue);
    var b := MakeRoom(h, stackKey, bktIdx);
    MoveUp(h, intValue, stackKey, b);
    ValidCore(h);
    Walked(h);
    h.AddValueAt(b, stackKey, intValue);
  }

  lemma ValidCore(h: BasicHash)
    requires h.Valid()
    ensures h.Core()
  {
  }

  lemma AddedIntCases(c: Config, m: Model, k: Word, i: Word)
    ensures c.keyClass(k) in m ==> AddedInt(c, m, k, i) == m
    ensures c.keyClass(k) !in m ==> AddedInt(c, m, k, i) == Renumbered(m, UpFrom(i))[c.keyClass(k) := Entry(k, i, 1)]
    ensures Renumbered(m, UpFrom(i)).Keys == m.Keys && |Renumbered(m, UpFrom(i))| == |m|
  {
    assert Renumbered(m, UpFrom(i)).Keys == m.Keys;
  }

  lemma VacantFree(h: BasicHash, stackKey: Word, b: nat)
    requires Shape(h.slots) && 0 < |h.slots.keys| && Vacant(h.slots, Home(h.c, |h.slots.keys|, stackKey), b)
    ensures h.Free(stackKey, b)
  {
  }

  // The slot that holds the number i among the first idx, if one does.
  ghost predicate Located(s: Slots, i: Word, idx: nat, bktIdx: int)
    requires idx <= |s.values|
  {
    if bktIdx == NOT_FOUND then forall j :: 0 <= j < idx && Live(s.values[j]) ==> Decode(s.values[j]) != i
    else 0 <= bktIdx < idx && Live(s.values[bktIdx]) && Decode(s.values[bktIdx]) == i
  }

  // Moves down the values of all slots, and finds the one given.
  method MoveDownSlots(h: BasicHash, intValue: Word) returns (bktIdx: int)
    requires h.Mirror() && h.c.hasKeys && KeepsStorable(h.slots, DownFrom(intValue))
    modifies h`slots, h`calls, h`retainedValues, h.values
    ensures h.Mirror() && Renumbering(old(h.slots), h.slots, DownFrom(intValue), |old(h.slots).values|)
    ensures h.retainedValues == old(h.retainedValues) && h.calls == old(h.calls)
    ensures Located(old(h.slots), intValue, |old(h.slots).values|, bktIdx)
  {
    hide h.Mirror, Size, Renumbering, KeepsStorable, Encode, Decode, Live, Moved;
    h.MirrorSizes();
    ghost var s, d := h.slots, DownFrom(intValue);
    RenumNone(s, d);
    bktIdx := NOT_FOUND;
    var cnt := Size(h.numBucketsIdx);
    for idx := 0 to cnt
      invariant h.Mirror() && Renumbering(s, h.slots, d, idx) && |h.slots.values| == |s.values|
      invariant h.retainedValues == old(h.retainedValues) && h.calls == old(h.calls)
      invariant Located(s, intValue, idx, bktIdx)
    {
      RenumStep(s, h.slots, d, idx);
      MovedCases(intValue, Decode(s.values[idx]));
      var word := h.GetValueWord(idx);
      LiveWord(word);
      if word != 0 && word != WORD_MAX {
        var stackValue := Decode(word);
        if intValue == stackValue {
          bktIdx := idx;
        }
        if intValue < stackValue {
          h.Renumber(idx, stackValue - 1);
        }
      }
    }
  }

  lemma AloneLocated(c: Config, s: Slots, m: Model, i: Word, r: Word, bktIdx: int)
    requires Inv(c, s, m) && HoldsAlone(m, r, i) && Located(s, i, |s.values|, bktIdx)
    ensures Shape(s) && 0 <= bktIdx && Holds(c, s, r, bktIdx)
  {
    hide Reachable, Decode;
    var b: nat :| Holds(c, s, r, b);
    assert m[r] == EntryAt(s, b);
    assert HasValue(m, ClassAt(c, s, bktIdx), i);
  }

  lemma HoldsKept(c: Config, s: Slots, s': Slots, d: Shift, r: Word, b: nat)
    requires Shape(s) && Shape(s') && KeepsStorable(s, d) && Renumbering(s, s', d, |s.values|)
    requires Holds(c, s, r, b)
    ensures Holds(c, s', r, b) && s'.counts[b] == s.counts[b]
  {
    RenumLive(s, s', d);
  }

  lemma OneEach(c: Config, s: Slots, m: Model, r: Word, b: nat, i: Word)
    requires Inv(c, s, m) && Holds(c, s, r, b) && HoldsAlone(m, r, i)
    ensures s.counts[b] == 1
  {
  }

  lemma RemovedIntIs(m: Model, i: Word, r: Word)
    requires HoldsAlone(m, r, i)
    ensures RemovedInt(m, i) == Renumbered(m, DownFrom(i)) - {r}
    ensures Renumbered(m, DownFrom(i))[r] == m[r]
    ensures forall q :: HoldsAlone(m, q, i) ==> q == r
  {
  }

  // Renumbers every entry, and finds the one with the number given.
  method MoveDown(h: BasicHash, intValue: Word, ghost r: Word) returns (bktIdx: nat)
    requires h.Valid() && Numbering(h.c) && HoldsAlone(h.model, r, intValue) && MovesSafely(h.model, DownFrom(intValue))
    modifies h`slots, h`model, h`calls, h`retainedValues, h.values
    ensures h.Valid() && h.model == Renumbered(old(h.model), DownFrom(intValue)) && h.calls == old(h.calls)
    ensures Shape(h.slots) && Holds(h.c, h.slots, r, bktIdx) && h.slots.counts[bktIdx] == 1
  {
    hide h.Mirror, Inv, Sound, Shape, Capacity, Size, Renumbered, Renumbering, Holds, Decode, KeepsStorable,
      DeletedCount, Located, MovesSafely, HoldsAlone;
    Walked(h);
    ghost var s, d, m := h.slots, DownFrom(intValue), h.model;
    SlotsMoveSafely(h.c, s, m, d);
    var found := MoveDownSlots(h, intValue);
    AloneLocated(h.c, s, m, intValue, r, found);
    bktIdx := found;
    OneEach(h.c, s, m, r, bktIdx, intValue);
    RenumSound(h.c, s, h.slots, m, h.usedBuckets, h.retainedValues, h.retainedKeys, d);
    RenumShape(h.c, h.slots, Renumbered(m, d), h.usedBuckets, h.retainedValues, h.retainedKeys);
    HoldsKept(h.c, s, h.slots, d, r, bktIdx);
    h.model := Renumbered(m, d);
  }

  // Removes the key with the number given, moving the later ones down.
  method RemoveIntValueAndDec(h: BasicHash, intValue: Word)
    requires h.Valid() && Numbering(h.c) && HeldAlone(h.model, intValue) && MovesSafely(h.model, DownFrom(intValue))
    modifies h, h.values, h.keys, h.counts
    ensures h.Valid() && fresh(h.Repr() - old(h.Repr()))
    ensures h.model == RemovedInt(old(h.model), intValue)
    ensures forall r :: HoldsAlone(old(h.model), r, intValue) ==>
      h.calls == old(h.calls) + Releasing(h.c, old(h.model)[r].key, intValue)
  {
    hide h.Valid, h.Core, h.Mirror, Shape, Renumbered, RemovedInt, Holds, MovesSafely, Releasing;
    ghost var r :| HoldsAlone(h.model, r, intValue);
    RemovedIntIs(h.model, intValue, r);
    var bktIdx := MoveDown(h, intValue, r);
    h.RemoveValueAt(bktIdx, r);
  }
}
