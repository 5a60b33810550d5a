/** The slots of a cache manager, as values: counting caches, and keeping their pages apart. */
module CacheSlots {
  import opened Common
  import opened SizeClasses
  import opened CachePages

  /** A cache of size class `idx`. */
  datatype Slot = Slot(idx: nat, view: View)

  type Slots = seq<Option<Slot>>

  /** A cache in use: it has the shape of its class and a live cell. */
  ghost predicate SlotFits(s: Slot) {
    && s.idx < SIZE_CLASS_COUNT && s.view.size == CellSize(s.idx) && s.view.count == CellCount(s.idx)
    && s.view.start % PAGE_SIZE == 0 && Accounted(s.view) && s.view.used != {}
  }

  ghost function End(v: View): nat {
    CellAt(v.start, v.size, v.count)
  }

  /** Two caches share no page. */
  ghost predicate Separate(slots: Slots, i: nat, j: nat) {
    i < |slots| && j < |slots| && i != j && slots[i].Some? && slots[j].Some? ==>
      End(slots[i].value.view) <= slots[j].value.view.start || End(slots[j].value.view) <= slots[i].value.view.start
  }

  ghost predicate AllSeparate(slots: Slots) {
    forall i: nat, j: nat {:trigger Separate(slots, i, j)} :: Separate(slots, i, j)
  }

  predicate Partial(slot: Option<Slot>, idx: nat) {
    slot.Some? && slot.value.idx == idx && slot.value.view.chain != []
  }

  /** The caches of a class, among the first `n`, that have a free cell. */
  ghost function PartialCount(slots: Slots, n: nat, idx: nat): nat
    requires n <= |slots|
  {
    if n == 0 then 0 else PartialCount(slots, n - 1, idx) + (if Partial(slots[n - 1], idx) then 1 else 0)
  }

  ghost function UsedCount(slots: Slots, n: nat): nat
    requires n <= |slots|
  {
    if n == 0 then 0 else UsedCount(slots, n - 1) + (if slots[n - 1].Some? then 1 else 0)
  }

  lemma {:induction false} PartialUpdate(slots: Slots, n: nat, k: nat, slot: Option<Slot>, idx: nat)
    requires n <= |slots| && k < |slots|
    ensures PartialCount(slots[k := slot], n, idx) ==
      PartialCount(slots, n, idx) + (if k < n && Partial(slot, idx) then 1 else 0)
        - (if k < n && Partial(slots[k], idx) then 1 else 0)
    decreases n
  {
    if n > 0 { PartialUpdate(slots, n - 1, k, slot, idx); }
  }

  lemma {:induction false} UsedUpdate(slots: Slots, n: nat, k: nat, slot: Option<Slot>)
    requires n <= |slots| && k < |slots|
    ensures UsedCount(slots[k := slot], n) ==
      UsedCount(slots, n) + (if k < n && slot.Some? then 1 else 0) - (if k < n && slots[k].Some? then 1 else 0)
    decreases n
  {
    if n > 0 { UsedUpdate(slots, n - 1, k, slot); }
  }

  /** No cache among the first `n` could serve the class. */
  ghost predicate NonePartial(slots: Slots, n: nat, idx: nat)
    requires n <= |slots|
  {
    forall i :: 0 <= i < n ==> !Partial(slots[i], idx)
  }

  lemma {:induction false} NoneIsZero(slots: Slots, n: nat, idx: nat)
    requires n <= |slots|
    ensures NonePartial(slots, n, idx) <==> PartialCount(slots, n, idx) == 0
  {
    if n > 0 {
      NoneIsZero(slots, n - 1, idx);
      if NonePartial(slots, n - 1, idx) && !Partial(slots[n - 1], idx) { assert NonePartial(slots, n, idx); }
      if NonePartial(slots, n, idx) { assert !Partial(slots[n - 1], idx); }
    }
  }

  lemma {:induction false} UsedBound(slots: Slots, n: nat)
    requires n <= |slots|
    ensures UsedCount(slots, n) <= n
    ensures UsedCount(slots, n) == n <==> forall i :: 0 <= i < n ==> slots[i].Some?
  {
    if n > 0 { UsedBound(slots, n - 1); }
  }

  /** A 512 KB cache in use is full: it has a single cell. */
  lemma LargestIsFull(s: Slot)
    requires SlotFits(s)
    ensures s.idx == 13 ==> s.view.chain == []
    ensures |s.view.used| == 1 && s.view.chain == [] ==> s.idx == 13
  {
    AccountedCount(s.view);
    CellTable(s.idx);
    assert |s.view.used| > 0;
  }

  // -------------------------------------------------------------------- counts

  function One(b: bool): nat {
    if b then 1 else 0
  }

  /** The count of a class is the number of its caches with a free cell; 512 KB caches add one each when made. */
  ghost predicate CountAt(slots: Slots, counts: seq<nat>, made: nat, idx: nat) {
    idx < |counts| ==> counts[idx] == PartialCount(slots, |slots|, idx) + (if idx == 13 then made else 0)
  }

  ghost predicate Counted(slots: Slots, counts: seq<nat>, usedSlots: nat, made: nat) {
    && |counts| == SIZE_CLASS_COUNT && usedSlots == UsedCount(slots, |slots|)
    && forall idx: nat {:trigger CountAt(slots, counts, made, idx)} :: CountAt(slots, counts, made, idx)
  }

  lemma Recount(slots: Slots, k: nat, slot: Option<Slot>, idx: nat, counts: seq<nat>, usedSlots: nat, made: nat,
                count: nat, made': nat)
    requires Counted(slots, counts, usedSlots, made) && k < |slots| && idx < SIZE_CLASS_COUNT
    requires (slots[k].Some? ==> slots[k].value.idx == idx) && (slot.Some? ==> slot.value.idx == idx)
    requires made' == made || idx == 13
    requires count == counts[idx] + One(Partial(slot, idx)) - One(Partial(slots[k], idx)) + (made' - made)
    ensures usedSlots + One(slot.Some?) - One(slots[k].Some?) >= 0
    ensures Counted(slots[k := slot], counts[idx := count], usedSlots + One(slot.Some?) - One(slots[k].Some?), made')
  {
    var slots', counts' := slots[k := slot], counts[idx := count];
    UsedUpdate(slots, |slots|, k, slot);
    forall i: nat ensures CountAt(slots', counts', made', i) {
      assert CountAt(slots, counts, made, i);
      PartialUpdate(slots, |slots|, k, slot, i);
    }
  }

  /** The early exit on a count of zero agrees with a search of all caches. */
  lemma ZeroMeansNone(slots: Slots, counts: seq<nat>, usedSlots: nat, made: nat, idx: nat)
    requires Counted(slots, counts, usedSlots, made) && idx < SIZE_CLASS_COUNT
    ensures counts[idx] >= PartialCount(slots, |slots|, idx)
    ensures counts[idx] == 0 ==> NonePartial(slots, |slots|, idx)
    ensures idx != 13 ==> counts[idx] == PartialCount(slots, |slots|, idx)
    ensures idx != 13 ==> (counts[idx] == 0 <==> NonePartial(slots, |slots|, idx))
  {
    assert CountAt(slots, counts, made, idx);
    NoneIsZero(slots, |slots|, idx);
  }

  /** The count of the 512 KB class is the number of such caches ever made, though none has a free cell. */
  lemma LargestCount(slots: Slots, counts: seq<nat>, usedSlots: nat, made: nat)
    requires Counted(slots, counts, usedSlots, made) && Sound(slots)
    ensures counts[13] == made && NonePartial(slots, |slots|, 13)
  {
    forall i | 0 <= i < |slots| ensures !Partial(slots[i], 13) {
      assert Fits(slots, i);
      if slots[i].Some? { LargestIsFull(slots[i].value); }
    }
    NoneIsZero(slots, |slots|, 13);
    assert CountAt(slots, counts, made, 13);
  }

  // ---------------------------------------------------------------- live cells

  ghost predicate LiveIn(slots: Slots, k: nat, idx: nat, cell: nat) {
    k < |slots| && slots[k].Some? && slots[k].value.idx == idx && cell in slots[k].value.view.used
  }

  /** All slots are caches in use, on pages of their own. */
  ghost predicate Sound(slots: Slots) {
    && AllSeparate(slots)
    && forall i: nat {:trigger Fits(slots, i)} :: Fits(slots, i)
  }

  ghost predicate Fits(slots: Slots, i: nat) {
    i < |slots| && slots[i].Some? ==> SlotFits(slots[i].value)
  }

  /** A live cell lies on its cache's pages. */
  lemma LiveOnPages(slots: Slots, k: nat, idx: nat, cell: nat)
    requires Sound(slots) && LiveIn(slots, k, idx, cell)
    ensures idx < SIZE_CLASS_COUNT && slots[k].value.view.start <= cell
    ensures cell + CellSize(idx) <= End(slots[k].value.view)
  {
    assert Fits(slots, k);
    LiveRange(slots[k].value.view, cell);
  }

  /** Live cells do not overlap. */
  lemma LiveApart(slots: Slots, i: nat, idx: nat, x: nat, j: nat, jdx: nat, y: nat)
    requires Sound(slots) && LiveIn(slots, i, idx, x) && LiveIn(slots, j, jdx, y) && (i != j || x != y)
    ensures idx < SIZE_CLASS_COUNT && jdx < SIZE_CLASS_COUNT
    ensures x + CellSize(idx) <= y || y + CellSize(jdx) <= x
  {
    LiveOnPages(slots, i, idx, x);
    LiveOnPages(slots, j, jdx, y);
    if i == j {
      assert Fits(slots, i);
      var v := slots[i].value.view;
      assert CellOk(v, x) && CellOk(v, y);
      CellsApart(v.start, v.size, v.count, x, y);
    } else {
      assert Separate(slots, i, j);
    }
  }

  // ------------------------------------------------------------------- updates

  lemma KeepSound(slots: Slots, k: nat, slot: Slot)
    requires Sound(slots) && k < |slots| && slots[k].Some? && SlotFits(slot)
    requires slot.view.start == slots[k].value.view.start && End(slot.view) == End(slots[k].value.view)
    ensures Sound(slots[k := Some(slot)])
  {
    var slots' := slots[k := Some(slot)];
    forall i: nat ensures Fits(slots', i) { assert Fits(slots, i); }
    forall i: nat, j: nat ensures Separate(slots', i, j) { assert Separate(slots, i, j); }
  }

  lemma DropSound(slots: Slots, k: nat)
    requires Sound(slots) && k < |slots|
    ensures Sound(slots[k := None])
  {
    var slots' := slots[k := None];
    forall i: nat ensures Fits(slots', i) { assert Fits(slots, i); }
    forall i: nat, j: nat ensures Separate(slots', i, j) { assert Separate(slots, i, j); }
  }

  /** The pages from `start` to `end` are no cache's. */
  ghost predicate Clear(slots: Slots, start: nat, end: nat) {
    forall i :: 0 <= i < |slots| && slots[i].Some? ==>
      End(slots[i].value.view) <= start || end <= slots[i].value.view.start
  }

  lemma AddSound(slots: Slots, k: nat, slot: Slot)
    requires Sound(slots) && k < |slots| && slots[k].None? && SlotFits(slot)
    requires Clear(slots, slot.view.start, End(slot.view))
    ensures Sound(slots[k := Some(slot)])
  {
    var slots' := slots[k := Some(slot)];
    forall i: nat ensures Fits(slots', i) { assert Fits(slots, i); }
    forall i: nat, j: nat ensures Separate(slots', i, j) { assert Separate(slots, i, j); }
  }

  ghost predicate FreshPages(slots: Slots, start: nat, bytes: nat) {
    start > 0 && start % PAGE_SIZE == 0 && Clear(slots, start, start + bytes)
  }

  // --------------------------------------------------- what the operations keep

  lemma TakeSound(slots: Slots, k: nat, idx: nat)
    requires Sound(slots) && k < |slots| && Partial(slots[k], idx)
    ensures Sound(slots[k := Some(Slot(idx, Take(slots[k].value.view)))])
    ensures !LiveIn(slots, k, idx, slots[k].value.view.chain[0])
  {
    assert Fits(slots, k);
    TakeAccounted(slots[k].value.view);
    KeepSound(slots, k, Slot(idx, Take(slots[k].value.view)));
  }

  lemma GiveSound(slots: Slots, k: nat, idx: nat, cell: nat)
    requires Sound(slots) && LiveIn(slots, k, idx, cell) && slots[k].value.view.used != {cell}
    ensures Sound(slots[k := Some(Slot(idx, Give(slots[k].value.view, cell)))])
  {
    assert Fits(slots, k);
    var v := slots[k].value.view;
    GiveAccounted(v, cell);
    assert v.used == v.used - {cell} + {cell};
    KeepSound(slots, k, Slot(idx, Give(v, cell)));
  }

  /** A new cache of the class at `start`, its first cell taken. */
  ghost function NewSlot(start: nat, idx: nat): Slot
    requires idx < SIZE_CLASS_COUNT && Fresh(start, CellSize(idx), CellCount(idx)).chain != []
  {
    Slot(idx, Take(Fresh(start, CellSize(idx), CellCount(idx))))
  }

  lemma FreshCells(start: nat, idx: nat)
    requires idx < SIZE_CLASS_COUNT
    ensures |Fresh(start, CellSize(idx), CellCount(idx)).chain| == CellCount(idx) - 1 >= 1
    ensures Partial(Some(NewSlot(start, idx)), idx) <==> idx != 13
    ensures End(NewSlot(start, idx).view) == start + CellCount(idx) * CellSize(idx)
  {
    CellTable(idx);
    CellSizePow2(idx);
    CellsFromSet(start, CellSize(idx), 1, CellCount(idx));
    CellAtMeans(start, CellSize(idx), CellCount(idx));
  }

  lemma NewSound(slots: Slots, k: nat, start: nat, idx: nat)
    requires Sound(slots) && k < |slots| && slots[k].None? && idx < SIZE_CLASS_COUNT
    requires FreshPages(slots, start, CellCount(idx) * CellSize(idx))
    requires Accounted(Fresh(start, CellSize(idx), CellCount(idx)))
    ensures Fresh(start, CellSize(idx), CellCount(idx)).chain != []
    ensures Sound(slots[k := Some(NewSlot(start, idx))])
  {
    FreshCells(start, idx);
    TakeAccounted(Fresh(start, CellSize(idx), CellCount(idx)));
    AddSound(slots, k, NewSlot(start, idx));
  }
}
