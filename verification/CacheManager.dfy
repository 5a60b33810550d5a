/** One manager of the object cache: its slots and its counts of caches with free cells. */
module CacheManager {
  import opened Common
  import opened SizeClasses
  import opened CachePages
  import opened CacheSlots

  const SLOT_NUM: nat := 1024

  /** The cache object in a slot holds what the slot says. */
  ghost predicate InSlot(cache: CachePage?, slot: Option<Slot>)
    reads cache
  {
    && (cache == null <==> slot.None?)
    && (cache != null ==> cache.Valid() && cache.contents == slot.value.view)
  }

  /** A class is told by its cell size. */
  lemma SizeTellsClass(i: nat, j: nat)
    requires i < SIZE_CLASS_COUNT && j < SIZE_CLASS_COUNT
    ensures CellSize(i) == CellSize(j) <==> i == j
  {
  }

  datatype Outcome = Object(ptr: nat) | Next | Large

  /** The first class that the object with its header fits in. */
  ghost predicate ClassOf(size: nat, align: nat, idx: nat) {
    && idx < SIZE_CLASS_COUNT && align > 0 && size + HeaderPadding(align) + 8 <= CellSize(idx)
    && forall i :: 0 <= i < SIZE_CLASS_COUNT && size + HeaderPadding(align) + 8 <= CellSize(i) ==> idx <= i
  }

  /**
   * Which cell serves a request of class `idx`: the first free cell of the first cache of the class that has one;
   * without one, the first cell of a new cache, in the first empty slot; without that, none.
   */
  ghost predicate Served(was: Slots, idx: nat, r: Outcome, k: nat, cell: nat) {
    if !NonePartial(was, |was|, idx) then
      && r.Object? && k < |was| && Partial(was[k], idx) && NonePartial(was, k, idx)
      && cell == was[k].value.view.chain[0]
    else if exists i :: 0 <= i < |was| && was[i].None? then
      r.Object? && k < |was| && was[k].None? && forall i :: 0 <= i < k ==> was[i].Some?
    else r.Next?
  }

  /** A live cell of slot `k`, of the object's class, lies in front of `ptr`. */
  ghost predicate ObjectAt(slots: Slots, k: nat, idx: nat, ptr: nat, size: nat, align: nat) {
    && ClassOf(size, align, idx) && ptr >= HeaderPadding(align) + HEAD_SIZE
    && LiveIn(slots, k, idx, ptr - HeaderPadding(align) - HEAD_SIZE)
  }

  /** Cell `cell` of slot `k` has become live, no other cell has changed, and the object lies in it. */
  ghost predicate AllocatedIn(was: Slots, now: Slots, k: nat, size: nat, align: nat, cell: nat, ptr: nat) {
    exists idx :: ClassOf(size, align, idx) && AllocatedAs(was, now, k, idx, size, cell, ptr)
  }

  ghost predicate AllocatedAs(was: Slots, now: Slots, k: nat, idx: nat, size: nat, cell: nat, ptr: nat) {
    && idx < SIZE_CLASS_COUNT && |now| == |was| && k < |was|
    && (forall i :: 0 <= i < |was| && i != k ==> now[i] == was[i])
    && LiveIn(now, k, idx, cell) && !LiveIn(was, k, idx, cell)
    && now[k].value.view.used == (if was[k].Some? then was[k].value.view.used else {}) + {cell}
    && cell + 8 <= ptr && ptr + size <= cell + CellSize(idx)
  }

  /** Any cell of a cache holds an object aligned. */
  lemma CellFits(v: View, idx: nat, size: nat, align: nat, cell: nat)
    requires SlotFits(Slot(idx, v)) && Alignment(align) && cell in v.used
    requires size + HeaderPadding(align) + 8 <= CellSize(idx)
    ensures (cell + HeaderPadding(align) + HEAD_SIZE) % align == 0
  {
    assert CellOk(v, cell);
    var i := CellIndex(v.start, v.size, v.count, cell);
    CellAtMeans(v.start, v.size, i);
    ObjectFits(v.start, i, idx, size, align);
  }

  lemma {:induction false} CellIndex(start: nat, size: nat, n: nat, x: nat) returns (i: nat)
    requires x in Cells(start, size, n)
    ensures x == CellAt(start, size, i)
    decreases n
  {
    if x == CellAt(start, size, n - 1) { i := n - 1; } else { i := CellIndex(start, size, n - 1, x); }
  }

  lemma TakenIn(slots: Slots, k: nat, idx: nat, size: nat, align: nat)
    requires Sound(slots) && k < |slots| && Partial(slots[k], idx) && ClassOf(size, align, idx) && Alignment(align)
    ensures var cell := slots[k].value.view.chain[0];
      && (cell + HeaderPadding(align) + HEAD_SIZE) % align == 0
      && AllocatedIn(slots, slots[k := Some(Slot(idx, Take(slots[k].value.view)))], k, size, align,
                     cell, cell + HeaderPadding(align) + HEAD_SIZE)
  {
    var slots' := slots[k := Some(Slot(idx, Take(slots[k].value.view)))];
    var cell := slots[k].value.view.chain[0];
    TakeSound(slots, k, idx);
    assert Fits(slots', k);
    CellFits(slots'[k].value.view, idx, size, align, cell);
    assert AllocatedAs(slots, slots', k, idx, size, cell, cell + HeaderPadding(align) + HEAD_SIZE);
  }

  lemma NewIn(slots: Slots, k: nat, start: nat, idx: nat, size: nat, align: nat)
    requires k < |slots| && slots[k].None? && ClassOf(size, align, idx) && Alignment(align)
    requires Fresh(start, CellSize(idx), CellCount(idx)).chain != []
    requires Sound(slots[k := Some(NewSlot(start, idx))])
    ensures var cell := Fresh(start, CellSize(idx), CellCount(idx)).chain[0];
      && (cell + HeaderPadding(align) + HEAD_SIZE) % align == 0
      && AllocatedIn(slots, slots[k := Some(NewSlot(start, idx))], k, size, align,
                     cell, cell + HeaderPadding(align) + HEAD_SIZE)
  {
    var slots' := slots[k := Some(NewSlot(start, idx))];
    var cell := Fresh(start, CellSize(idx), CellCount(idx)).chain[0];
    assert Fits(slots', k);
    CellFits(slots'[k].value.view, idx, size, align, cell);
    assert AllocatedAs(slots, slots', k, idx, size, cell, cell + HeaderPadding(align) + HEAD_SIZE);
  }

  /** A slot after one of its cells is freed: the cache is let go with its last live cell. */
  ghost function Freed(s: Slot, cell: nat): Option<Slot> {
    if s.view.used == {cell} then None else Some(Slot(s.idx, Give(s.view, cell)))
  }

  lemma FreedSound(slots: Slots, k: nat, idx: nat, cell: nat)
    requires Sound(slots) && LiveIn(slots, k, idx, cell)
    ensures Sound(slots[k := Freed(slots[k].value, cell)])
  {
    if slots[k].value.view.used == {cell} { DropSound(slots, k); } else { GiveSound(slots, k, idx, cell); }
  }

  lemma FreedPartial(s: Slot, cell: nat)
    ensures Partial(Freed(s, cell), s.idx) <==> s.view.used != {cell}
  {
  }

  lemma OneUsed(used: set<nat>, cell: nat)
    requires cell in used
    ensures |used - {cell}| == |used| - 1
    ensures |used| == 1 <==> used == {cell}
  {
    if |used| == 1 {
      assert |used - {cell}| == 0;
      assert used == used - {cell} + {cell};
    }
  }

  /** The counts after a cell has been given back: one more if the cache was full, one less if it goes. */
  lemma FreedCounts(slots: Slots, k: nat, idx: nat, cell: nat, counts: seq<nat>, usedSlots: nat, made: nat, full: bool)
    requires Sound(slots) && Counted(slots, counts, usedSlots, made) && LiveIn(slots, k, idx, cell)
    requires idx < SIZE_CLASS_COUNT && (full <==> slots[k].value.view.chain == [])
    ensures var last := One(|slots[k].value.view.used| == 1);
            && counts[idx] + One(full) >= last && usedSlots >= last
            && Counted(slots[k := Freed(slots[k].value, cell)], counts[idx := counts[idx] + One(full) - last],
                       usedSlots - last, made)
  {
    var slot := slots[k].value;
    ZeroMeansNone(slots, counts, usedSlots, made, idx);
    assert !full ==> Partial(slots[k], idx);
    FreedPartial(slot, cell);
    OneUsed(slot.view.used, cell);
    Recount(slots, k, Freed(slot, cell), idx, counts, usedSlots, made,
            counts[idx] + One(full) - One(slot.view.used == {cell}), made);
  }

  lemma {:induction false} EmptyCounts(slots: Slots, n: nat, idx: nat)
    requires n <= |slots| && forall i :: 0 <= i < |slots| ==> slots[i].None?
    ensures PartialCount(slots, n, idx) == 0 && UsedCount(slots, n) == 0
  {
    if n > 0 { EmptyCounts(slots, n - 1, idx); }
  }

  lemma EmptyCounted(slots: Slots, counts: seq<nat>)
    requires forall i :: 0 <= i < |slots| ==> slots[i].None?
    requires |counts| == SIZE_CLASS_COUNT && forall i :: 0 <= i < |counts| ==> counts[i] == 0
    ensures Counted(slots, counts, 0, 0)
  {
    EmptyCounts(slots, |slots|, 0);
    forall idx: nat ensures CountAt(slots, counts, 0, idx) { EmptyCounts(slots, |slots|, idx); }
  }

  class Manager {
    /** The manager's own address. */
    const me: nat
    var caches: seq<CachePage?>
    var partialCounts: seq<nat>
    var usedSlots: nat
    ghost var slots: Slots
    /** How many 512 KB caches have been made. */
    ghost var made: nat

    ghost predicate Wired()
      reads this, caches
    {
      && |caches| == |slots|
      && (forall i {:trigger InSlot(caches[i], slots[i])} :: 0 <= i < |caches| ==> InSlot(caches[i], slots[i]))
      && (forall i, j :: 0 <= i < j < |caches| && caches[i] != null ==> caches[i] != caches[j])
    }

    /** The word at a cell of slot `k` is the manager's address. */
    ghost predicate HeadAt(k: nat, cell: nat)
      reads this, caches
    {
      k < |caches| && caches[k] != null && cell in caches[k].mem && caches[k].mem[cell] == me
    }

    ghost predicate Valid()
      reads this, caches
    {
      Wired() && |slots| == 1024 && Sound(slots) && Counted(slots, partialCounts, usedSlots, made)
    }

    constructor (me: nat)
      ensures Valid() && usedSlots == 0 && made == 0 && forall i :: 0 <= i < |slots| ==> slots[i].None?
    {
      this.me := me;
      caches := seq(SLOT_NUM, _ => null);
      partialCounts := seq(SIZE_CLASS_COUNT, _ => 0);
      usedSlots, made := 0, 0;
      slots := seq(SLOT_NUM, _ => None);
      new;
      EmptyCounted(slots, partialCounts);
      forall i: nat ensures Fits(slots, i) {}
      forall i: nat, j: nat ensures Separate(slots, i, j) {}
    }

    /** Take an object from cache `i`, if it is of the class and has one. */
    method TryCache(i: nat, idx: nat) returns (r: Option<nat>)
      requires Wired() && Sound(slots) && i < |caches| && idx < SIZE_CLASS_COUNT
      modifies caches[i], `slots
      ensures Wired() && caches == old(caches)
      ensures !Partial(old(slots)[i], idx) ==> r == None && slots == old(slots)
      ensures Partial(old(slots)[i], idx) ==>
        && r == Some(old(slots)[i].value.view.chain[0])
        && slots == old(slots)[i := Some(Slot(idx, Take(old(slots)[i].value.view)))]
    {
      r := None;
      var cache := caches[i];
      if cache != null {
        assert InSlot(caches[i], slots[i]) && Fits(slots, i);
        SizeTellsClass(slots[i].value.idx, idx);
        if cache.cellSize == CellSize(idx) {
          r := cache.AllocObj();
          slots := slots[i := Some(Slot(idx, cache.contents))];
        }
      }
      forall j | 0 <= j < |caches| ensures InSlot(caches[j], slots[j]) {
        assert old(InSlot(caches[j], slots[j]));
      }
    }

    /** Allocate from the first cache of the class that has a free cell. */
    method CacheAlloc(idx: nat, padding: nat) returns (r: Option<nat>, ghost k: nat)
      requires Valid() && idx < SIZE_CLASS_COUNT
      modifies this, caches
      ensures Valid() && caches == old(caches) && made == old(made) && usedSlots == old(usedSlots)
      ensures NonePartial(old(slots), |old(slots)|, idx) ==> r == None && slots == old(slots)
      ensures !NonePartial(old(slots), |old(slots)|, idx) ==>
        && k < |old(slots)| && Partial(old(slots)[k], idx) && NonePartial(old(slots), k, idx)
        && r == Some(old(slots)[k].value.view.chain[0] + padding + HEAD_SIZE)
        && slots == old(slots)[k := Some(Slot(idx, Take(old(slots)[k].value.view)))]
        && HeadAt(k, old(slots)[k].value.view.chain[0])
    {
      k := 0;
      ZeroMeansNone(slots, partialCounts, usedSlots, made, idx);
      if partialCounts[idx] == 0 {
        return None, 0;
      }
      for i := 0 to |caches|
        invariant Valid() && caches == old(caches) && slots == old(slots) && made == old(made)
        invariant usedSlots == old(usedSlots) && partialCounts == old(partialCounts) && NonePartial(slots, i, idx)
      {
        TakeSoundIf(slots, i, idx);
        var ptr := TryCache(i, idx);
        if ptr.Some? {
          k := i;
          assert InSlot(caches[i], slots[i]) && partialCounts[idx := partialCounts[idx]] == partialCounts;
          Recount(old(slots), i, slots[i], idx, partialCounts, usedSlots, made,
                  if caches[i].freeCount == 0 then partialCounts[idx] - 1 else partialCounts[idx], made);
          if caches[i].freeCount == 0 {
            partialCounts := partialCounts[idx := partialCounts[idx] - 1];
          }
          assert Counted(slots, partialCounts, usedSlots, made);
          WriteHead(caches[i], ptr.value, i);
          return Some(ptr.value + padding + HEAD_SIZE), i;
        }
      }
      r := None;
    }

    /** Put a cache in the first empty slot. */
    method AddCache(cache: CachePage, ghost slot: Slot) returns (ghost k: nat)
      requires Wired() && cache.Valid() && cache.contents == slot.view && cache !in caches
      requires exists i :: 0 <= i < |slots| && slots[i].None?
      modifies this
      ensures k < |old(slots)| && old(slots)[k].None? && (forall j :: 0 <= j < k ==> old(slots)[j].Some?)
      ensures Wired() && caches == old(caches)[k := cache] && slots == old(slots)[k := Some(slot)]
      ensures usedSlots == old(usedSlots) + 1 && partialCounts == old(partialCounts) && made == old(made)
    {
      k := 0;
      for i := 0 to |caches|
        invariant Wired() && caches == old(caches) && slots == old(slots) && usedSlots == old(usedSlots)
        invariant partialCounts == old(partialCounts) && made == old(made)
        invariant forall j :: 0 <= j < i ==> slots[j].Some?
      {
        assert InSlot(caches[i], slots[i]);
        if caches[i] == null {
          caches := caches[i := cache];
          slots := slots[i := Some(slot)];
          usedSlots := usedSlots + 1;
          forall j | 0 <= j < |caches| ensures InSlot(caches[j], slots[j]) {
            if j != i { assert old(InSlot(caches[j], slots[j])); }
          }
          return i;
        }
      }
    }

    /** A new cache of the class, its first cell taken. */
    method MakeCache(idx: nat, start: nat) returns (cache: CachePage, ptr: nat)
      requires idx < SIZE_CLASS_COUNT && start > 0
      ensures fresh(cache) && cache.Valid() && Accounted(Fresh(start, CellSize(idx), CellCount(idx)))
      ensures Fresh(start, CellSize(idx), CellCount(idx)).chain != []
      ensures cache.contents == NewSlot(start, idx).view
      ensures ptr == Fresh(start, CellSize(idx), CellCount(idx)).chain[0]
    {
      CacheShape(idx);
      CellSizePow2(idx);
      FreshCells(start, idx);
      cache := new CachePage(start, CellSize(idx), CellCount(idx));
      var r := cache.AllocObj();
      ptr := r.value;
    }

    /** Make a new cache of the class on fresh pages, and allocate from it. */
    method NewCacheAlloc(idx: nat, padding: nat, start: nat) returns (r: nat, ghost k: nat)
      requires Valid() && idx < SIZE_CLASS_COUNT && usedSlots != SLOT_NUM
      requires FreshPages(slots, start, CellCount(idx) * CellSize(idx))
      modifies this
      ensures Valid() && k < |old(slots)| && old(slots)[k].None? && made == old(made) + One(idx == 13)
      ensures forall j :: 0 <= j < k ==> old(slots)[j].Some?
      ensures Fresh(start, CellSize(idx), CellCount(idx)).chain != []
      ensures slots == old(slots)[k := Some(NewSlot(start, idx))]
      ensures r == Fresh(start, CellSize(idx), CellCount(idx)).chain[0] + padding + HEAD_SIZE
      ensures HeadAt(k, Fresh(start, CellSize(idx), CellCount(idx)).chain[0])
    {
      FreshCells(start, idx);
      UsedBound(slots, |slots|);
      var cache, ptr := MakeCache(idx, start);
      k := AddCache(cache, NewSlot(start, idx));
      NewSound(old(slots), k, start, idx);
      Recount(old(slots), k, slots[k], idx, partialCounts, old(usedSlots), made, partialCounts[idx] + 1,
        made + One(idx == 13));
      partialCounts := partialCounts[idx := partialCounts[idx] + 1];
      made := made + One(idx == 13);
      WriteHead(cache, ptr, k);
      r := ptr + padding + HEAD_SIZE;
    }

    /**
     * An object of `size` bytes at a power-of-two alignment up to a page: aligned, inside a cell that was
     * not live, behind the header pointer. Without a free cell and without an empty slot the next manager
     * is asked; an object too large for any class gets pages of its own. `pages` is what the page
     * allocator would hand out for a cache of each class.
     */
    method Alloc(size: nat, align: nat, pages: nat -> nat) returns (r: Outcome, ghost cell: nat, ghost k: nat)
      requires Valid() && Alignment(align)
      requires forall idx :: 0 <= idx < SIZE_CLASS_COUNT ==>
        FreshPages(slots, pages(idx), CellCount(idx) * CellSize(idx))
      modifies this, caches
      ensures Valid()
      ensures r.Object? ==> r.ptr % align == 0 && AllocatedIn(old(slots), slots, k, size, align, cell, r.ptr)
      ensures r.Object? ==> cell == r.ptr - HeaderPadding(align) - 8 && HeadAt(k, cell)
      ensures forall idx {:trigger ClassOf(size, align, idx)} ::
        ClassOf(size, align, idx) ==> Served(old(slots), idx, r, k, cell)
      ensures r.Large? <==> size + HeaderPadding(align) + 8 > 524288
      ensures !r.Object? ==> slots == old(slots) && made == old(made)
    {
      var padding := HeaderPadding(align);
      cell, k := 0, 0;
      var class_ := SizeToClass(size + padding + HEAD_SIZE);
      if class_.None? {
        return Large, 0, 0;
      }
      var idx := class_.value.1;
      assert ClassOf(size, align, idx);
      r, cell, k := AllocIn(idx, padding, pages(idx), size, align);
    }

    /** An object of class `idx`: from a cache that has a free cell, or else from a new one. */
    method AllocIn(idx: nat, padding: nat, start: nat, ghost size: nat, ghost align: nat)
      returns (r: Outcome, ghost cell: nat, ghost k: nat)
      requires Valid() && Alignment(align) && ClassOf(size, align, idx) && padding == HeaderPadding(align)
      requires FreshPages(slots, start, CellCount(idx) * CellSize(idx))
      modifies this, caches
      ensures Valid() && !r.Large? && Served(old(slots), idx, r, k, cell)
      ensures r.Object? ==> r.ptr % align == 0 && AllocatedIn(old(slots), slots, k, size, align, cell, r.ptr)
      ensures r.Object? ==> cell == r.ptr - padding - HEAD_SIZE && HeadAt(k, cell)
      ensures !r.Object? ==> slots == old(slots) && made == old(made)
    {
      cell, k := 0, 0;
      UsedBound(slots, |slots|);
      var ptr, i := CacheAlloc(idx, padding);
      if ptr.Some? {
        cell, k := ptr.value - padding - HEAD_SIZE, i;
        r := Object(ptr.value);
        TakenIn(old(slots), i, idx, size, align);
      } else if usedSlots != SLOT_NUM {
        var obj, j := NewCacheAlloc(idx, padding, start);
        cell, k := obj - padding - HEAD_SIZE, j;
        r := Object(obj);
        NewIn(old(slots), j, start, idx, size, align);
      } else {
        r := Next;
      }
    }

    /** The first cache whose pages hold `ptr`. */
    method FindCache(ptr: nat, ghost k: nat) returns (i: nat)
      requires Valid() && k < |slots| && slots[k].Some?
      requires slots[k].value.view.start <= ptr < End(slots[k].value.view)
      ensures i == k
    {
      i := 0;
      for j := 0 to |caches|
        invariant j <= k
      {
        assert InSlot(caches[j], slots[j]) && InSlot(caches[k], slots[k]);
        assert Separate(slots, j, k);
        if caches[j] != null && caches[j].InRange(ptr) {
          return j;
        }
      }
      assert false;
    }

    /** Give a cell back to its cache, and the cache's pages back with its last live cell. */
    method Release(i: nat, idx: nat, cell: nat)
      requires Valid() && LiveIn(slots, i, idx, cell)
      modifies this, caches
      ensures Valid() && made == old(made) && slots == old(slots)[i := Freed(old(slots)[i].value, cell)]
    {
      var cache := caches[i];
      assert InSlot(caches[i], slots[i]) && Fits(slots, i);
      ghost var slot := slots[i].value;
      ghost var after := Freed(slot, cell);
      ghost var was := partialCounts[idx];
      var full := cache.freeCount == 0;
      FreedSound(slots, i, idx, cell);
      OneUsed(slot.view.used, cell);
      FreedCounts(slots, i, idx, cell, partialCounts, usedSlots, made, full);
      if full {
        partialCounts := partialCounts[idx := partialCounts[idx] + 1];
      }
      cache.FreeObj(cell);
      slots := slots[i := after];
      if cache.usedCount == 0 {
        caches := caches[i := null];
        usedSlots := usedSlots - 1;
        partialCounts := partialCounts[idx := partialCounts[idx] - 1];
      }
      forall j | 0 <= j < |caches| ensures InSlot(caches[j], slots[j]) {
        assert old(InSlot(caches[j], slots[j]));
      }
      assert partialCounts == old(partialCounts)[idx := was + One(full) - One(|slot.view.used| == 1)];
    }

    /**
     * An object is given back as it was asked for: its cell is free again and nothing else changes. The
     * pages of an object too large for any class go back to the page allocator.
     */
    method Dealloc(ptr: nat, size: nat, align: nat, ghost k: nat, ghost idx: nat)
      requires Valid() && Alignment(align) && size >= 1
      requires size + HeaderPadding(align) + 8 <= 524288 ==> ObjectAt(slots, k, idx, ptr, size, align)
      modifies this, caches
      ensures Valid() && made == old(made)
      ensures size + HeaderPadding(align) + 8 <= 524288 ==>
        slots == old(slots)[k := Freed(old(slots)[k].value, ptr - HeaderPadding(align) - HEAD_SIZE)]
      ensures size + HeaderPadding(align) + 8 > 524288 ==> slots == old(slots)
    {
      var padding := HeaderPadding(align);
      var class_ := SizeToClass(size + padding + HEAD_SIZE);
      if class_.None? {
        return;
      }
      assert class_.value.1 == idx;
      LiveOnPages(slots, k, idx, ptr - padding - HEAD_SIZE);
      var i := FindCache(ptr, k);
      Release(i, class_.value.1, ptr - padding - HEAD_SIZE);
    }

    /** Write the manager's pointer in front of an object. */
    method WriteHead(cache: CachePage, cell: nat, ghost i: nat)
      requires Wired() && i < |caches| && caches[i] == cache && slots[i].Some? && cell in slots[i].value.view.used
      modifies cache
      ensures Wired() && HeadAt(i, cell)
    {
      assert InSlot(caches[i], slots[i]);
      cache.WriteHead(cell, me);
      forall j | 0 <= j < |caches| ensures InSlot(caches[j], slots[j]) {
        assert old(InSlot(caches[j], slots[j]));
      }
    }
  }

  lemma TakeSoundIf(slots: Slots, k: nat, idx: nat)
    requires Sound(slots) && k < |slots|
    ensures Partial(slots[k], idx) ==> Sound(slots[k := Some(Slot(idx, Take(slots[k].value.view)))])
  {
    if Partial(slots[k], idx) { TakeSound(slots, k, idx); }
  }
}
