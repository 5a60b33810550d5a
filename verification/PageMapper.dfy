/** `Mapper`: mapping pages into the tree of tables, with an allocator for new tables. */
module PageMapper {
  import opened Common
  import opened PageEntries
  import opened Radix
  import opened PageTables
  import opened PageDestroy

  const MAX_SUPPORTED_LEVEL: nat := 5

  /** The loop's arrays describe the path `p` to the table of level `level` that the loop stands at. */
  ghost predicate Stacked<P>(s: Shape<P>, height: nat, tables: seq<Option<P>>, indexes: seq<nat>, p: seq<nat>,
      level: int) {
    && |tables| == |indexes| == MAX_SUPPORTED_LEVEL && height <= MAX_SUPPORTED_LEVEL && |p| + 1 + level == height
      && 1 <= level
    && (forall k {:trigger TableAt(s, height, tables, p, k)} :: level <= k < height ==>
      TableAt(s, height, tables, p, k))
    && (forall k :: level < k < height ==> indexes[k] == p[height - 1 - k])
    && (forall k :: 0 <= k < level ==> indexes[k] == 0)
  }

  ghost predicate TableAt<P>(s: Shape<P>, height: nat, tables: seq<Option<P>>, p: seq<nat>, k: int) {
    && 0 <= k < |tables| && 0 <= height - 1 - k <= |p|
    && p[..height - 1 - k] in s.at && tables[k] == Some(s.at[p[..height - 1 - k]])
  }

  lemma StackedUp<P>(s: Shape<P>, height: nat, tables: seq<Option<P>>, indexes: seq<nat>, p: seq<nat>, level: int,
      indexes': seq<nat>)
    requires Stacked(s, height, tables, indexes, p, level) && level + 1 < height
    requires |indexes'| == |indexes| && forall k :: 0 <= k < |indexes| ==>
      indexes'[k] == if k == level then 0 else if k == level + 1 then indexes[k] + 1 else indexes[k]
    ensures p != [] && indexes[level + 1] == p[|p| - 1]
    ensures Stacked(s, height, tables, indexes', p[..|p| - 1], level + 1)
  {
    var q := p[..|p| - 1];
    forall k | level + 1 <= k < height ensures TableAt(s, height, tables, q, k) {
      assert TableAt(s, height, tables, p, k);
      assert q[..height - 1 - k] == p[..height - 1 - k];
    }
  }

  lemma StackedOn<P>(s: Shape<P>, height: nat, tables: seq<Option<P>>, indexes: seq<nat>, p: seq<nat>, level: int,
      i: nat)
    requires Stacked(s, height, tables, indexes, p, level) && 0 <= level < |indexes|
    ensures Stacked(s, height, tables, indexes[level := i], p, level)
  {
  }

  lemma StackedDown<P>(s: Shape<P>, height: nat, tables: seq<Option<P>>, indexes: seq<nat>, p: seq<nat>, level: int)
    requires Stacked(s, height, tables, indexes, p, level) && level >= 2 && p + [indexes[level]] in s.at
    ensures var q := p + [indexes[level]]; Stacked(s, height, tables[level - 1 := Some(s.at[q])], indexes, q, level - 1)
  {
    var q := p + [indexes[level]];
    var tables' := tables[level - 1 := Some(s.at[q])];
    assert q[..|q|] == q;
    forall k | level - 1 <= k < height ensures TableAt(s, height, tables', q, k) {
      if k >= level {
        assert TableAt(s, height, tables, p, k);
        assert q[..height - 1 - k] == p[..height - 1 - k];
      }
    }
  }

  /** Every leaf slot reads the same in both trees. */
  ghost predicate SameSlots<P, E>(t: Tables<P, E>, s: Shape<P>, t': Tables<P, E>, s': Shape<P>) {
    forall q, j {:trigger Slot(t', s', q, j)} :: |q| + 1 == t.height ==> Slot(t', s', q, j) == Slot(t, s, q, j)
  }

  /** What the tables say about `u` after one page has been mapped. */
  ghost function Mapped<P, E>(t: Tables<P, E>, vpn: nat, e: E, u: nat): Option<E>
    requires t.height > 0
  {
    if u % Span(t.height) == vpn % Span(t.height) then Some(e) else Lookup(t, u)
  }

  lemma SameLookup<P, E>(t: Tables<P, E>, s: Shape<P>, t': Tables<P, E>, s': Shape<P>, u: nat)
    requires Tree(t, s) && Tree(t', s') && !t.ops.valid(t.ops.zero) && SameSlots(t, s, t', s')
    requires t.ops == t'.ops && t.height == t'.height
    ensures Lookup(t', u) == Lookup(t, u)
  {
    LookupFinds(t, s, u);
    LookupFinds(t', s', u);
  }

  lemma LeafLookup<P, E>(t: Tables<P, E>, s: Shape<P>, vpn: nat, e: E, u: nat)
    requires Tree(t, s) && !t.ops.valid(t.ops.zero) && t.ops.valid(e) && Path(vpn, 1, t.height) in s.at
    ensures IsTable(t, s.at[Path(vpn, 1, t.height)])
    ensures Lookup(SetEntry(t, s.at[Path(vpn, 1, t.height)], Digit(vpn, 0), e), u) == Mapped(t, vpn, e, u)
  {
    var p := Path(vpn, 1, t.height);
    WriteLeaf(t, s, p, Digit(vpn, 0), e);
    var t' := SetEntry(t, s.at[p], Digit(vpn, 0), e);
    LookupFinds(t, s, u);
    LookupFinds(t', s, u);
    SameSlot(u, vpn, t.height);
    LowMeans(u, t.height);
    LowMeans(vpn, t.height);
    var pu, pv := Path(u, 0, t.height), Path(vpn, 0, t.height);
    assert pu == Path(u, 1, t.height) + [Digit(u, 0)] && pv == p + [Digit(vpn, 0)];
    assert pu[..|pu| - 1] == Path(u, 1, t.height) && pv[..|pv| - 1] == p;
  }

  ghost function Nth<P, E>(ops: Ops<P, E>, ppn: P, j: nat): P {
    if j == 0 then ppn else ops.next(Nth(ops, ppn, j - 1))
  }

  /** What the tables say about `u` after `pages` pages have been mapped, one after the other. */
  ghost function Ranged<P, E>(t: Tables<P, E>, vpn: nat, ppn: P, pages: nat, mode: set<Acl>, u: nat): Option<E>
    requires t.height > 0
  {
    if pages == 0 then Lookup(t, u)
    else if u % Span(t.height) == (vpn + pages - 1) % Span(t.height) then
      Some(t.ops.leaf(Nth(t.ops, ppn, pages - 1), mode))
    else Ranged(t, vpn, ppn, pages - 1, mode, u)
  }

  ghost predicate Hits<P, E>(t: Tables<P, E>, vpn: nat, j: nat, u: nat) {
    u % Span(t.height) == (vpn + j) % Span(t.height)
  }

  /** A range that fits maps exactly its own pages, each to its own frame. */
  lemma {:induction false} RangedExact<P, E>(t: Tables<P, E>, vpn: nat, ppn: P, pages: nat, mode: set<Acl>, u: nat)
    requires t.height > 0 && pages <= Span(t.height)
    ensures forall j: nat :: j < pages && Hits(t, vpn, j, u) ==>
      Ranged(t, vpn, ppn, pages, mode, u) == Some(t.ops.leaf(Nth(t.ops, ppn, j), mode))
    ensures (forall j: nat :: j < pages ==> !Hits(t, vpn, j, u)) ==> Ranged(t, vpn, ppn, pages, mode, u) == Lookup(t, u)
  {
    if pages > 0 {
      RangedExact(t, vpn, ppn, pages - 1, mode, u);
      assert Hits(t, vpn, pages - 1, u) <==> u % Span(t.height) == (vpn + pages - 1) % Span(t.height);
      forall j: nat | j < pages && Hits(t, vpn, j, u)
        ensures Ranged(t, vpn, ppn, pages, mode, u) == Some(t.ops.leaf(Nth(t.ops, ppn, j), mode))
      {
        if Hits(t, vpn, pages - 1, u) { PartUnique(vpn + j, vpn + pages - 1, t.height); }
      }
    }
  }

  ghost predicate ShowsRange<P, E>(t': Tables<P, E>, t: Tables<P, E>, vpn: nat, ppn: P, pages: nat, mode: set<Acl>) {
    t.height > 0 && t'.height > 0
    && forall u {:trigger Lookup(t', u)} :: Lookup(t', u) == Ranged(t, vpn, ppn, pages, mode, u)
  }

  lemma OneMore<P, E>(t2: Tables<P, E>, t1: Tables<P, E>, t: Tables<P, E>, vpn: nat, ppn: P, pages: nat, mode: set<Acl>)
    requires ShowsRange(t1, t, vpn, ppn, pages, mode) && t1.height == t.height == t2.height
    requires forall u {:trigger Lookup(t2, u)} ::
      Lookup(t2, u) == Mapped(t1, vpn + pages, t.ops.leaf(Nth(t.ops, ppn, pages), mode), u)
    ensures ShowsRange(t2, t, vpn, ppn, pages + 1, mode)
  {
    forall u ensures Lookup(t2, u) == Ranged(t, vpn, ppn, pages + 1, mode, u) {
      assert Lookup(t1, u) == Ranged(t, vpn, ppn, pages, mode, u);
    }
  }

  class PageMapper<P(==, !new), E> {
    const ops: Ops<P, E>
    const height: nat
    const root: P
    /** The pages that the allocator may hand out are those in `usable`. */
    ghost const usable: P -> bool
    /** Physical memory, as far as it is read as tables. */
    var mem: map<P, seq<E>>
    /** The pages that the allocator still has. */
    var free: set<P>
    ghost var shape: Shape<P>

    ghost function Now(): Tables<P, E>
      reads this
    {
      Tables(ops, height, root, mem)
    }

    ghost predicate Valid()
      reads this
    {
      && Lawful(ops, usable) && Tree(Now(), shape)
      && forall x {:trigger x in free} :: x in free ==> usable(x) && x !in shape.paths
    }

    /** `new_with_allocator`: a mapper with one empty table. */
    constructor (ops: Ops<P, E>, height: nat, mem: map<P, seq<E>>, free: set<P>, page: P, ghost usable: P -> bool)
      requires height > 0 && Lawful(ops, usable) && page in free && forall x :: x in free ==> usable(x)
      ensures Valid() && this.height == height && this.ops == ops && forall u :: Lookup(Now(), u).None?
      ensures this.free == free - {page}
    {
      this.ops, this.height, this.root, this.usable := ops, height, page, usable;
      this.mem := mem[page := seq(PTES, i => ops.zero)];
      this.free := free - {page};
      this.shape := Shape(map[[] := page], map[page := []]);
      new;
      forall p | p in shape.at ensures NodeOk(Now(), shape, p) {}
      forall u ensures Lookup(Now(), u).None? {}
    }

    /** One round of the descent: make sure that the table below `current` on the way to `vpn` exists. */
    method Descend(vpn: nat, level: nat, current: P) returns (ok: bool, next: P)
      requires Valid() && 0 < level < height
      requires Path(vpn, level + 1, height) in shape.at && current == shape.at[Path(vpn, level + 1, height)]
      modifies `mem, `free, `shape
      ensures Valid() && SameSlots(old(Now()), old(shape), Now(), shape)
      ensures ok ==> Path(vpn, level, height) in shape.at && next == shape.at[Path(vpn, level, height)]
      ensures !ok ==> free == {}
      ensures Grown(old(mem), old(free), old(shape), mem, free, shape)
    {
      ghost var p := Path(vpn, level + 1, height);
      var index := Digit(vpn, level);
      assert NodeOk(Now(), shape, p) && SlotOk(Now(), shape, p, index);
      assert Path(vpn, level, height) == p + [index];
      next := current;
      var entry := mem[current][index];
      if !ops.valid(entry) {
        if free == {} {
          return false, current;
        }
        var page :| page in free;
        var zeroes := seq(PTES, i => ops.zero);
        AttachKeeps(Now(), shape, p, index, page, zeroes);
        free := free - {page};
        mem := mem[page := zeroes];
        entry := ops.table(page);
        mem := mem[current := mem[current][index := entry]];
        shape := Attached(shape, p, index, page);
      }
      Parent(Now(), shape, p, index);
      return true, ops.child(entry);
    }

    /** The descent of `map_4k` from the root to the last table on the way to `vpn`. */
    method LeafTable(vpn: nat) returns (ok: bool, current: P)
      requires Valid()
      modifies `mem, `free, `shape
      ensures Valid() && SameSlots(old(Now()), old(shape), Now(), shape)
      ensures ok ==> Path(vpn, 1, height) in shape.at && current == shape.at[Path(vpn, 1, height)]
      ensures !ok ==> free == {}
      ensures Grown(old(mem), old(free), old(shape), mem, free, shape)
    {
      current := root;
      var level := height - 1;
      assert Path(vpn, level + 1, height) == [];
      while level > 0
        invariant Valid() && 0 <= level < height && SameSlots(old(Now()), old(shape), Now(), shape)
        invariant Path(vpn, level + 1, height) in shape.at && current == shape.at[Path(vpn, level + 1, height)]
        invariant Grown(old(mem), old(free), old(shape), mem, free, shape)
      {
        ok, current := Descend(vpn, level, current);
        if !ok {
          return;
        }
        level := level - 1;
      }
      ok := true;
    }

    /** `map_4k`.  An allocator without pages makes the original panic; the mapping is then left as it was. */
    method Map4k(vpn: nat, ppn: P, mode: set<Acl>) returns (ok: bool)
      requires Valid()
      modifies `mem, `free, `shape
      ensures Valid() && Grown(old(mem), old(free), old(shape), mem, free, shape)
      ensures ok ==> forall u {:trigger Lookup(Now(), u)} ::
        Lookup(Now(), u) == Mapped(old(Now()), vpn, ops.leaf(ppn, mode), u)
      ensures !ok ==> free == {} && forall u {:trigger Lookup(Now(), u)} :: Lookup(Now(), u) == Lookup(old(Now()), u)
    {
      var current: P;
      ok, current := LeafTable(vpn);
      ghost var t1 := Now();
      forall u ensures Lookup(t1, u) == Lookup(old(Now()), u) { SameLookup(old(Now()), old(shape), t1, shape, u); }
      if ok {
        var e, i := ops.leaf(ppn, mode), Digit(vpn, 0);
        WriteLeaf(t1, shape, Path(vpn, 1, height), i, e);
        forall u ensures Lookup(SetEntry(t1, current, i, e), u) == Mapped(t1, vpn, e, u) {
          LeafLookup(t1, shape, vpn, e, u);
        }
        assert NodeOk(t1, shape, Path(vpn, 1, height));
        assert current in shape.paths;
        mem := mem[current := mem[current][i := e]];
        assert Now() == SetEntry(t1, current, i, e);
      }
    }

    /** The next page of a range; `t` is how things were before the range. */
    method MapNext(v: nat, p: P, mode: set<Acl>, ghost t: Tables<P, E>, ghost free0: set<P>, ghost shape0: Shape<P>,
                   ghost vpn: nat, ghost ppn: P, ghost done: nat)
      returns (ok: bool)
      requires Valid() && t.height == height && t.ops == ops && ShowsRange(Now(), t, vpn, ppn, done, mode)
      requires v == vpn + done && p == Nth(ops, ppn, done) && Grown(t.mem, free0, shape0, mem, free, shape)
      modifies `mem, `free, `shape
      ensures Valid() && Grown(t.mem, free0, shape0, mem, free, shape)
      ensures ShowsRange(Now(), t, vpn, ppn, if ok then done + 1 else done, mode)
      ensures !ok ==> free == {}
    {
      ghost var t1 := Now();
      ok := Map4k(v, p, mode);
      if ok { OneMore(Now(), t1, t, vpn, ppn, done, mode); } else { SameRange(Now(), t1, t, vpn, ppn, done, mode); }
    }

    /** `map_with_allocator`; `done` pages have been mapped, all of them unless the allocator runs out. */
    method MapRange(vpn: nat, ppn: P, pages: nat, mode: set<Acl>) returns (ok: bool, ghost done: nat)
      requires Valid()
      modifies `mem, `free, `shape
      ensures Valid() && Grown(old(mem), old(free), old(shape), mem, free, shape)
      ensures ShowsRange(Now(), old(Now()), vpn, ppn, done, mode)
      ensures ok ==> done == pages
      ensures !ok ==> done < pages && free == {}
    {
      var v, p, left := vpn, ppn, pages;
      done := 0;
      while left > 0
        invariant Valid() && done + left == pages && v == vpn + done && p == Nth(ops, ppn, done)
        invariant Grown(old(mem), old(free), old(shape), mem, free, shape)
        invariant ShowsRange(Now(), old(Now()), vpn, ppn, done, mode)
      {
        ok := MapNext(v, p, mode, old(Now()), old(free), old(shape), vpn, ppn, done);
        if !ok {
          return;
        }
        v, p, left, done := v + 1, ops.next(p), left - 1, done + 1;
      }
      ok := true;
    }

    /** A read of a table entry; the table must not have been freed. */
    method GetEntry(page: P, index: nat, ghost freed: seq<P>) returns (e: E)
      requires IsTable(Now(), page) && index < PTES && page !in freed
      ensures e == Entry(Now(), page, index)
    {
      e := mem[page][index];
    }

    /** The round at level 1: free every table below the one at `p`. */
    method FreeKids(table: P, ghost p: seq<nat>, ghost freed: seq<P>) returns (pages: seq<P>)
      requires Valid() && p in shape.at && |p| + 2 == height && table == shape.at[p] && table !in freed
      ensures pages == Kids(shape, p, 0)
    {
      pages := [];
      assert NodeOk(Now(), shape, p);
      for index := 0 to PTES
        invariant pages + Kids(shape, p, index) == Kids(shape, p, 0)
        invariant table !in freed + pages
      {
        var entry := GetEntry(table, index, freed + pages);
        KidAt(Now(), shape, p, index);
        KidsStep(shape, p, index, pages);
        if ops.valid(entry) {
          pages := pages + [ops.child(entry)];
        }
      }
    }

    ghost predicate Looping(tables: array<Option<P>>, indexes: array<nat>, level: nat, freed: seq<P>, p: seq<nat>,
        done: seq<Step<P>>)
      reads this, tables, indexes
    {
      && Valid() && 3 <= height && WellShaped(shape, height)
      && Stacked(shape, height, tables[..], indexes[..], p, level)
      && Standing(shape, height, done, p, indexes[level]) && freed == Pages(done)
    }

    /** Finish a table whose pages to free are `pages`, and move the table above on by one. */
    method Leave(tables: array<Option<P>>, indexes: array<nat>, level: nat, pages: seq<P>, freed: seq<P>,
        ghost p: seq<nat>, ghost done: seq<Step<P>>)
      returns (level': nat, freed': seq<P>, ghost p': seq<nat>, ghost done': seq<Step<P>>)
      requires Looping(tables, indexes, level, freed, p, done) && level + 1 < height
      requires if level == 1 then pages == Kids(shape, p, 0) else indexes[level] == PTES && pages == [shape.at[p]]
      modifies indexes
      ensures Looping(tables, indexes, level', freed', p', done') && freed' == freed + pages
      ensures |Rest(shape, height, p', indexes[level'])| < old(|Rest(shape, height, p, indexes[level])|)
    {
      ghost var ts, xs := tables[..], indexes[..];
      freed', done' := freed + pages, done + [Release(pages)];
      p' := p[..|p| - 1];
      indexes[level] := 0;
      level' := level + 1;
      indexes[level'] := indexes[level'] + 1;
      StackedUp(shape, height, ts, xs, p, level, indexes[..]);
      StepOut(shape, height, done, p, xs[level], pages);
    }

    /** Pass an entry that leads to no table. */
    method Pass(tables: array<Option<P>>, indexes: array<nat>, level: nat, freed: seq<P>, ghost p: seq<nat>,
        ghost done: seq<Step<P>>)
      requires Looping(tables, indexes, level, freed, p, done) && level >= 2 && indexes[level] < PTES
      requires p + [indexes[level]] !in shape.at
      modifies indexes
      ensures Looping(tables, indexes, level, freed, p, done + [Skip])
      ensures |Rest(shape, height, p, indexes[level])| < old(|Rest(shape, height, p, indexes[level])|)
    {
      ghost var xs, i := indexes[..], indexes[level];
      StepSkip(shape, height, done, p, i);
      StackedOn(shape, height, tables[..], xs, p, level, i + 1);
      indexes[level] := indexes[level] + 1;
      assert indexes[..] == xs[level := i + 1];
    }

    /** Descend into the table in `child`. */
    method Descent(tables: array<Option<P>>, indexes: array<nat>, level: nat, child: P, freed: seq<P>,
        ghost p: seq<nat>, ghost done: seq<Step<P>>)
      requires Looping(tables, indexes, level, freed, p, done) && level >= 2 && indexes[level] < PTES
      requires p + [indexes[level]] in shape.at && child == shape.at[p + [indexes[level]]]
      modifies tables
      ensures Looping(tables, indexes, level - 1, freed, p + [indexes[level]], done + [Enter])
      ensures |Rest(shape, height, p + [indexes[level]], indexes[level - 1])| < |Rest(shape, height, p, indexes[level])|
    {
      ghost var ts := tables[..];
      StepEnter(shape, height, done, p, indexes[level]);
      StackedDown(shape, height, ts, indexes[..], p, level);
      tables[level - 1] := Some(child);
      assert tables[..] == ts[level - 1 := Some(child)];
    }

    /** One iteration of the loop; the last one frees the root. */
    method Round(tables: array<Option<P>>, indexes: array<nat>, level: nat, freed: seq<P>, ghost p: seq<nat>,
        ghost done: seq<Step<P>>)
      returns (stop: bool, level': nat, freed': seq<P>, ghost p': seq<nat>, ghost done': seq<Step<P>>)
      requires Looping(tables, indexes, level, freed, p, done)
      modifies tables, indexes
      ensures stop ==> freed' == Pages(Trace(shape, height, [], 0))
      ensures !stop ==> Looping(tables, indexes, level', freed', p', done')
      ensures !stop ==> |Rest(shape, height, p', indexes[level'])| < old(|Rest(shape, height, p, indexes[level])|)
    {
      stop, level', freed', p', done' := false, level, freed, p, done;
      StandingTable(shape, height, done, p, indexes[level]);
      assert p[..|p|] == p && TableAt(shape, height, tables[..], p, level) && NodeOk(Now(), shape, p);
      var table := tables[level].value;
      if level == 1 {
        var pages := FreeKids(table, p, freed);
        level', freed', p', done' := Leave(tables, indexes, level, pages, freed, p, done);
      } else if indexes[level] == PTES {
        if level == height - 1 {
          StepEnd(shape, height, done, PTES, [table]);
          stop, freed' := true, freed + [table];
        } else {
          level', freed', p', done' := Leave(tables, indexes, level, [table], freed, p, done);
        }
      } else {
        level', p', done' := Probe(tables, indexes, level, table, freed, p, done);
      }
    }

    /** Look at the next entry of the table. */
    method Probe(tables: array<Option<P>>, indexes: array<nat>, level: nat, table: P, freed: seq<P>,
        ghost p: seq<nat>, ghost done: seq<Step<P>>)
      returns (level': nat, ghost p': seq<nat>, ghost done': seq<Step<P>>)
      requires Looping(tables, indexes, level, freed, p, done) && level >= 2 && indexes[level] < PTES
      requires p in shape.at && table == shape.at[p] && table !in freed && NodeOk(Now(), shape, p)
      modifies tables, indexes
      ensures Looping(tables, indexes, level', freed, p', done')
      ensures |Rest(shape, height, p', indexes[level'])| < old(|Rest(shape, height, p, indexes[level])|)
    {
      var entry := GetEntry(table, indexes[level], freed);
      KidAt(Now(), shape, p, indexes[level]);
      if !ops.valid(entry) {
        Pass(tables, indexes, level, freed, p, done);
        level', p', done' := level, p, done + [Skip];
      } else {
        Descent(tables, indexes, level, ops.child(entry), freed, p, done);
        level', p', done' := level - 1, p + [indexes[level]], done + [Enter];
      }
    }

    /**
     * `destroy_with_allocator`.  Each round is one iteration of the loop; `freed` lists the pages in
     * the order in which they go back to the allocator.
     */
    method Destroy() returns (freed: seq<P>)
      requires Valid() && 3 <= height <= 5
      ensures freed == Pages(Trace(shape, height, [], 0))
      ensures NoDup(freed)
      ensures forall x {:trigger x in freed} :: x in freed <==> x in shape.paths && |shape.paths[x]| + 2 != height
    {
      TreeWellShaped(Now(), shape);
      var tables := new Option<P>[MAX_SUPPORTED_LEVEL](i => None);
      var indexes := new nat[MAX_SUPPORTED_LEVEL](i => 0);
      var level: nat := height - 1;
      tables[level] := Some(root);
      freed := [];
      ghost var p: seq<nat>, done: seq<Step<P>> := [], [];
      StandingStart(shape, height);
      ghost var work := |Rest(shape, height, p, indexes[level])|;
      var stop := false;
      while !stop
        invariant stop ==> freed == Pages(Trace(shape, height, [], 0))
        invariant !stop ==>
          Looping(tables, indexes, level, freed, p, done) && work == |Rest(shape, height, p, indexes[level])|
        decreases if stop then 0 else 1, work
      {
        stop, level, freed, p, done := Round(tables, indexes, level, freed, p, done);
        if !stop { work := |Rest(shape, height, p, indexes[level])|; }
      }
      TeardownExact(shape, height, freed);
    }
  }

  /** An entry above the last level is valid exactly when its path leads to a table, which is another one. */
  lemma KidAt<P, E>(t: Tables<P, E>, s: Shape<P>, p: seq<nat>, i: nat)
    requires Tree(t, s) && p in s.at && |p| + 1 < t.height && i < PTES
    ensures t.ops.valid(Entry(t, s.at[p], i)) <==> p + [i] in s.at
    ensures p + [i] in s.at ==> t.ops.child(Entry(t, s.at[p], i)) == s.at[p + [i]] && s.at[p + [i]] != s.at[p]
  {
    assert SlotOk(t, s, p, i) && NodeOk(t, s, p);
    if p + [i] in s.at {
      Parent(t, s, p, i);
      assert NodeOk(t, s, p + [i]);
    }
  }

  lemma KidsStep<P>(s: Shape<P>, p: seq<nat>, i: nat, pages: seq<P>)
    requires i < PTES
    ensures pages + Kids(s, p, i) == (if p + [i] in s.at then pages + [s.at[p + [i]]] else pages) + Kids(s, p, i + 1)
  {
    var k := Kids(s, p, i + 1);
    if p + [i] in s.at {
      assert Kids(s, p, i) == [s.at[p + [i]]] + k;
      assert pages + ([s.at[p + [i]]] + k) == pages + [s.at[p + [i]]] + k;
    } else {
      assert Kids(s, p, i) == [] + k == k;
    }
  }

  lemma SameRange<P, E>(t2: Tables<P, E>, t1: Tables<P, E>, t: Tables<P, E>, vpn: nat, ppn: P, pages: nat,
      mode: set<Acl>)
    requires ShowsRange(t1, t, vpn, ppn, pages, mode) && t1.height == t.height == t2.height
    requires forall u {:trigger Lookup(t2, u)} :: Lookup(t2, u) == Lookup(t1, u)
    ensures ShowsRange(t2, t, vpn, ppn, pages, mode)
  {
  }

  /** New tables come from the allocator; tables stay where they are, and no other page is touched. */
  ghost predicate Grown<P, E>(mem: map<P, seq<E>>, free: set<P>, s: Shape<P>, mem': map<P, seq<E>>, free': set<P>,
      s': Shape<P>) {
    && free' <= free
    && (forall p {:trigger p in s.at} {:trigger p in s'.at} :: p in s.at ==> p in s'.at && s'.at[p] == s.at[p])
    && (forall x {:trigger x in s'.paths} :: x in s'.paths ==> x in s.paths || x in free - free')
    && (forall x {:trigger x in mem} {:trigger x in mem'} :: x in mem && x !in s.paths && x !in free ==>
      x in mem' && mem'[x] == mem[x])
  }
}
