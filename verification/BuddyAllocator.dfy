/** The buddy allocator on its linked lists: zones, node pool and pool extension. */
module BuddyAllocator {
  import opened Common
  import opened Dyadic
  import opened Blocks
  import opened ZoneLists
  import opened ZoneRuns
  import opened ZoneTotals
  import opened NodeLists
  import opened CarriedLists
  import opened PoolBytes

  datatype MemoryZone = MemoryZone(base: nat, pages: nat)

  const MIN_POOL_REMAIN: nat := MAX_POW
  const NODE_COMPATIBILITY: nat := 512

  /** The order of an extended pool's block. */
  function ExtOrder(): nat {
    CeilLog2(EXT_POOL_PAGES)
  }

  /** A block of that order has room for the pool. */
  lemma ExtFits(a: Block)
    requires a.order == ExtOrder()
    ensures Roomy(Size(a))
  {
    PoolPages();
    assert Size(a) == Pow2(ExtOrder()) >= EXT_POOL_PAGES;
  }

  /** Freeing a live block never indexes past the last list. */
  lemma FreeNoPanic(pages: nat, l: Lists, live: set<Block>, b: Block)
    requires ZoneInv(pages, l, live) && b in live && b.order < MAX_POW
    ensures WrittenFree(l, b).Some?
  {
    StoppingFreeCorrect(pages, l, live, b);
    MergeOrder(l, Start(b), b.order);
  }

  lemma FreedZone(pages: nat, l: Lists, live: set<Block>, b: Block)
    requires ZoneInv(pages, l, live) && b in live && b.order < MAX_POW && WrittenFree(l, b).Some?
    ensures NoFalsePartner(l, Start(b), b.order) <==> ZoneInv(pages, WrittenFree(l, b).value, live - {b})
  {
    WrittenFreeExact(pages, l, live, b);
  }

  lemma WrittenFreeTotal(l: Lists, b: Block)
    requires b.order < MAX_POW && WrittenFree(l, b).Some? && NoFalsePartner(l, Start(b), b.order)
    ensures Total(WrittenFree(l, b).value) == Total(l) + Pow2(b.order)
  {
    WrittenMergeExact(l, Start(b), b.order);
    var m := WrittenMerge(l, Start(b), b.order, b.order);
    TotalAddFront(m.lists, m.order, m.rel);
  }

  datatype Grant = Grant(views: seq<Lists>, live: seq<set<Block>>, start: Option<nat>)

  /** The outcome of asking for a block of order `k`: the first zone that has one gives it. */
  ghost function Give(zones: seq<MemoryZone>, views: seq<Lists>, live: seq<set<Block>>, k: nat): Grant
    requires |views| == |zones| == |live|
  {
    var z := FirstZone(views, k);
    if z == |views| then Grant(views, live, None)
    else
      var Allocated(l, x) := Alloc(views[z], k);
      Grant(views[z := l], live[z := live[z] + {Block(k, Anc(x, k))}], Some(zones[z].base + x))
  }

  /** The first zone that can give a block does. */
  lemma GiveFrom(zones: seq<MemoryZone>, views: seq<Lists>, live: seq<set<Block>>, k: nat, z: nat)
    requires |views| == |zones| == |live| && z < |zones| && z <= FirstZone(views, k)
    ensures Alloc(views[z], k).NoBlock? ==> z < FirstZone(views, k)
    ensures Alloc(views[z], k).Allocated? ==>
      var Allocated(l, x) := Alloc(views[z], k);
      && FirstZone(views, k) == z
      && Give(zones, views, live, k) ==
           Grant(views[z := l], live[z := live[z] + {Block(k, Anc(x, k))}], Some(zones[z].base + x))
  {
  }

  lemma GiveNone(zones: seq<MemoryZone>, views: seq<Lists>, live: seq<set<Block>>, k: nat)
    requires |views| == |zones| == |live| && |zones| <= FirstZone(views, k)
    ensures Give(zones, views, live, k) == Grant(views, live, None)
  {
  }

  class BuddyAllocator {
    var free: nat
    var zones: seq<MemoryZone>
    var freenodeRemain: nat
    /** The nodes, `free_start` (the head of `Pool`) and every zone's `pows` (the heads of `Order`). */
    var mem: Memory
    /** The pages that hold extended node pools. */
    var extendedPools: seq<nat>

    ghost var layout: Layout
    /** The page numbers on each zone's lists. */
    ghost var views: seq<Lists>
    /** The blocks handed out of each zone. */
    ghost var live: seq<set<Block>>
    /** Nodes counted in `freenodeRemain` that a failed extension never delivered. */
    ghost var phantom: nat

    ghost function PoolNodes(): nat
      reads `layout
    {
      if Pool in layout.chains then |layout.chains[Pool]| else 0
    }

    /** Every node is on exactly one list and the counter is the length of the pool's list. */
    ghost predicate Wired()
      reads `mem, `layout, `views, `freenodeRemain, `phantom
    {
      && Linked(mem, layout) && Carried(mem, layout, views)
      && freenodeRemain == PoolNodes() + phantom
    }

    method AddNode(z: nat, pow: nat, x: nat)
      requires Wired() && z < |views| && pow < MAX_POW && PoolNodes() > 0
      modifies `mem, `layout, `views, `freenodeRemain
      ensures Wired() && views == old(views)[z := AddFront(old(views)[z], pow, x)]
      ensures PoolNodes() == old(PoolNodes()) - 1 && mem.cells.Keys == old(mem.cells.Keys)
    {
      FirstNode(mem, layout, Pool);
      AddNodeCarried(mem, layout, views, z, pow, x);
      // alloc_node
      var a := mem.heads[Pool].value;
      freenodeRemain := freenodeRemain - 1;
      var heads := mem.heads[Pool := mem.cells[a].next];
      // write the node in front of the zone's list
      mem := Memory(mem.cells[a := FreeNode(x, heads[Order(z, pow)])], heads[Order(z, pow) := Some(a)]);
      layout := MovedFirst(layout, Pool, Order(z, pow));
      views := views[z := AddFront(views[z], pow, x)];
    }

    /** `new_node`, and the recycling of the node it returns. */
    method TakeFirst(z: nat, pow: nat) returns (x: nat)
      requires Wired() && z < |views| && pow < MAX_POW
      requires Order(z, pow) in mem.heads && mem.heads[Order(z, pow)].Some?
      modifies `mem, `layout, `views, `freenodeRemain
      ensures Wired() && old(views)[z][pow] != [] && x == old(views)[z][pow][0]
      ensures views == old(views)[z := old(views)[z][pow := old(views)[z][pow][1..]]]
      ensures PoolNodes() == old(PoolNodes()) + 1 && mem.cells.Keys == old(mem.cells.Keys)
    {
      TakeFirstCarried(mem, layout, views, z, pow);
      var a := mem.heads[Order(z, pow)].value;
      x := mem.cells[a].pageNumber;
      var heads := mem.heads[Order(z, pow) := mem.cells[a].next];
      // recycle_node
      mem := Memory(mem.cells[a := FreeNode(x, heads[Pool])], heads[Pool := Some(a)]);
      freenodeRemain := freenodeRemain + 1;
      layout := MovedFirst(layout, Order(z, pow), Pool);
      views := views[z := views[z][pow := views[z][pow][1..]]];
    }

    lemma HeadOf(z: nat, pow: nat)
      requires Wired() && z < |views| && pow < MAX_POW
      ensures Order(z, pow) in mem.heads
      ensures mem.heads[Order(z, pow)].None? <==> views[z][pow] == []
    {
      assert CarriedAt(mem, layout, views, z, pow);
      FirstNode(mem, layout, Order(z, pow));
      NumbersAt(mem.cells, layout.chains[Order(z, pow)]);
    }

    /** The splitting loop: list the right halves of `[left, left + 2^pow)` down to the size asked for. */
    method SplitDown(z: nat, left: nat, pow: nat, pagesCount: nat, ghost k: nat)
      requires Wired() && z < |views| && k < pow < MAX_POW && pagesCount == Pow2(k) && PoolNodes() >= pow - k
      modifies `mem, `layout, `views, `freenodeRemain
      ensures Wired() && mem.cells.Keys == old(mem.cells.Keys)
      ensures views == old(views)[z := SplitLists(old(views)[z], left, pow, k)]
    {
      var i := pow;
      while i > 0
        invariant k < i <= pow && PoolNodes() >= i - k
        invariant Wired() && mem.cells.Keys == old(mem.cells.Keys)
        invariant |views| == |old(views)| && views == old(views)[z := views[z]]
        invariant SplitLists(views[z], left, i, k) == SplitLists(old(views)[z], left, pow, k)
      {
        i := i - 1;
        AddNode(z, i, left + Pow2(i));
        Pow2Injective(i, k);
        if pagesCount == Pow2(i) {
          return;
        }
      }
    }

    /** `MemoryZone::alloc_pages` on zone `z`. */
    method ZoneAlloc(z: nat, pagesCount: nat, ghost k: nat) returns (r: Option<nat>)
      requires Wired() && z < |views| && z < |zones| && pagesCount == Pow2(k)
      requires PoolSuffices(views[z], k, PoolNodes())
      modifies `mem, `layout, `views, `freenodeRemain
      ensures Wired() && mem.cells.Keys == old(mem.cells.Keys)
      ensures Alloc(old(views)[z], k).NoBlock? ==>
        r.None? && views == old(views) && mem == old(mem) && layout == old(layout)
          && freenodeRemain == old(freenodeRemain)
      ensures Alloc(old(views)[z], k).Allocated? ==>
        && r == Some(zones[z].base + Alloc(old(views)[z], k).start)
        && views == old(views)[z := Alloc(old(views)[z], k).lists]
    {
      ghost var l := views[z];
      for pow := 0 to MAX_POW
        invariant Wired() && views == old(views) && mem == old(mem) && layout == old(layout)
          && freenodeRemain == old(freenodeRemain)
        invariant forall i :: k <= i < pow ==> l[i] == []
      {
        HeadOf(z, pow);
        var start := mem.heads[Order(z, pow)];
        OrderOf(pow, k);
        if start.Some? && Pow2(pow) == pagesCount {
          FirstIs(l, k, pow);
          var x := TakeFirst(z, pow);
          return Some(zones[z].base + x);
        } else if start.Some? && Pow2(pow) > pagesCount {
          FirstIs(l, k, pow);
          var left := TakeFirst(z, pow);
          SplitDown(z, left, pow, pagesCount, k);
          return Some(zones[z].base + left);
        }
      }
      NoneFrom(l, k);
      return None;
    }

    /** Redirect `current` past `next`, node `i` of its list, and recycle `next`. */
    method UnlinkNext(z: nat, pow: nat, current: Addr, next: Addr, ghost i: nat)
      requires Wired() && z < |views| && pow < MAX_POW && Order(z, pow) in layout.chains
      requires 0 < i < |layout.chains[Order(z, pow)]|
      requires current == layout.chains[Order(z, pow)][i - 1] && next == layout.chains[Order(z, pow)][i]
      modifies `mem, `layout, `views, `freenodeRemain
      ensures Wired() && mem.cells.Keys == old(mem.cells.Keys)
      ensures var v := old(views)[z][pow];
              i < |v| && views == old(views)[z := old(views)[z][pow := v[..i] + v[i + 1..]]]
      ensures PoolNodes() == old(PoolNodes()) + 1
    {
      TakeAtCarried(mem, layout, views, z, pow, i);
      views := views[z := views[z][pow := views[z][pow][..i] + views[z][pow][i + 1..]]];
      var cells := mem.cells[current := mem.cells[current].(next := mem.cells[next].next)];
      // recycle_node
      OnOneList(mem, layout, Order(z, pow), i - 1, Order(z, pow), i);
      mem := Memory(cells[next := cells[next].(next := mem.heads[Pool])], mem.heads[Pool := Some(next)]);
      freenodeRemain := freenodeRemain + 1;
      layout := MovedAt(layout, Order(z, pow), i);
    }

    /** The search of the list of order `pow` for a node at page `x`, which is unlinked and recycled. */
    method TakePartner(z: nat, pow: nat, x: int) returns (found: bool)
      requires Wired() && z < |views| && pow < MAX_POW
      requires Order(z, pow) in mem.heads && mem.heads[Order(z, pow)].Some?
      modifies `mem, `layout, `views, `freenodeRemain
      ensures Wired() && mem.cells.Keys == old(mem.cells.Keys)
      ensures found <==> x in old(views)[z][pow]
      ensures !found ==> views == old(views) && PoolNodes() == old(PoolNodes())
      ensures found ==> views == old(views)[z := old(views)[z][pow := Remove(old(views)[z][pow], x)]]
      ensures found ==> PoolNodes() == old(PoolNodes()) + 1
    {
      assert CarriedAt(mem, layout, views, z, pow);
      ghost var s, v := layout.chains[Order(z, pow)], views[z][pow];
      FirstNode(mem, layout, Order(z, pow));
      NumbersAt(mem.cells, s);
      var current := mem.heads[Order(z, pow)].value;
      if mem.cells[current].pageNumber == x {
        RemoveAt(v, x, 0);
        var _ := TakeFirst(z, pow);
        return true;
      }
      ghost var i := 0;
      assert ChainOf(mem, layout, Order(z, pow));
      ChainMember(mem.cells, layout.place, mem.heads[Order(z, pow)], s, Order(z, pow), 0);
      while mem.cells[current].next.Some?
        invariant Wired() && mem == old(mem) && layout == old(layout) && views == old(views)
        invariant freenodeRemain == old(freenodeRemain)
        invariant 0 <= i < |s| && current == s[i] && current in mem.cells && x !in v[..i + 1]
        invariant mem.cells[current].next == if i + 1 < |s| then Some(s[i + 1]) else None
        decreases |s| - i
      {
        var next := mem.cells[current].next.value;
        ChainMember(mem.cells, layout.place, mem.heads[Order(z, pow)], s, Order(z, pow), i + 1);
        if mem.cells[next].pageNumber == x {
          RemoveAt(v, x, i + 1);
          UnlinkNext(z, pow, current, next, i + 1);
          return true;
        }
        assert v[..i + 2] == v[..i + 1] + [v[i + 1]];
        current, i := next, i + 1;
      }
      assert v[..i + 1] == v;
      return false;
    }

    static method FindPow(pagesCount: nat, ghost k: nat) returns (pow: nat)
      requires k < MAX_POW && pagesCount == Pow2(k)
      ensures pow == k
    {
      pow := 0;
      for i := 0 to MAX_POW
        invariant i <= k
      {
        Pow2Injective(i, k);
        if Pow2(i) == pagesCount {
          return i;
        }
      }
    }

    /** One round of the merge loop at an order whose list is not empty. */
    method MergeOnce(z: nat, pow: nat, rel: nat, powFinal: nat, count: nat)
        returns (rel': nat, powFinal': nat, count': nat)
      requires Wired() && z < |views| && powFinal <= pow < MAX_POW && count == Pow2(powFinal)
      requires views[z][pow] != []
      modifies `mem, `layout, `views, `freenodeRemain
      ensures Wired() && mem.cells.Keys == old(mem.cells.Keys)
      ensures |views| == |old(views)| && views == old(views)[z := views[z]]
      ensures powFinal <= powFinal' <= pow + 1 && count' == Pow2(powFinal')
      ensures WrittenMerge(views[z], rel', powFinal', pow + 1) == WrittenMerge(old(views)[z], rel, powFinal, pow)
      ensures PoolNodes() == old(PoolNodes()) + (powFinal' - powFinal)
    {
      HeadOf(z, pow);
      rel', powFinal', count' := rel, powFinal, count;
      MergeUnfold(views[z], rel, powFinal, pow);
      if Multiple(rel, pow + 1) {
        var found := TakePartner(z, pow, rel + Pow2(pow));
        if found {
          powFinal', count' := powFinal + 1, 2 * count;
        }
      } else {
        var found := TakePartner(z, pow, rel - Pow2(pow));
        if found {
          powFinal', rel', count' := powFinal + 1, rel - count, 2 * count;
        }
      }
    }

    /** `MemoryZone::free_pages` on zone `z`. */
    method ZoneFree(z: nat, pageStart: nat, pagesCount: nat, ghost k: nat)
      requires Wired() && z < |views| && z < |zones| && k < MAX_POW && pagesCount == Pow2(k)
      requires zones[z].base <= pageStart
      requires var m := WrittenMerge(views[z], pageStart - zones[z].base, k, k);
               m.order < MAX_POW && (m.order == k ==> PoolNodes() > 0)
      modifies `mem, `layout, `views, `freenodeRemain
      ensures Wired() && mem.cells.Keys == old(mem.cells.Keys)
      ensures var m := WrittenMerge(old(views)[z], pageStart - zones[z].base, k, k);
              views == old(views)[z := AddFront(m.lists, m.order, m.rel)]
    {
      var powFinal := FindPow(pagesCount, k);
      var rel;
      rel, powFinal := MergeAll(z, pageStart - zones[z].base, powFinal, pagesCount);
      AddNode(z, powFinal, rel);
    }

    /** The merge loop, from the block of order `k` at `start` on. */
    method MergeAll(z: nat, start: nat, k: nat, pagesCount: nat) returns (rel: nat, powFinal: nat)
      requires Wired() && z < |views| && k < MAX_POW && pagesCount == Pow2(k)
      modifies `mem, `layout, `views, `freenodeRemain
      ensures Wired() && mem.cells.Keys == old(mem.cells.Keys)
      ensures |views| == |old(views)| && views == old(views)[z := views[z]]
      ensures WrittenMerge(old(views)[z], start, k, k) == Merged(views[z], rel, powFinal)
      ensures k <= powFinal && PoolNodes() == old(PoolNodes()) + (powFinal - k)
    {
      rel, powFinal := start, k;
      ghost var m := WrittenMerge(views[z], rel, k, k);
      var count := pagesCount;
      var pow := powFinal;
      while pow < MAX_POW
        invariant Wired() && mem.cells.Keys == old(mem.cells.Keys)
        invariant |views| == |old(views)| && views == old(views)[z := views[z]]
        invariant k <= powFinal <= pow <= MAX_POW && count == Pow2(powFinal)
        invariant WrittenMerge(views[z], rel, powFinal, pow) == m
        invariant PoolNodes() == old(PoolNodes()) + (powFinal - k)
      {
        HeadOf(z, pow);
        if mem.heads[Order(z, pow)].None? {
          break;
        }
        rel, powFinal, count := MergeOnce(z, pow, rel, powFinal, count);
        pow := pow + 1;
      }
    }

    // ------------------------------------------------------ whole allocator

    ghost predicate ZoneOk(z: nat)
      reads `zones, `views, `live
    {
      z < |zones| && z < |views| && z < |live| && ZoneInv(zones[z].pages, views[z], live[z])
    }

    /** Page `p` starts block `b`, which has been handed out of zone `z`. */
    ghost predicate StartsLive(z: nat, b: Block, p: nat)
      reads `zones, `live
    {
      z < |zones| && z < |live| && b in live[z] && p == zones[z].base + Start(b)
    }

    /** The block has room for an extended pool. */
    ghost predicate Hosts(z: nat, b: Block, p: nat)
      reads `zones, `live
    {
      StartsLive(z, b, p) && Roomy(Size(b))
    }

    ghost predicate PoolPage(p: nat)
      reads `zones, `live
    {
      exists z, b :: Hosts(z, b, p)
    }

    /** Extended pools lie in blocks that have been handed out and have room, and hold all nodes but the static ones. */
    ghost predicate Housed()
      reads `mem, `extendedPools, `zones, `live
    {
      && (forall a {:trigger a in mem.cells} ::
            a in mem.cells && a.InPage? ==> a.page in extendedPools && a.index < EXT_NODE_COMPATIBILITY)
      && (forall a {:trigger a in mem.cells} :: a in mem.cells && a.Static? ==> a.index < NODE_COMPATIBILITY)
      && (forall p {:trigger PoolPage(p)} :: p in extendedPools ==> PoolPage(p))
    }

    ghost predicate ZonesApart()
      reads `zones
    {
      forall y, z :: 0 <= y < z < |zones| ==>
        zones[y].base + zones[y].pages <= zones[z].base || zones[z].base + zones[z].pages <= zones[y].base
    }

    /** What every call keeps: see `Wired` and `ZoneInv`; `free` is the total size of the listed blocks. */
    ghost predicate Valid()
      reads this
    {
      && Wired() && |views| == |zones| && |live| == |zones| && |zones| <= 16
      && free == FreeTotal(views)
      && (forall z: nat {:trigger ZoneOk(z)} :: z < |zones| ==> ZoneOk(z))
      && ZonesApart() && Housed()
    }

    // ---------------------------------------------------- where nodes lie in memory

    /** Block `b` of zone `z` is listed or handed out. */
    ghost predicate Held(z: nat, b: Block)
      reads `zones, `views, `live
    {
      z < |zones| && z < |views| && z < |live| && (b in live[z] || b in Abs(views[z]))
    }

    /** The first page of block `b` of zone `z`. */
    ghost function PageOf(z: nat, b: Block): nat
      requires z < |zones|
      reads `zones
    {
      zones[z].base + Start(b)
    }

    lemma InZone(z: nat, b: Block)
      requires Valid() && Held(z, b)
      ensures Start(b) + Size(b) <= zones[z].pages
    {
      assert ZoneOk(z);
      if b in live[z] { InBounds(zones[z].pages, live[z], b); } else { InBounds(zones[z].pages, Abs(views[z]), b); }
    }

    lemma SamePage(z: nat, b: Block, c: Block, p: nat)
      requires Valid() && z < |zones| && b in live[z] && Held(z, c) && Covers(b, p) && Covers(c, p)
      ensures b == c
    {
      assert ZoneOk(z);
      assert Cov(live[z], p);
      assert !Cov(Abs(views[z]), p);
    }

    /** A block that has been handed out shares no page with another block. */
    lemma HeldApart(z: nat, b: Block, w: nat, c: Block)
      requires Valid() && z < |zones| && b in live[z] && Held(w, c) && !(z == w && b == c)
      ensures PageOf(z, b) + Size(b) <= PageOf(w, c) || PageOf(w, c) + Size(c) <= PageOf(z, b)
    {
      InZone(z, b);
      InZone(w, c);
      if z == w {
        StartCovered(b);
        StartCovered(c);
        if Covers(c, Start(b)) { SamePage(z, b, c, Start(b)); }
        if Covers(b, Start(c)) { SamePage(z, b, c, Start(c)); }
      } else {
        assert z < w || w < z;
      }
    }

    /** A node of an extended pool lies inside the block that the pool was given. */
    lemma NodeHome(a: Addr) returns (z: nat, b: Block)
      requires Valid() && a in mem.cells && a.InPage?
      ensures z < |zones| && b in live[z] && a.page == PageOf(z, b)
      ensures PageOf(z, b) * 4096 <= NodeByte(a.page, a.index)
      ensures NodeByte(a.page, a.index) + 16 <= (PageOf(z, b) + Size(b)) * 4096
    {
      assert PoolPage(a.page);
      z, b :| Hosts(z, b, a.page);
      NodeInside(a.page, a.index, Size(b));
    }

    /** So it overlaps no listed block and no other block that has been handed out. */
    lemma NodeOutside(a: Addr, w: nat, c: Block)
      requires Valid() && a in mem.cells && a.InPage? && Held(w, c)
      ensures NodeByte(a.page, a.index) + 16 <= PageOf(w, c) * 4096
        || (PageOf(w, c) + Size(c)) * 4096 <= NodeByte(a.page, a.index)
        || (c in live[w] && a.page == PageOf(w, c))
    {
      var z, b := NodeHome(a);
      if !(z == w && b == c) { HeldApart(z, b, w, c); }
    }

    /** And no other node. */
    lemma NodesSeparate(a: Addr, c: Addr)
      requires Valid() && a in mem.cells && c in mem.cells && a.InPage? && c.InPage? && a != c
      ensures NodeByte(a.page, a.index) + 16 <= NodeByte(c.page, c.index)
        || NodeByte(c.page, c.index) + 16 <= NodeByte(a.page, a.index)
    {
      if a.page == c.page {
        NodesApart(a.page, a.index, c.index);
      } else {
        var z, b := NodeHome(a);
        var w, d := NodeHome(c);
        HeldApart(z, b, w, d);
      }
    }

    /** The loop that points each new node at the next one, and the last one at the pool's first node. */
    static method LinkCells(m: Memory, page: Option<nat>, n: nat) returns (cells: map<Addr, FreeNode>)
      requires Pool in m.heads && forall j: nat {:trigger NodeAt(page, j)} :: NodeAt(page, j) !in m.cells
      ensures Extends(m, page, n, cells)
    {
      cells := m.cells;
      NodesFromMembers(page, 0, n);
      for i := 0 to n
        invariant Linking(m, page, i, n, cells)
      {
        LinkMore(m, page, i, n, cells);
        cells := cells[NodeAt(page, i) := FreeNode(0, if i + 1 < n then Some(NodeAt(page, i + 1)) else m.heads[Pool])];
      }
    }

    /** Calls that move nodes about and end no extended pool's block keep the pools housed. */
    twostate lemma HousedKept()
      requires old(Housed()) && mem.cells.Keys == old(mem.cells.Keys) && extendedPools == old(extendedPools)
      requires forall p, z, b {:trigger StartsLive(z, b, p)} :: p in extendedPools && old(StartsLive(z, b, p)) ==>
        StartsLive(z, b, p)
      ensures Housed()
    {
      forall p | p in extendedPools ensures PoolPage(p) {
        assert old(PoolPage(p));
        var z, b :| old(Hosts(z, b, p));
        assert old(StartsLive(z, b, p));
        assert Hosts(z, b, p);
      }
    }

    twostate lemma ValidKept()
      requires old(Valid()) && zones == old(zones) && extendedPools == old(extendedPools) && phantom == old(phantom)
      requires views == old(views) && live == old(live) && free == old(free)
      requires mem == old(mem) && layout == old(layout) && freenodeRemain == old(freenodeRemain)
      ensures Valid()
    {
      forall z: nat | z < |zones| ensures ZoneOk(z) { assert old(ZoneOk(z)); }
      HousedKept();
    }

    /** A call that moved nodes of zone `z` only leaves everything but that zone as `Valid` has it. */
    twostate lemma OthersKept(z: nat)
      requires old(Valid()) && z < |zones| && zones == old(zones) && live == old(live) && free == old(free)
      requires extendedPools == old(extendedPools) && mem.cells.Keys == old(mem.cells.Keys)
      requires |views| == |old(views)| && views == old(views)[z := views[z]]
      ensures Housed() && free == FreeTotal(views[z := old(views)[z]])
      ensures forall w: nat {:trigger ZoneOk(w)} :: w < |zones| && w != z ==> ZoneOk(w)
    {
      assert old(views) == views[z := old(views)[z]];
      forall w: nat | w < |zones| && w != z ensures ZoneOk(w) { assert old(ZoneOk(w)); }
      HousedKept();
    }

    /** Node `a` is one of the `n` nodes at `page`. */
    static ghost predicate Stored(page: Option<nat>, n: nat, a: Addr) {
      if page.None? then a.Static? && a.index < n else a.InPage? && a.page == page.value && a.index < n
    }

    /** Link `n` nodes at `page` one after the other, the last one to the pool's list, and start the pool with them. */
    method LinkPool(page: Option<nat>, n: nat)
      requires Wired() && n > 0
      requires forall j: nat {:trigger NodeAt(page, j)} :: NodeAt(page, j) !in mem.cells
      modifies `mem, `layout, `phantom
      ensures Linked(mem, layout) && Carried(mem, layout, views)
      ensures PoolNodes() == old(PoolNodes()) + n && phantom == old(phantom)
      ensures forall a {:trigger a in mem.cells} :: a in mem.cells ==> a in old(mem.cells) || Stored(page, n, a)
    {
      var cells := LinkCells(mem, page, n);
      NodesFromMembers(page, 0, n);
      GrownCarried(mem, layout, views, page, n, cells);
      layout := Grown(layout, page, n);
      mem := Memory(cells, mem.heads[Pool := Some(NodeAt(page, 0))]);
    }

    /** `BuddyAllocator::default` and `init`. */
    constructor ()
      ensures Valid() && zones == [] && PoolNodes() == 512 && phantom == 0
    {
      free, zones, extendedPools, freenodeRemain := 0, [], [], 0;
      mem := Memory(map[], map[Pool := None]);
      layout, views, live, phantom := Layout(map[Pool := []], map[]), [], [], 0;
      new;
      forall l ensures l in layout.chains <==> IsList(views, l) {}
      var n: nat := NODE_COMPATIBILITY;
      LinkPool(None, n);
      freenodeRemain := NODE_COMPATIBILITY;
    }

    /** The loop of `MemoryZone::new`: list blocks of decreasing size. */
    method CarveZone(z: nat, pages: nat)
      requires Wired() && z < |views| && views[z] == Empty() && pages < MAX_PAGES && NewCount(pages) <= PoolNodes()
      modifies `mem, `layout, `views, `freenodeRemain
      ensures Wired() && mem.cells.Keys == old(mem.cells.Keys) && views == old(views)[z := NewLists(pages)]
    {
      var current: nat, left: nat := 0, pages;
      ghost var t: nat, goal := |Empty()|, NewLists(pages);
      LeadsStart(pages, PoolNodes());
      while left > 0
        invariant Wired() && mem.cells.Keys == old(mem.cells.Keys)
        invariant |views| == |old(views)| && views == old(views)[z := views[z]]
        invariant Leads(views[z], current, left, t, goal, PoolNodes())
      {
        var pow := FloorLog2(left);
        LeadsNext(views[z], current, left, t, goal, PoolNodes(), pow);
        AddNode(z, pow, current);
        left, current, t := left - Pow2(pow), current + Pow2(pow), pow;
      }
      LeadsEnd(views[z], current, t, goal, PoolNodes());
    }

    /** `MemoryZone::new`. */
    method NewZone(z: nat, pages: nat)
      requires Wired() && z == |views| && pages < MAX_PAGES && NewCount(pages) <= PoolNodes()
      modifies `mem, `layout, `views, `freenodeRemain
      ensures Wired() && mem.cells.Keys == old(mem.cells.Keys) && views == old(views) + [NewLists(pages)]
    {
      WithZoneCarried(mem, layout, views);
      mem, layout := WithZone(mem, z), LaidZone(layout, z);
      views := views + [Empty()];
      CarveZone(z, pages);
    }

    /** Add a memory zone; there is room for 16. */
    method AddZone(base: nat, pages: nat)
      requires Valid() && |zones| < 16 && pages < MAX_PAGES
      requires forall z :: 0 <= z < |zones| ==> base + pages <= zones[z].base || zones[z].base + zones[z].pages <= base
      requires NewCount(pages) <= PoolNodes()
      modifies this
      ensures Valid() && zones == old(zones) + [MemoryZone(base, pages)]
      ensures views == old(views) + [NewLists(pages)] && live == old(live) + [{}]
      ensures free == old(free) + pages && phantom == old(phantom) && extendedPools == old(extendedPools)
    {
      NewZone(|zones|, pages);
      ZonesKept();
      RecordZone(base, pages);
    }

    /** Lists for one more zone leave the zones there are as they were. */
    twostate lemma ZonesKept()
      requires old(Valid()) && zones == old(zones) && live == old(live) && free == old(free)
      requires extendedPools == old(extendedPools) && mem.cells.Keys == old(mem.cells.Keys)
      requires |views| == |zones| + 1 && views[..|zones|] == old(views)
      ensures Housed() && free == FreeTotal(views[..|zones|])
      ensures forall w: nat {:trigger ZoneOk(w)} :: w < |zones| ==> ZoneOk(w)
    {
      forall w: nat | w < |zones| ensures ZoneOk(w) {
        assert old(ZoneOk(w));
        assert views[w] == views[..|zones|][w];
      }
      HousedKept();
    }

    /** Book a zone whose lists are there. */
    method RecordZone(base: nat, pages: nat)
      requires Wired() && ZonesApart() && Housed() && |zones| < 16 && pages < MAX_PAGES
      requires |views| == |zones| + 1 && |live| == |zones| && views[|zones|] == NewLists(pages)
      requires free == FreeTotal(views[..|zones|]) && forall z: nat {:trigger ZoneOk(z)} :: z < |zones| ==> ZoneOk(z)
      requires forall z :: 0 <= z < |zones| ==> base + pages <= zones[z].base || zones[z].base + zones[z].pages <= base
      modifies `zones, `free, `live
      ensures Valid() && zones == old(zones) + [MemoryZone(base, pages)]
      ensures live == old(live) + [{}] && free == old(free) + pages
    {
      zones, free, live := zones + [MemoryZone(base, pages)], free + pages, live + [{}];
      assert free == FreeTotal(views) by { NewTotal(pages); }
      assert forall w: nat {:trigger ZoneOk(w)} :: w < |zones| ==> ZoneOk(w) by {
        NewZoneCorrect(pages);
        forall w: nat | w < |zones| ensures ZoneOk(w) {
          assert w < |old(zones)| ==> old(ZoneOk(w));
        }
      }
      assert Housed() by { HousedKept(); }
    }

    /** The zone that serves a request has nodes enough for the split. */
    ghost predicate CanSplit(k: nat)
      reads `views, `layout
    {
      FirstZone(views, k) < |views| ==> PoolSuffices(views[FirstZone(views, k)], k, PoolNodes())
    }

    /** Book the block that zone `z` has just given; `l` is what its lists carried before. */
    method Book(z: nat, pagesCount: nat, ghost k: nat, ghost l: Lists)
      requires Wired() && |views| == |zones| && |live| == |zones| && z < |zones| <= 16 && ZonesApart()
        && Housed()
      requires pagesCount == Pow2(k) && Alloc(l, k).Allocated? && views[z] == Alloc(l, k).lists
      requires ZoneInv(zones[z].pages, l, live[z]) && free == FreeTotal(views[z := l])
      requires forall w: nat {:trigger ZoneOk(w)} :: w < |zones| && w != z ==> ZoneOk(w)
      modifies `free, `live
      ensures Valid() && live == old(live)[z := old(live)[z] + {Block(k, Anc(Alloc(l, k).start, k))}]
    {
      assert free - pagesCount == FreeTotal(views) by {
        AllocTotal(l, k);
        FreeTotalUpdate(views, z, l);
      }
      free := free - pagesCount;
      ghost var a := Block(k, Anc(Alloc(l, k).start, k));
      live := live[z := live[z] + {a}];
      assert ZoneOk(z) by { AllocCorrect(zones[z].pages, l, old(live)[z], k); }
      forall w: nat | w < |zones| ensures ZoneOk(w) {
        assert w != z ==> old(ZoneOk(w));
      }
      HousedKept();
    }

    /** Ask zone `z` for a block of order `k`, and book it. */
    method TryZone(z: nat, pagesCount: nat, ghost k: nat) returns (r: Option<nat>)
      requires Valid() && z < |zones| && pagesCount == Pow2(k) && PoolSuffices(views[z], k, PoolNodes())
      modifies this
      ensures Valid() && zones == old(zones) && extendedPools == old(extendedPools) && phantom == old(phantom)
      ensures Alloc(old(views)[z], k).NoBlock? ==>
        r.None? && views == old(views) && live == old(live) && PoolNodes() == old(PoolNodes())
      ensures Alloc(old(views)[z], k).Allocated? ==>
        var Allocated(l, x) := Alloc(old(views)[z], k);
        && r == Some(zones[z].base + x) && views == old(views)[z := l]
        && live == old(live)[z := old(live)[z] + {Block(k, Anc(x, k))}]
    {
      assert ZoneOk(z);
      r := ZoneAlloc(z, pagesCount, k);
      if r.Some? {
        OthersKept(z);
        Book(z, pagesCount, k, old(views)[z]);
      } else {
        ValidKept();
      }
    }

    /** The search of the zones for a block of order `k`. */
    method TakeBlock(pagesCount: nat, ghost k: nat) returns (r: Option<nat>)
      requires Valid() && pagesCount == Pow2(k) && CanSplit(k)
      modifies this
      ensures Valid() && zones == old(zones) && extendedPools == old(extendedPools) && phantom == old(phantom)
      ensures Grant(views, live, r) == Give(zones, old(views), old(live), k)
    {
      for z := 0 to |zones|
        invariant Valid() && zones == old(zones) && extendedPools == old(extendedPools) && phantom == old(phantom)
        invariant views == old(views) && live == old(live) && PoolNodes() == old(PoolNodes())
        invariant z <= FirstZone(views, k)
      {
        GiveFrom(zones, views, live, k, z);
        r := TryZone(z, pagesCount, k);
        if r.Some? {
          return;
        }
      }
      GiveNone(zones, views, live, k);
      return None;
    }

    /** The page about to be handed out starts a block that then is live, and holds no extended pool. */
    lemma GivenPage(k: nat) returns (z: nat, a: Block)
      requires Valid() && Give(zones, views, live, k).start.Some?
      ensures var g := Give(zones, views, live, k);
              && z < |zones| == |g.live| && a in g.live[z] && g.start.value == zones[z].base + Start(a)
              && Apart(live[z], a) && Start(a) + Size(a) <= zones[z].pages && a.order == k
    {
      z := FirstZone(views, k);
      assert ZoneOk(z);
      AllocCorrect(zones[z].pages, views[z], live[z], k);
      a := Block(k, Anc(Alloc(views[z], k).start, k));
    }

    lemma FreshPage(z: nat, a: Block)
      requires Valid() && z < |zones| && Apart(live[z], a) && Start(a) + Size(a) <= zones[z].pages
      ensures zones[z].base + Start(a) !in extendedPools
    {
      var p := zones[z].base + Start(a);
      if p in extendedPools {
        assert PoolPage(p);
        var w: nat, b :| Hosts(w, b, p);
        assert ZoneOk(w);
        InBounds(zones[w].pages, live[w], b);
        StartCovered(a);
        StartCovered(b);
        assert false;
      }
    }

    /** Take an extended pool's worth of pages from the allocator itself and link its nodes into the pool. */
    method NewExtendedPool() returns (ok: bool)
      requires Valid() && CanSplit(ExtOrder())
      modifies this
      ensures Valid() && zones == old(zones)
      ensures var g := Give(zones, old(views), old(live), ExtOrder());
              && views == g.views && live == g.live && ok == g.start.Some?
              && (ok ==> phantom == old(phantom) && extendedPools == [g.start.value] + old(extendedPools)
                         && PoolNodes() >= 8196)
              && (!ok ==> phantom == old(phantom) + 8196 && extendedPools == old(extendedPools))
      decreases 1, 1
    {
      CountPool();
      ghost var z, a := GivenPoolPage(ExtOrder());
      var r := TakePoolPages();
      if r.None? {
        return false;
      }
      assert Hosts(z, a, r.value) by { ExtFits(a); }
      AdoptPool(r.value, z, a);
      return true;
    }

    /** The allocation inside an extension: the nodes to come are counted, so it does not extend the pool again. */
    method TakePoolPages() returns (r: Option<nat>)
      requires Valid() && CanSplit(ExtOrder()) && freenodeRemain > MIN_POOL_REMAIN
      modifies this
      ensures Valid() && zones == old(zones) && phantom == old(phantom) && extendedPools == old(extendedPools)
      ensures Grant(views, live, r) == Give(zones, old(views), old(live), ExtOrder())
      decreases 1, 0
    {
      r := AllocPages(EXT_POOL_PAGES);
    }

    /** The block about to be handed out, which holds no extended pool yet. */
    lemma GivenPoolPage(k: nat) returns (z: nat, a: Block)
      requires Valid()
      ensures var g := Give(zones, views, live, k);
              g.start.Some? ==>
                && z < |zones| == |g.live| && a in g.live[z]
                && g.start.value == zones[z].base + Start(a) && g.start.value !in extendedPools && a.order == k
    {
      z, a := 0, Block(0, 0);
      if Give(zones, views, live, k).start.Some? {
        z, a := GivenPage(k);
        FreshPage(z, a);
      }
    }

    /** The nodes to come are counted first, so that allocating their pages does not extend the pool again. */
    method CountPool()
      requires Valid()
      modifies `freenodeRemain, `phantom
      ensures Valid() && PoolNodes() == old(PoolNodes())
      ensures freenodeRemain == old(freenodeRemain) + EXT_NODE_COMPATIBILITY
      ensures phantom == old(phantom) + EXT_NODE_COMPATIBILITY
    {
      freenodeRemain := freenodeRemain + EXT_NODE_COMPATIBILITY;
      phantom := phantom + EXT_NODE_COMPATIBILITY;
      forall z: nat | z < |zones| ensures ZoneOk(z) { assert old(ZoneOk(z)); }
      HousedKept();
    }

    /** Link the nodes of the extended pool stored at `page`. */
    method AdoptPool(page: nat, ghost z: nat, ghost a: Block)
      requires Valid() && page !in extendedPools && Hosts(z, a, page) && phantom >= EXT_NODE_COMPATIBILITY
      modifies this
      ensures Valid() && zones == old(zones) && views == old(views) && live == old(live)
      ensures phantom == old(phantom) - EXT_NODE_COMPATIBILITY && extendedPools == [page] + old(extendedPools)
      ensures PoolNodes() >= 8196
    {
      var n: nat := EXT_NODE_COMPATIBILITY;
      LinkPool(Some(page), n);
      phantom := phantom - n;
      extendedPools := [page] + extendedPools;
      assert PoolPage(page) by { assert Hosts(z, a, page); }
    }

    /** What the refill check is for: with no failed extension, nodes enough are left for any split. */
    lemma RefillSuffices(k: nat)
      requires Valid() && phantom == 0 && freenodeRemain > MIN_POOL_REMAIN
      ensures CanSplit(k)
    {
    }

    /** `PageAllocator::alloc_pages`. */
    method AllocPages(pagesCount: nat) returns (r: Option<nat>)
      requires Valid() && (freenodeRemain <= MIN_POOL_REMAIN ==> CanSplit(ExtOrder()))
      requires freenodeRemain > MIN_POOL_REMAIN && phantom > 0 ==> CanSplit(CeilLog2(pagesCount))
      modifies this
      ensures Valid() && zones == old(zones)
      ensures old(freenodeRemain) > 36 ==>
        && Grant(views, live, r) == Give(zones, old(views), old(live), CeilLog2(pagesCount))
        && phantom == old(phantom) && extendedPools == old(extendedPools)
      ensures old(freenodeRemain) <= 36 ==>
        var g := Give(zones, old(views), old(live), ExtOrder());
        if g.start.None? then
          r.None? && views == old(views) && live == old(live) && phantom == old(phantom) + 8196
        else
          && |g.views| == |g.live| == |zones|
          && Grant(views, live, r) == Give(zones, g.views, g.live, CeilLog2(pagesCount))
          && phantom == old(phantom) && extendedPools == [g.start.value] + old(extendedPools)
      decreases if freenodeRemain <= MIN_POOL_REMAIN then 2 else 0, 0
    {
      if freenodeRemain <= MIN_POOL_REMAIN {
        var ok := NewExtendedPool();
        if !ok {
          return None;
        }
      }
      var k := CeilLog2(pagesCount);
      assert CanSplit(k);
      r := TakeBlock(Pow2(k), k);
    }

    /** The search for the zone whose pages contain `page`. */
    method ZoneOf(page: nat, ghost z: nat) returns (w: nat)
      requires ZonesApart() && z < |zones| && zones[z].base <= page < zones[z].base + zones[z].pages
      ensures w == z
    {
      w := 0;
      while w < |zones|
        invariant w <= z
      {
        if zones[w].base <= page && page < zones[w].base + zones[w].pages {
          return;
        }
        w := w + 1;
      }
    }

    /** `PageAllocator::free_pages` on block `b` of zone `z`. */
    method FreePages(pageStart: nat, pagesCount: nat, ghost z: nat, ghost b: Block)
      requires Valid() && StartsLive(z, b, pageStart) && b.order == CeilLog2(pagesCount) && pageStart !in extendedPools
      requires b.order < MAX_POW
      requires WrittenMerge(views[z], Start(b), b.order, b.order).order == b.order ==> PoolNodes() > 0
      modifies this
      ensures Wired() && zones == old(zones) && phantom == old(phantom) && extendedPools == old(extendedPools)
      ensures WrittenFree(old(views)[z], b).Some?
      ensures views == old(views)[z := WrittenFree(old(views)[z], b).value]
      ensures live == old(live)[z := old(live)[z] - {b}]
      ensures free == old(free) + Pow2(b.order)
      ensures Valid() <==> NoFalsePartner(old(views)[z], Start(b), b.order)
    {
      assert ZoneOk(z);
      InBounds(zones[z].pages, live[z], b);
      var w := ZoneOf(pageStart, z);
      FreeInZone(w, pageStart, Pow2(CeilLog2(pagesCount)), b);
    }

    /** Return block `b` to zone `z`, and book it. */
    method FreeInZone(z: nat, pageStart: nat, pagesCount: nat, ghost b: Block)
      requires Valid() && StartsLive(z, b, pageStart) && pagesCount == Pow2(b.order) && pageStart !in extendedPools
      requires b.order < MAX_POW
      requires WrittenMerge(views[z], Start(b), b.order, b.order).order == b.order ==> PoolNodes() > 0
      modifies this
      ensures Wired() && zones == old(zones) && phantom == old(phantom) && extendedPools == old(extendedPools)
      ensures WrittenFree(old(views)[z], b).Some?
      ensures views == old(views)[z := WrittenFree(old(views)[z], b).value]
      ensures live == old(live)[z := old(live)[z] - {b}]
      ensures free == old(free) + Pow2(b.order)
      ensures Valid() <==> NoFalsePartner(old(views)[z], Start(b), b.order)
    {
      ghost var l := views[z];
      assert ZoneInv(zones[z].pages, l, live[z]) by { assert ZoneOk(z); }
      ListFreed(z, pageStart, pagesCount, b);
      OthersKept(z);
      Unbook(z, pagesCount, b, l);
    }

    /** List block `b` of zone `z` as free. */
    method ListFreed(z: nat, pageStart: nat, pagesCount: nat, ghost b: Block)
      requires Wired() && ZoneOk(z) && StartsLive(z, b, pageStart) && pagesCount == Pow2(b.order) && b.order < MAX_POW
      requires WrittenMerge(views[z], Start(b), b.order, b.order).order == b.order ==> PoolNodes() > 0
      modifies `mem, `layout, `views, `freenodeRemain
      ensures Wired() && mem.cells.Keys == old(mem.cells.Keys) && WrittenFree(old(views)[z], b).Some?
      ensures views == old(views)[z := WrittenFree(old(views)[z], b).value]
    {
      FreeNoPanic(zones[z].pages, views[z], live[z], b);
      ZoneFree(z, pageStart, pagesCount, b.order);
    }

    /** Book the return of block `b` to zone `z`; `l` is what its lists carried before. */
    method Unbook(z: nat, pagesCount: nat, ghost b: Block, ghost l: Lists)
      requires Wired() && |views| == |zones| && |live| == |zones| && z < |zones| <= 16 && ZonesApart()
        && Housed()
      requires pagesCount == Pow2(b.order) && b.order < MAX_POW && WrittenFree(l, b).Some?
        && views[z] == WrittenFree(l, b).value
      requires ZoneInv(zones[z].pages, l, live[z]) && b in live[z] && free == FreeTotal(views[z := l])
      requires zones[z].base + Start(b) !in extendedPools
      requires forall w: nat {:trigger ZoneOk(w)} :: w < |zones| && w != z ==> ZoneOk(w)
      modifies `free, `live
      ensures live == old(live)[z := old(live)[z] - {b}] && free == old(free) + pagesCount
      ensures Valid() <==> NoFalsePartner(l, Start(b), b.order)
    {
      free := free + pagesCount;
      live := live[z := live[z] - {b}];
      assert ZoneOk(z) <==> NoFalsePartner(l, Start(b), b.order) by { FreedZone(zones[z].pages, l, old(live)[z], b); }
      if NoFalsePartner(l, Start(b), b.order) {
        forall w: nat | w < |zones| ensures ZoneOk(w) { assert w != z ==> old(ZoneOk(w)); }
        HousedKept();
        assert free == FreeTotal(views) by {
          WrittenFreeTotal(l, b);
          FreeTotalUpdate(views, z, l);
        }
      }
    }
  }
}
