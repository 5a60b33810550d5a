/** The segments that tasks are loaded with and forked with. */
module TaskMemory {
  import opened Common
  import opened Segments

  const USER_STACK_PAGES: nat := 16

  /** `child` lists, in order, the parent's segments: writable ones copied to blocks of their own. */
  ghost predicate Forked(parent: seq<nat>, child: seq<nat>, was: Store, now: Store) {
    && |child| == |parent|
    && forall i :: 0 <= i < |child| ==> ForkedAt(parent, child, was, now, i)
  }

  ghost predicate ForkedAt(parent: seq<nat>, child: seq<nat>, was: Store, now: Store, i: nat) {
    && i < |child| && i < |parent| && parent[i] in was.arcs && child[i] in now.arcs
    && var flags := was.arcs[parent[i]].flags;
       if Write in flags && Exec !in flags then
         && child[i] >= was.next && now.arcs[child[i]].frame !in was.frames
         && now.arcs[child[i]] == was.arcs[parent[i]].(frame := now.arcs[child[i]].frame)
       else child[i] == parent[i] && now.arcs[child[i]] == was.arcs[parent[i]]
  }

  /** A loadable program header of an executable. */
  datatype Load = Load(vAddr: nat, memsz: nat, flags: set<PFlag>)

  predicate LoadedAs(load: Load, seg: Segment) {
    && seg.vPage == load.vAddr / PAGE_SIZE && seg.flags == load.flags
    && (seg.pages == 0 <==> load.memsz == 0)
    && seg.pages * PAGE_SIZE >= load.memsz && (seg.pages > 0 ==> (seg.pages - 1) * PAGE_SIZE < load.memsz)
  }

  /** A stack, then one segment for each loadable header, each on a block of its own. */
  ghost predicate Loaded(loads: seq<Load>, list: seq<nat>, was: Store, now: Store) {
    && |list| == |loads| + 1 && list[0] in now.arcs
    && now.arcs[list[0]].pages == 16 && now.arcs[list[0]].flags == {Read, Write}
    && now.arcs[list[0]].vPage == now.arcs[list[0]].frame + OFFSET
    && forall i :: 0 <= i < |list| ==> LoadedAt(loads, list, was, now, i)
  }

  ghost predicate LoadedAt(loads: seq<Load>, list: seq<nat>, was: Store, now: Store, i: nat) {
    && i < |list| && list[i] in now.arcs && list[i] >= was.next && now.arcs[list[i]].frame !in was.frames
    && (0 < i <= |loads| ==> LoadedAs(loads[i - 1], now.arcs[list[i]]))
  }

  /** Nothing that there was has been dropped or changed. */
  ghost predicate Grown(was: Store, now: Store) {
    && was.next <= now.next
    && (forall id :: id in was.arcs ==> id in now.arcs && now.arcs[id] == was.arcs[id])
    && (forall f :: f in was.frames ==> f in now.frames && now.frames[f] == was.frames[f])
  }

  /** A segment that is shared is not on the child's list yet. */
  lemma NotYetListed(parent: seq<nat>, child: seq<nat>, held: map<nat, seq<nat>>, was: Store, now: Store)
    requires Owned(held, [], was) && NoDup(parent) && forall id :: id in parent ==> id in was.arcs
    requires |child| < |parent| && forall j :: 0 <= j < |child| ==> ForkedAt(parent, child, was, now, j)
    ensures parent[|child|] !in child
  {
    var id := parent[|child|];
    assert id in parent;
    assert ArcOk(held, [], was, id);
    forall j | 0 <= j < |child| ensures child[j] != id { assert ForkedAt(parent, child, was, now, j); }
  }

  lemma ForkedMore(parent: seq<nat>, child: seq<nat>, was: Store, before: Store, now: Store, copy: nat)
    requires |child| < |parent| && forall j :: 0 <= j < |child| ==> ForkedAt(parent, child, was, before, j)
    requires Grown(before, now) && ForkedAt(parent, child + [copy], was, now, |child|)
    ensures forall j :: 0 <= j < |child| + 1 ==> ForkedAt(parent, child + [copy], was, now, j)
  {
    var child' := child + [copy];
    forall j | 0 <= j < |child'| ensures ForkedAt(parent, child', was, now, j) {
      if j < |child| { assert ForkedAt(parent, child, was, before, j); }
    }
  }

  /** Nothing has been made or changed. */
  ghost predicate Shrunk(was: Store, now: Store) {
    && now.next == was.next
    && (forall id :: id in now.arcs ==> id in was.arcs && now.arcs[id] == was.arcs[id])
    && (forall f :: f in now.frames ==> f in was.frames && now.frames[f] == was.frames[f])
  }

  /** The segments there are, and so the blocks that are not free, are those that some task holds. */
  lemma AliveIffHeld(tasks: map<nat, seq<nat>>, st: Store)
    requires Owned(tasks, [], st)
    ensures forall id :: id in st.arcs <==> Held(tasks, id)
  {
    forall id | id in st.arcs ensures Held(tasks, id) { assert ArcOk(tasks, [], st, id); }
    forall id | Held(tasks, id) ensures id in st.arcs {
      var p :| p in tasks && id in tasks[p];
      assert TaskOk(tasks, st, p);
    }
  }

  /** Entry `i` is the only one that frees segment `id`, and frees the block that was made for it. */
  ghost predicate FreedAt(g: Ledger, id: nat, i: nat) {
    && i < |g.freed| && id in g.made && g.freed[i] == (id, g.made[id].0, g.made[id].1)
    && forall j :: 0 <= j < |g.freed| && j != i ==> g.freed[j].0 != id
  }

  /**
   * Each segment ever made is freed exactly once, with the size it was made with, if and only if no task holds
   * it any more; as long as one does, it has not been freed.
   */
  lemma FreedOnce(tasks: map<nat, seq<nat>>, st: Store, g: Ledger, id: nat)
    requires Owned(tasks, [], st) && Balanced(st, g) && id in g.made
    ensures (exists i: nat :: FreedAt(g, id, i)) <==> !Held(tasks, id)
    ensures Freed(g, id) <==> !Held(tasks, id)
  {
    AliveIffHeld(tasks, st);
    if !Held(tasks, id) {
      assert Freed(g, id);
      var i: nat :| i < |g.freed| && g.freed[i].0 == id;
      assert FreedAt(g, id, i);
    }
  }

  lemma LoadedMore(loads: seq<Load>, list: seq<nat>, was: Store, before: Store, now: Store, id: nat)
    requires 1 <= |list| <= |loads| && Loaded(loads[..|list| - 1], list, was, before)
    requires Grown(before, now) && id in now.arcs && id >= was.next && now.arcs[id].frame !in was.frames
    requires LoadedAs(loads[|list| - 1], now.arcs[id])
    ensures Loaded(loads[..|list|], list + [id], was, now)
  {
    var list', some, more := list + [id], loads[..|list| - 1], loads[..|list|];
    forall i | 0 <= i < |list'| ensures LoadedAt(more, list', was, now, i) {
      if i < |list| {
        assert LoadedAt(some, list, was, before, i);
        assert 0 < i ==> more[i - 1] == some[i - 1];
      }
    }
  }

  lemma StartSound()
    ensures Owned(map[0 := []], [], Store(map[], map[], 0, map[]))
    ensures Balanced(Store(map[], map[], 0, map[]), Ledger(map[], []))
  {
    var tasks, st := map[0 := []], Store(map[], map[], 0, map[]);
    assert TaskOk(tasks, st, 0);
    assert Backed(st) == {};
  }
}
