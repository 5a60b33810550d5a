/** Who holds which memory segment: reference-counted segments of tasks and the frames behind them. */
module Segments {
  import opened Common
  import opened Dyadic

  datatype PFlag = Read | Write | Exec

  /** `PageAllocInfo`: `pages` pages at virtual page `vPage`, backed by the block at `frame`. */
  datatype Segment = Segment(vPage: nat, frame: nat, pages: nat, flags: set<PFlag>)

  /** The pages made for a segment, and given back for it. */
  function Block(seg: Segment): (n: nat)
    ensures n >= 1 && n >= seg.pages && (n == 1 || n < 2 * seg.pages)
  {
    Pow2(CeilLog2(seg.pages))
  }

  /** Segments mapped user-writable; executable ones are mapped without write access. */
  predicate Writable(seg: Segment) {
    Exec !in seg.flags && Write in seg.flags
  }

  /** The shared segments and their reference counts by identity, and the blocks handed out for them. */
  datatype Store = Store(arcs: map<nat, Segment>, counts: map<nat, nat>, next: nat, frames: map<nat, nat>)

  /** Everything ever made for a segment, and what has been freed, in order. */
  datatype Ledger = Ledger(made: map<nat, (nat, nat)>, freed: seq<(nat, nat, nat)>)

  predicate Overlap(f: nat, n: nat, g: nat, m: nat) {
    f < g + m && g < f + n
  }

  predicate Apart(frames: map<nat, nat>, f: nat, n: nat) {
    forall g :: g in frames ==> !Overlap(f, n, g, frames[g])
  }

  /** Some task holds segment `id`. */
  ghost predicate Held(tasks: map<nat, seq<nat>>, id: nat) {
    exists p :: p in tasks && id in tasks[p]
  }

  ghost function Holders(tasks: map<nat, seq<nat>>, id: nat): set<nat> {
    set p | p in tasks && id in tasks[p]
  }

  /** The references to segment `id`. */
  ghost function Refs(tasks: map<nat, seq<nat>>, pending: seq<nat>, id: nat): nat {
    |Holders(tasks, id)| + (if id in pending then 1 else 0)
  }

  lemma HeldIff(tasks: map<nat, seq<nat>>, id: nat)
    ensures Held(tasks, id) <==> |Holders(tasks, id)| > 0
  {
    if Held(tasks, id) {
      var p :| p in tasks && id in tasks[p];
      assert p in Holders(tasks, id);
    }
    if |Holders(tasks, id)| > 0 {
      var p :| p in Holders(tasks, id);
    }
  }

  ghost predicate TaskOk(tasks: map<nat, seq<nat>>, st: Store, p: nat) {
    p in tasks && NoDup(tasks[p]) && forall id :: id in tasks[p] ==> id in st.arcs
  }

  ghost predicate ArcOk(tasks: map<nat, seq<nat>>, pending: seq<nat>, st: Store, id: nat) {
    && id in st.arcs && id < st.next && (id in pending || Held(tasks, id))
    && id in st.counts && st.counts[id] == Refs(tasks, pending, id)
    && st.arcs[id].frame in st.frames && st.frames[st.arcs[id].frame] == Block(st.arcs[id])
    && (Writable(st.arcs[id]) ==>
          && (id in pending ==> !Held(tasks, id))
          && forall p, q :: p in tasks && q in tasks && id in tasks[p] && id in tasks[q] ==> p == q)
  }

  /**
   * The tasks, and the list `pending` of a task under construction or destruction, hold exactly the
   * segments there are; writable segments have one holder; frames are disjoint and none is leaked.
   */
  ghost predicate Owned(tasks: map<nat, seq<nat>>, pending: seq<nat>, st: Store) {
    && (forall p {:trigger TaskOk(tasks, st, p)} :: p in tasks ==> TaskOk(tasks, st, p))
    && NoDup(pending) && (forall id :: id in pending ==> id in st.arcs)
    && (forall id {:trigger ArcOk(tasks, pending, st, id)} :: id in st.arcs ==> ArcOk(tasks, pending, st, id))
    && FramesOk(st)
  }

  ghost predicate FramesApart(st: Store, f: nat, g: nat) {
    f in st.frames && g in st.frames && f != g ==> !Overlap(f, st.frames[f], g, st.frames[g])
  }

  ghost predicate ArcsApart(st: Store, x: nat, y: nat) {
    x in st.arcs && y in st.arcs && x != y ==> st.arcs[x].frame != st.arcs[y].frame
  }

  ghost predicate BackedAt(st: Store, f: nat) {
    f in st.frames ==> f in Backed(st)
  }

  /** Blocks are disjoint, each behind one segment. */
  ghost predicate FramesOk(st: Store) {
    && (forall f: nat, g: nat {:trigger FramesApart(st, f, g)} :: FramesApart(st, f, g))
    && (forall x: nat, y: nat {:trigger ArcsApart(st, x, y)} :: ArcsApart(st, x, y))
    && (forall f: nat {:trigger BackedAt(st, f)} :: BackedAt(st, f))
  }

  ghost function Backed(st: Store): set<nat> {
    set id | id in st.arcs :: st.arcs[id].frame
  }

  /** Every segment ever made is either alive or has been freed once, at its own block and size. */
  ghost predicate Balanced(st: Store, g: Ledger) {
    && (forall id: nat :: id in g.made <==> id < st.next)
    && (forall id :: id in st.arcs ==> id in g.made && g.made[id] == (st.arcs[id].frame, Block(st.arcs[id])))
    && (forall i :: 0 <= i < |g.freed| ==>
          g.freed[i].0 in g.made && g.freed[i].0 !in st.arcs && g.made[g.freed[i].0] == (g.freed[i].1, g.freed[i].2))
    && (forall i, j :: 0 <= i < j < |g.freed| ==> g.freed[i].0 != g.freed[j].0)
    && (forall id {:trigger id in g.made} :: id in g.made && id !in st.arcs ==> Freed(g, id))
  }

  ghost predicate Freed(g: Ledger, id: nat) {
    exists i :: 0 <= i < |g.freed| && g.freed[i].0 == id
  }

  // -------------------------------------------------------------------- steps

  /** Allocate a block at `frame` for a new segment. */
  function AddNew(st: Store, seg: Segment): Store {
    Store(st.arcs[st.next := seg], st.counts[st.next := 1], st.next + 1, st.frames[seg.frame := Block(seg)])
  }

  ghost function LedgerNew(st: Store, g: Ledger, seg: Segment): Ledger {
    g.(made := g.made[st.next := (seg.frame, Block(seg))])
  }

  lemma NextIsNew(tasks: map<nat, seq<nat>>, pending: seq<nat>, st: Store)
    requires Owned(tasks, pending, st)
    ensures st.next !in st.arcs && !Held(tasks, st.next)
  {
    forall id | id in st.arcs ensures id < st.next { assert ArcOk(tasks, pending, st, id); }
    forall p | p in tasks ensures st.next !in tasks[p] { assert TaskOk(tasks, st, p); }
  }

  lemma NewFrame(tasks: map<nat, seq<nat>>, pending: seq<nat>, st: Store, seg: Segment)
    requires Owned(tasks, pending, st) && Apart(st.frames, seg.frame, Block(seg))
    ensures seg.frame !in st.frames
    ensures forall x :: x in st.arcs ==> st.arcs[x].frame in st.frames
  {
    forall x | x in st.arcs ensures st.arcs[x].frame in st.frames && st.frames[st.arcs[x].frame] >= 1 {
      assert ArcOk(tasks, pending, st, x);
    }
    forall f | f in st.frames ensures f != seg.frame {
      assert BackedAt(st, f);
      assert !Overlap(seg.frame, Block(seg), f, st.frames[f]);
    }
  }

  lemma AddNewFrames(st: Store, seg: Segment)
    requires FramesOk(st) && Apart(st.frames, seg.frame, Block(seg)) && seg.frame !in st.frames && st.next !in st.arcs
    requires forall x :: x in st.arcs ==> st.arcs[x].frame in st.frames
    ensures FramesOk(AddNew(st, seg))
  {
    var st' := AddNew(st, seg);
    forall f: nat ensures BackedAt(st', f) {
      assert BackedAt(st, f);
      if f in st'.frames { BackedMore(st, seg, f); }
    }
    forall f: nat, g: nat ensures FramesApart(st', f, g) { assert FramesApart(st, f, g); }
    forall x: nat, y: nat ensures ArcsApart(st', x, y) { assert ArcsApart(st, x, y); }
  }

  lemma BackedMore(st: Store, seg: Segment, f: nat)
    requires st.next !in st.arcs && (f == seg.frame || f in Backed(st))
    ensures f in Backed(AddNew(st, seg))
  {
    var st' := AddNew(st, seg);
    if f == seg.frame {
      assert st.next in st'.arcs && st'.arcs[st.next].frame == f;
    } else {
      var x :| x in st.arcs && st.arcs[x].frame == f;
      assert x in st'.arcs && st'.arcs[x].frame == f;
    }
  }

  lemma AddNewArc(tasks: map<nat, seq<nat>>, pending: seq<nat>, st: Store, seg: Segment, id: nat)
    requires Owned(tasks, pending, st) && id in AddNew(st, seg).arcs && seg.frame !in st.frames
    ensures ArcOk(tasks, pending + [st.next], AddNew(st, seg), id)
  {
    NextIsNew(tasks, pending, st);
    HeldIff(tasks, st.next);
    if id != st.next { assert ArcOk(tasks, pending, st, id); }
  }

  lemma AddNewKeeps(tasks: map<nat, seq<nat>>, pending: seq<nat>, st: Store, seg: Segment)
    requires Owned(tasks, pending, st) && Apart(st.frames, seg.frame, Block(seg))
    ensures Owned(tasks, pending + [st.next], AddNew(st, seg))
  {
    var st', pending' := AddNew(st, seg), pending + [st.next];
    NextIsNew(tasks, pending, st);
    NewFrame(tasks, pending, st, seg);
    AddNewFrames(st, seg);
    forall p | p in tasks ensures TaskOk(tasks, st', p) { assert TaskOk(tasks, st, p); }
    forall id | id in st'.arcs ensures ArcOk(tasks, pending', st', id) { AddNewArc(tasks, pending, st, seg, id); }
  }

  lemma AddNewBalanced(st: Store, g: Ledger, seg: Segment)
    requires Balanced(st, g) && st.next !in st.arcs
    ensures Balanced(AddNew(st, seg), LedgerNew(st, g, seg))
  {
    var g' := LedgerNew(st, g, seg);
    forall id | id in g'.made && id !in AddNew(st, seg).arcs ensures Freed(g', id) {
      assert Freed(g, id);
    }
  }

  lemma SameFrames(st: Store, st': Store)
    requires FramesOk(st) && st'.arcs == st.arcs && st'.frames == st.frames
    ensures FramesOk(st')
  {
    assert Backed(st') == Backed(st);
    forall f: nat ensures BackedAt(st', f) { assert BackedAt(st, f); }
    forall f: nat, g: nat ensures FramesApart(st', f, g) { assert FramesApart(st, f, g); }
    forall x: nat, y: nat ensures ArcsApart(st', x, y) { assert ArcsApart(st, x, y); }
  }

  /** Clone a reference. */
  function Share(st: Store, id: nat): Store
    requires id in st.counts
  {
    st.(counts := st.counts[id := st.counts[id] + 1])
  }

  /** Cloning a reference to a segment that is not mapped writable. */
  lemma ShareKeeps(tasks: map<nat, seq<nat>>, pending: seq<nat>, st: Store, id: nat)
    requires Owned(tasks, pending, st) && id in st.arcs && id !in pending && !Writable(st.arcs[id])
    ensures id in st.counts && Owned(tasks, pending + [id], Share(st, id))
  {
    assert ArcOk(tasks, pending, st, id);
    var st' := Share(st, id);
    forall p | p in tasks ensures TaskOk(tasks, st', p) { assert TaskOk(tasks, st, p); }
    forall x | x in st.arcs ensures ArcOk(tasks, pending + [id], st', x) { assert ArcOk(tasks, pending, st, x); }
    SameFrames(st, st');
  }

  lemma CommitArc(tasks: map<nat, seq<nat>>, pending: seq<nat>, st: Store, pid: nat, id: nat)
    requires ArcOk(tasks, pending, st, id) && pid !in tasks
    ensures ArcOk(tasks[pid := pending], [], st, id)
  {
    var tasks' := tasks[pid := pending];
    assert Holders(tasks', id) == Holders(tasks, id) + (if id in pending then {pid} else {});
    HeldIff(tasks', id);
    HeldIff(tasks, id);
    forall p, q | Writable(st.arcs[id]) && p in tasks' && q in tasks' && id in tasks'[p]
      && id in tasks'[q] ensures p == q {
      assert p != pid ==> Held(tasks, id);
      assert q != pid ==> Held(tasks, id);
    }
  }

  /** The finished task takes over the pending list. */
  lemma CommitKeeps(tasks: map<nat, seq<nat>>, pending: seq<nat>, st: Store, pid: nat)
    requires Owned(tasks, pending, st) && pid !in tasks
    ensures Owned(tasks[pid := pending], [], st)
  {
    var tasks' := tasks[pid := pending];
    forall p | p in tasks' ensures TaskOk(tasks', st, p) {
      if p != pid { assert TaskOk(tasks, st, p); }
    }
    forall id | id in st.arcs ensures ArcOk(tasks', [], st, id) {
      assert ArcOk(tasks, pending, st, id);
      CommitArc(tasks, pending, st, pid, id);
    }
  }

  /** A task taken out of the table leaves its list pending. */
  lemma TakeKeeps(tasks: map<nat, seq<nat>>, st: Store, pid: nat)
    requires Owned(tasks, [], st) && pid in tasks
    ensures Owned(tasks - {pid}, tasks[pid], st)
  {
    var tasks', pending := tasks - {pid}, tasks[pid];
    assert TaskOk(tasks, st, pid);
    forall p | p in tasks' ensures TaskOk(tasks', st, p) { assert TaskOk(tasks, st, p); }
    forall id | id in st.arcs ensures ArcOk(tasks', pending, st, id) {
      assert ArcOk(tasks, [], st, id);
      assert Holders(tasks', id) == Holders(tasks, id) - {pid};
      var p :| p in tasks && id in tasks[p];
      if p != pid { assert p in tasks' && id in tasks'[p]; }
    }
  }

  /** Drop the first pending reference: its block is freed when `strong_count` is 1. */
  function DropFirst(pending: seq<nat>, st: Store): Store
    requires pending != [] && pending[0] in st.arcs && pending[0] in st.counts
  {
    if st.counts[pending[0]] == 1 then
      Store(st.arcs - {pending[0]}, st.counts - {pending[0]}, st.next, st.frames - {st.arcs[pending[0]].frame})
    else
      st.(counts := st.counts[pending[0] := if st.counts[pending[0]] == 0 then 0 else st.counts[pending[0]] - 1])
  }

  lemma DropFrames(st: Store, id: nat)
    requires FramesOk(st) && id in st.arcs
    ensures FramesOk(Store(st.arcs - {id}, st.counts - {id}, st.next, st.frames - {st.arcs[id].frame}))
  {
    var st' := Store(st.arcs - {id}, st.counts - {id}, st.next, st.frames - {st.arcs[id].frame});
    forall f: nat ensures BackedAt(st', f) {
      assert BackedAt(st, f);
      if f in st'.frames {
        var x :| x in st.arcs && st.arcs[x].frame == f;
        assert x in st'.arcs;
      }
    }
    forall f: nat, g: nat ensures FramesApart(st', f, g) { assert FramesApart(st, f, g); }
    forall x: nat, y: nat ensures ArcsApart(st', x, y) { assert ArcsApart(st, x, y); }
  }

  /** A block is freed exactly when no task holds its segment. */
  lemma LastReference(tasks: map<nat, seq<nat>>, pending: seq<nat>, st: Store)
    requires Owned(tasks, pending, st) && pending != []
    ensures pending[0] in st.arcs && pending[0] in st.counts
    ensures st.counts[pending[0]] == 1 <==> !Held(tasks, pending[0])
    ensures st.counts[pending[0]] == 1 + |Holders(tasks, pending[0])|
  {
    assert pending[0] in pending;
    assert ArcOk(tasks, pending, st, pending[0]);
    HeldIff(tasks, pending[0]);
  }

  lemma DropArc(tasks: map<nat, seq<nat>>, pending: seq<nat>, st: Store, x: nat)
    requires Owned(tasks, pending, st) && pending != [] && pending[0] in st.arcs && pending[0] in st.counts
    requires pending[0] !in pending[1..] && x in DropFirst(pending, st).arcs
    ensures ArcOk(tasks, pending[1..], DropFirst(pending, st), x)
  {
    assert pending == [pending[0]] + pending[1..];
    LastReference(tasks, pending, st);
    assert ArcOk(tasks, pending, st, x);
    assert ArcsApart(st, x, pending[0]);
  }

  lemma DropTask(tasks: map<nat, seq<nat>>, pending: seq<nat>, st: Store, p: nat)
    requires Owned(tasks, pending, st) && pending != [] && pending[0] in st.arcs && pending[0] in st.counts
      && p in tasks
    ensures TaskOk(tasks, DropFirst(pending, st), p)
  {
    LastReference(tasks, pending, st);
    assert TaskOk(tasks, st, p);
    assert !Held(tasks, pending[0]) ==> pending[0] !in tasks[p];
  }

  lemma DropFirstKeeps(tasks: map<nat, seq<nat>>, pending: seq<nat>, st: Store)
    requires Owned(tasks, pending, st) && pending != []
    ensures pending[0] in st.arcs && pending[0] in st.counts
    ensures Owned(tasks, pending[1..], DropFirst(pending, st))
  {
    LastReference(tasks, pending, st);
    var id, rest, st' := pending[0], pending[1..], DropFirst(pending, st);
    assert id !in rest;
    assert FramesOk(st') by {
      DropFrames(st, id);
      if st.counts[id] != 1 { SameFrames(st, st'); }
    }
    forall p | p in tasks ensures TaskOk(tasks, st', p) { DropTask(tasks, pending, st, p); }
    forall x | x in st'.arcs ensures ArcOk(tasks, rest, st', x) { DropArc(tasks, pending, st, x); }
    forall x | x in rest ensures x in st'.arcs { assert x in pending; }
  }

  ghost function LedgerDrop(pending: seq<nat>, st: Store, g: Ledger): Ledger
    requires pending != [] && pending[0] in st.arcs && pending[0] in st.counts
  {
    if st.counts[pending[0]] != 1 then g
    else g.(freed := g.freed + [(pending[0], st.arcs[pending[0]].frame, Block(st.arcs[pending[0]]))])
  }

  lemma FreedMore(g: Ledger, last: (nat, nat, nat), id: nat)
    requires id == last.0 || Freed(g, id)
    ensures Freed(g.(freed := g.freed + [last]), id)
  {
    var more := g.freed + [last];
    if id == last.0 {
      assert more[|g.freed|].0 == id;
    } else {
      var i :| 0 <= i < |g.freed| && g.freed[i].0 == id;
      assert more[i].0 == id;
    }
  }

  lemma DropFirstBalanced(pending: seq<nat>, st: Store, g: Ledger)
    requires Balanced(st, g) && pending != [] && pending[0] in st.arcs && pending[0] in st.counts
    ensures Balanced(DropFirst(pending, st), LedgerDrop(pending, st, g))
  {
    var st', g' := DropFirst(pending, st), LedgerDrop(pending, st, g);
    if st.counts[pending[0]] == 1 {
      forall id | id in g'.made && id !in st'.arcs ensures Freed(g', id) {
        FreedMore(g, (pending[0], st.arcs[pending[0]].frame, Block(st.arcs[pending[0]])), id);
      }
    }
  }

  /** No frame is mapped user-writable in two tasks. */
  lemma WritableOnce(tasks: map<nat, seq<nat>>, st: Store, p: nat, q: nat, x: nat, y: nat, page: nat)
    requires Owned(tasks, [], st) && p in tasks && q in tasks && x in tasks[p] && y in tasks[q]
    requires x in st.arcs && y in st.arcs && Writable(st.arcs[x])
    requires st.arcs[x].frame <= page < st.arcs[x].frame + st.arcs[x].pages
    requires st.arcs[y].frame <= page < st.arcs[y].frame + st.arcs[y].pages
    ensures x == y && p == q
  {
    assert ArcOk(tasks, [], st, x) && ArcOk(tasks, [], st, y);
    assert FramesApart(st, st.arcs[x].frame, st.arcs[y].frame) && ArcsApart(st, x, y);
  }

  /** There is always room somewhere: memory is not bounded here. */
  lemma {:induction false} RoomAbove(frames: map<nat, nat>, keys: set<nat>) returns (top: nat)
    requires keys <= frames.Keys
    ensures forall g :: g in keys ==> g + frames[g] <= top
    decreases keys
  {
    top := 0;
    if keys != {} {
      var g :| g in keys;
      var t := RoomAbove(frames, keys - {g});
      top := if t < g + frames[g] then g + frames[g] else t;
    }
  }

  lemma FreeFrame(frames: map<nat, nat>, n: nat)
    ensures exists f: nat :: Apart(frames, f, n)
  {
    var top := RoomAbove(frames, frames.Keys);
    assert Apart(frames, top, n);
  }
}
