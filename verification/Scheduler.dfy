/** The task scheduler: creating, forking, killing and picking tasks. */
module Scheduler {
  import opened Common
  import opened Dyadic
  import opened Fairness
  import opened NiceValues
  import opened Pops
  import opened Segments
  import opened TaskMemory

  datatype Task = Task(nice: int, nextSchedule: Option<nat>, allocs: seq<nat>)

  function Holds(tasks: map<nat, Task>): map<nat, seq<nat>> {
    map p | p in tasks :: tasks[p].allocs
  }

  lemma HoldsSame(tasks: map<nat, Task>, pid: nat, task: Task)
    requires pid in tasks && task.allocs == tasks[pid].allocs
    ensures Holds(tasks[pid := task]) == Holds(tasks) && tasks[pid := task].Keys == tasks.Keys
  {
  }

  lemma HoldsMore(tasks: map<nat, Task>, pid: nat, task: Task)
    ensures Holds(tasks[pid := task]) == Holds(tasks)[pid := task.allocs]
  {
  }

  function Nices(tasks: map<nat, Task>): map<nat, int> {
    map p | p in tasks :: tasks[p].nice
  }

  predicate Awake(task: Task, now: nat) {
    task.nextSchedule.None? || task.nextSchedule.value <= now
  }

  /** `pid` comes in at the least vruntime of those there. */
  ghost predicate Joins(vr: map<nat, nat>, pid: nat, vr': map<nat, nat>) {
    exists first :: First(vr, first) && vr' == vr[pid := vr[first]]
  }

  /** The task that pop `j` from `vr` on yields is asleep at reading `j`. */
  ghost predicate SleptAt(tasks: map<nat, Task>, vr: map<nat, nat>, clock: nat -> nat, j: nat) {
    var p := Popped(vr, Nices(tasks), j);
    p in tasks && tasks[p].nextSchedule.Some? && tasks[p].nextSchedule.value > clock(j)
  }

  /** So are those of the first `n` pops. */
  ghost predicate Slept(tasks: map<nat, Task>, vr: map<nat, nat>, clock: nat -> nat, n: nat) {
    forall j: nat {:trigger SleptAt(tasks, vr, clock, j)} :: j < n ==> SleptAt(tasks, vr, clock, j)
  }

  /**
   * What `schedule` does to tasks and vruntimes: it pops tasks in order, charging each, passes over those that sleep
   * at their reading of the clock, and stops at the first that has no wake time or whose wake time has come.
   */
  ghost predicate Scheduled(tasks: map<nat, Task>, vr: map<nat, nat>, clock: nat -> nat, pops: nat,
                            tasks': map<nat, Task>, vr': map<nat, nat>, pid: nat) {
    && pops >= 1 && pid == Popped(vr, Nices(tasks), pops - 1) && pid in tasks
    && vr' == After(vr, Nices(tasks), pops) && Slept(tasks, vr, clock, pops - 1)
    && (tasks[pid].nextSchedule.Some? ==> tasks[pid].nextSchedule.value <= clock(pops - 1))
    && tasks' == tasks[pid := tasks[pid].(nextSchedule := None)]
  }

  ghost predicate Clock(clock: nat -> nat) {
    forall i: nat, j: nat :: i <= j ==> clock(i) <= clock(j)
  }

  lemma ScheduledKeeps(tasks: map<nat, Task>, vr: map<nat, nat>, clock: nat -> nat, pops: nat,
                       tasks': map<nat, Task>, vr': map<nat, nat>, pid: nat)
    requires Scheduled(tasks, vr, clock, pops, tasks', vr', pid)
    ensures Holds(tasks') == Holds(tasks) && tasks'.Keys == tasks.Keys && |tasks'| == |tasks|
  {
    HoldsSame(tasks, pid, tasks'[pid]);
    assert |tasks| == |tasks.Keys| && |tasks'| == |tasks'.Keys|;
  }

  /** The search has passed over `pops` sleeping tasks. */
  ghost predicate Searching(tasks: map<nat, Task>, vr0: map<nat, nat>, clock: nat -> nat, pops: nat,
                            vr: map<nat, nat>) {
    vr == After(vr0, Nices(tasks), pops) && Slept(tasks, vr0, clock, pops)
  }

  /** One more pop, of task `pid`: it sleeps, or the search is over. */
  lemma SearchNext(tasks: map<nat, Task>, vr0: map<nat, nat>, clock: nat -> nat, pops: nat,
                   was: map<nat, nat>, pid: nat, vr: map<nat, nat>)
    requires Searching(tasks, vr0, clock, pops, was) && Niced(was, Nices(tasks)) && First(was, pid) && pid in tasks
    requires vr == was[pid := Advance(was[pid], tasks[pid].nice)]
    ensures !Awake(tasks[pid], clock(pops)) ==> Searching(tasks, vr0, clock, pops + 1, vr)
    ensures Awake(tasks[pid], clock(pops)) ==>
      Scheduled(tasks, vr0, clock, pops + 1, tasks[pid := tasks[pid].(nextSchedule := None)], vr, pid)
  {
    AfterNext(vr0, Nices(tasks), pops, was, pid);
    if !Awake(tasks[pid], clock(pops)) { assert SleptAt(tasks, vr0, clock, pops); }
  }

  class Scheduler {
    var tasks: map<nat, Task>
    var vruntime: set<(nat, nat)>
    var currentPid: nat
    var maxPid: nat
    var store: Store
    /** The vruntime of each task. */
    ghost var vr: map<nat, nat>
    ghost var ledger: Ledger

    /** One vruntime entry per task. */
    ghost predicate Timed()
      reads `vruntime, `vr, `tasks, `maxPid
    {
      && vruntime == Entries(vr) && vr.Keys == tasks.Keys
      && forall p :: p in tasks ==> p <= maxPid && NICE_MIN <= tasks[p].nice <= NICE_MAX
    }

    /** Memory is accounted for. */
    ghost predicate Sound()
      reads `tasks, `store, `ledger
    {
      Owned(Holds(tasks), [], store) && Balanced(store, ledger)
    }

    /** What nice values from -18 on keep. */
    ghost predicate Fair()
      reads `vr, `tasks
    {
      Close(vr) && forall p :: p in tasks ==> NiceOk(tasks[p].nice)
    }

    ghost predicate Valid()
      reads this
    {
      Timed() && Sound() && Fair() && currentPid in tasks
    }

    /** The kernel's own task, with no segments. */
    constructor ()
      ensures Valid() && tasks.Keys == {0} && store.frames == map[]
    {
      tasks := map[0 := Task(0, None, [])];
      vruntime := {(0, 0)};
      currentPid, maxPid := 0, 0;
      store := Store(map[], map[], 0, map[]);
      vr := map[0 := 0];
      ledger := Ledger(map[], []);
      EntriesAdd(map[], 0, 0);
      StartSound();
      assert Holds(map[0 := Task(0, None, [])]) == map[0 := []];
    }

    // ------------------------------------------------------------ scheduling

    method PopFirst() returns (v: nat, pid: nat)
      requires vruntime == Entries(vr) && vr != map[]
      modifies `vruntime
      ensures First(vr, pid) && v == vr[pid] && vruntime == old(vruntime) - {(v, pid)}
    {
      ghost var least := LeastExists(vr);
      var entry :| entry in vruntime && forall x :: x in vruntime ==> x == entry || Before(entry, x);
      LeastEntry(vr, entry);
      vruntime := vruntime - {entry};
      v, pid := entry.0, entry.1;
    }

    /** Pop the first entry, charge its task and put it back. */
    method Turn()
      requires Timed() && vr != map[]
      modifies `vruntime, `currentPid, `vr
      ensures Timed() && First(old(vr), currentPid)
      ensures vr == old(vr)[currentPid := Advance(old(vr)[currentPid], tasks[currentPid].nice)]
    {
      var v, pid := PopFirst();
      v := Advance(v, tasks[pid].nice);
      EntriesUpdate(vr, pid, v);
      vruntime := vruntime + {(v, pid)};
      currentPid := pid;
      vr := vr[pid := v];
    }

    /** One turn leaves the others' vruntime alone and brings `awake` nearer. */
    method PricedTurn(ghost awake: nat)
      requires Timed() && Fair() && awake in tasks
      modifies `vruntime, `currentPid, `vr
      ensures Timed() && Fair() && currentPid in tasks && First(old(vr), currentPid)
      ensures vr == old(vr)[currentPid := Advance(old(vr)[currentPid], tasks[currentPid].nice)]
      ensures currentPid != awake ==>
        Turns(vr, awake, vr.Keys - {awake}) < old(Turns(vr, awake, vr.Keys - {awake}))
    {
      ghost var was := vr;
      Turn();
      ghost var charge := Charge(tasks[currentPid].nice);
      ChargeRange(tasks[currentPid].nice);
      ChargeKeepsClose(was, currentPid, charge);
      if currentPid != awake { PopStep(was, currentPid, charge, awake, vr); }
    }

    /** From pop `i` on, `awake` is there to stop at, and every pop brings it nearer. */
    ghost predicate Nearing(pops: nat, i: nat, awake: nat, total: nat)
      reads `vr
    {
      awake in vr && (pops >= i ==> pops - i + Turns(vr, awake, vr.Keys - {awake}) <= total)
    }

    /** The popped task may run, or sleeps on; `now` is read only if it has a wake time. */
    method MayRun(now: nat) returns (stop: bool)
      requires Timed() && Fair() && currentPid in tasks
      modifies `tasks
      ensures Timed() && Fair() && (stop <==> Awake(old(tasks)[currentPid], now))
      ensures stop ==> tasks == old(tasks)[currentPid := old(tasks)[currentPid].(nextSchedule := None)]
      ensures !stop ==> tasks == old(tasks)
    {
      match tasks[currentPid].nextSchedule {
        case Some(next) =>
          stop := next <= now;
          if stop {
            tasks := tasks[currentPid := tasks[currentPid].(nextSchedule := None)];
          }
        case None =>
          stop := true;
          assert tasks[currentPid].(nextSchedule := None) == tasks[currentPid];
      }
    }

    /**
     * `clock(r)` is reading `r` of the system time, one per pop. If task `awake` may run at reading `i`, the
     * search ends within `i + 39 * (n - 1) + 1` pops, at a task that may run.
     */
    method Pick(clock: nat -> nat, ghost awake: nat, ghost i: nat, ghost total: nat) returns (ghost pops: nat)
      requires Timed() && Fair() && Clock(clock) && awake in tasks && Awake(tasks[awake], clock(i))
      requires total == (SPREAD + 1) * (|tasks| - 1) && Nearing(0, i, awake, total)
      modifies `vruntime, `currentPid, `vr, `tasks
      ensures Timed() && Fair() && pops <= i + total + 1
      ensures Scheduled(old(tasks), old(vr), clock, pops, tasks, vr, currentPid)
    {
      pops := 0;
      var readings := 0;
      assert Searching(tasks, vr, clock, 0, vr);
      while true
        invariant readings == pops && OnTheWay(old(tasks), old(vr), clock, pops, awake, i, total)
        decreases i + total - pops
      {
        var stop := TryNext(clock(readings), clock, old(vr), pops, awake, i, total);
        pops, readings := pops + 1, readings + 1;
        if stop {
          return;
        }
      }
    }

    /** Between two rounds of the search. */
    ghost predicate OnTheWay(tasks0: map<nat, Task>, vr0: map<nat, nat>, clock: nat -> nat, pops: nat,
                             awake: nat, i: nat, total: nat)
      reads this
    {
      && Timed() && Fair() && tasks == tasks0 && Nearing(pops, i, awake, total) && pops <= i + total
      && Searching(tasks, vr0, clock, pops, vr)
    }

    /** One round of the search: pop a task, charge it, and stop at it if it may run. */
    method TryNext(now: nat, ghost clock: nat -> nat, ghost vr0: map<nat, nat>, ghost pops: nat,
                   ghost awake: nat, ghost i: nat, ghost total: nat)
      returns (stop: bool)
      requires OnTheWay(tasks, vr0, clock, pops, awake, i, total) && Clock(clock) && now == clock(pops)
      requires awake in tasks && Awake(tasks[awake], clock(i)) && total == (SPREAD + 1) * (|tasks| - 1)
      modifies `vruntime, `currentPid, `vr, `tasks
      ensures !stop ==> OnTheWay(old(tasks), vr0, clock, pops + 1, awake, i, total)
      ensures stop ==> Timed() && Fair() && Scheduled(old(tasks), vr0, clock, pops + 1, tasks, vr, currentPid)
    {
      ghost var was := vr;
      assert Niced(was, Nices(tasks));
      NearerTurn(pops, i, awake, total);
      assert pops >= i ==> clock(i) <= clock(pops);
      SearchNext(tasks, vr0, clock, pops, was, currentPid, vr);
      stop := MayRun(now);
    }

    /** One pop of the search and what comes of it. */
    method NearerTurn(ghost pops: nat, ghost i: nat, ghost awake: nat, ghost total: nat)
      requires Timed() && Fair() && awake in tasks && Nearing(pops, i, awake, total)
      requires total == (SPREAD + 1) * (|tasks| - 1)
      modifies `vruntime, `currentPid, `vr
      ensures Timed() && Fair() && currentPid in tasks && pops <= i + total
      ensures First(old(vr), currentPid)
      ensures vr == old(vr)[currentPid := Advance(old(vr)[currentPid], tasks[currentPid].nice)]
      ensures pops < i || currentPid != awake ==> Nearing(pops + 1, i, awake, total) && pops + 1 <= i + total
    {
      PricedTurn(awake);
      assert |vr| == |vr.Keys| == |tasks.Keys| == |tasks|;
      TurnsTotal(vr, awake);
    }

    /** `schedule`: it ends if some task may run now or later, at reading `i`. */
    method Schedule(clock: nat -> nat, ghost awake: nat, ghost i: nat) returns (ghost pops: nat)
      requires Timed() && Sound() && Fair() && Clock(clock) && awake in tasks && Awake(tasks[awake], clock(i))
      modifies `vruntime, `currentPid, `vr, `tasks
      ensures Valid() && tasks.Keys == old(tasks).Keys
      ensures pops <= i + (SPREAD + 1) * (|tasks| - 1) + 1
      ensures Scheduled(old(tasks), old(vr), clock, pops, tasks, vr, currentPid)
    {
      StartNearing(i, awake, (SPREAD + 1) * (|tasks| - 1));
      pops := Pick(clock, awake, i, (SPREAD + 1) * (|tasks| - 1));
      ScheduledKeeps(old(tasks), old(vr), clock, pops, tasks, vr, currentPid);
      SoundKept();
    }

    twostate lemma SoundKept()
      requires old(Sound()) && Holds(tasks) == Holds(old(tasks)) && store == old(store) && ledger == old(ledger)
      ensures Sound()
    {
    }

    lemma StartNearing(i: nat, awake: nat, total: nat)
      requires Timed() && Close(vr) && awake in tasks && total == (SPREAD + 1) * (|tasks| - 1)
      ensures Nearing(0, i, awake, total)
    {
      TurnsTotal(vr, awake);
      TaskCount();
    }

    lemma TaskCount()
      requires Timed()
      ensures |vr| == |tasks| == |tasks.Keys|
    {
      assert |vr| == |vr.Keys| == |tasks.Keys| == |tasks|;
    }

    // ---------------------------------------------------------------- memory

    /** The page allocator, as far as it matters here: a block apart from all others. */
    method FindFrame(pages: nat) returns (frame: nat)
      ensures Apart(store.frames, frame, Pow2(CeilLog2(pages)))
    {
      FreeFrame(store.frames, Pow2(CeilLog2(pages)));
      frame :| Apart(store.frames, frame, Pow2(CeilLog2(pages)));
    }

    /** Record a new segment on a fresh block. */
    method Reserve(seg: Segment, ghost held: map<nat, seq<nat>>, ghost pending: seq<nat>) returns (id: nat)
      requires Owned(held, pending, store) && Balanced(store, ledger) && Apart(store.frames, seg.frame, Block(seg))
      modifies `store, `ledger
      ensures Owned(held, pending + [id], store) && Balanced(store, ledger)
      ensures id == old(store).next && Grown(old(store), store) && store.next == old(store).next + 1
      ensures id in store.arcs && store.arcs[id] == seg && seg.frame !in old(store).frames
    {
      id := store.next;
      assert seg.frame !in store.frames && id !in store.arcs by {
        NewFrame(held, pending, store, seg);
        NextIsNew(held, pending, store);
      }
      AddNewKeeps(held, pending, store, seg);
      AddNewBalanced(store, ledger, seg);
      ledger := LedgerNew(store, ledger, seg);
      store := AddNew(store, seg);
    }

    /** Clone a reference to a segment that is not mapped writable. */
    method CloneArc(id: nat, ghost held: map<nat, seq<nat>>, ghost pending: seq<nat>)
      requires Owned(held, pending, store) && Balanced(store, ledger)
      requires id in store.arcs && id !in pending && !Writable(store.arcs[id])
      modifies `store
      ensures Owned(held, pending + [id], store) && Balanced(store, ledger)
      ensures Grown(old(store), store) && store.arcs == old(store).arcs && store.next == old(store).next
    {
      ShareKeeps(held, pending, store, id);
      store := Share(store, id);
    }

    /** The segments of a forked task. */
    method ForkSegments(parent: seq<nat>, ghost held: map<nat, seq<nat>>) returns (child: seq<nat>)
      requires Owned(held, [], store) && Balanced(store, ledger)
      requires NoDup(parent) && forall id :: id in parent ==> id in store.arcs
      modifies `store, `ledger
      ensures Owned(held, child, store) && Balanced(store, ledger)
      ensures Grown(old(store), store) && Forked(parent, child, old(store), store)
    {
      child := [];
      ghost var was := store;
      for i := 0 to |parent|
        invariant Owned(held, child, store) && Balanced(store, ledger) && Grown(was, store)
        invariant |child| == i && forall j :: 0 <= j < i ==> ForkedAt(parent, child, was, store, j)
      {
        child := ForkSegment(parent, child, held, was);
      }
    }

    method ForkSegment(parent: seq<nat>, child: seq<nat>, ghost held: map<nat, seq<nat>>, ghost was: Store)
      returns (child': seq<nat>)
      requires Owned(held, child, store) && Balanced(store, ledger) && Grown(was, store)
      requires Owned(held, [], was) && NoDup(parent) && forall id :: id in parent ==> id in was.arcs
      requires |child| < |parent| && forall j :: 0 <= j < |child| ==> ForkedAt(parent, child, was, store, j)
      modifies `store, `ledger
      ensures Owned(held, child', store) && Balanced(store, ledger) && Grown(was, store)
      ensures |child'| == |child| + 1 && forall j :: 0 <= j < |child'| ==> ForkedAt(parent, child', was, store, j)
    {
      var i := |child|;
      var id := parent[i];
      assert id in parent;
      var seg := store.arcs[id];
      ghost var before := store;
      var copy := id;
      if Writable(seg) {
        var frame := FindFrame(seg.pages);
        copy := Reserve(seg.(frame := frame), held, child);
      } else {
        NotYetListed(parent, child, held, was, store);
        CloneArc(id, held, child);
      }
      child' := child + [copy];
      ForkedMore(parent, child, was, before, store, copy);
    }

    method LoadStack(ghost held: map<nat, seq<nat>>) returns (list: seq<nat>)
      requires Owned(held, [], store) && Balanced(store, ledger)
      modifies `store, `ledger
      ensures Owned(held, list, store) && Balanced(store, ledger)
      ensures Grown(old(store), store) && Loaded([], list, old(store), store)
    {
      ghost var was := store;
      var frame := FindFrame(USER_STACK_PAGES);
      var id := Reserve(Segment(frame + OFFSET, frame, USER_STACK_PAGES, {Read, Write}), held, []);
      list := [id];
      assert list == [] + [id];
      assert LoadedAt([], list, was, store, 0);
    }

    method LoadSegment(loads: seq<Load>, list: seq<nat>, ghost held: map<nat, seq<nat>>, ghost was: Store)
      returns (list': seq<nat>)
      requires Owned(held, list, store) && Balanced(store, ledger) && Grown(was, store)
      requires 1 <= |list| <= |loads| && Loaded(loads[..|list| - 1], list, was, store)
      modifies `store, `ledger
      ensures Owned(held, list', store) && Balanced(store, ledger) && Grown(was, store)
      ensures |list'| == |list| + 1 && Loaded(loads[..|list|], list', was, store)
    {
      var load := loads[|list| - 1];
      ghost var before := store;
      var pages := (load.memsz + PAGE_SIZE - 1) / PAGE_SIZE;
      var frame := FindFrame(pages);
      var id := Reserve(Segment(load.vAddr / PAGE_SIZE, frame, pages, load.flags), held, list);
      list' := list + [id];
      LoadedMore(loads, list, was, before, store, id);
    }

    /** The stack and the segments of a new task. */
    method LoadSegments(loads: seq<Load>, ghost held: map<nat, seq<nat>>) returns (list: seq<nat>)
      requires Owned(held, [], store) && Balanced(store, ledger)
      modifies `store, `ledger
      ensures Owned(held, list, store) && Balanced(store, ledger)
      ensures Grown(old(store), store) && Loaded(loads, list, old(store), store)
    {
      ghost var was := store;
      list := LoadStack(held);
      for i := 0 to |loads|
        invariant Owned(held, list, store) && Balanced(store, ledger) && Grown(was, store)
        invariant |list| == i + 1 && Loaded(loads[..i], list, was, store)
      {
        list := LoadSegment(loads, list, held, was);
      }
      assert loads[..|loads|] == loads;
    }

    // ----------------------------------------------------- creating and forking

    method LeastRuntime() returns (v: nat, ghost pid: nat)
      requires vruntime == Entries(vr) && vr != map[]
      ensures First(vr, pid) && v == vr[pid]
    {
      ghost var least := LeastExists(vr);
      var entry :| entry in vruntime && forall x :: x in vruntime ==> x == entry || Before(entry, x);
      LeastEntry(vr, entry);
      v, pid := entry.0, entry.1;
    }

    /** Put a task in, at the least vruntime there is. */
    method Insert(pid: nat, task: Task)
      requires Timed() && vr != map[] && pid !in tasks && pid <= maxPid && NICE_MIN <= task.nice <= NICE_MAX
      modifies `tasks, `vruntime, `vr
      ensures Timed() && tasks == old(tasks)[pid := task]
      ensures Joins(old(vr), pid, vr)
      ensures old(Fair()) && NiceOk(task.nice) ==> Fair()
    {
      tasks := tasks[pid := task];
      var v, first := LeastRuntime();
      EntriesAdd(vr, pid, v);
      vruntime := vruntime + {(v, pid)};
      if Close(vr) { JoinKeepsClose(vr, first, pid); }
      vr := vr[pid := v];
    }

    /** A finished task takes over its segments and joins the others. */
    method Adopt(pid: nat, list: seq<nat>)
      requires Timed() && Owned(Holds(tasks), list, store) && currentPid in tasks && pid !in tasks && pid <= maxPid
      modifies `tasks, `vruntime, `vr
      ensures Timed() && Owned(Holds(tasks), [], store) && (old(Fair()) ==> Fair()) && Joins(old(vr), pid, vr)
      ensures tasks == old(tasks)[pid := Task(old(tasks)[currentPid].nice, None, list)]
    {
      CommitKeeps(Holds(tasks), list, store, pid);
      var task := Task(tasks[currentPid].nice, None, list);
      HoldsMore(tasks, pid, task);
      assert currentPid in vr;
      Insert(pid, task);
    }

    /** A new task, under the next pid, with the segments listed. */
    method Enlist(list: seq<nat>) returns (pid: nat)
      requires Timed() && Owned(Holds(tasks), list, store) && currentPid in tasks
      modifies `tasks, `vruntime, `vr, `maxPid
      ensures Timed() && Owned(Holds(tasks), [], store) && (old(Fair()) ==> Fair()) && Joins(old(vr), pid, vr)
      ensures pid == maxPid == old(maxPid) + 1
      ensures pid !in old(tasks) && tasks == old(tasks)[pid := Task(old(tasks)[currentPid].nice, None, list)]
    {
      maxPid := maxPid + 1;
      pid := maxPid;
      Adopt(pid, list);
    }

    /** `create_from_elf`, from the executable's loadable headers on. */
    method CreateTask(loads: seq<Load>) returns (pid: nat)
      requires Timed() && Sound() && currentPid in tasks
      modifies this
      ensures Timed() && Sound() && (old(Fair()) ==> Fair())
      ensures pid == maxPid == old(maxPid) + 1 && Joins(old(vr), pid, vr)
      ensures pid !in old(tasks) && tasks.Keys == old(tasks).Keys + {pid} && currentPid == old(currentPid)
      ensures forall p :: p in old(tasks) ==> tasks[p] == old(tasks)[p]
      ensures tasks[pid].nice == tasks[currentPid].nice && tasks[pid].nextSchedule == None
      ensures Grown(old(store), store) && Loaded(loads, tasks[pid].allocs, old(store), store)
    {
      var list := LoadSegments(loads, Holds(tasks));
      pid := Enlist(list);
    }

    method Fork() returns (pid: nat)
      requires Timed() && Sound() && currentPid in tasks
      modifies this
      ensures Timed() && Sound() && (old(Fair()) ==> Fair())
      ensures pid == maxPid == old(maxPid) + 1 && Joins(old(vr), pid, vr)
      ensures pid !in old(tasks) && tasks.Keys == old(tasks).Keys + {pid} && currentPid == old(currentPid)
      ensures forall p :: p in old(tasks) ==> tasks[p] == old(tasks)[p]
      ensures tasks[pid].nice == tasks[currentPid].nice && tasks[pid].nextSchedule == None
      ensures Grown(old(store), store)
      ensures Forked(tasks[currentPid].allocs, tasks[pid].allocs, old(store), store)
    {
      assert TaskOk(Holds(tasks), store, currentPid);
      var list := ForkSegments(tasks[currentPid].allocs, Holds(tasks));
      pid := Enlist(list);
    }

    // ----------------------------------------------------------------- killing

    /** `Drop for Task`: free each block whose last reference this is. */
    method DropSegments(list: seq<nat>, ghost held: map<nat, seq<nat>>)
      requires Owned(held, list, store) && Balanced(store, ledger)
      modifies `store, `ledger
      ensures Owned(held, [], store) && Balanced(store, ledger) && Shrunk(old(store), store)
      ensures old(ledger).freed <= ledger.freed && ledger.made == old(ledger).made
    {
      ghost var was := store;
      for i := 0 to |list|
        invariant Owned(held, list[i..], store) && Balanced(store, ledger) && Shrunk(was, store)
        invariant old(ledger).freed <= ledger.freed && ledger.made == old(ledger).made
      {
        DropFirstKeeps(held, list[i..], store);
        DropFirstBalanced(list[i..], store, ledger);
        assert list[i..][1..] == list[i + 1..];
        ledger := LedgerDrop(list[i..], store, ledger);
        store := DropFirst(list[i..], store);
      }
    }

    method Retire(pid: nat)
      requires vruntime == Entries(vr)
      modifies `vruntime, `vr
      ensures vruntime == Entries(vr) && vr == old(vr) - {pid} && (old(Close(vr)) ==> Close(vr))
    {
      EntriesRemove(vr, pid);
      if Close(vr) { RemoveKeepsClose(vr, pid); }
      vruntime := set e | e in vruntime && e.1 != pid;
      vr := vr - {pid};
    }

    /** Take a task and its entry out, freeing what only it held. */
    method Remove(pid: nat)
      requires Timed() && Sound()
      modifies `tasks, `vruntime, `vr, `store, `ledger
      ensures Timed() && Sound() && (old(Fair()) ==> Fair()) && tasks == old(tasks) - {pid} && vr == old(vr) - {pid}
      ensures Shrunk(old(store), store) && old(ledger).freed <= ledger.freed
      ensures forall id :: id in old(store).arcs ==> (id in store.arcs <==> Held(Holds(tasks), id))
    {
      if pid in tasks {
        var list := tasks[pid].allocs;
        TakeKeeps(Holds(tasks), store, pid);
        tasks := tasks - {pid};
        assert Holds(tasks) == old(Holds(tasks)) - {pid};
        DropSegments(list, Holds(tasks));
      }
      Retire(pid);
      AliveIffHeld(Holds(tasks), store);
      assert tasks == old(tasks) - {pid};
    }

    method Kill(pid: nat, clock: nat -> nat, ghost awake: nat, ghost i: nat) returns (ghost pops: nat)
      requires Valid() && Clock(clock) && awake in tasks && awake != pid && Awake(tasks[awake], clock(i))
      modifies this
      ensures Valid() && tasks.Keys == old(tasks).Keys - {pid} && currentPid != pid
      ensures pops <= i + (SPREAD + 1) * (|tasks| - 1) + 1
      ensures Scheduled(old(tasks) - {pid}, old(vr) - {pid}, clock, pops, tasks, vr, currentPid)
      ensures Shrunk(old(store), store)
      ensures forall id :: id in old(store).arcs ==> (id in store.arcs <==> Held(Holds(tasks), id))
    {
      Remove(pid);
      ghost var before := tasks;
      pops := Schedule(clock, awake, i);
      HoldsSame(before, currentPid, tasks[currentPid]);
    }

    // -------------------------------------------------------- nice and sleeping

    /** The bound on waiting holds in the run from here, if no task comes, goes or changes its nice value. */
    ghost predicate Waits()
      reads `vr, `tasks
    {
      |vr| > 0 && WaitsAtMost(vr, Nices(tasks), (SPREAD + 1) * (|vr| - 1) + 1)
    }

    /** And so does the spread. */
    ghost predicate Stays()
      reads `vr, `tasks
    {
      StaysClose(vr, Nices(tasks))
    }

    /** `renice` takes any nice value from -20 to 19; see `NiceValues` for what -19 and -20 do. */
    method Renice(pid: nat, nice: int)
      requires Timed() && Sound() && Close(vr) && pid in tasks
      modifies `tasks
      ensures Timed() && Sound()
      ensures tasks == if -20 <= nice <= 19
                       then old(tasks)[pid := old(tasks)[pid].(nice := nice)] else old(tasks)
      ensures 2 <= |vr| && (SPREAD + 1) * (|vr| - 1) + 1 < USIZE ==>
        (Waits() <==> forall p :: p in tasks ==> NiceOk(tasks[p].nice))
      ensures 2 <= |vr| ==>
        (Stays() <==> forall c :: LeastCheap(vr, Nices(tasks), c) ==> tasks[c].nice == -19)
    {
      if NICE_MIN <= nice <= NICE_MAX {
        HoldsSame(tasks, pid, tasks[pid].(nice := nice));
        tasks := tasks[pid := tasks[pid].(nice := nice)];
      }
      if |vr| >= 2 { NicesExact(); }
    }

    lemma NicesExact()
      requires Timed() && Close(vr) && |vr| >= 2
      ensures (SPREAD + 1) * (|vr| - 1) + 1 < USIZE ==>
        (Waits() <==> forall p :: p in tasks ==> NiceOk(tasks[p].nice))
      ensures Stays() <==> forall c :: LeastCheap(vr, Nices(tasks), c) ==> c in tasks && tasks[c].nice == -19
    {
      assert Niced(vr, Nices(tasks));
      SpreadExact(vr, Nices(tasks));
      if (SPREAD + 1) * (|vr| - 1) + 1 < USIZE { WaitingExact(vr, Nices(tasks)); }
    }

    /** From a fair state, -19 and -20 end the bound on waiting, and -20 the spread too. */
    lemma ReniceFair(pid: nat)
      requires Timed() && Close(vr) && 2 <= |vr| && (SPREAD + 1) * (|vr| - 1) + 1 < USIZE
      requires pid in tasks && forall p :: p in tasks && p != pid ==> NiceOk(tasks[p].nice)
      ensures Waits() <==> tasks[pid].nice >= -18
      ensures Stays() <==> tasks[pid].nice >= -19
    {
      NicesExact();
      if !NiceOk(tasks[pid].nice) { assert LeastCheap(vr, Nices(tasks), pid); }
    }

    /** The running task asks not to be scheduled before a point in time. */
    method SleepUntil(time: nat)
      requires Valid()
      modifies `tasks
      ensures Valid() && tasks == old(tasks)[currentPid := old(tasks)[currentPid].(nextSchedule := Some(time))]
    {
      HoldsSame(tasks, currentPid, tasks[currentPid].(nextSchedule := Some(time)));
      tasks := tasks[currentPid := tasks[currentPid].(nextSchedule := Some(time))];
    }
  }
}
