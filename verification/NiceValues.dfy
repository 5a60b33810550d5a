/** Which nice values keep the scheduler fair: runs of pops in which every task keeps its nice value. */
module NiceValues {
  import opened Fairness
  import opened Pops

  // ------------------------------------------------------------------- the run

  /** Every task has a nice value. */
  predicate Niced(vr: map<nat, nat>, nice: map<nat, int>) {
    vr != map[] && vr.Keys <= nice.Keys && forall p :: p in nice ==> NICE_MIN <= nice[p] <= NICE_MAX
  }

  lemma SomeFirst(vr: map<nat, nat>)
    requires vr != map[]
    ensures exists pid :: First(vr, pid)
  {
    assert vr.Keys != {};
    var pid := FirstExists(vr, vr.Keys);
    assert First(vr, pid);
  }

  /** The task that `pop_first` yields. */
  ghost function Next(vr: map<nat, nat>): (pid: nat)
    requires vr != map[]
    ensures First(vr, pid)
  {
    SomeFirst(vr);
    var pid :| First(vr, pid);
    pid
  }

  lemma NextIs(vr: map<nat, nat>, pid: nat)
    requires First(vr, pid)
    ensures vr != map[] && Next(vr) == pid
  {
  }

  /** Pop the first task, charge it and put it back. */
  ghost function Pop(vr: map<nat, nat>, nice: map<nat, int>): map<nat, nat> {
    if Niced(vr, nice) then vr[Next(vr) := Advance(vr[Next(vr)], nice[Next(vr)])] else vr
  }

  /** After `n` pops. */
  ghost function After(vr: map<nat, nat>, nice: map<nat, int>, n: nat): map<nat, nat> {
    if n == 0 then vr else Pop(After(vr, nice, n - 1), nice)
  }

  /** The task that pop `n` yields. */
  ghost function Popped(vr: map<nat, nat>, nice: map<nat, int>, n: nat): nat {
    if After(vr, nice, n) == map[] then 0 else Next(After(vr, nice, n))
  }

  lemma PopKeeps(vr: map<nat, nat>, nice: map<nat, int>)
    requires Niced(vr, nice)
    ensures Pop(vr, nice).Keys == vr.Keys && Niced(Pop(vr, nice), nice)
  {
    var pid := Next(vr);
    assert pid in Pop(vr, nice);
  }

  lemma {:induction false} AfterKeeps(vr: map<nat, nat>, nice: map<nat, int>, n: nat)
    requires Niced(vr, nice)
    ensures After(vr, nice, n).Keys == vr.Keys && Niced(After(vr, nice, n), nice)
  {
    if n > 0 {
      AfterKeeps(vr, nice, n - 1);
      PopKeeps(After(vr, nice, n - 1), nice);
    }
  }

  lemma {:induction false} AfterSplit(vr: map<nat, nat>, nice: map<nat, int>, k: nat, n: nat)
    ensures After(vr, nice, k + n) == After(After(vr, nice, k), nice, n)
    decreases n
  {
    if n > 0 {
      AfterSplit(vr, nice, k, n - 1);
      assert k + n - 1 == k + (n - 1);
    }
  }

  /** One more pop, of task `pid`. */
  lemma AfterNext(vr: map<nat, nat>, nice: map<nat, int>, n: nat, was: map<nat, nat>, pid: nat)
    requires was == After(vr, nice, n) && Niced(was, nice) && First(was, pid)
    ensures After(vr, nice, n + 1) == was[pid := Advance(was[pid], nice[pid])] && Popped(vr, nice, n) == pid
  {
    NextIs(was, pid);
  }

  lemma SameSize(vr: map<nat, nat>, vr': map<nat, nat>)
    requires vr.Keys == vr'.Keys
    ensures |vr| == |vr'|
  {
    assert |vr| == |vr.Keys| && |vr'| == |vr'.Keys|;
  }

  // ---------------------------------------------------------------- fairness

  ghost predicate PoppedWithin(vr: map<nat, nat>, nice: map<nat, int>, t: nat, k: nat, bound: nat) {
    exists i: nat :: k <= i < k + bound && Popped(vr, nice, i) == t
  }

  /** From any point of the run on, every task is popped within `bound` pops. */
  ghost predicate WaitsAtMost(vr: map<nat, nat>, nice: map<nat, int>, bound: nat) {
    forall t, k: nat {:trigger PoppedWithin(vr, nice, t, k, bound)} ::
      t in vr ==> PoppedWithin(vr, nice, t, k, bound)
  }

  /** No task waits for ever. */
  ghost predicate WaitsBounded(vr: map<nat, nat>, nice: map<nat, int>) {
    exists bound: nat :: WaitsAtMost(vr, nice, bound)
  }

  /** The vruntimes stay within 38 of each other. */
  ghost predicate StaysClose(vr: map<nat, nat>, nice: map<nat, int>) {
    forall k: nat {:trigger CloseAt(vr, nice, k)} :: CloseAt(vr, nice, k)
  }

  ghost predicate CloseAt(vr: map<nat, nat>, nice: map<nat, int>, k: nat) {
    Close(After(vr, nice, k))
  }

  predicate AllPriced(vr: map<nat, nat>, nice: map<nat, int>) {
    forall p :: p in vr ==> p in nice && NiceOk(nice[p])
  }

  // ------------------------------------------------------- nice values from -18 on

  lemma PopClose(vr: map<nat, nat>, nice: map<nat, int>)
    requires Niced(vr, nice) && Close(vr) && nice[Next(vr)] != -20
    ensures Close(Pop(vr, nice))
  {
    ChargeKeepsClose(vr, Next(vr), Charge(nice[Next(vr)]));
  }

  lemma {:induction false} PricedClose(vr: map<nat, nat>, nice: map<nat, int>, k: nat)
    requires Niced(vr, nice) && Close(vr) && forall p :: p in vr ==> nice[p] != -20
    ensures Close(After(vr, nice, k))
  {
    if k > 0 {
      PricedClose(vr, nice, k - 1);
      AfterKeeps(vr, nice, k - 1);
      PopClose(After(vr, nice, k - 1), nice);
    }
  }

  ghost predicate IsRun(vr: map<nat, nat>, nice: map<nat, int>,
                        vrs: seq<map<nat, nat>>, pids: seq<nat>, charges: seq<nat>, i: nat) {
    && i < |pids| && i < |charges| && i + 1 < |vrs| && pids[i] == Popped(vr, nice, i)
    && vrs[i] == After(vr, nice, i) && vrs[i + 1] == After(vr, nice, i + 1) && pids[i] in nice
    && NICE_MIN <= nice[pids[i]] <= NICE_MAX && charges[i] == Charge(nice[pids[i]])
  }

  lemma RunAt(vr: map<nat, nat>, nice: map<nat, int>,
              vrs: seq<map<nat, nat>>, pids: seq<nat>, charges: seq<nat>, i: nat)
    requires Niced(vr, nice) && AllPriced(vr, nice) && IsRun(vr, nice, vrs, pids, charges, i)
    ensures PopAt(vrs, pids, charges, i) && 1 <= charges[i] <= SPREAD
  {
    AfterKeeps(vr, nice, i);
    AfterNext(vr, nice, i, vrs[i], Next(vrs[i]));
  }

  ghost function ChargeAt(vr: map<nat, nat>, nice: map<nat, int>, i: nat): nat {
    var pid := Popped(vr, nice, i);
    if pid in nice && NICE_MIN <= nice[pid] <= NICE_MAX then Charge(nice[pid]) else 0
  }

  /** The first pops as a run of charges. */
  lemma RunOf(vr: map<nat, nat>, nice: map<nat, int>, n: nat)
    returns (vrs: seq<map<nat, nat>>, pids: seq<nat>, charges: seq<nat>)
    requires Niced(vr, nice) && AllPriced(vr, nice)
    ensures Pops.Pops(vrs, pids, charges) && Priced(charges) && |pids| == n && vrs[0] == vr
    ensures forall i :: 0 <= i < n ==> pids[i] == Popped(vr, nice, i)
  {
    vrs := seq(n + 1, i requires 0 <= i => After(vr, nice, i));
    pids := seq(n, i requires 0 <= i => Popped(vr, nice, i));
    charges := seq(n, i requires 0 <= i => ChargeAt(vr, nice, i));
    forall i | 0 <= i < n ensures PopAt(vrs, pids, charges, i) && 1 <= charges[i] <= SPREAD {
      AfterKeeps(vr, nice, i);
      assert IsRun(vr, nice, vrs, pids, charges, i);
      RunAt(vr, nice, vrs, pids, charges, i);
    }
  }

  /** Every task is popped within `39 * (n - 1) + 1` pops, again and again. */
  lemma PricedWaits(vr: map<nat, nat>, nice: map<nat, int>)
    requires Niced(vr, nice) && Close(vr) && AllPriced(vr, nice)
    ensures WaitsAtMost(vr, nice, (SPREAD + 1) * (|vr| - 1) + 1)
  {
    var bound := (SPREAD + 1) * (|vr| - 1) + 1;
    forall t, k: nat | t in vr ensures PoppedWithin(vr, nice, t, k, bound) {
      PricedWait(vr, nice, t, k, bound);
    }
  }

  lemma PricedWait(vr: map<nat, nat>, nice: map<nat, int>, t: nat, k: nat, bound: nat)
    requires Niced(vr, nice) && Close(vr) && AllPriced(vr, nice) && t in vr
    requires bound == (SPREAD + 1) * (|vr| - 1) + 1
    ensures PoppedWithin(vr, nice, t, k, bound)
  {
    var now := After(vr, nice, k);
    PricedClose(vr, nice, k);
    AfterKeeps(vr, nice, k);
    SameSize(vr, now);
    var vrs, pids, charges := RunOf(now, nice, bound);
    BoundedWaiting(vrs, pids, charges, t);
    var i :| 0 <= i < |pids| && pids[i] == t;
    AfterSplit(vr, nice, k, i);
    assert Popped(vr, nice, k + i) == t;
  }

  // -------------------------------------------------------------- the other two

  lemma CheapLater(vr: map<nat, nat>, nice: map<nat, int>, pid: nat, vr': map<nat, nat>, j: nat)
    requires Niced(vr, nice) && First(vr, pid) && vr' == vr[pid := Advance(vr[pid], nice[pid])]
    ensures After(vr, nice, 1 + j) == After(vr', nice, j) && Popped(vr, nice, 1 + j) == Popped(vr', nice, j)
  {
    assert After(vr, nice, 0) == vr;
    AfterNext(vr, nice, 0, vr, pid);
    AfterSplit(vr, nice, 1, j);
  }

  /** Of the tasks at -19 or -20, `c` is the one that `pop_first` prefers. */
  ghost predicate LeastCheap(vr: map<nat, nat>, nice: map<nat, int>, c: nat) {
    && c in vr && c in nice && !NiceOk(nice[c])
    && forall d :: d in vr && d in nice && !NiceOk(nice[d]) && d != c ==> Before((vr[c], c), (vr[d], d))
  }

  lemma SomeLeastCheap(vr: map<nat, nat>, nice: map<nat, int>, t: nat) returns (c: nat)
    requires t in vr && t in nice && !NiceOk(nice[t])
    ensures LeastCheap(vr, nice, c)
  {
    var cheap := set d | d in vr && d in nice && !NiceOk(nice[d]);
    assert t in cheap;
    c := FirstExists(vr, cheap);
  }

  /** The spread is kept for the first `n` pops. */
  ghost predicate CloseTo(vr: map<nat, nat>, nice: map<nat, int>, n: nat) {
    forall k: nat {:trigger CloseAt(vr, nice, k)} :: k <= n ==> CloseAt(vr, nice, k)
  }

  /** Pop `i` is the turn of task `c` at -19 or -20, with the spread still kept. */
  ghost predicate CheapAt(vr: map<nat, nat>, nice: map<nat, int>, c: nat, i: nat) {
    c in vr && c in nice && !NiceOk(nice[c]) && Popped(vr, nice, i) == c && CloseTo(vr, nice, i)
  }

  lemma CloseLater(vr: map<nat, nat>, nice: map<nat, int>, pid: nat, vr': map<nat, nat>, j: nat, k: nat)
    requires Niced(vr, nice) && Close(vr) && First(vr, pid) && vr' == vr[pid := Advance(vr[pid], nice[pid])]
    requires CloseTo(vr', nice, j) && k <= 1 + j
    ensures CloseAt(vr, nice, k)
  {
    if k > 0 {
      assert CloseAt(vr', nice, k - 1);
      CheapLater(vr, nice, pid, vr', k - 1);
    }
  }

  lemma CheapNext(vr: map<nat, nat>, nice: map<nat, int>, c: nat, pid: nat, vr': map<nat, nat>, j: nat)
    requires Niced(vr, nice) && Close(vr) && First(vr, pid) && vr' == vr[pid := Advance(vr[pid], nice[pid])]
    requires CheapAt(vr', nice, c, j)
    ensures CheapAt(vr, nice, c, 1 + j)
  {
    CheapLater(vr, nice, pid, vr', j);
    forall k: nat | k <= 1 + j ensures CloseAt(vr, nice, k) {
      CloseLater(vr, nice, pid, vr', j, k);
    }
  }

  lemma StillLeast(vr: map<nat, nat>, nice: map<nat, int>, c: nat, pid: nat, v: nat)
    requires LeastCheap(vr, nice, c) && pid in vr && pid in nice && NiceOk(nice[pid])
    ensures LeastCheap(vr[pid := v], nice, c)
  {
  }

  /** The least task at -19 or -20 is the first of them that gets its turn; until then only others are charged. */
  lemma {:induction false} FirstCheap(vr: map<nat, nat>, nice: map<nat, int>, c: nat) returns (i: nat)
    requires Niced(vr, nice) && Close(vr) && LeastCheap(vr, nice, c)
    ensures CheapAt(vr, nice, c, i) && i <= Turns(vr, c, vr.Keys - {c})
    decreases Turns(vr, c, vr.Keys - {c})
  {
    var pid := Next(vr);
    if !NiceOk(nice[pid]) {
      i := 0;
      assert pid == c;
      assert After(vr, nice, 0) == vr;
    } else {
      var v := Advance(vr[pid], nice[pid]);
      PopStep(vr, pid, Charge(nice[pid]), c, vr[pid := v]);
      StillLeast(vr, nice, c, pid, v);
      var j := FirstCheap(vr[pid := v], nice, c);
      CheapNext(vr, nice, c, pid, vr[pid := v], j);
      i := 1 + j;
    }
  }

  /** A task that is first at nice -19 stays first: popping it changes nothing. */
  lemma {:induction false} FreeRider(vr: map<nat, nat>, nice: map<nat, int>, n: nat)
    requires Niced(vr, nice) && nice[Next(vr)] == -19
    ensures After(vr, nice, n) == vr && Popped(vr, nice, n) == Next(vr)
  {
    if n > 0 {
      FreeRider(vr, nice, n - 1);
      AfterNext(vr, nice, n - 1, vr, Next(vr));
      assert vr[Next(vr) := vr[Next(vr)] + 0] == vr;
    }
  }

  lemma Another(vr: map<nat, nat>, p: nat) returns (q: nat)
    requires |vr| >= 2 && p in vr
    ensures q in vr && q != p
  {
    assert |vr.Keys - {p}| == |vr.Keys| - 1 > 0;
    q :| q in vr.Keys - {p};
  }

  /** So from then on every other task waits for ever. */
  lemma FreeRiderBlocks(vr: map<nat, nat>, nice: map<nat, int>, c: nat, i: nat)
    requires Niced(vr, nice) && |vr| >= 2 && CheapAt(vr, nice, c, i) && nice[c] == -19
    ensures !WaitsBounded(vr, nice)
  {
    AfterKeeps(vr, nice, i);
    var q := Another(vr, c);
    forall bound: nat ensures !WaitsAtMost(vr, nice, bound) {
      NeverAgain(vr, nice, i, q, bound);
    }
  }

  lemma RidesOn(vr: map<nat, nat>, nice: map<nat, int>, i: nat, now: map<nat, nat>, n: nat)
    requires now == After(vr, nice, i) && Niced(now, nice) && nice[Next(now)] == -19
    ensures Popped(vr, nice, i + n) == Popped(vr, nice, i) && After(vr, nice, i + n) == now
  {
    AfterSplit(vr, nice, i, n);
    FreeRider(now, nice, n);
  }

  lemma RiderClose(vr: map<nat, nat>, nice: map<nat, int>, c: nat, i: nat, now: map<nat, nat>, k: nat)
    requires CheapAt(vr, nice, c, i) && now == After(vr, nice, i) && Niced(now, nice) && nice[c] == -19
    ensures CloseAt(vr, nice, k)
  {
    assert CloseAt(vr, nice, i);
    if k > i { RidesOn(vr, nice, i, now, k - i); }
  }

  /** And the spread is kept for ever. */
  lemma FreeRiderCloses(vr: map<nat, nat>, nice: map<nat, int>, c: nat, i: nat)
    requires Niced(vr, nice) && CheapAt(vr, nice, c, i) && nice[c] == -19
    ensures StaysClose(vr, nice)
  {
    AfterKeeps(vr, nice, i);
    forall k: nat ensures CloseAt(vr, nice, k) { RiderClose(vr, nice, c, i, After(vr, nice, i), k); }
  }

  lemma NeverAgain(vr: map<nat, nat>, nice: map<nat, int>, i: nat, q: nat, bound: nat)
    requires Niced(After(vr, nice, i), nice)
    requires nice[Popped(vr, nice, i)] == -19 && q in vr && q != Popped(vr, nice, i)
    ensures !WaitsAtMost(vr, nice, bound)
  {
    forall j: nat | i <= j < i + bound ensures Popped(vr, nice, j) != q {
      RidesOn(vr, nice, i, After(vr, nice, i), j - i);
    }
    assert !PoppedWithin(vr, nice, q, i, bound);
  }

  lemma LowerIsFirst(vr: map<nat, nat>, p: nat, v: nat)
    requires First(vr, p) && v <= vr[p]
    ensures First(vr[p := v], p)
  {
  }

  lemma FallsOnce(vr: map<nat, nat>, nice: map<nat, int>, p: nat, n: nat, v: nat)
    requires First(vr, p) && 0 < v <= vr[p] && After(vr, nice, n) == vr[p := v]
    requires Niced(After(vr, nice, n), nice) && nice[p] == -20
    ensures After(vr, nice, n + 1) == vr[p := v - 1]
  {
    LowerIsFirst(vr, p, v);
    AfterNext(vr, nice, n, vr[p := v], p);
    assert vr[p := v][p := v - 1] == vr[p := v - 1];
  }

  /** At nice -20 the first task falls further behind the others with every pop, down to 0. */
  lemma {:induction false} Falls(vr: map<nat, nat>, nice: map<nat, int>, p: nat, n: nat, v: nat)
    requires Niced(vr, nice) && First(vr, p) && nice[p] == -20 && n + v == vr[p]
    ensures After(vr, nice, n) == vr[p := v]
    decreases n
  {
    if n == 0 {
      assert vr[p := v] == vr;
    } else {
      Falls(vr, nice, p, n - 1, v + 1);
      AfterKeeps(vr, nice, n - 1);
      FallsOnce(vr, nice, p, n - 1, v + 1);
    }
  }

  /** And then to the far end. */
  lemma Wraps(vr: map<nat, nat>, nice: map<nat, int>, p: nat)
    requires Niced(vr, nice) && First(vr, p) && nice[p] == -20
    ensures After(vr, nice, vr[p] + 1) == vr[p := USIZE - 1]
  {
    Falls(vr, nice, p, vr[p], 0);
    AfterKeeps(vr, nice, vr[p]);
    LowerIsFirst(vr, p, 0);
    AfterNext(vr, nice, vr[p], vr[p := 0], p);
    assert vr[p := 0][p := USIZE - 1] == vr[p := USIZE - 1];
  }

  lemma NotClose(vr: map<nat, nat>, p: nat, q: nat)
    requires p in vr && q in vr && vr[p] > vr[q] + SPREAD
    ensures !Close(vr)
  {
  }

  /** Either way the spread is lost within 39 pops. */
  lemma WrapsAway(vr: map<nat, nat>, nice: map<nat, int>, p: nat) returns (k: nat)
    requires Niced(vr, nice) && First(vr, p) && nice[p] == -20 && Close(vr) && |vr| >= 2
    ensures k <= SPREAD + 1 && !Close(After(vr, nice, k))
  {
    var q := Another(vr, p);
    if vr[p] > SPREAD {
      k := SPREAD + 1;
      Falls(vr, nice, p, k, vr[p] - k);
      NotClose(vr[p := vr[p] - k], q, p);
    } else {
      k := vr[p] + 1;
      Wraps(vr, nice, p);
      NotClose(vr[p := USIZE - 1], p, q);
    }
  }

  lemma WrapLoses(vr: map<nat, nat>, nice: map<nat, int>, c: nat, i: nat)
    requires Niced(vr, nice) && |vr| >= 2 && CheapAt(vr, nice, c, i) && nice[c] == -20
    ensures !StaysClose(vr, nice)
  {
    var now := After(vr, nice, i);
    AfterKeeps(vr, nice, i);
    SameSize(vr, now);
    assert CloseAt(vr, nice, i);
    var k := WrapsAway(now, nice, c);
    AfterSplit(vr, nice, i, k);
    assert !CloseAt(vr, nice, i + k);
  }

  /** On its way down from `now[c]` the task is popped every time. */
  lemma FallsOn(vr: map<nat, nat>, nice: map<nat, int>, i: nat, now: map<nat, nat>, c: nat, n: nat)
    requires now == After(vr, nice, i) && Niced(now, nice) && First(now, c) && nice[c] == -20 && n <= now[c]
    ensures Popped(vr, nice, i + n) == c
  {
    AfterSplit(vr, nice, i, n);
    Falls(now, nice, c, n, now[c] - n);
    LowerIsFirst(now, c, now[c] - n);
    NextIs(now[c := now[c] - n], c);
  }

  /** So all others wait as long. */
  lemma Hogs(vr: map<nat, nat>, nice: map<nat, int>, i: nat, now: map<nat, nat>, c: nat, bound: nat)
    requires Niced(vr, nice) && |vr| >= 2 && c in vr && now == After(vr, nice, i)
    requires Niced(now, nice) && First(now, c) && nice[c] == -20 && bound <= now[c]
    ensures !WaitsAtMost(vr, nice, bound)
  {
    var q := Another(vr, c);
    forall j: nat | i <= j < i + bound ensures Popped(vr, nice, j) != q {
      FallsOn(vr, nice, i, now, c, j - i);
    }
    assert !PoppedWithin(vr, nice, q, i, bound);
  }

  /** A task keeps its vruntime until it is popped. */
  lemma {:induction false} NextPop(now: map<nat, nat>, nice: map<nat, int>, c: nat, n: nat) returns (m: nat)
    requires Niced(now, nice) && c in now && Popped(now, nice, n) == c
    ensures m <= n && Popped(now, nice, m) == c
    ensures c in After(now, nice, m) && After(now, nice, m)[c] == now[c]
    decreases n
  {
    var pid := Next(now);
    if pid == c {
      m := 0;
      assert After(now, nice, 0) == now;
    } else {
      assert Popped(now, nice, 0) == pid;
      var later := now[pid := Advance(now[pid], nice[pid])];
      CheapLater(now, nice, pid, later, n - 1);
      m := NextPop(later, nice, c, n - 1);
      CheapLater(now, nice, pid, later, m);
      m := 1 + m;
    }
  }

  lemma FarPop(vr: map<nat, nat>, nice: map<nat, int>, c: nat, k: nat, now: map<nat, nat>, n: nat, bound: nat)
    requires Niced(vr, nice) && |vr| >= 2 && c in vr && nice[c] == -20 && bound < USIZE
    requires now == After(vr, nice, k) && c in now && now[c] == USIZE - 1 && Popped(vr, nice, k + n) == c
    ensures !WaitsAtMost(vr, nice, bound)
  {
    AfterKeeps(vr, nice, k);
    AfterSplit(vr, nice, k, n);
    var m := NextPop(now, nice, c, n);
    AfterSplit(vr, nice, k, m);
    AfterKeeps(vr, nice, k + m);
    Hogs(vr, nice, k + m, After(vr, nice, k + m), c, bound);
  }

  /** At the far end of the 64-bit range it is not popped soon, or else it is popped for all too long. */
  lemma FarAway(vr: map<nat, nat>, nice: map<nat, int>, c: nat, k: nat, bound: nat)
    requires Niced(vr, nice) && |vr| >= 2 && c in vr && nice[c] == -20 && bound < USIZE
    requires c in After(vr, nice, k) && After(vr, nice, k)[c] == USIZE - 1
    ensures !WaitsAtMost(vr, nice, bound)
  {
    if WaitsAtMost(vr, nice, bound) {
      assert PoppedWithin(vr, nice, c, k, bound);
      var j: nat :| k <= j < k + bound && Popped(vr, nice, j) == c;
      FarPop(vr, nice, c, k, After(vr, nice, k), j - k, bound);
    }
  }

  lemma WrapsOn(vr: map<nat, nat>, nice: map<nat, int>, i: nat, now: map<nat, nat>, c: nat, n: nat)
    requires now == After(vr, nice, i) && Niced(now, nice) && First(now, c) && nice[c] == -20 && n == now[c] + 1
    ensures After(vr, nice, i + n) == now[c := USIZE - 1]
  {
    AfterSplit(vr, nice, i, n);
    Wraps(now, nice, c);
  }

  /** At nice -20 no bound below 2^64 holds. */
  lemma WrapBlocks(vr: map<nat, nat>, nice: map<nat, int>, c: nat, i: nat, bound: nat)
    requires Niced(vr, nice) && |vr| >= 2 && CheapAt(vr, nice, c, i) && nice[c] == -20 && bound < USIZE
    ensures !WaitsAtMost(vr, nice, bound)
  {
    var now := After(vr, nice, i);
    AfterKeeps(vr, nice, i);
    if bound <= now[c] {
      Hogs(vr, nice, i, now, c, bound);
    } else {
      var n := now[c] + 1;
      WrapsOn(vr, nice, i, now, c, n);
      FarAway(vr, nice, c, i + n, bound);
    }
  }

  // ------------------------------------------------------------ exact conditions

  /** At -19 the least cheap task ends all waiting bounds, and at -20 all below 2^64. */
  lemma CheapWaits(vr: map<nat, nat>, nice: map<nat, int>, c: nat, bound: nat)
    requires Niced(vr, nice) && Close(vr) && |vr| >= 2 && LeastCheap(vr, nice, c)
    ensures nice[c] == -19 ==> !WaitsBounded(vr, nice)
    ensures bound < USIZE ==> !WaitsAtMost(vr, nice, bound)
  {
    var i := FirstCheap(vr, nice, c);
    if nice[c] == -19 {
      FreeRiderBlocks(vr, nice, c, i);
    } else if bound < USIZE {
      WrapBlocks(vr, nice, c, i, bound);
    }
  }

  /** Whatever the nice values are: the bound on waiting holds if and only if all are from -18 on. */
  lemma WaitingExact(vr: map<nat, nat>, nice: map<nat, int>)
    requires Niced(vr, nice) && Close(vr) && |vr| >= 2 && (SPREAD + 1) * (|vr| - 1) + 1 < USIZE
    ensures WaitsAtMost(vr, nice, (SPREAD + 1) * (|vr| - 1) + 1) <==> AllPriced(vr, nice)
  {
    if t :| t in vr && !NiceOk(nice[t]) {
      var c := SomeLeastCheap(vr, nice, t);
      CheapWaits(vr, nice, c, (SPREAD + 1) * (|vr| - 1) + 1);
    } else {
      PricedWaits(vr, nice);
    }
  }

  /** And the spread is kept if and only if the least task at -19 or -20, if there is one, is at -19. */
  lemma SpreadExact(vr: map<nat, nat>, nice: map<nat, int>)
    requires Niced(vr, nice) && Close(vr) && |vr| >= 2
    ensures StaysClose(vr, nice) <==> forall c :: LeastCheap(vr, nice, c) ==> nice[c] == -19
  {
    if t :| t in vr && !NiceOk(nice[t]) {
      var c := SomeLeastCheap(vr, nice, t);
      var i := FirstCheap(vr, nice, c);
      if nice[c] == -19 {
        FreeRiderCloses(vr, nice, c, i);
      } else {
        WrapLoses(vr, nice, c, i);
      }
    } else {
      forall k: nat ensures CloseAt(vr, nice, k) { PricedClose(vr, nice, k); }
    }
  }

  /** Some bound and the spread together need nice values from -18 on. */
  lemma FairExact(vr: map<nat, nat>, nice: map<nat, int>)
    requires Niced(vr, nice) && Close(vr) && |vr| >= 2
    ensures WaitsBounded(vr, nice) && StaysClose(vr, nice) <==> AllPriced(vr, nice)
  {
    SpreadExact(vr, nice);
    if t :| t in vr && !NiceOk(nice[t]) {
      var c := SomeLeastCheap(vr, nice, t);
      CheapWaits(vr, nice, c, 0);
    } else {
      PricedWaits(vr, nice);
    }
  }

  /** Two new tasks, the first at nice -20: one pop sends it to the end of the 64-bit range. */
  lemma WrapWitness(vr: map<nat, nat>, nice: map<nat, int>)
    requires vr == map[0 := 0, 1 := 0] && nice == map[0 := -20, 1 := 0]
    ensures Niced(vr, nice) && Close(vr) && After(vr, nice, 1) == map[0 := USIZE - 1, 1 := 0]
    ensures !Close(After(vr, nice, 1))
  {
    assert First(vr, 0) && After(vr, nice, 0) == vr;
    AfterNext(vr, nice, 0, vr, 0);
    NotClose(vr[0 := USIZE - 1], 0, 1);
  }
}
