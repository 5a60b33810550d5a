/** Runs of the scheduler's `pop_first`, and how long a task can be passed over in one. */
module Pops {
  import opened Fairness

  // ----------------------------------------------------- the set of entries

  lemma EntriesAdd(vr: map<nat, nat>, pid: nat, v: nat)
    requires pid !in vr
    ensures Entries(vr[pid := v]) == Entries(vr) + {(v, pid)}
  {
    var vr' := vr[pid := v];
    forall e | e in Entries(vr) + {(v, pid)} ensures e in Entries(vr') { assert e.1 in vr' && vr'[e.1] == e.0; }
    forall e | e in Entries(vr') ensures e in Entries(vr) + {(v, pid)} { assert e.1 == pid || e.1 in vr; }
  }

  lemma EntriesRemove(vr: map<nat, nat>, pid: nat)
    ensures Entries(vr - {pid}) == set e | e in Entries(vr) && e.1 != pid
  {
    var vr' := vr - {pid};
    forall e | e in Entries(vr) && e.1 != pid ensures e in Entries(vr') { assert e.1 in vr' && vr'[e.1] == e.0; }
    forall e | e in Entries(vr') ensures e in Entries(vr) && e.1 != pid { assert e.1 in vr && vr[e.1] == e.0; }
  }

  lemma EntriesUpdate(vr: map<nat, nat>, pid: nat, v: nat)
    requires pid in vr
    ensures Entries(vr[pid := v]) == Entries(vr) - {(vr[pid], pid)} + {(v, pid)}
  {
    EntriesRemove(vr, pid);
    EntriesAdd(vr - {pid}, pid, v);
    assert (vr - {pid})[pid := v] == vr[pid := v];
    assert Entries(vr) - {(vr[pid], pid)} == set e | e in Entries(vr) && e.1 != pid;
  }

  // ------------------------------------------------------------ runs of pops

  /** A run of `pop_first` calls: each popped task goes back charged. */
  ghost predicate Pops(vrs: seq<map<nat, nat>>, pids: seq<nat>, charges: seq<nat>) {
    && |vrs| == |pids| + 1 && |charges| == |pids|
    && forall i :: 0 <= i < |pids| ==> PopAt(vrs, pids, charges, i)
  }

  ghost predicate PopAt(vrs: seq<map<nat, nat>>, pids: seq<nat>, charges: seq<nat>, i: nat) {
    && i < |pids| && i < |charges| && i + 1 < |vrs|
    && First(vrs[i], pids[i])
    && vrs[i + 1] == vrs[i][pids[i] := vrs[i][pids[i]] + charges[i]]
  }

  /** Charges that nice values from -18 on give. */
  predicate Priced(charges: seq<nat>) {
    forall i :: 0 <= i < |charges| ==> 1 <= charges[i] <= SPREAD
  }

  predicate PassedOver(pids: seq<nat>, t: nat, n: nat)
    requires n <= |pids|
  {
    forall i :: 0 <= i < n ==> pids[i] != t
  }

  lemma PopStep(vr: map<nat, nat>, pid: nat, charge: nat, t: nat, vr': map<nat, nat>)
    requires First(vr, pid) && 1 <= charge <= SPREAD && vr' == vr[pid := vr[pid] + charge]
    requires Close(vr) && t in vr && t != pid
    ensures Close(vr') && vr'.Keys == vr.Keys && Turns(vr', t, vr'.Keys - {t}) < Turns(vr, t, vr.Keys - {t})
  {
    assert vr'.Keys == vr.Keys;
    ChargeKeepsClose(vr, pid, charge);
    TurnUsed(vr, t, pid, charge);
  }

  lemma {:induction false} PopsKeep(vrs: seq<map<nat, nat>>, pids: seq<nat>, charges: seq<nat>, t: nat, n: nat)
    requires Pops(vrs, pids, charges) && Priced(charges) && Close(vrs[0]) && t in vrs[0]
    requires n <= |pids| && PassedOver(pids, t, n)
    ensures Close(vrs[n]) && vrs[n].Keys == vrs[0].Keys
    ensures Turns(vrs[n], t, vrs[n].Keys - {t}) + n <= Turns(vrs[0], t, vrs[0].Keys - {t})
    decreases n
  {
    if n > 0 {
      PopsKeep(vrs, pids, charges, t, n - 1);
      assert PopAt(vrs, pids, charges, n - 1);
      PopStep(vrs[n - 1], pids[n - 1], charges[n - 1], t, vrs[n]);
    }
  }

  lemma TurnsTotal(vr: map<nat, nat>, t: nat)
    requires t in vr && Close(vr)
    ensures Turns(vr, t, vr.Keys - {t}) <= (SPREAD + 1) * (|vr| - 1)
  {
    TurnsBound(vr, t, vr.Keys - {t});
    assert |vr.Keys - {t}| == |vr| - 1;
  }

  /** Bounded waiting: with `n` tasks and none created, every task is popped within `39 * (n - 1) + 1` pops. */
  lemma BoundedWaiting(vrs: seq<map<nat, nat>>, pids: seq<nat>, charges: seq<nat>, t: nat)
    requires Pops(vrs, pids, charges) && Priced(charges) && Close(vrs[0]) && t in vrs[0]
    requires |pids| == (SPREAD + 1) * (|vrs[0]| - 1) + 1
    ensures t in pids
  {
    TurnsTotal(vrs[0], t);
    if t !in pids {
      PopsKeep(vrs, pids, charges, t, |pids|);
      assert false;
    }
  }

  /** The least entry is that of the first task. */
  lemma LeastEntry(vr: map<nat, nat>, e: (nat, nat))
    requires e in Entries(vr) && forall x :: x in Entries(vr) ==> x == e || Before(e, x)
    ensures e.1 in vr && vr[e.1] == e.0 && First(vr, e.1)
  {
    forall q | q in vr && q != e.1 ensures Before(e, (vr[q], q)) { assert (vr[q], q) in Entries(vr); }
  }

  lemma LeastExists(vr: map<nat, nat>) returns (e: (nat, nat))
    requires vr != map[]
    ensures e in Entries(vr) && forall x :: x in Entries(vr) ==> x == e || Before(e, x)
  {
    assert vr.Keys != {};
    var first := FirstExists(vr, vr.Keys);
    e := (vr[first], first);
  }
}
