/** Minimum-vruntime scheduling: how far tasks can drift apart and how long one can be passed over. */
module Fairness {

  const NICE_MIN: int := -20
  const NICE_MAX: int := 19
  const USIZE: nat := 0x1_0000_0000_0000_0000

  /** `(nice + NICE_MAX) as usize`. */
  function Charge(nice: int): nat
    requires NICE_MIN <= nice <= NICE_MAX
  {
    if nice + NICE_MAX >= 0 then nice + NICE_MAX else nice + NICE_MAX + USIZE
  }

  /** `vruntime += (nice + NICE_MAX) as usize`; a vruntime of 64 bits wraps around at nice -20. */
  function Advance(v: nat, nice: int): nat
    requires NICE_MIN <= nice <= NICE_MAX
  {
    if nice + NICE_MAX >= 0 then v + Charge(nice) else if v == 0 then USIZE - 1 else v - 1
  }

  lemma AdvanceMeans(v: nat, nice: int)
    requires NICE_MIN <= nice <= NICE_MAX && v + SPREAD < USIZE
    ensures Advance(v, nice) == (v + nice + 19) % 0x1_0000_0000_0000_0000 == (v + Charge(nice)) % USIZE
  {
  }

  predicate NiceOk(nice: int) {
    -18 <= nice <= NICE_MAX
  }

  /** The spread that every run keeps, and the largest charge. */
  const SPREAD: nat := 38

  /** Nice values from -18 on are charged at least 1 and at most `SPREAD`; -19 is free and -20 wraps around. */
  lemma ChargeRange(nice: int)
    requires NICE_MIN <= nice <= NICE_MAX
    ensures NiceOk(nice) <==> 1 <= Charge(nice) <= 38
    ensures SPREAD == Charge(19) == 38
  {
  }

  /** The order of the `(vruntime, pid)` set. */
  predicate Before(a: (nat, nat), b: (nat, nat)) {
    a.0 < b.0 || (a.0 == b.0 && a.1 < b.1)
  }

  ghost function Entries(vr: map<nat, nat>): set<(nat, nat)> {
    set pid | pid in vr :: (vr[pid], pid)
  }

  /** `pid` is the task that `pop_first` yields. */
  ghost predicate First(vr: map<nat, nat>, pid: nat) {
    pid in vr && forall q :: q in vr && q != pid ==> Before((vr[pid], pid), (vr[q], q))
  }

  /** The least vruntime goes first, and among equals the least pid. */
  lemma FirstMeans(vr: map<nat, nat>, pid: nat)
    ensures First(vr, pid) <==>
      pid in vr && forall q :: q in vr ==> vr[pid] < vr[q] || (vr[pid] == vr[q] && pid <= q)
  {
  }

  lemma {:induction false} FirstExists(vr: map<nat, nat>, keys: set<nat>) returns (pid: nat)
    requires keys != {} && keys <= vr.Keys
    ensures pid in keys && forall q :: q in keys && q != pid ==> Before((vr[pid], pid), (vr[q], q))
    decreases keys
  {
    var x :| x in keys;
    pid := x;
    if keys != {x} {
      assert keys - {x} != {};
      var y := FirstExists(vr, keys - {x});
      pid := if Before((vr[y], y), (vr[x], x)) then y else x;
      forall q | q in keys && q != pid ensures Before((vr[pid], pid), (vr[q], q)) {
        assert q == x || q in keys - {x};
      }
    }
  }

  ghost predicate Close(vr: map<nat, nat>) {
    forall p, q :: p in vr && q in vr ==> vr[p] <= vr[q] + SPREAD
  }

  /** Charging the first task keeps all tasks close. */
  lemma ChargeKeepsClose(vr: map<nat, nat>, pid: nat, charge: nat)
    requires First(vr, pid) && Close(vr) && charge <= SPREAD
    ensures Close(vr[pid := vr[pid] + charge])
  {
  }

  /** A new task starts at the least vruntime. */
  lemma JoinKeepsClose(vr: map<nat, nat>, first: nat, pid: nat)
    requires First(vr, first) && Close(vr) && pid !in vr
    ensures Close(vr[pid := vr[first]])
  {
  }

  lemma RemoveKeepsClose(vr: map<nat, nat>, pid: nat)
    requires Close(vr)
    ensures Close(vr - {pid})
  {
  }

  // ----------------------------------------------------------------- waiting

  /** The turns that a task at vruntime `b` can take, at a charge of 1, before one at `a` comes first. */
  function Lead(a: nat, b: nat): nat {
    if b <= a then a - b + 1 else 0
  }

  /** How often the tasks in `s` can still go before task `t`, if each turn costs them at least 1. */
  ghost function Turns(vr: map<nat, nat>, t: nat, s: set<nat>): nat
    requires t in vr && s <= vr.Keys
  {
    if s == {} then 0
    else
      var u :| u in s;
      Lead(vr[t], vr[u]) + Turns(vr, t, s - {u})
  }

  lemma {:induction false} TurnsRemove(vr: map<nat, nat>, t: nat, s: set<nat>, u: nat)
    requires t in vr && s <= vr.Keys && u in s
    ensures Turns(vr, t, s) == Lead(vr[t], vr[u]) + Turns(vr, t, s - {u})
    decreases s
  {
    var w :| w in s && Turns(vr, t, s) == Lead(vr[t], vr[w]) + Turns(vr, t, s - {w});
    if w != u {
      TurnsRemove(vr, t, s - {w}, u);
      TurnsRemove(vr, t, s - {u}, w);
      assert s - {w} - {u} == s - {u} - {w};
    }
  }

  lemma {:induction false} TurnsSame(vr: map<nat, nat>, vr': map<nat, nat>, t: nat, s: set<nat>)
    requires t in vr && t in vr' && s <= vr.Keys && s <= vr'.Keys && vr'[t] == vr[t]
    requires forall u :: u in s ==> vr'[u] == vr[u]
    ensures Turns(vr', t, s) == Turns(vr, t, s)
    decreases s
  {
    if s != {} {
      var u :| u in s;
      TurnsRemove(vr, t, s, u);
      TurnsRemove(vr', t, s, u);
      TurnsSame(vr, vr', t, s - {u});
    }
  }

  lemma {:induction false} TurnsBound(vr: map<nat, nat>, t: nat, s: set<nat>)
    requires t in vr && s <= vr.Keys && Close(vr)
    ensures Turns(vr, t, s) <= (SPREAD + 1) * |s|
    decreases s
  {
    if s != {} {
      var u :| u in s;
      TurnsRemove(vr, t, s, u);
      TurnsBound(vr, t, s - {u});
      assert |s| == |s - {u}| + 1;
    }
  }

  /** Every turn of another task, charged at least 1, uses up one of its turns before `t`. */
  lemma TurnUsed(vr: map<nat, nat>, t: nat, pid: nat, charge: nat)
    requires t in vr && First(vr, pid) && pid != t && charge >= 1
    ensures Turns(vr[pid := vr[pid] + charge], t, vr.Keys - {t}) < Turns(vr, t, vr.Keys - {t})
  {
    var vr', s := vr[pid := vr[pid] + charge], vr.Keys - {t};
    TurnsRemove(vr, t, s, pid);
    TurnsRemove(vr', t, s, pid);
    TurnsSame(vr, vr', t, s - {pid});
  }
}
