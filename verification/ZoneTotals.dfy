/** Page totals of free lists, and the steps of the loops that change them. */
module ZoneTotals {
  import opened Dyadic
  import opened ZoneLists
  import opened ZoneRuns

  lemma FirstIs(l: Lists, k: nat, j: nat)
    requires k <= j < MAX_POW && l[j] != [] && forall i :: k <= i < j ==> l[i] == []
    ensures FirstFrom(l, k) == j
  {
  }

  lemma NoneFrom(l: Lists, k: nat)
    requires forall i :: k <= i < MAX_POW ==> l[i] == []
    ensures Alloc(l, k).NoBlock?
  {
  }

  lemma MergeUnfold(l: Lists, rel: nat, final: nat, pow: nat)
    requires final <= pow < MAX_POW && l[pow] != []
    ensures Partner(rel, pow) !in l[pow] ==> WrittenMerge(l, rel, final, pow) == WrittenMerge(l, rel, final, pow + 1)
    ensures Partner(rel, pow) in l[pow] ==>
      var l' := l[pow := Remove(l[pow], Partner(rel, pow))];
      var rel' := if Multiple(rel, pow + 1) then rel else rel - Pow2(final);
      rel' >= 0 && WrittenMerge(l, rel, final, pow) == WrittenMerge(l', rel', final + 1, pow + 1)
  {
    Pow2Monotone(final, pow);
  }

  lemma OrderOf(pow: nat, k: nat)
    ensures Pow2(pow) == Pow2(k) <==> pow == k
    ensures Pow2(pow) > Pow2(k) <==> pow > k
  {
    if pow < k { Pow2Monotone(pow, k); } else { Pow2Monotone(k, pow); }
  }

  /** How many nodes the pool must hold for a split that starts at the first order with a block. */
  predicate PoolSuffices(l: Lists, k: nat, nodes: nat) {
    var j := FirstFrom(l, k);
    j >= MAX_POW || j - k <= nodes + 1
  }

  /** The pages that all zones' lists claim to be free. */
  ghost function FreeTotal(views: seq<Lists>): nat {
    if views == [] then 0 else FreeTotal(views[..|views| - 1]) + Total(views[|views| - 1])
  }

  /** The nodes that carving takes: one for each one among the `k` low binary digits. */
  function CarveCount(rem: nat, k: nat): nat {
    if k == 0 then 0
    else if Pow2(k - 1) <= rem then 1 + CarveCount(rem - Pow2(k - 1), k - 1)
    else CarveCount(rem, k - 1)
  }

  function NewCount(pages: nat): nat {
    CarveCount(pages, |Empty()|)
  }

  lemma {:induction false} CarveTotal(l: Lists, cur: nat, rem: nat, k: nat)
    requires rem < Pow2(k) && k <= MAX_POW
    ensures Total(Carve(l, cur, rem, k)) == Total(l) + rem
    decreases k
  {
    if k > 0 {
      if Pow2(k - 1) <= rem {
        TotalAddFront(l, k - 1, cur);
        CarveTotal(AddFront(l, k - 1, cur), cur + Pow2(k - 1), rem - Pow2(k - 1), k - 1);
      } else {
        CarveTotal(l, cur, rem, k - 1);
      }
    }
  }

  lemma BelowMax(pages: nat)
    requires pages < MAX_PAGES
    ensures pages < Pow2(|Empty()|)
  {
    MaxPages();
  }

  lemma NewTotal(pages: nat)
    requires pages < MAX_PAGES
    ensures Total(NewLists(pages)) == pages
  {
    var empty := Empty();
    BelowMax(pages);
    CarveTotal(empty, 0, pages, |empty|);
    AllEmptyTotal(empty, |empty|);
  }

  /** The next block of a carving is that of the highest one digit. */
  lemma {:induction false} CarveNext(l: Lists, cur: nat, rem: nat, k: nat, t: nat)
    requires k < t <= MAX_POW && Pow2(k) <= rem < Pow2(k + 1)
    ensures Carve(l, cur, rem, t) == Carve(AddFront(l, k, cur), cur + Pow2(k), rem - Pow2(k), k)
    ensures CarveCount(rem, t) == 1 + CarveCount(rem - Pow2(k), k)
    decreases t
  {
    if t > k + 1 {
      Pow2Monotone(k + 1, t - 1);
      CarveNext(l, cur, rem, k, t - 1);
    }
  }

  lemma TopDigit(rem: nat, k: nat, t: nat)
    requires Pow2(k) <= rem < Pow2(t)
    ensures k < t
  {
    if k >= t { Pow2Monotone(t, k); assert false; }
  }

  /** Carving the `left` pages from `current` on takes at most `nodes` nodes and leads to `goal`. */
  ghost predicate Leads(l: Lists, current: nat, left: nat, t: nat, goal: Lists, nodes: nat) {
    t <= MAX_POW && left < Pow2(t) && CarveCount(left, t) <= nodes && Carve(l, current, left, t) == goal
  }

  lemma LeadsNext(l: Lists, current: nat, left: nat, t: nat, goal: Lists, nodes: nat, k: nat)
    requires Leads(l, current, left, t, goal, nodes) && Pow2(k) <= left < Pow2(k + 1)
    ensures k < t && k < MAX_POW && nodes > 0
    ensures Leads(AddFront(l, k, current), current + Pow2(k), left - Pow2(k), k, goal, nodes - 1)
  {
    TopDigit(left, k, t);
    CarveNext(l, current, left, k, t);
  }

  lemma LeadsStart(pages: nat, nodes: nat)
    requires pages < MAX_PAGES && NewCount(pages) <= nodes
    ensures Leads(Empty(), 0, pages, |Empty()|, NewLists(pages), nodes)
  {
    BelowMax(pages);
  }

  lemma LeadsEnd(l: Lists, current: nat, t: nat, goal: Lists, nodes: nat)
    requires Leads(l, current, 0, t, goal, nodes)
    ensures l == goal
  {
    CarveDone(l, current, t);
  }

  lemma {:induction false} CarveDone(l: Lists, cur: nat, k: nat)
    requires k <= MAX_POW
    ensures Carve(l, cur, 0, k) == l
    decreases k
  {
    if k > 0 { CarveDone(l, cur, k - 1); }
  }

  lemma {:induction false} SplitTotal(l: Lists, left: nat, i: nat, k: nat)
    requires k <= i <= MAX_POW
    ensures Total(SplitLists(l, left, i, k)) + Pow2(k) == Total(l) + Pow2(i)
    decreases i
  {
    if i > k {
      TotalAddFront(l, i - 1, left + Pow2(i - 1));
      SplitTotal(AddFront(l, i - 1, left + Pow2(i - 1)), left, i - 1, k);
    }
  }

  /** An allocation takes exactly the pages it hands out off the lists. */
  lemma AllocTotal(l: Lists, k: nat)
    requires Alloc(l, k).Allocated?
    ensures Total(Alloc(l, k).lists) + Pow2(k) == Total(l)
  {
    var j := FirstFrom(l, k);
    TotalRemove(l, j, l[j][0]);
    SplitTotal(l[j := l[j][1..]], l[j][0], j, k);
  }

  lemma {:induction false} FreeTotalUpdate(views: seq<Lists>, z: nat, l: Lists)
    requires z < |views|
    ensures FreeTotal(views[z := l]) + Total(views[z]) == FreeTotal(views) + Total(l)
    decreases |views|
  {
    var n := |views| - 1;
    if z == n {
      assert views[z := l][..n] == views[..n];
    } else {
      assert views[z := l][..n] == views[..n][z := l];
      FreeTotalUpdate(views[..n], z, l);
    }
  }

  /** A merge that passes a list without the partner never reaches the last order. */
  lemma {:induction false} MissedOrder(l: Lists, rel: nat, final: nat, pow: nat)
    requires final < pow <= MAX_POW
    ensures WrittenMerge(l, rel, final, pow).order < MAX_POW
    decreases MAX_POW - pow
  {
    if pow == MAX_POW || l[pow] == [] {
    } else if Partner(rel, pow) in l[pow] {
      Pow2Monotone(final, pow);
      var l' := l[pow := Remove(l[pow], Partner(rel, pow))];
      MissedOrder(l', if Multiple(rel, pow + 1) then rel else rel - Pow2(final), final + 1, pow + 1);
    } else {
      MissedOrder(l, rel, final, pow + 1);
    }
  }

  lemma {:induction false} MergeOrder(l: Lists, rel: nat, k: nat)
    requires k <= MAX_POW
    ensures WrittenMerge(l, rel, k, k).order < MAX_POW || WrittenMerge(l, rel, k, k) == StoppingMerge(l, rel, k)
    decreases MAX_POW - k
  {
    if k == MAX_POW || l[k] == [] {
    } else if Partner(rel, k) in l[k] {
      var l' := l[k := Remove(l[k], Partner(rel, k))];
      MergeOrder(l', if Multiple(rel, k + 1) then rel else rel - Pow2(k), k + 1);
    } else {
      MissedOrder(l, rel, k, k + 1);
    }
  }

  /** The first zone that has a block of order `k` or larger, or the number of zones. */
  function FirstZone(views: seq<Lists>, k: nat): (z: nat)
    ensures z <= |views| && (z < |views| ==> Alloc(views[z], k).Allocated?)
    ensures forall w :: 0 <= w < z ==> Alloc(views[w], k).NoBlock?
  {
    if views == [] then 0
    else if Alloc(views[0], k).Allocated? then 0
    else 1 + FirstZone(views[1..], k)
  }
}
