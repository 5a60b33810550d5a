/** Tearing a tree of page tables down: the order in which `destroy_with_allocator` frees its pages. */
module PageDestroy {
  import opened Common
  import opened Radix
  import opened PageTables

  /** One round of the loop: move on past an empty slot, descend into a table, or free pages. */
  datatype Step<P> = Skip | Enter | Release(pages: seq<P>)

  ghost function Kids<P>(s: Shape<P>, p: seq<nat>, i: nat): seq<P>
    decreases |p|, PTES - i
  {
    if i >= PTES then []
    else (if p + [i] in s.at then [s.at[p + [i]]] else []) + Kids(s, p, i + 1)
  }

  /**
   * The rounds that finish the table at `p` from index `i` on.  A table of level 1 has its children
   * freed in one round and is itself left alone; any other table is freed after its last index.
   */
  ghost function Trace<P>(s: Shape<P>, height: nat, p: seq<nat>, i: nat): seq<Step<P>>
    decreases height - |p|, PTES - i
  {
    if |p| + 2 >= height then [Release(Kids(s, p, 0))]
    else if i >= PTES then [Release(if p in s.at then [s.at[p]] else [])]
    else if p + [i] in s.at then [Enter] + Trace(s, height, p + [i], 0) + Trace(s, height, p, i + 1)
    else [Skip] + Trace(s, height, p, i + 1)
  }

  /** The rounds that finish all tables above `p`. */
  ghost function Above<P>(s: Shape<P>, height: nat, p: seq<nat>): seq<Step<P>>
    decreases |p|
  {
    if p == [] then []
    else Trace(s, height, p[..|p| - 1], p[|p| - 1] + 1) + Above(s, height, p[..|p| - 1])
  }

  ghost function Pages<P>(r: seq<Step<P>>): seq<P> {
    if r == [] then [] else (if r[0].Release? then r[0].pages else []) + Pages(r[1..])
  }

  lemma {:induction false} PagesConcat<P>(a: seq<Step<P>>, b: seq<Step<P>>)
    ensures Pages(a + b) == Pages(a) + Pages(b)
  {
    if a == [] {
      assert a + b == b;
    } else {
      assert (a + b)[1..] == a[1..] + b;
      PagesConcat(a[1..], b);
    }
  }

  lemma NoDupConcat<P>(a: seq<P>, b: seq<P>)
    requires NoDup(a) && NoDup(b) && forall x :: x in a ==> x !in b
    ensures NoDup(a + b)
  {
    forall i, j | 0 <= i < j < |a + b| ensures (a + b)[i] != (a + b)[j] {
      if i < |a| <= j { assert (a + b)[i] in a && (a + b)[j] in b; }
    }
  }

  /** Tables that finishing `p` from index `i` frees: those on paths through `p`, but for level 1. */
  ghost predicate Due(height: nat, q: seq<nat>, p: seq<nat>, i: nat) {
    && p <= q && |q| + 2 != height
    && (|p| + 2 >= height ==> |q| > |p|)
    && (|p| + 2 < height ==> |q| == |p| || q[|p|] >= i)
  }

  ghost predicate WellShaped<P>(s: Shape<P>, height: nat) {
    && (forall p {:trigger p in s.at} :: p in s.at ==> |p| < height && s.at[p] in s.paths && s.paths[s.at[p]] == p)
    && (forall p {:trigger p in s.at} :: p in s.at ==> forall k :: 0 <= k < |p| ==> p[..k] in s.at && p[k] < PTES)
    && (forall x {:trigger s.paths[x]} :: x in s.paths ==> s.paths[x] in s.at && s.at[s.paths[x]] == x)
  }

  lemma {:induction false} Prefixes<P, E>(t: Tables<P, E>, s: Shape<P>, p: seq<nat>, k: nat)
    requires Tree(t, s) && p in s.at && k < |p|
    ensures p[..k] in s.at && p[k] < PTES
    decreases |p|
  {
    assert NodeOk(t, s, p);
    var q := p[..|p| - 1];
    if k < |q| {
      Prefixes(t, s, q, k);
      assert q[..k] == p[..k] && q[k] == p[k];
    }
  }

  lemma TreeWellShaped<P, E>(t: Tables<P, E>, s: Shape<P>)
    requires Tree(t, s)
    ensures WellShaped(s, t.height)
  {
    forall p | p in s.at ensures |p| < t.height && s.at[p] in s.paths && s.paths[s.at[p]] == p {
      assert NodeOk(t, s, p);
    }
    forall p, k | p in s.at && 0 <= k < |p| ensures p[..k] in s.at && p[k] < PTES {
      Prefixes(t, s, p, k);
    }
  }

  ghost predicate Frees<P>(s: Shape<P>, height: nat, x: P, p: seq<nat>, i: nat) {
    x in s.paths && Due(height, s.paths[x], p, i)
  }

  lemma {:induction false} KidsExact<P>(s: Shape<P>, height: nat, p: seq<nat>, i: nat)
    requires WellShaped(s, height) && |p| + 2 == height && i <= PTES
    ensures forall x :: x in Kids(s, p, i) <==>
      x in s.paths && |s.paths[x]| == |p| + 1 && p <= s.paths[x] && s.paths[x][|p|] >= i
    ensures NoDup(Kids(s, p, i))
    decreases PTES - i
  {
    if i < PTES {
      KidsExact(s, height, p, i + 1);
      var q := p + [i];
      forall x | x in s.paths && |s.paths[x]| == |p| + 1 && p <= s.paths[x] && s.paths[x][|p|] == i
        ensures s.paths[x] == q
      {
      }
      if q in s.at {
        assert s.paths[s.at[q]] == q && p <= q;
        NoDupConcat([s.at[q]], Kids(s, p, i + 1));
      } else {
        assert [] + Kids(s, p, i + 1) == Kids(s, p, i + 1);
      }
    } else {
      forall x | x in s.paths && |s.paths[x]| == |p| + 1 ensures s.paths[x][|p|] < PTES {
        assert s.paths[x] in s.at;
      }
    }
  }

  lemma DueSplit(height: nat, q: seq<nat>, p: seq<nat>, i: nat)
    requires |p| + 2 < height && |q| < height
    ensures Due(height, q, p, i) <==>
      Due(height, q, p, i + 1) || (p <= q && |q| > |p| && q[|p|] == i && |q| + 2 != height)
    ensures (p <= q && |q| > |p| && q[|p|] == i && |q| + 2 != height) <==> Due(height, q, p + [i], 0)
    ensures !(Due(height, q, p, i + 1) && Due(height, q, p + [i], 0))
  {
    if p <= q && |q| > |p| && q[|p|] == i { assert q[..|p| + 1] == p + [i]; }
  }

  ghost predicate Exact<P(!new)>(s: Shape<P>, height: nat, pages: seq<P>, p: seq<nat>, i: nat) {
    NoDup(pages) && forall x {:trigger x in pages} {:trigger Frees(s, height, x, p, i)} :: x in pages <==>
      Frees(s, height, x, p, i)
  }

  lemma ExactLast<P(!new)>(s: Shape<P>, height: nat, p: seq<nat>)
    requires WellShaped(s, height) && p in s.at && |p| + 2 < height
    ensures Exact(s, height, [s.at[p]], p, PTES)
  {
    forall x ensures x in [s.at[p]] <==> Frees(s, height, x, p, PTES) {
      if x in s.paths {
        var y := s.paths[x];
        assert y in s.at;
        if |y| > |p| { assert y[..|p|] in s.at && y[|p|] < PTES; }
        if p <= y && |y| == |p| { assert y == p; }
      }
    }
  }

  lemma ExactChild<P(!new)>(s: Shape<P>, height: nat, p: seq<nat>, i: nat, sub: seq<P>, rest: seq<P>)
    requires WellShaped(s, height) && |p| + 2 < height
    requires Exact(s, height, sub, p + [i], 0) && Exact(s, height, rest, p, i + 1)
    ensures Exact(s, height, sub + rest, p, i)
  {
    forall x ensures x in sub + rest <==> Frees(s, height, x, p, i) {
      assert x in sub <==> Frees(s, height, x, p + [i], 0);
      assert x in rest <==> Frees(s, height, x, p, i + 1);
      if x in s.paths { assert s.paths[x] in s.at; DueSplit(height, s.paths[x], p, i); }
    }
    forall x | x in sub ensures x !in rest {
      assert Frees(s, height, x, p + [i], 0);
      assert s.paths[x] in s.at;
      DueSplit(height, s.paths[x], p, i);
    }
    NoDupConcat(sub, rest);
  }

  lemma ExactMissing<P(!new)>(s: Shape<P>, height: nat, p: seq<nat>, i: nat, rest: seq<P>)
    requires WellShaped(s, height) && |p| + 2 < height && p + [i] !in s.at && Exact(s, height, rest, p, i + 1)
    ensures Exact(s, height, rest, p, i)
  {
    forall x ensures x in rest <==> Frees(s, height, x, p, i) {
      assert x in rest <==> Frees(s, height, x, p, i + 1);
      if x in s.paths {
        var y := s.paths[x];
        assert y in s.at;
        DueSplit(height, y, p, i);
        if p <= y && |y| > |p| && y[|p|] == i { MissingChild(s, height, p, i, y); }
      }
    }
  }

  /** Finishing a table frees exactly the tables due, each of them once. */
  lemma {:induction false} TraceExact<P(!new)>(s: Shape<P>, height: nat, p: seq<nat>, i: nat)
    requires WellShaped(s, height) && p in s.at && |p| + 2 <= height && i <= PTES
    ensures Exact(s, height, Pages(Trace(s, height, p, i)), p, i)
    decreases height - |p|, PTES - i
  {
    var r := Trace(s, height, p, i);
    if |p| + 2 == height {
      KidsExact(s, height, p, 0);
      assert Pages(r) == Kids(s, p, 0);
    } else if i == PTES {
      assert Pages(r) == [s.at[p]];
      ExactLast(s, height, p);
    } else {
      TraceExact(s, height, p, i + 1);
      TraceUnfold(s, height, p, i);
      if p + [i] in s.at {
        TraceExact(s, height, p + [i], 0);
        ExactChild(s, height, p, i, Pages(Trace(s, height, p + [i], 0)), Pages(Trace(s, height, p, i + 1)));
      } else {
        ExactMissing(s, height, p, i, Pages(Trace(s, height, p, i + 1)));
      }
    }
  }

  lemma TraceUnfold<P>(s: Shape<P>, height: nat, p: seq<nat>, i: nat)
    requires |p| + 2 < height && i < PTES
    ensures var rest := Trace(s, height, p, i + 1);
            if p + [i] in s.at then
              var sub := Trace(s, height, p + [i], 0);
              Trace(s, height, p, i) == [Enter] + (sub + rest)
                && Pages(Trace(s, height, p, i)) == Pages(sub) + Pages(rest)
            else Trace(s, height, p, i) == [Skip] + rest && Pages(Trace(s, height, p, i)) == Pages(rest)
  {
    var rest := Trace(s, height, p, i + 1);
    if p + [i] in s.at {
      var sub := Trace(s, height, p + [i], 0);
      assert [Enter] + sub + rest == [Enter] + (sub + rest);
      PagesConcat([Enter], sub + rest);
      PagesConcat(sub, rest);
    } else {
      PagesConcat([Skip], rest);
    }
  }

  lemma MissingChild<P>(s: Shape<P>, height: nat, p: seq<nat>, i: nat, y: seq<nat>)
    requires WellShaped(s, height) && y in s.at && p <= y && |y| > |p| && y[|p|] == i
    ensures p + [i] in s.at
  {
    assert y[..|p| + 1] == p + [i];
    if |y| == |p| + 1 { assert y == p + [i]; }
  }

  // ------------------------------------------------------ where the loop is

  ghost function Rest<P>(s: Shape<P>, height: nat, p: seq<nat>, i: nat): seq<Step<P>> {
    Trace(s, height, p, i) + Above(s, height, p)
  }

  /** The loop has done `done`, stands at index `i` of the table at `p`, and nothing is lost or repeated. */
  ghost predicate Standing<P>(s: Shape<P>, height: nat, done: seq<Step<P>>, p: seq<nat>, i: nat) {
    p in s.at && |p| + 2 <= height && i <= PTES && done + Rest(s, height, p, i) == Trace(s, height, [], 0)
  }

  lemma StandingStart<P>(s: Shape<P>, height: nat)
    requires [] in s.at && height >= 3
    ensures Standing(s, height, [], [], 0)
  {
    var r := Rest(s, height, [], 0);
    assert r == Trace(s, height, [], 0);
    assert [] + r == r;
  }

  /** The table that the loop stands at has not been freed. */
  lemma StandingTable<P(!new)>(s: Shape<P>, height: nat, done: seq<Step<P>>, p: seq<nat>, i: nat)
    requires WellShaped(s, height) && [] in s.at && height >= 3 && Standing(s, height, done, p, i)
    ensures s.at[p] !in Pages(done)
  {
    TraceExact(s, height, [], 0);
    TraceExact(s, height, p, i);
    var r := Rest(s, height, p, i);
    PagesConcat(done, r);
    PagesConcat(Trace(s, height, p, i), Above(s, height, p));
    assert s.at[p] in s.paths && s.paths[s.at[p]] == p;
    if |p| + 2 < height {
      assert Frees(s, height, s.at[p], p, i);
      assert s.at[p] in Pages(r);
      OnlyOnce(Pages(done), Pages(r), s.at[p]);
    } else {
      assert !Frees(s, height, s.at[p], [], 0);
      assert s.at[p] !in Pages(done) + Pages(r);
    }
  }

  lemma OnlyOnce<P>(a: seq<P>, b: seq<P>, x: P)
    requires NoDup(a + b) && x in b
    ensures x !in a
  {
    var k :| 0 <= k < |b| && b[k] == x;
    forall j | 0 <= j < |a| ensures a[j] != x {
      assert (a + b)[j] == a[j] && (a + b)[|a| + k] == x;
    }
  }

  lemma Regroup<P>(done: seq<Step<P>>, x: Step<P>, rest: seq<Step<P>>, all: seq<Step<P>>)
    requires done + ([x] + rest) == all
    ensures done + [x] + rest == all
    ensures Pages(done + [x]) == Pages(done) + (if x.Release? then x.pages else [])
  {
    PagesConcat(done, [x]);
    assert done + ([x] + rest) == done + [x] + rest;
    assert Pages([x]) == if x.Release? then x.pages else [];
  }

  lemma RestSkip<P>(s: Shape<P>, height: nat, p: seq<nat>, i: nat)
    requires |p| + 2 < height && i < PTES && p + [i] !in s.at
    ensures Rest(s, height, p, i) == [Skip] + Rest(s, height, p, i + 1)
  {
    TraceUnfold(s, height, p, i);
  }

  lemma RestEnter<P>(s: Shape<P>, height: nat, p: seq<nat>, i: nat)
    requires |p| + 2 < height && i < PTES && p + [i] in s.at
    ensures Rest(s, height, p, i) == [Enter] + Rest(s, height, p + [i], 0)
  {
    TraceUnfold(s, height, p, i);
    AboveChild(s, height, p, i);
    Reassociate([Enter], Trace(s, height, p + [i], 0), Trace(s, height, p, i + 1), Above(s, height, p));
  }

  lemma AboveChild<P>(s: Shape<P>, height: nat, p: seq<nat>, i: nat)
    ensures Above(s, height, p + [i]) == Trace(s, height, p, i + 1) + Above(s, height, p)
  {
    var q := p + [i];
    assert q[..|q| - 1] == p && q[|q| - 1] == i;
  }

  lemma Reassociate<P>(a: seq<P>, b: seq<P>, c: seq<P>, d: seq<P>)
    ensures a + (b + c) + d == a + (b + (c + d))
  {
  }

  lemma StepSkip<P>(s: Shape<P>, height: nat, done: seq<Step<P>>, p: seq<nat>, i: nat)
    requires Standing(s, height, done, p, i) && |p| + 2 < height && i < PTES && p + [i] !in s.at
    ensures Standing(s, height, done + [Skip], p, i + 1) && Pages(done + [Skip]) == Pages(done)
    ensures |Rest(s, height, p, i + 1)| < |Rest(s, height, p, i)|
  {
    RestSkip(s, height, p, i);
    Regroup(done, Skip, Rest(s, height, p, i + 1), Trace(s, height, [], 0));
  }

  lemma StepEnter<P>(s: Shape<P>, height: nat, done: seq<Step<P>>, p: seq<nat>, i: nat)
    requires Standing(s, height, done, p, i) && |p| + 2 < height && i < PTES && p + [i] in s.at
    ensures Standing(s, height, done + [Enter], p + [i], 0) && Pages(done + [Enter]) == Pages(done)
    ensures |Rest(s, height, p + [i], 0)| < |Rest(s, height, p, i)|
  {
    RestEnter(s, height, p, i);
    Regroup(done, Enter, Rest(s, height, p + [i], 0), Trace(s, height, [], 0));
  }

  /** Leaving a table releases its pages; the root is the last one. */
  lemma StepLeave<P>(s: Shape<P>, height: nat, done: seq<Step<P>>, p: seq<nat>, i: nat, pages: seq<P>)
    requires Standing(s, height, done, p, i)
    requires if |p| + 2 == height then pages == Kids(s, p, 0) else i == PTES && pages == [s.at[p]]
    ensures Pages(done + [Release(pages)]) == Pages(done) + pages
    ensures done + [Release(pages)] + Above(s, height, p) == Trace(s, height, [], 0)
    ensures |Above(s, height, p)| < |Rest(s, height, p, i)|
  {
    assert Trace(s, height, p, i) == [Release(pages)];
    Regroup(done, Release(pages), Above(s, height, p), Trace(s, height, [], 0));
  }

  /** Having left a table, the loop stands at the next index of the table above. */
  lemma StepUp<P>(s: Shape<P>, height: nat, done: seq<Step<P>>, p: seq<nat>)
    requires WellShaped(s, height) && p != [] && p in s.at && |p| + 2 <= height
    requires done + Above(s, height, p) == Trace(s, height, [], 0)
    ensures Standing(s, height, done, p[..|p| - 1], p[|p| - 1] + 1)
    ensures Rest(s, height, p[..|p| - 1], p[|p| - 1] + 1) == Above(s, height, p)
  {
    assert p[..|p| - 1] in s.at && p[|p| - 1] < PTES;
  }

  /** Leaving a table below the root, with its pages freed. */
  lemma StepOut<P>(s: Shape<P>, height: nat, done: seq<Step<P>>, p: seq<nat>, i: nat, pages: seq<P>)
    requires WellShaped(s, height) && Standing(s, height, done, p, i) && p != [] && p in s.at && |p| + 2 <= height
    requires if |p| + 2 == height then pages == Kids(s, p, 0) else i == PTES && pages == [s.at[p]]
    ensures Pages(done + [Release(pages)]) == Pages(done) + pages
    ensures Standing(s, height, done + [Release(pages)], p[..|p| - 1], p[|p| - 1] + 1)
    ensures |Rest(s, height, p[..|p| - 1], p[|p| - 1] + 1)| < |Rest(s, height, p, i)|
  {
    StepLeave(s, height, done, p, i, pages);
    StepUp(s, height, done + [Release(pages)], p);
  }

  /** Leaving the root ends the loop. */
  lemma StepEnd<P>(s: Shape<P>, height: nat, done: seq<Step<P>>, i: nat, pages: seq<P>)
    requires Standing(s, height, done, [], i) && height >= 3 && i == PTES && pages == [s.at[[]]]
    ensures Pages(done) + pages == Pages(Trace(s, height, [], 0))
  {
    StepLeave(s, height, done, [], i, pages);
    assert done + [Release(pages)] + [] == done + [Release(pages)];
  }

  /** What the whole teardown frees: every table but those of level 1, each of them once. */
  lemma TeardownExact<P(!new)>(s: Shape<P>, height: nat, freed: seq<P>)
    requires WellShaped(s, height) && [] in s.at && height >= 3 && freed == Pages(Trace(s, height, [], 0))
    ensures NoDup(freed)
    ensures forall x {:trigger x in freed} :: x in freed <==> x in s.paths && |s.paths[x]| + 2 != height
  {
    TraceExact(s, height, [], 0);
    forall x ensures x in freed <==> x in s.paths && |s.paths[x]| + 2 != height {
      assert x in freed <==> Frees(s, height, x, [], 0);
    }
  }
}
