/** What every run of allocations and frees keeps true of one zone's free lists. */
module ZoneRuns {
  import opened Common
  import opened Dyadic
  import opened Blocks
  import opened ZoneLists

  /**
   * The free blocks are aligned, disjoint and fully coalesced; free and live blocks together
   * tile the zone's pages.
   */
  ghost predicate ZoneInv(pages: nat, l: Lists, live: set<Block>) {
    && pages < MAX_PAGES
    && Aligned(l) && Disjoint(Abs(l)) && Coalesced(Abs(l)) && Disjoint(live)
    && (forall p: nat :: p < pages <==> Cov(Abs(l), p) || Cov(live, p))
    && (forall p: nat :: !(Cov(Abs(l), p) && Cov(live, p)))
  }

  lemma MaxPages()
    ensures Pow2(MAX_POW) == MAX_PAGES
  {
    assert Pow2(9) == 512;
    Pow2Add(9, 9);
    Pow2Add(18, 18);
  }

  // ---------------------------------------------------------- block sets

  lemma InBounds(pages: nat, s: set<Block>, b: Block)
    requires b in s && pages < MAX_PAGES
    requires forall p: nat :: Cov(s, p) ==> p < pages
    ensures Start(b) + Size(b) <= pages && b.order < MAX_POW
  {
    StartCovered(b);
    assert Covers(b, Start(b) + Size(b) - 1);
    assert Cov(s, Start(b) + Size(b) - 1);
    if b.order >= MAX_POW {
      MaxPages();
      Pow2Monotone(MAX_POW, b.order);
      assert false;
    }
  }

  lemma RemoveBlock(s: set<Block>, b: Block)
    requires Disjoint(s) && b in s
    ensures Disjoint(s - {b}) && Apart(s - {b}, b)
    ensures forall p: nat :: Cov(s - {b}, p) <==> Cov(s, p) && !Covers(b, p)
  {
    forall p: nat ensures Cov(s - {b}, p) <==> Cov(s, p) && !Covers(b, p) {
      if Cov(s, p) { var c :| c in s && Covers(c, p); assert c == b || c in s - {b}; }
      if Cov(s - {b}, p) { var c :| c in s - {b} && Covers(c, p); }
    }
  }

  lemma AddBlock(s: set<Block>, b: Block)
    requires Disjoint(s) && Apart(s, b)
    ensures Disjoint(s + {b}) && CoversBoth(s + {b}, s, b)
  {
    var t := s + {b};
    forall p: nat ensures Cov(t, p) <==> Cov(s, p) || Covers(b, p) {
      if Cov(t, p) { var c :| c in t && Covers(c, p); assert c == b || c in s; }
      if Cov(s, p) { var c :| c in s && Covers(c, p); assert c in t; }
      assert b in t;
    }
    forall x, y, p: nat | x in t && y in t && Covers(x, p) && Covers(y, p) ensures x == y {
      assert x in s ==> Cov(s, p);
      assert y in s ==> Cov(s, p);
    }
  }

  // ---------------------------------------------------------- allocation

  lemma {:induction false} SplitListsRefines(l: Lists, b: Block, k: nat)
    requires Aligned(l) && k <= b.order <= MAX_POW
    requires Disjoint(Abs(l)) && Coalesced(Abs(l)) && Apart(Abs(l), b)
    ensures var l' := SplitLists(l, Start(b), b.order, k);
            Aligned(l') && Abs(l') == Split(Abs(l), b, k).0
    decreases b.order
  {
    if b.order > k {
      ShlNext(b.index, b.order - 1);
      ShlNext(2 * b.index, b.order - 1);
      SplitStep(Abs(l), b);
      forall p: nat | Covers(Right(b), p) ensures !Cov(Abs(l), p) { HalvesCover(b, p); }
      ApartNotIn(Abs(l), Right(b));
      AbsAdd(l, Right(b));
      SplitListsRefines(AddFront(l, b.order - 1, Start(Right(b))), Left(b), k);
    }
  }

  /**
   * Allocation is exact and complete: the block handed out is aligned, has the order asked for,
   * was wholly free, and is all that leaves the free set; there is none to hand out only when
   * every free block is too small.
   */
  lemma AllocCorrect(pages: nat, l: Lists, live: set<Block>, k: nat)
    requires ZoneInv(pages, l, live)
    ensures Alloc(l, k).NoBlock? <==> forall b :: b in Abs(l) ==> b.order < k
    ensures Alloc(l, k).Allocated? ==>
      var Allocated(l', x) := Alloc(l, k);
      var a := Block(k, Anc(x, k));
      && Start(a) == x && k < MAX_POW && x + Pow2(k) <= pages
      && Apart(live, a)
      && (forall p: nat :: Covers(a, p) ==> Cov(Abs(l), p))
      && (forall p: nat :: Cov(Abs(l'), p) <==> Cov(Abs(l), p) && !Covers(a, p))
      && ZoneInv(pages, l', live + {a})
  {
    var j := FirstFrom(l, k);
    if j >= MAX_POW {
      forall b | b in Abs(l) ensures b.order < k { AbsMember(l, b); }
    } else {
      var b := Block(j, Anc(l[j][0], j));
      assert l[j][0] in l[j];
      assert AlignedAt(l, j);
      MultipleShl(l[j][0], j);
      AbsMember(l, b);
      AbsRemove(l, b);
      RemoveBlock(Abs(l), b);
      var l1 := l[j := l[j][1..]];
      SplitListsRefines(l1, b, k);
      SplitKeeps(Abs(l1), b, k);
      var (t, a) := Split(Abs(l1), b, k);
      ShlMultiple(a.index, k);
      AllocPages(pages, l, live, b, t, a);
    }
  }

  /** The page-level part of `AllocCorrect`. */
  lemma AllocPages(pages: nat, l: Lists, live: set<Block>, b: Block, t: set<Block>, a: Block)
    requires ZoneInv(pages, l, live) && b in Abs(l)
    requires Apart(t, a) && Start(a) == Start(b) && a.order <= b.order
    requires forall p: nat :: Cov(t, p) || Covers(a, p) <==> Cov(Abs(l), p)
    ensures Apart(live, a) && Start(a) + Size(a) <= pages && a.order < MAX_POW
    ensures forall p: nat :: Covers(a, p) ==> Cov(Abs(l), p)
    ensures forall p: nat :: Cov(t, p) <==> Cov(Abs(l), p) && !Covers(a, p)
    ensures Disjoint(live + {a})
    ensures forall p: nat :: p < pages <==> Cov(t, p) || Cov(live + {a}, p)
    ensures forall p: nat :: !(Cov(t, p) && Cov(live + {a}, p))
  {
    InBounds(pages, Abs(l), b);
    Pow2Monotone(a.order, b.order);
    assert Apart(live, a);
    AddBlock(live, a);
  }

  // ------------------------------------------------------------- freeing

  /** `MemoryZone::free_pages`; indexing past the last list is a panic. */
  function Listed(m: Merged): Option<Lists> {
    if m.order < MAX_POW then Some(AddFront(m.lists, m.order, m.rel)) else None
  }

  function WrittenFree(l: Lists, b: Block): Option<Lists>
    requires b.order <= MAX_POW
  {
    Listed(WrittenMerge(l, Start(b), b.order, b.order))
  }

  function StoppingFree(l: Lists, b: Block): Option<Lists>
    requires b.order <= MAX_POW
  {
    Listed(StoppingMerge(l, Start(b), b.order))
  }

  lemma LiveOrder(pages: nat, l: Lists, live: set<Block>, a: Block)
    requires ZoneInv(pages, l, live) && a in live
    ensures a.order < MAX_POW && Apart(Abs(l), a)
  {
    InBounds(pages, live, a);
    forall p: nat | Covers(a, p) ensures !Cov(Abs(l), p) { assert Cov(live, p); }
  }

  /** Merging that stops at the first missing partner keeps the invariant. */
  lemma StoppingFreeCorrect(pages: nat, l: Lists, live: set<Block>, a: Block)
    requires ZoneInv(pages, l, live) && a in live && a.order <= MAX_POW
    ensures StoppingFree(l, a).Some? && ZoneInv(pages, StoppingFree(l, a).value, live - {a})
  {
    LiveOrder(pages, l, live, a);
    var s := Abs(l);
    StoppingMergeRefines(l, a);
    MergeKeeps(s, a);
    RemoveBlock(live, a);
    var m := StoppingMerge(l, Start(a), a.order);
    var c := Block(m.order, Anc(m.rel, m.order));
    var t := Merge(s, a);
    forall p: nat ensures p < pages <==> Cov(t, p) || Cov(live - {a}, p) {
      assert Covers(a, p) ==> Cov(live, p);
    }
    InBounds(pages, t, c);
    MergedNotListed(l, a);
    AbsAdd(m.lists, c);
  }

  lemma {:induction false} MergedNotListed(l: Lists, b: Block)
    requires Aligned(l) && Disjoint(Abs(l)) && Apart(Abs(l), b) && b.order <= MAX_POW
    ensures var m := StoppingMerge(l, Start(b), b.order);
            Block(m.order, Anc(m.rel, m.order)) !in Abs(m.lists)
    decreases MAX_POW - b.order
  {
    ShlMultiple(b.index, b.order);
    ApartNotIn(Abs(l), b);
    PartnerIsBuddy(b);
    AbsMember(l, Buddy(b));
    if b.order < MAX_POW && Partner(Start(b), b.order) in l[b.order] {
      AbsRemove(l, Buddy(b));
      MergeStep(Abs(l), b);
      MergedNotListed(l[b.order := Remove(l[b.order], Start(Buddy(b)))], Parent(b));
    }
  }

  // ------------------------------------------------------------ counting

  ghost function PagesOf(pages: nat, s: set<Block>): set<nat> {
    set p: nat | p < pages && Cov(s, p)
  }

  ghost function Interval(s: nat, n: nat): (r: set<nat>)
    ensures forall p: nat :: p in r <==> s <= p < s + n
    ensures |r| == n
  {
    if n == 0 then {} else Interval(s, n - 1) + {s + n - 1}
  }

  lemma {:induction false} TotalZero(l: Lists, k: nat)
    requires k <= MAX_POW && TotalBelow(l, k) == 0
    ensures forall i :: 0 <= i < k ==> l[i] == []
  {
    if k > 0 {
      if |l[k - 1]| > 0 {
        ShlNext(|l[k - 1]| - 1, k - 1);
        assert false;
      }
      TotalZero(l, k - 1);
    }
  }

  lemma BlockCount(pages: nat, s: set<Block>, b: Block)
    requires Disjoint(s) && b in s && Start(b) + Size(b) <= pages
    ensures |PagesOf(pages, s)| == |PagesOf(pages, s - {b})| + Size(b)
  {
    RemoveBlock(s, b);
    StartCovered(b);
    var i := Interval(Start(b), Size(b));
    forall p: nat | p in i ensures Cov(s, p) { assert b in s && Covers(b, p); }
    assert PagesOf(pages, s) == PagesOf(pages, s - {b}) + i;
  }

  /** Dropping the first node of a list uncovers exactly the pages of its block. */
  lemma CountFirst(pages: nat, l: Lists, k: nat)
    requires Aligned(l) && Disjoint(Abs(l)) && pages < MAX_PAGES && k < MAX_POW && l[k] != []
    requires forall p: nat :: Cov(Abs(l), p) ==> p < pages
    ensures var l' := l[k := l[k][1..]];
            && Aligned(l') && Disjoint(Abs(l')) && (forall p: nat :: Cov(Abs(l'), p) ==> p < pages)
            && |PagesOf(pages, Abs(l))| == |PagesOf(pages, Abs(l'))| + Pow2(k)
  {
    var b := Block(k, Anc(l[k][0], k));
    assert l[k][0] in l[k];
    assert AlignedAt(l, k);
    MultipleShl(l[k][0], k);
    AbsMember(l, b);
    AbsRemove(l, b);
    RemoveBlock(Abs(l), b);
    InBounds(pages, Abs(l), b);
    BlockCount(pages, Abs(l), b);
  }

  /** The listed sizes add up to the number of pages covered. */
  lemma {:induction false} TotalCounts(pages: nat, l: Lists)
    requires Aligned(l) && Disjoint(Abs(l)) && pages < MAX_PAGES
    requires forall p: nat :: Cov(Abs(l), p) ==> p < pages
    ensures Total(l) == |PagesOf(pages, Abs(l))|
    decreases Total(l)
  {
    if Total(l) == 0 {
      TotalZero(l, |l|);
      assert Abs(l) == {};
      assert PagesOf(pages, Abs(l)) == {};
    } else if k :| 0 <= k < MAX_POW && l[k] != [] {
      var l' := l[k := l[k][1..]];
      CountFirst(pages, l, k);
      TotalRemove(l, k, l[k][0]);
      TotalCounts(pages, l');
    } else {
      AllEmptyTotal(l, |l|);
    }
  }

  lemma {:induction false} AllEmptyTotal(l: Lists, k: nat)
    requires k <= MAX_POW && forall i :: 0 <= i < k ==> l[i] == []
    ensures TotalBelow(l, k) == 0
  {
    if k > 0 {
      AllEmptyTotal(l, k - 1);
      ShlNext(0, k - 1);
    }
  }

  lemma TotalAddFront(l: Lists, k: nat, x: nat)
    requires k < MAX_POW
    ensures Total(AddFront(l, k, x)) == Total(l) + Pow2(k)
  {
    TotalUpdate(l, k, [x] + l[k], |l|);
  }

  /**
   * Freeing a live block as written keeps the invariant exactly when it meets no false partner;
   * a false partner leaves the lists short of the pages that are free.
   */
  lemma WrittenFreeExact(pages: nat, l: Lists, live: set<Block>, a: Block)
    requires ZoneInv(pages, l, live) && a in live && a.order <= MAX_POW
    ensures NoFalsePartner(l, Start(a), a.order) ==> WrittenFree(l, a) == StoppingFree(l, a)
    ensures NoFalsePartner(l, Start(a), a.order) <==>
            WrittenFree(l, a).Some? && ZoneInv(pages, WrittenFree(l, a).value, live - {a})
  {
    WrittenMergeExact(l, Start(a), a.order);
    StoppingFreeCorrect(pages, l, live, a);
    if WrittenFree(l, a).Some? && ZoneInv(pages, WrittenFree(l, a).value, live - {a}) {
      var m := WrittenMerge(l, Start(a), a.order, a.order);
      TotalAddFront(m.lists, m.order, m.rel);
      FreedTotal(pages, l, live, a, WrittenFree(l, a).value);
    }
  }

  lemma FreedTotal(pages: nat, l: Lists, live: set<Block>, a: Block, l': Lists)
    requires ZoneInv(pages, l, live) && a in live && ZoneInv(pages, l', live - {a})
    ensures Total(l') == Total(l) + Size(a)
  {
    TotalCounts(pages, l);
    TotalCounts(pages, l');
    RemoveBlock(live, a);
    StartCovered(a);
    InBounds(pages, live, a);
    var i := Interval(Start(a), Size(a));
    forall p: nat ensures Cov(Abs(l'), p) <==> Cov(Abs(l), p) || p in i {
      assert Covers(a, p) ==> Cov(live, p);
    }
    assert PagesOf(pages, Abs(l')) == PagesOf(pages, Abs(l)) + i;
    forall p: nat | p in i ensures !Cov(Abs(l), p) { assert Cov(live, p); }
    assert PagesOf(pages, Abs(l)) !! i;
  }

  // ------------------------------------------------------------ canonical

  /** Two states of a zone with the same live pages hold the same blocks at every order. */
  lemma CanonicalLists(pages: nat, l: Lists, l': Lists, live: set<Block>, live': set<Block>)
    requires ZoneInv(pages, l, live) && ZoneInv(pages, l', live')
    requires SamePages(live, live')
    ensures Abs(l) == Abs(l')
    ensures forall k, x: nat :: 0 <= k < MAX_POW ==> (x in l[k] <==> x in l'[k])
  {
    forall p: nat ensures Cov(Abs(l), p) <==> Cov(Abs(l'), p) {
      assert Cov(live, p) <==> Cov(live', p);
    }
    Canonical(Abs(l), Abs(l'));
    forall k, x: nat | 0 <= k < MAX_POW ensures x in l[k] <==> x in l'[k] {
      ListedBoth(l, l', k, x);
      ListedBoth(l', l, k, x);
    }
  }

  lemma ListedBoth(l: Lists, l': Lists, k: nat, x: nat)
    requires Aligned(l) && Aligned(l') && Abs(l) == Abs(l') && k < MAX_POW
    ensures x in l[k] ==> x in l'[k]
  {
    if x in l[k] {
      var b := Block(k, Anc(x, k));
      assert AlignedAt(l, k);
      MultipleShl(x, k);
      AbsMember(l, b);
      AbsMember(l', b);
    }
  }

  /** The same page numbers at every order. */
  ghost predicate SameLists(l: Lists, l': Lists) {
    forall j, y: nat :: 0 <= j < MAX_POW ==> (y in l[j] <==> y in l'[j])
  }

  /** Freeing a block just allocated, with merging that stops, restores every free list as a set. */
  lemma AllocThenFree(pages: nat, l: Lists, live: set<Block>, k: nat)
    requires ZoneInv(pages, l, live) && Alloc(l, k).Allocated?
    ensures var Allocated(l1, x) := Alloc(l, k);
            var a := Block(k, Anc(x, k));
            && k < MAX_POW && ZoneInv(pages, l1, live + {a}) && live + {a} - {a} == live
            && StoppingFree(l1, a).Some? && SameLists(l, StoppingFree(l1, a).value)
  {
    AllocCorrect(pages, l, live, k);
    var Allocated(l1, x) := Alloc(l, k);
    var a := Block(k, Anc(x, k));
    ApartNotIn(live, a);
    StoppingFreeCorrect(pages, l1, live + {a}, a);
    assert live + {a} - {a} == live;
    CanonicalLists(pages, l, StoppingFree(l1, a).value, live, live);
  }

  lemma {:induction false} ShortestList(s: seq<nat>, t: seq<nat>)
    requires NoDup(s) && forall x :: x in s ==> x in t
    ensures |s| <= |t|
  {
    if s != [] {
      RemoveFacts(t, s[0]);
      ShortestList(s[1..], Remove(t, s[0]));
    }
  }

  lemma {:induction false} ShlGrows(m: nat, n: nat, k: nat)
    requires m <= n
    ensures Shl(m, k) <= Shl(n, k)
    decreases n
  {
    if m < n {
      ShlGrows(m, n - 1, k);
      ShlNext(n - 1, k);
    }
  }

  /** Lists without repetitions claim the fewest pages. */
  lemma {:induction false} LeastTotal(l: Lists, l': Lists, k: nat)
    requires Aligned(l) && SameLists(l, l') && k <= MAX_POW
    ensures TotalBelow(l, k) <= TotalBelow(l', k)
  {
    if k > 0 {
      LeastTotal(l, l', k - 1);
      assert AlignedAt(l, k - 1);
      ShortestList(l[k - 1], l'[k - 1]);
      ShlGrows(|l[k - 1]|, |l'[k - 1]|, k - 1);
    }
  }

  lemma RestoredExact(pages: nat, l: Lists, live: set<Block>, a: Block, l1: Lists)
    requires a !in live && a.order < MAX_POW && ZoneInv(pages, l, live) && ZoneInv(pages, l1, live + {a})
    requires live + {a} - {a} == live && StoppingFree(l1, a).Some? && SameLists(l, StoppingFree(l1, a).value)
    ensures NoFalsePartner(l1, Start(a), a.order) <==>
            WrittenFree(l1, a).Some? && SameLists(l, WrittenFree(l1, a).value)
  {
    WrittenFreeExact(pages, l1, live + {a}, a);
    if WrittenFree(l1, a).Some? && SameLists(l, WrittenFree(l1, a).value) {
      var m := WrittenMerge(l1, Start(a), a.order, a.order);
      TotalAddFront(m.lists, m.order, m.rel);
      LeastTotal(l, WrittenFree(l1, a).value, |l|);
      FreedTotal(pages, l1, live + {a}, a, l);
      MergeBound(l1, Start(a), a.order, a.order);
      WrittenMergeExact(l1, Start(a), a.order);
    }
  }

  /** Merging as written restores them if and only if it meets no false partner. */
  lemma AllocThenWrittenFree(pages: nat, l: Lists, live: set<Block>, k: nat)
    requires ZoneInv(pages, l, live) && Alloc(l, k).Allocated?
    ensures var Allocated(l1, x) := Alloc(l, k);
            var a := Block(k, Anc(x, k));
            && k < MAX_POW
            && (NoFalsePartner(l1, Start(a), k) <==> WrittenFree(l1, a).Some? && SameLists(l, WrittenFree(l1, a).value))
  {
    AllocThenFree(pages, l, live, k);
    var Allocated(l1, x) := Alloc(l, k);
    var a := Block(k, Anc(x, k));
    AllocCorrect(pages, l, live, k);
    ApartNotIn(live, a);
    RestoredExact(pages, l, live, a, l1);
  }

  // ------------------------------------------------------------ new zones

  /** List one block for each binary digit of `rem` below position `k`, from the top. */
  function Carve(l: Lists, cur: nat, rem: nat, k: nat): Lists
    requires k <= MAX_POW
    decreases k
  {
    if k == 0 then l
    else if Pow2(k - 1) <= rem then Carve(AddFront(l, k - 1, cur), cur + Pow2(k - 1), rem - Pow2(k - 1), k - 1)
    else Carve(l, cur, rem, k - 1)
  }

  /** The lists of a new zone. */
  function NewLists(pages: nat): Lists {
    Carve(Empty(), 0, pages, |Empty()|)
  }

  /** The listed blocks cover exactly the first `n` pages. */
  ghost predicate Tiles(l: Lists, n: nat) {
    && Aligned(l) && Disjoint(Abs(l)) && Coalesced(Abs(l))
    && forall p: nat :: Cov(Abs(l), p) <==> p < n
  }

  /** While carving, the listed blocks are larger than what is left and cover the pages before it. */
  ghost predicate Carved(l: Lists, cur: nat, t: nat) {
    && Tiles(l, cur)
    && (forall b :: b in Abs(l) ==> b.order >= t)
    && Multiple(cur, t)
  }

  lemma {:induction false} CarveKeeps(l: Lists, cur: nat, rem: nat, k: nat)
    requires Carved(l, cur, k) && rem < Pow2(k) && k <= MAX_POW
    ensures Tiles(Carve(l, cur, rem, k), cur + rem)
    decreases k
  {
    if k > 0 {
      CarveLess(l, cur, k);
      if Pow2(k - 1) <= rem {
        CarveBlock(l, cur, k);
        CarveKeeps(AddFront(l, k - 1, cur), cur + Pow2(k - 1), rem - Pow2(k - 1), k - 1);
      } else {
        CarveKeeps(l, cur, rem, k - 1);
      }
    }
  }

  lemma CarveLess(l: Lists, cur: nat, k: nat)
    requires Carved(l, cur, k) && k > 0
    ensures Carved(l, cur, k - 1)
  {
    MultipleBelow(cur, k, k - 1);
  }

  lemma CarveBlock(l: Lists, cur: nat, k: nat)
    requires Carved(l, cur, k) && 0 < k <= MAX_POW && Multiple(cur, k - 1)
    ensures Carved(AddFront(l, k - 1, cur), cur + Pow2(k - 1), k - 1)
  {
    var b := Block(k - 1, Anc(cur, k - 1));
    MultipleShl(cur, k - 1);
    ShlNext(b.index, k - 1);
    ShlMultiple(b.index + 1, k - 1);
    StartCovered(b);
    assert Apart(Abs(l), b);
    ApartNotIn(Abs(l), b);
    AbsAdd(l, b);
    AddKeeps(Abs(l), b);
  }

  lemma NewZoneCorrect(pages: nat)
    requires pages < MAX_PAGES
    ensures ZoneInv(pages, NewLists(pages), {})
  {
    MaxPages();
    var t := MAX_POW;
    var empty: Lists := Empty();
    assert Abs(empty) == {};
    ShlNext(0, t);
    ShlMultiple(0, t);
    CarveKeeps(empty, 0, pages, t);
  }

  // ----------------------------------------------------------------- runs

  datatype Op = AllocOp(order: nat) | FreeOp(block: Block)

  datatype Zone = Zone(lists: Lists, live: set<Block>)

  /** One call; `stopping` selects merging that stops at the first missing partner. */
  function Step(z: Zone, op: Op, stopping: bool): Option<Zone> {
    match op
    case AllocOp(k) =>
      (match Alloc(z.lists, k)
       case NoBlock => Some(z)
       case Allocated(l, x) => Some(Zone(l, z.live + {Block(k, Anc(x, k))})))
    case FreeOp(b) =>
      if b.order > MAX_POW then None
      else
        var r := if stopping then StoppingFree(z.lists, b) else WrittenFree(z.lists, b);
        if r.None? then None else Some(Zone(r.value, z.live - {b}))
  }

  /** Callers free only live blocks; the loop as written must also meet no false partner. */
  predicate Legal(z: Zone, op: Op, stopping: bool) {
    op.FreeOp? ==>
      && op.block in z.live
      && (stopping || (op.block.order <= MAX_POW && NoFalsePartner(z.lists, Start(op.block), op.block.order)))
  }

  ghost predicate Run(pages: nat, states: seq<Zone>, ops: seq<Op>, stopping: bool) {
    && pages < MAX_PAGES
    && |states| == |ops| + 1 && states[0] == Zone(NewLists(pages), {})
    && forall i :: 0 <= i < |ops| ==>
         Legal(states[i], ops[i], stopping) && Step(states[i], ops[i], stopping) == Some(states[i + 1])
  }

  lemma StepKeeps(pages: nat, z: Zone, op: Op, stopping: bool)
    requires ZoneInv(pages, z.lists, z.live) && Legal(z, op, stopping)
    ensures Step(z, op, stopping).Some?
    ensures var z' := Step(z, op, stopping).value; ZoneInv(pages, z'.lists, z'.live)
  {
    match op
    case AllocOp(k) => AllocCorrect(pages, z.lists, z.live, k);
    case FreeOp(b) =>
      LiveOrder(pages, z.lists, z.live, b);
      StoppingFreeCorrect(pages, z.lists, z.live, b);
      WrittenFreeExact(pages, z.lists, z.live, b);
  }

  /** Every state of every run tiles the zone with aligned, disjoint, coalesced blocks; no call panics. */
  lemma {:induction false} RunKeeps(pages: nat, states: seq<Zone>, ops: seq<Op>, stopping: bool)
    requires Run(pages, states, ops, stopping)
    ensures forall i :: 0 <= i < |states| ==> ZoneInv(pages, states[i].lists, states[i].live)
  {
    NewZoneCorrect(pages);
    if |ops| > 0 {
      var n := |ops| - 1;
      RunKeeps(pages, states[..n + 1], ops[..n], stopping);
      assert ZoneInv(pages, states[..n + 1][n].lists, states[..n + 1][n].live);
      StepKeeps(pages, states[n], ops[n], stopping);
      forall i | 0 <= i < |states| ensures ZoneInv(pages, states[i].lists, states[i].live) {
        if i <= n { assert states[i] == states[..n + 1][i]; }
      }
    }
  }
}
