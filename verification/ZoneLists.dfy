/** One memory zone's per-order free lists, as sequences of page numbers in list order. */
module ZoneLists {
  import opened Common
  import opened Dyadic
  import opened Blocks

  const MAX_POW: nat := 36
  /** `2^MAX_POW`; a larger zone has no list for its blocks. */
  const MAX_PAGES: nat := 0x10_0000_0000

  type Lists = l: seq<seq<nat>> | |l| == MAX_POW witness seq(MAX_POW, i => [])

  function Empty(): (l: Lists)
    ensures forall k :: 0 <= k < MAX_POW ==> l[k] == []
  {
    seq(MAX_POW, i => [])
  }

  /** The list without the first node that carries `x`. */
  function Remove(s: seq<nat>, x: int): seq<nat>
    requires x in s
  {
    if s[0] == x then s[1..] else [s[0]] + Remove(s[1..], x)
  }

  function AddFront(l: Lists, k: nat, x: nat): Lists
    requires k < MAX_POW
  {
    l[k := [x] + l[k]]
  }

  // ------------------------------------------------------------- allocation

  /** The first order from `k` up whose list is not empty, or `MAX_POW`. */
  function FirstFrom(l: Lists, k: nat): (j: nat)
    ensures k <= j && (j < MAX_POW ==> l[j] != [])
    ensures forall i :: k <= i < j && i < MAX_POW ==> l[i] == []
    ensures j <= MAX_POW || j == k
    decreases MAX_POW - k
  {
    if k >= MAX_POW || l[k] != [] then k else FirstFrom(l, k + 1)
  }

  /** List the right halves of `[left, left + 2^i)` down to order `k`. */
  function SplitLists(l: Lists, left: nat, i: nat, k: nat): Lists
    requires k <= i <= MAX_POW
    decreases i
  {
    if i == k then l else SplitLists(AddFront(l, i - 1, left + Pow2(i - 1)), left, i - 1, k)
  }

  datatype Allocation = NoBlock | Allocated(lists: Lists, start: nat)

  /** `MemoryZone::alloc_pages` on page numbers relative to the base. */
  function Alloc(l: Lists, k: nat): Allocation {
    var j := FirstFrom(l, k);
    if j >= MAX_POW then NoBlock
    else Allocated(SplitLists(l[j := l[j][1..]], l[j][0], j, k), l[j][0])
  }

  /** The block handed out starts the first block of the lowest order that has one and is large enough. */
  lemma AllocLowest(l: Lists, k: nat) returns (j: nat)
    requires Alloc(l, k).Allocated?
    ensures k <= j < MAX_POW && l[j] != [] && Alloc(l, k).start == l[j][0]
    ensures forall i :: k <= i < j ==> l[i] == []
  {
    j := FirstFrom(l, k);
  }

  // ------------------------------------------------------------- freeing

  datatype Merged = Merged(lists: Lists, rel: nat, order: nat)

  /** Where the merge loop looks for a partner of `rel` in the list of order `pow`. */
  function Partner(rel: nat, pow: nat): int {
    if Multiple(rel, pow + 1) then rel + Pow2(pow) else rel - Pow2(pow)
  }

  /** The merge loop as written: a non-empty list without the partner does not stop it. */
  function WrittenMerge(l: Lists, rel: nat, final: nat, pow: nat): Merged
    requires final <= pow <= MAX_POW
    decreases MAX_POW - pow
  {
    if pow == MAX_POW || l[pow] == [] then Merged(l, rel, final)
    else if Partner(rel, pow) in l[pow] then
      Pow2Monotone(final, pow);
      var l' := l[pow := Remove(l[pow], Partner(rel, pow))];
      WrittenMerge(l', if Multiple(rel, pow + 1) then rel else rel - Pow2(final), final + 1, pow + 1)
    else WrittenMerge(l, rel, final, pow + 1)
  }

  /** Merging that stops at the first order whose list lacks the partner. */
  function StoppingMerge(l: Lists, rel: nat, pow: nat): Merged
    requires pow <= MAX_POW
    decreases MAX_POW - pow
  {
    if pow == MAX_POW || Partner(rel, pow) !in l[pow] then Merged(l, rel, pow)
    else
      var l' := l[pow := Remove(l[pow], Partner(rel, pow))];
      StoppingMerge(l', if Multiple(rel, pow + 1) then rel else rel - Pow2(pow), pow + 1)
  }

  /** From order `q` up to the first empty list, no list holds a node that `rel` would match. */
  predicate QuietFrom(l: Lists, rel: nat, q: nat)
    decreases MAX_POW - q
  {
    q >= MAX_POW || l[q] == [] || (Partner(rel, q) !in l[q] && QuietFrom(l, rel, q + 1))
  }

  /** Above the order where merging should stop, the written loop meets no false partner. */
  predicate NoFalsePartner(l: Lists, rel: nat, k: nat)
    requires k <= MAX_POW
  {
    var m := StoppingMerge(l, rel, k);
    QuietFrom(m.lists, m.rel, m.order)
  }

  function TotalBelow(l: Lists, k: nat): nat
    requires k <= MAX_POW
  {
    if k == 0 then 0 else TotalBelow(l, k - 1) + Shl(|l[k - 1]|, k - 1)
  }

  /** The number of pages the lists claim to be free. */
  function Total(l: Lists): nat {
    TotalBelow(l, |l|)
  }

  lemma {:induction false} TotalUpdate(l: Lists, j: nat, s: seq<nat>, k: nat)
    requires j < MAX_POW && k <= MAX_POW && |s| == |l[j]| + 1
    ensures TotalBelow(l[j := s], k) == TotalBelow(l, k) + (if j < k then Pow2(j) else 0)
  {
    if k > 0 {
      TotalUpdate(l, j, s, k - 1);
      ShlNext(|l[j]|, j);
    }
  }

  lemma TotalRemove(l: Lists, k: nat, x: int)
    requires k < MAX_POW && x in l[k]
    ensures Total(l[k := Remove(l[k], x)]) + Pow2(k) == Total(l)
  {
    RemoveFacts(l[k], x);
    var l' := l[k := Remove(l[k], x)];
    TotalUpdate(l', k, l[k], |l|);
    assert l'[k := l[k]] == l;
  }

  lemma {:induction false} RemoveFacts(s: seq<nat>, x: int)
    requires x in s
    ensures |Remove(s, x)| == |s| - 1
    ensures forall y: int :: y in Remove(s, x) ==> y in s
    ensures forall y: int :: y in s && y != x ==> y in Remove(s, x)
    ensures NoDup(s) ==> NoDup(Remove(s, x)) && x !in Remove(s, x)
  {
    if s[0] != x {
      RemoveFacts(s[1..], x);
      assert s == [s[0]] + s[1..];
      if NoDup(s) {
        var r := Remove(s, x);
        forall i, j | 0 <= i < j < |r| ensures r[i] != r[j] {
          if i == 0 {
            assert r[j] in Remove(s[1..], x);
          }
        }
      }
    } else {
      assert s == [x] + s[1..];
    }
  }

  /** The pages a merge result accounts for: what stays listed and the block to be listed. */
  function Held(m: Merged): nat {
    Total(m.lists) + Pow2(m.order)
  }

  lemma {:induction false} MergeBound(l: Lists, rel: nat, final: nat, pow: nat)
    requires final <= pow <= MAX_POW
    ensures Held(WrittenMerge(l, rel, final, pow)) <= Total(l) + Pow2(final)
    decreases MAX_POW - pow
  {
    if pow == MAX_POW || l[pow] == [] {
    } else if Partner(rel, pow) in l[pow] {
      Pow2Monotone(final, pow);
      TotalRemove(l, pow, Partner(rel, pow));
      var l' := l[pow := Remove(l[pow], Partner(rel, pow))];
      MergeBound(l', if Multiple(rel, pow + 1) then rel else rel - Pow2(final), final + 1, pow + 1);
    } else {
      MergeBound(l, rel, final, pow + 1);
    }
  }

  /** Once the loop has passed a list that lacks the partner, any further match loses pages. */
  lemma {:induction false} MergeAfterMiss(l: Lists, rel: nat, final: nat, pow: nat)
    requires final < pow <= MAX_POW
    ensures QuietFrom(l, rel, pow) ==> WrittenMerge(l, rel, final, pow) == Merged(l, rel, final)
    ensures !QuietFrom(l, rel, pow) ==> Held(WrittenMerge(l, rel, final, pow)) < Total(l) + Pow2(final)
    decreases MAX_POW - pow
  {
    if pow == MAX_POW || l[pow] == [] {
    } else if Partner(rel, pow) in l[pow] {
      Pow2Monotone(final, pow);
      TotalRemove(l, pow, Partner(rel, pow));
      var l' := l[pow := Remove(l[pow], Partner(rel, pow))];
      MergeBound(l', if Multiple(rel, pow + 1) then rel else rel - Pow2(final), final + 1, pow + 1);
    } else {
      MergeAfterMiss(l, rel, final, pow + 1);
    }
  }

  /**
   * The loop as written neither creates nor loses pages exactly when it meets no false partner,
   * and then it does what stopping at the first missing partner does.
   */
  lemma {:induction false} WrittenMergeExact(l: Lists, rel: nat, k: nat)
    requires k <= MAX_POW
    ensures NoFalsePartner(l, rel, k) ==> WrittenMerge(l, rel, k, k) == StoppingMerge(l, rel, k)
    ensures Held(WrittenMerge(l, rel, k, k)) == Total(l) + Pow2(k) <==> NoFalsePartner(l, rel, k)
    decreases MAX_POW - k
  {
    if k == MAX_POW || l[k] == [] {
    } else if Partner(rel, k) in l[k] {
      TotalRemove(l, k, Partner(rel, k));
      var l' := l[k := Remove(l[k], Partner(rel, k))];
      WrittenMergeExact(l', if Multiple(rel, k + 1) then rel else rel - Pow2(k), k + 1);
    } else {
      MergeAfterMiss(l, rel, k, k + 1);
    }
  }

  // ------------------------------------------------- lists as sets of blocks

  /** Every listed page number is a multiple of its block size, and is listed once. */
  ghost predicate Aligned(l: Lists) {
    forall k: nat {:trigger AlignedAt(l, k)} :: k < MAX_POW ==> AlignedAt(l, k)
  }

  ghost predicate AlignedAt(l: Lists, k: nat)
    requires k < MAX_POW
  {
    NoDup(l[k]) && forall x: nat :: x in l[k] ==> Multiple(x, k)
  }

  ghost function Abs(l: Lists): set<Block> {
    set k, x | 0 <= k < MAX_POW && x in l[k] :: Block(k, Anc(x, k))
  }

  lemma AbsMember(l: Lists, b: Block)
    requires Aligned(l)
    ensures b in Abs(l) <==> b.order < MAX_POW && Start(b) in l[b.order]
  {
    ShlMultiple(b.index, b.order);
    if b in Abs(l) {
      var k, x :| 0 <= k < MAX_POW && x in l[k] && b == Block(k, Anc(x, k));
      assert AlignedAt(l, k);
      MultipleShl(x, k);
    }
  }

  lemma StartInjective(a: Block, b: Block)
    requires a.order == b.order && Start(a) == Start(b)
    ensures a == b
  {
    ShlMultiple(a.index, a.order);
    ShlMultiple(b.index, b.order);
  }

  lemma AbsRemove(l: Lists, b: Block)
    requires Aligned(l) && b.order < MAX_POW && Start(b) in l[b.order]
    ensures var l' := l[b.order := Remove(l[b.order], Start(b))];
            Aligned(l') && Abs(l') == Abs(l) - {b}
  {
    var k := b.order;
    var l' := l[k := Remove(l[k], Start(b))];
    assert AlignedAt(l, k);
    RemoveFacts(l[k], Start(b));
    forall j: nat | j < MAX_POW ensures AlignedAt(l', j) { assert AlignedAt(l, j); }
    forall c ensures c in Abs(l') <==> c in Abs(l) - {b} {
      AbsMember(l, c);
      AbsMember(l', c);
      if c.order == k && Start(c) == Start(b) { StartInjective(c, b); }
    }
  }

  lemma AbsAdd(l: Lists, b: Block)
    requires Aligned(l) && b.order < MAX_POW && b !in Abs(l)
    ensures Aligned(AddFront(l, b.order, Start(b)))
    ensures Abs(AddFront(l, b.order, Start(b))) == Abs(l) + {b}
  {
    var k := b.order;
    var l' := AddFront(l, k, Start(b));
    ShlMultiple(b.index, k);
    AbsMember(l, b);
    forall j: nat | j < MAX_POW ensures AlignedAt(l', j) { assert AlignedAt(l, j); }
    forall c ensures c in Abs(l') <==> c in Abs(l) + {b} {
      AbsMember(l, c);
      AbsMember(l', c);
      if c.order == k && Start(c) == Start(b) { StartInjective(c, b); }
    }
  }

  lemma PartnerIsBuddy(b: Block)
    ensures Partner(Start(b), b.order) == Start(Buddy(b))
    ensures Start(Parent(b)) == if Multiple(Start(b), b.order + 1) then Start(b) else Start(b) - Size(b)
  {
    ShlMultiple(b.index, b.order);
    var j := b.index / 2;
    ShlNext(b.index, b.order);
    ShlNext(j, b.order);
    ShlNext(2 * j, b.order);
  }

  /** `m` lists the blocks `s` but for the one it has made, out of those of `l`. */
  ghost predicate Refines(l: Lists, s: set<Block>, m: Merged) {
    var c := Block(m.order, Anc(m.rel, m.order));
    && Aligned(m.lists) && m.order <= MAX_POW && m.rel == Start(c)
    && Buddy(c) !in Abs(m.lists) && s == Abs(m.lists) + {c}
    && Abs(m.lists) <= Abs(l)
  }

  /** One level of merging, in the lists and in the set of blocks. */
  lemma MergeLevel(l: Lists, b: Block) returns (l': Lists)
    requires Aligned(l) && b.order < MAX_POW && Partner(Start(b), b.order) in l[b.order]
    ensures Aligned(l') && Abs(l') <= Abs(l) && Merge(Abs(l), b) == Merge(Abs(l'), Parent(b))
    ensures StoppingMerge(l, Start(b), b.order) == StoppingMerge(l', Start(Parent(b)), b.order + 1)
  {
    ShlMultiple(b.index, b.order);
    PartnerIsBuddy(b);
    AbsMember(l, Buddy(b));
    AbsRemove(l, Buddy(b));
    l' := l[b.order := Remove(l[b.order], Start(Buddy(b)))];
  }

  lemma MergeStops(l: Lists, b: Block)
    requires Aligned(l) && b.order <= MAX_POW
    requires b.order == MAX_POW || Partner(Start(b), b.order) !in l[b.order]
    ensures Refines(l, Merge(Abs(l), b), StoppingMerge(l, Start(b), b.order))
  {
    ShlMultiple(b.index, b.order);
    PartnerIsBuddy(b);
    AbsMember(l, Buddy(b));
  }

  /** Removing partners from the lists is coalescing in the set of blocks. */
  lemma {:induction false} StoppingMergeRefines(l: Lists, b: Block)
    requires Aligned(l) && b.order <= MAX_POW
    ensures Refines(l, Merge(Abs(l), b), StoppingMerge(l, Start(b), b.order))
    decreases MAX_POW - b.order
  {
    if b.order == MAX_POW || Partner(Start(b), b.order) !in l[b.order] {
      MergeStops(l, b);
    } else {
      var l' := MergeLevel(l, b);
      StoppingMergeRefines(l', Parent(b));
    }
  }
}
