/** One cache: equal cells on contiguous pages, the free ones threaded into a list through their first words. */
module CachePages {
  import opened Common
  import opened Dyadic
  import opened SizeClasses

  /** The address of cell `k`. */
  ghost function CellAt(start: nat, size: nat, k: nat): nat {
    if k == 0 then start else CellAt(start, size, k - 1) + size
  }

  lemma {:induction false} CellAtMeans(start: nat, size: nat, k: nat)
    ensures CellAt(start, size, k) == start + k * size
  {
    if k > 0 {
      CellAtMeans(start, size, k - 1);
      NextCell(k - 1, size);
    }
  }

  /** The cells from 1 up to `n`: all but the header. */
  ghost function Cells(start: nat, size: nat, n: nat): set<nat> {
    if n <= 1 then {} else Cells(start, size, n - 1) + {CellAt(start, size, n - 1)}
  }

  lemma {:induction false} CellsRange(start: nat, size: nat, n: nat, x: nat)
    requires x in Cells(start, size, n)
    ensures start + size <= x && x + size <= CellAt(start, size, n)
    decreases n
  {
    if x == CellAt(start, size, n - 1) {
      CellsAbove(start, size, n - 1);
    } else {
      CellsRange(start, size, n - 1, x);
    }
  }

  lemma {:induction false} CellsAbove(start: nat, size: nat, k: nat)
    requires k >= 1
    ensures start + size <= CellAt(start, size, k)
  {
    if k > 1 { CellsAbove(start, size, k - 1); }
  }

  /** Cells do not overlap. */
  lemma {:induction false} CellsApart(start: nat, size: nat, n: nat, x: nat, y: nat)
    requires x in Cells(start, size, n) && y in Cells(start, size, n) && x != y
    ensures x + size <= y || y + size <= x
    decreases n
  {
    var last := CellAt(start, size, n - 1);
    if x == last {
      CellsRange(start, size, n - 1, y);
    } else if y == last {
      CellsRange(start, size, n - 1, x);
    } else {
      CellsApart(start, size, n - 1, x, y);
    }
  }

  lemma {:induction false} CellsCount(start: nat, size: nat, n: nat)
    requires n >= 1 && size >= 1
    ensures |Cells(start, size, n)| == n - 1
  {
    if n > 1 {
      CellsCount(start, size, n - 1);
      NotYetCell(start, size, n - 1);
    }
  }

  lemma NotYetCell(start: nat, size: nat, n: nat)
    requires size >= 1
    ensures CellAt(start, size, n) !in Cells(start, size, n)
  {
    forall x | x in Cells(start, size, n) ensures x != CellAt(start, size, n) { CellsRange(start, size, n, x); }
  }

  // --------------------------------------------------------------- free lists

  /** The word in cell `chain[i]` leads to the next one of the chain, or is null at its end. */
  ghost predicate LinkAt(mem: map<nat, nat>, chain: seq<nat>, i: nat) {
    i < |chain| ==> chain[i] != 0 && chain[i] in mem && mem[chain[i]] == HeadOf(chain[i + 1..])
  }

  ghost function HeadOf(chain: seq<nat>): nat {
    if chain == [] then 0 else chain[0]
  }

  /** From `head`, the words lead through `chain` in order and end in null. */
  ghost predicate FreeList(mem: map<nat, nat>, head: nat, chain: seq<nat>) {
    head == HeadOf(chain) && forall i: nat {:trigger LinkAt(mem, chain, i)} :: LinkAt(mem, chain, i)
  }

  lemma FreeListKept(mem: map<nat, nat>, head: nat, chain: seq<nat>, at: nat, word: nat)
    requires FreeList(mem, head, chain) && at !in chain
    ensures FreeList(mem[at := word], head, chain)
  {
    var mem' := mem[at := word];
    forall i: nat ensures LinkAt(mem', chain, i) {
      assert LinkAt(mem, chain, i);
      if i < |chain| { assert chain[i] in chain; }
    }
  }

  lemma FreeListTake(mem: map<nat, nat>, head: nat, chain: seq<nat>)
    requires FreeList(mem, head, chain) && chain != []
    ensures head == chain[0] && head in mem && FreeList(mem, mem[head], chain[1..])
  {
    assert LinkAt(mem, chain, 0);
    forall i: nat ensures LinkAt(mem, chain[1..], i) {
      assert LinkAt(mem, chain, i + 1);
      if i + 1 < |chain| { assert chain[1..][i + 1..] == chain[i + 1 + 1..]; }
    }
  }

  lemma FreeListPush(mem: map<nat, nat>, head: nat, chain: seq<nat>, x: nat)
    requires FreeList(mem, head, chain) && x != 0 && x in mem && mem[x] == head
    ensures FreeList(mem, x, [x] + chain)
  {
    var longer := [x] + chain;
    forall i: nat ensures LinkAt(mem, longer, i) {
      if i == 0 {
        assert longer[1..] == chain;
      } else if i < |longer| {
        assert LinkAt(mem, chain, i - 1);
        assert longer[i + 1..] == chain[i - 1 + 1..];
      }
    }
  }

  ghost function Members(s: seq<nat>): set<nat> {
    set x | x in s
  }

  lemma {:induction false} MembersCount(s: seq<nat>)
    requires NoDup(s)
    ensures |Members(s)| == |s|
  {
    if s != [] {
      var n := |s| - 1;
      var t := s[..n];
      MembersCount(t);
      assert Members(s) == Members(t) + {s[n]};
      assert s[n] !in t;
    }
  }

  lemma NoDupPush(s: seq<nat>, x: nat)
    requires NoDup(s) && x !in s
    ensures NoDup([x] + s)
  {
    var t := [x] + s;
    forall i, j | 0 <= i < j < |t| ensures t[i] != t[j] { assert t[j] == s[j - 1] && s[j - 1] in s; }
  }

  lemma NoDupTail(s: seq<nat>)
    requires NoDup(s) && s != []
    ensures NoDup(s[1..]) && s[0] !in s[1..]
  {
    assert forall j :: 0 <= j < |s| - 1 ==> s[1..][j] == s[j + 1];
  }

  /** The cells from `k` up to `n`, in order. */
  ghost function CellsFrom(start: nat, size: nat, k: nat, n: nat): seq<nat>
    decreases n - k
  {
    if k >= n then [] else [CellAt(start, size, k)] + CellsFrom(start, size, k + 1, n)
  }

  /** Cell `k` leads to the next one. */
  ghost predicate ThreadAt(mem: map<nat, nat>, start: nat, size: nat, k: nat) {
    CellAt(start, size, k) in mem && mem[CellAt(start, size, k)] == CellAt(start, size, k + 1)
  }

  /** What `init` writes: each cell up to `i` leads to the next. */
  ghost predicate Threaded(mem: map<nat, nat>, start: nat, size: nat, i: nat) {
    forall k: nat {:trigger ThreadAt(mem, start, size, k)} :: 1 <= k < i ==> ThreadAt(mem, start, size, k)
  }

  lemma {:induction false} ThreadedList(mem: map<nat, nat>, start: nat, size: nat, k: nat, n: nat)
    requires 1 <= k < n && start > 0 && Threaded(mem, start, size, n - 1)
    requires CellAt(start, size, n - 1) in mem && mem[CellAt(start, size, n - 1)] == 0
    ensures FreeList(mem, CellAt(start, size, k), CellsFrom(start, size, k, n))
    decreases n - k
  {
    CellsAbove(start, size, k);
    var rest := CellsFrom(start, size, k + 1, n);
    if k + 1 < n {
      assert ThreadAt(mem, start, size, k);
      ThreadedList(mem, start, size, k + 1, n);
      FreeListPush(mem, CellAt(start, size, k + 1), rest, CellAt(start, size, k));
    } else {
      assert rest == [];
      FreeListPush(mem, 0, rest, CellAt(start, size, k));
    }
  }

  lemma {:induction false} CellsFromSet(start: nat, size: nat, k: nat, n: nat)
    requires 1 <= k <= n && size >= 1
    ensures forall x :: x in Cells(start, size, n) <==> x in CellsFrom(start, size, k, n) || x in Cells(start, size, k)
    ensures forall x :: x in CellsFrom(start, size, k, n) ==> CellAt(start, size, k) <= x
    ensures NoDup(CellsFrom(start, size, k, n)) && |CellsFrom(start, size, k, n)| == n - k
    decreases n - k
  {
    if k < n {
      CellsFromSet(start, size, k + 1, n);
      var first, rest := CellAt(start, size, k), CellsFrom(start, size, k + 1, n);
      assert CellAt(start, size, k + 1) == first + size;
      NoDupPush(rest, first);
    } else {
      assert CellsFrom(start, size, k, n) == [];
      assert NoDup<nat>([]);
    }
  }

  // -------------------------------------------------------------- cache pages

  /** What a cache holds: its free cells in list order, and its live ones. */
  datatype View = View(start: nat, size: nat, count: nat, chain: seq<nat>, used: set<nat>)

  /** `x` is a cell exactly if it is on the free list or live, and it is not both. */
  ghost predicate CellOk(v: View, x: nat) {
    && (x in Cells(v.start, v.size, v.count) <==> x in v.chain || x in v.used)
    && !(x in v.chain && x in v.used)
  }

  /** Every cell but the header is either on the free list, once, or live. */
  ghost predicate Accounted(v: View) {
    && v.size >= 1 && v.count >= 1 && v.start > 0 && NoDup(v.chain)
    && forall x: nat {:trigger CellOk(v, x)} :: CellOk(v, x)
  }

  lemma AccountedCount(v: View)
    requires Accounted(v)
    ensures |v.chain| + |v.used| == v.count - 1
  {
    CellsCount(v.start, v.size, v.count);
    MembersCount(v.chain);
    var cells := Cells(v.start, v.size, v.count);
    forall x: nat ensures x in cells <==> x in Members(v.chain) + v.used { assert CellOk(v, x); }
    assert cells == Members(v.chain) + v.used;
    forall x | x in Members(v.chain) ensures x !in v.used { assert CellOk(v, x); }
  }

  /** A live cell lies on the cache's pages, behind the header. */
  lemma LiveRange(v: View, x: nat)
    requires Accounted(v) && x in v.used
    ensures v.start + v.size <= x && x + v.size <= CellAt(v.start, v.size, v.count)
  {
    assert CellOk(v, x);
    CellsRange(v.start, v.size, v.count, x);
  }

  ghost function Take(v: View): View
    requires v.chain != []
  {
    v.(chain := v.chain[1..], used := v.used + {v.chain[0]})
  }

  ghost function Give(v: View, x: nat): View {
    v.(chain := [x] + v.chain, used := v.used - {x})
  }

  lemma TakeAccounted(v: View)
    requires Accounted(v) && v.chain != []
    ensures Accounted(Take(v)) && v.chain[0] !in v.used
  {
    var first, v' := v.chain[0], Take(v);
    NoDupTail(v.chain);
    assert v.chain == [first] + v.chain[1..];
    assert CellOk(v, first);
    forall x: nat ensures CellOk(v', x) { assert CellOk(v, x); }
  }

  lemma GiveAccounted(v: View, x: nat)
    requires Accounted(v) && x in v.used
    ensures Accounted(Give(v, x)) && x !in v.chain && x > 0
  {
    assert CellOk(v, x);
    CellsRange(v.start, v.size, v.count, x);
    NoDupPush(v.chain, x);
    var v' := Give(v, x);
    forall y: nat ensures CellOk(v', y) { assert CellOk(v, y); }
  }

  lemma {:induction false} CellsRise(start: nat, size: nat, j: nat, k: nat)
    requires j < k && size >= 1
    ensures CellAt(start, size, j) < CellAt(start, size, k)
  {
    if j + 1 < k { CellsRise(start, size, j, k - 1); }
  }

  lemma ThreadMore(mem: map<nat, nat>, start: nat, size: nat, k: nat)
    requires Threaded(mem, start, size, k) && size >= 1 && k >= 1
    ensures Threaded(mem[CellAt(start, size, k) := CellAt(start, size, k + 1)], start, size, k + 1)
  {
    var mem' := mem[CellAt(start, size, k) := CellAt(start, size, k + 1)];
    forall j: nat | 1 <= j < k + 1 ensures ThreadAt(mem', start, size, j) {
      if j < k {
        assert ThreadAt(mem, start, size, j);
        CellsRise(start, size, j, k);
      }
    }
  }

  lemma ThreadLast(mem: map<nat, nat>, start: nat, size: nat, k: nat)
    requires Threaded(mem, start, size, k) && size >= 1 && k >= 1
    ensures Threaded(mem[CellAt(start, size, k) := 0], start, size, k)
  {
    var mem' := mem[CellAt(start, size, k) := 0];
    forall j: nat | 1 <= j < k ensures ThreadAt(mem', start, size, j) {
      assert ThreadAt(mem, start, size, j);
      CellsRise(start, size, j, k);
    }
  }

  lemma LastCell(start: nat, size: nat, n: nat)
    requires n >= 1
    ensures CellAt(start, size, n - 1) == start + n * size - size
  {
    CellAtMeans(start, size, n - 1);
    NextCell(n - 1, size);
  }

  /** The fields of a cache agree with what it holds. */
  ghost predicate Listed(v: View, mem: map<nat, nat>, head: nat, freeCount: nat, usedCount: nat) {
    Accounted(v) && FreeList(mem, head, v.chain) && freeCount == |v.chain| && usedCount == |v.used|
  }

  lemma TakeListed(v: View, mem: map<nat, nat>, head: nat, freeCount: nat, usedCount: nat)
    requires Listed(v, mem, head, freeCount, usedCount) && v.chain != []
    ensures head == v.chain[0] && head in mem && Listed(Take(v), mem, mem[head], freeCount - 1, usedCount + 1)
  {
    TakeAccounted(v);
    FreeListTake(mem, head, v.chain);
  }

  lemma GiveListed(v: View, x: nat, mem: map<nat, nat>, head: nat, freeCount: nat, usedCount: nat)
    requires Listed(v, mem, head, freeCount, usedCount) && x in v.used
    ensures usedCount >= 1 && Listed(Give(v, x), mem[x := head], x, freeCount + 1, usedCount - 1)
  {
    GiveAccounted(v, x);
    FreeListKept(mem, head, v.chain, x, head);
    FreeListPush(mem[x := head], head, v.chain, x);
  }

  lemma WriteListed(v: View, x: nat, word: nat, mem: map<nat, nat>, head: nat, freeCount: nat, usedCount: nat)
    requires Listed(v, mem, head, freeCount, usedCount) && x in v.used
    ensures Listed(v, mem[x := word], head, freeCount, usedCount)
  {
    GiveAccounted(v, x);
    FreeListKept(mem, head, v.chain, x, word);
  }

  lemma ExactDivision(count: nat, size: nat)
    requires size >= CACHE_PAGE_SIZE
    ensures count * size / size == count && (CACHE_PAGE_SIZE + size - 1) / size == 1
  {
    assert (CACHE_PAGE_SIZE + size - 1) == size * 1 + (CACHE_PAGE_SIZE - 1);
    ModUnique(CACHE_PAGE_SIZE + size - 1, size, 1, CACHE_PAGE_SIZE - 1);
    DivUnique(CACHE_PAGE_SIZE + size - 1, size, 1, CACHE_PAGE_SIZE - 1);
    DivUnique(count * size, size, count, 0);
  }

  lemma DivUnique(x: nat, m: nat, q: nat, r: nat)
    requires m > 0 && r < m && x == m * q + r
    ensures x / m == q
  {
    ModUnique(x, m, q, r);
    assert m * (x / m - q) == 0;
    ScaledBelow(x / m - q, m);
  }

  /** The cells that `allocate` starts with. */
  ghost function Fresh(start: nat, size: nat, count: nat): View {
    View(start, size, count, CellsFrom(start, size, 1, count), {})
  }

  lemma FreshListed(start: nat, size: nat, count: nat, mem: map<nat, nat>)
    requires start > 0 && size >= 1 && count >= 2
    requires Threaded(mem, start, size, count - 1)
    requires CellAt(start, size, count - 1) in mem && mem[CellAt(start, size, count - 1)] == 0
    ensures Listed(Fresh(start, size, count), mem, start + size, count - 1, 0)
  {
    CellAtMeans(start, size, 1);
    ThreadedList(mem, start, size, 1, count);
    CellsFromSet(start, size, 1, count);
    var v := Fresh(start, size, count);
    forall x: nat ensures CellOk(v, x) {}
  }

  /** The pages that a cache of `count` cells takes. */
  function Pages(size: nat, count: nat): nat {
    Pow2(CeilLog2(count * size / PAGE_SIZE))
  }

  /** The cells fill the pages, and the header takes one of them. */
  ghost predicate Shape(size: nat, count: nat) {
    size >= CACHE_PAGE_SIZE && count >= 2 && Pages(size, count) * PAGE_SIZE == count * size
  }

  class CachePage {
    const pageStart: nat
    const pageCount: nat
    const cellSize: nat
    var freeCount: nat
    var usedCount: nat
    var freeListHead: nat
    /** The first word of each cell. */
    var mem: map<nat, nat>
    ghost var contents: View

    ghost predicate Valid()
      reads this
    {
      && contents.start == pageStart && contents.size == cellSize
      && pageStart + pageCount * PAGE_SIZE == CellAt(contents.start, contents.size, contents.count)
      && Listed(contents, mem, freeListHead, freeCount, usedCount)
    }

    /** `CachePage::allocate`, on fresh pages at `start`. */
    constructor (start: nat, cellSize: nat, cellCount: nat)
      requires start > 0 && Shape(cellSize, cellCount)
      ensures Valid() && contents == Fresh(start, cellSize, cellCount)
    {
      var pageCount := Pages(cellSize, cellCount);
      var offset := (CACHE_PAGE_SIZE + cellSize - 1) / cellSize;
      ExactDivision(cellCount, cellSize);
      CellAtMeans(start, cellSize, cellCount);
      pageStart, this.pageCount, this.cellSize := start, pageCount, cellSize;
      usedCount, freeCount := 0, pageCount * PAGE_SIZE / cellSize - offset;
      freeListHead := start + offset * cellSize;
      mem := map[];
      contents := Fresh(start, cellSize, cellCount);
      new;
      Init(offset, cellCount);
    }

    /** Thread all cells behind the first `offset` into a list. */
    method Init(offset: nat, ghost count: nat)
      requires pageStart > 0 && cellSize >= 1 && count >= 2 && pageCount * PAGE_SIZE == count * cellSize
      requires offset == 1 && freeCount == count - 1
      modifies `mem
      ensures Listed(Fresh(pageStart, cellSize, count), mem, pageStart + cellSize, freeCount, 0)
    {
      for i := 0 to freeCount - 1
        invariant Threaded(mem, pageStart, cellSize, i + 1)
      {
        var ptr := pageStart + (offset + i) * cellSize;
        var ptrNext := pageStart + (offset + i + 1) * cellSize;
        CellAtMeans(pageStart, cellSize, i + 1);
        CellAtMeans(pageStart, cellSize, i + 2);
        ThreadMore(mem, pageStart, cellSize, i + 1);
        mem := mem[ptr := ptrNext];
      }
      LastCell(pageStart, cellSize, count);
      var last := pageStart + pageCount * PAGE_SIZE - cellSize;
      ThreadLast(mem, pageStart, cellSize, freeCount);
      mem := mem[last := 0];
      FreshListed(pageStart, cellSize, count, mem);
    }

    method AllocObj() returns (r: Option<nat>)
      requires Valid()
      modifies `freeCount, `usedCount, `freeListHead, `contents
      ensures Valid()
      ensures old(contents).chain == [] ==> r == None && contents == old(contents)
      ensures old(contents).chain != [] ==> r == Some(old(contents).chain[0]) && contents == Take(old(contents))
    {
      if freeCount == 0 {
        return None;
      }
      assert contents.chain != [];
      TakeListed(contents, mem, freeListHead, freeCount, usedCount);
      r := Some(freeListHead);
      freeCount, usedCount, freeListHead := freeCount - 1, usedCount + 1, mem[freeListHead];
      contents := Take(contents);
    }

    method FreeObj(ptr: nat)
      requires Valid() && ptr in contents.used
      modifies this
      ensures Valid() && contents == Give(old(contents), ptr)
    {
      GiveListed(contents, ptr, mem, freeListHead, freeCount, usedCount);
      usedCount, freeCount := usedCount - 1, freeCount + 1;
      mem, freeListHead := mem[ptr := freeListHead], ptr;
      contents := Give(contents, ptr);
    }

    /** Whoever holds a live cell may write it, the allocator its header pointer included. */
    method WriteHead(ptr: nat, word: nat)
      requires Valid() && ptr in contents.used
      modifies `mem
      ensures Valid() && mem == old(mem)[ptr := word]
    {
      WriteListed(contents, ptr, word, mem, freeListHead, freeCount, usedCount);
      mem := mem[ptr := word];
    }

    predicate InRange(ptr: nat)
      reads this
    {
      pageStart <= ptr < pageStart + pageCount * PAGE_SIZE
    }
  }
}
