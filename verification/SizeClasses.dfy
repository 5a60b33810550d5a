/** The size classes of the object cache, and where an object lies in its cell. */
module SizeClasses {
  import opened Common
  import opened Dyadic

  const SIZE_CLASS_COUNT: nat := 14
  /** `size_of::<*mut CacheManager>()` and `size_of::<CachePage>()`. */
  const HEAD_SIZE: nat := 8
  const CACHE_PAGE_SIZE: nat := 48

  /** The table of classes: bytes in a cell, and cells in a cache. */
  function CellSize(idx: nat): nat
    requires idx < SIZE_CLASS_COUNT
  {
    if idx == 0 then 64 else if idx == 1 then 128 else if idx == 2 then 256 else
    if idx == 3 then 512 else if idx == 4 then 1024 else
    if idx == 5 then 2048 else if idx == 6 then 4096 else if idx == 7 then 8192 else
    if idx == 8 then 16384 else if idx == 9 then 32768 else
    if idx == 10 then 65536 else if idx == 11 then 131072 else if idx == 12 then 262144 else 524288
  }

  function CellCount(idx: nat): nat
    requires idx < SIZE_CLASS_COUNT
  {
    if idx == 0 then 1024 else if idx == 1 then 512 else if idx == 2 then 256 else
    if idx == 3 then 128 else if idx == 4 then 64 else
    if idx == 5 then 32 else if idx == 6 then 16 else if idx == 7 then 8 else
    if idx == 8 then 8 else if idx == 9 then 8 else
    if idx == 10 then 8 else if idx == 11 then 8 else if idx == 12 then 4 else 2
  }

  lemma {:induction false} CellSizePow2(idx: nat)
    requires idx < SIZE_CLASS_COUNT
    ensures CellSize(idx) == Pow2(idx + 6) && CellSize(idx) >= 64
  {
    if idx == 0 {
      assert Pow2(6) == 64;
    } else {
      CellSizePow2(idx - 1);
    }
  }

  lemma {:induction false} CeilPow2(k: nat)
    ensures CeilLog2(Pow2(k)) == k
  {
    if k > 0 {
      CeilPow2(k - 1);
      assert (Pow2(k) + 1) / 2 == Pow2(k - 1);
    }
  }

  /** The pages that `CachePage::allocate` asks for. */
  function PageCount(idx: nat): nat
    requires idx < SIZE_CLASS_COUNT
  {
    Pow2(CeilLog2(CellCount(idx) * CellSize(idx) / PAGE_SIZE))
  }

  /** The cells before the first usable one. */
  function HeaderCells(idx: nat): nat
    requires idx < SIZE_CLASS_COUNT
  {
    (CACHE_PAGE_SIZE + CellSize(idx) - 1) / CellSize(idx)
  }

  lemma CacheBytes(idx: nat) returns (k: nat)
    requires idx < SIZE_CLASS_COUNT
    ensures k == if idx < 8 then 4 else if idx < 11 then idx - 3 else 8
    ensures CellCount(idx) * CellSize(idx) == 4096 * Pow2(k) == PAGE_SIZE * Pow2(k)
  {
    PageOrders();
    k := if idx < 8 then 4 else if idx < 11 then idx - 3 else 8;
  }

  lemma CellTable(idx: nat)
    requires idx < SIZE_CLASS_COUNT
    ensures CellCount(idx) * CellSize(idx) / CellSize(idx) == CellCount(idx) && HeaderCells(idx) == 1
    ensures CellCount(idx) >= 2 && (CellCount(idx) == 2 <==> idx == 13)
  {
  }

  /** A cache of a class is exactly its cells, one of them the header. */
  lemma CacheShape(idx: nat)
    requires idx < SIZE_CLASS_COUNT
    ensures PageCount(idx) * PAGE_SIZE == CellCount(idx) * CellSize(idx)
    ensures PageCount(idx) * PAGE_SIZE / CellSize(idx) == CellCount(idx) && HeaderCells(idx) == 1
    ensures CellCount(idx) >= 2 && (CellCount(idx) == 2 <==> idx == 13)
  {
    var k := CacheBytes(idx);
    var total := CellCount(idx) * CellSize(idx);
    assert total / PAGE_SIZE == Pow2(k);
    CeilPow2(k);
    CellTable(idx);
  }

  lemma PageOrders()
    ensures Pow2(4) == 16 && Pow2(5) == 32 && Pow2(6) == 64 && Pow2(7) == 128 && Pow2(8) == 256 && Pow2(12) == PAGE_SIZE
  {
  }

  /** The first class whose cells are large enough. */
  method SizeToClass(size: nat) returns (class_: Option<((nat, nat), nat)>)
    ensures class_.None? <==> size > 524288
    ensures class_.Some? ==>
      && class_.value.1 < SIZE_CLASS_COUNT
      && class_.value.0 == (CellSize(class_.value.1), CellCount(class_.value.1))
      && size <= CellSize(class_.value.1)
      && forall i :: 0 <= i < SIZE_CLASS_COUNT && size <= CellSize(i) ==> class_.value.1 <= i
  {
    for i := 0 to SIZE_CLASS_COUNT
      invariant forall j :: 0 <= j < i ==> CellSize(j) < size
    {
      if CellSize(i) >= size {
        return Some(((CellSize(i), CellCount(i)), i));
      }
    }
    assert CellSize(13) < size;
    class_ := None;
  }

  /** Enough padding to align what follows the header pointer. */
  function HeaderPadding(align: nat): (p: nat)
    requires align > 0
    ensures p < align && (p + HEAD_SIZE) % align == 0
  {
    PaddingAligns(align);
    (align - HEAD_SIZE % align) % align
  }

  lemma PaddingAligns(align: nat)
    requires align > 0
    ensures ((align - HEAD_SIZE % align) % align + HEAD_SIZE) % align == 0
  {
    var r, q := HEAD_SIZE % align, HEAD_SIZE / align;
    assert HEAD_SIZE == align * q + r;
    if r == 0 {
      assert (align - r) % align == 0 by { ModUnique(align, align, 1, 0); }
    } else {
      assert (align - r) % align == align - r;
      assert align - r + HEAD_SIZE == align * (q + 1) + 0;
      ModUnique(align - r + HEAD_SIZE, align, q + 1, 0);
    }
  }

  ghost predicate Alignment(align: nat) {
    exists a :: 0 <= a <= 12 && align == Pow2(a)
  }

  lemma AlignDivides(align: nat, k: nat) returns (q: nat)
    requires Alignment(align) && align <= Pow2(k)
    ensures Pow2(k) == align * q
  {
    var a :| 0 <= a <= 12 && align == Pow2(a);
    if k < a {
      Pow2Monotone(k, a);
      assert false;
    }
    Pow2Add(a, k - a);
    q := Pow2(k - a);
  }

  lemma SumDivides(start: nat, cell: nat, c: nat, p: nat, align: nat, z: nat, q: nat)
    requires align > 0 && start % PAGE_SIZE == 0 && PAGE_SIZE == align * z && c == align * q && p % align == 0
    ensures (start + cell * c + p) % align == 0
  {
    var s, m := start / PAGE_SIZE, p / align;
    assert p == align * m;
    assert start == align * (z * s) by { assert start == PAGE_SIZE * s == align * z * s; }
    assert cell * c == align * (cell * q);
    ModUnique(start + cell * c + p, align, z * s + cell * q + m, 0);
  }

  lemma NextCell(cell: nat, c: nat)
    ensures (cell + 1) * c == cell * c + c
  {
  }

  lemma PaddingCovers(align: nat)
    requires Alignment(align)
    ensures align <= HeaderPadding(align) + HEAD_SIZE && align <= PAGE_SIZE
  {
    var a :| 0 <= a <= 12 && align == Pow2(a);
    PageOrders();
    Pow2Monotone(a, 12);
    var p := HeaderPadding(align) + HEAD_SIZE;
    if p < align { ModUnique(p, align, 0, p); }
  }

  /** An object is aligned, and lies inside its cell behind the header pointer. */
  lemma ObjectFits(start: nat, cell: nat, idx: nat, size: nat, align: nat)
    requires idx < SIZE_CLASS_COUNT && Alignment(align) && start % PAGE_SIZE == 0
    requires size + HeaderPadding(align) + HEAD_SIZE <= CellSize(idx)
    ensures (start + cell * CellSize(idx) + HeaderPadding(align) + HEAD_SIZE) % align == 0
    ensures cell * CellSize(idx) + HeaderPadding(align) + HEAD_SIZE + size <= (cell + 1) * CellSize(idx)
  {
    var p := HeaderPadding(align) + HEAD_SIZE;
    PaddingCovers(align);
    CellSizePow2(idx);
    var q := AlignDivides(align, idx + 6);
    PageOrders();
    var z := AlignDivides(align, 12);
    SumDivides(start, cell, CellSize(idx), p, align, z, q);
    NextCell(cell, CellSize(idx));
  }
}
