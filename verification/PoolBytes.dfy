/** Where the nodes of an extended pool lie in memory. */
module PoolBytes {
  import opened Common
  import opened Dyadic

  const EXT_NODE_COMPATIBILITY: nat := 8196
  /** `size_of::<FreeNode>()` and the size of the pointer behind the nodes. */
  const NODE_SIZE: nat := 16
  const POINTER_SIZE: nat := 8
  /** `ceil_to_power_2` of the pages that a pool takes. */
  const EXT_POOL_PAGES: nat := 64

  /** The bytes of an extended pool fit on `pages` pages. */
  predicate Roomy(pages: nat) {
    EXT_NODE_COMPATIBILITY * 16 + 8 <= pages * 4096
  }

  /** The pages asked for are the least power of two that holds a pool. */
  lemma PoolPages()
    ensures Roomy(EXT_POOL_PAGES) && EXT_POOL_PAGES == Pow2(6) && !Roomy(Pow2(5))
  {
    assert Pow2(5) == 32 && Pow2(6) == 64;
  }

  /** The first byte of node `j` of the pool at `page`. */
  function NodeByte(page: nat, j: nat): nat {
    page * PAGE_SIZE + j * NODE_SIZE
  }

  /** A node lies inside the pool's pages, and so does the pointer behind the last one. */
  lemma NodeInside(page: nat, j: nat, pages: nat)
    requires j < EXT_NODE_COMPATIBILITY && Roomy(pages)
    ensures page * 4096 <= NodeByte(page, j) && NodeByte(page, j) + 16 <= (page + pages) * 4096
    ensures NodeByte(page, EXT_NODE_COMPATIBILITY) + 8 <= (page + pages) * 4096
  {
  }

  /** Two nodes of one pool do not overlap. */
  lemma NodesApart(page: nat, i: nat, j: nat)
    requires i != j
    ensures NodeByte(page, i) + 16 <= NodeByte(page, j) || NodeByte(page, j) + 16 <= NodeByte(page, i)
  {
  }
}
