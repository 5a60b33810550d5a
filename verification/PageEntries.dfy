/** Page-table entries of the two architectures, as 64-bit words. */
module PageEntries {

  datatype Acl = Read | Write | Execute | User

  datatype Format = Riscv | Arm

  /** The distance between a frame's virtual and physical page number. */
  const OFFSET: bv64 := 0xF_FFFF_FC00_0000
  /** Virtual page numbers have 52 bits. */
  const PAGE_LIMIT: bv64 := 0x10_0000_0000_0000

  function OrIf(c: bool, w: bv64, bits: bv64): bv64 {
    if c then w | bits else w
  }

  function RiscvWord(page: bv64, r: bool, w: bool, x: bool, u: bool): bv64 {
    OrIf(u, OrIf(x, OrIf(w, OrIf(r, page << 10, 2), 4), 8), 0x10) | 1
  }

  function ArmWord(page: bv64, w: bool, x: bool, u: bool): bv64 {
    OrIf(!x, OrIf(!x || !u, OrIf(!w, OrIf(u, page << 12, 0x40), 0x80), 0x40_0000_0000_0000),
      0x20_0000_0000_0000) | 0x403
  }

  function RiscvNew(page: bv64, mode: set<Acl>): bv64 {
    RiscvWord(page, Read in mode, Write in mode, Execute in mode, User in mode)
  }

  function ArmNew(page: bv64, leaf: bool, mode: set<Acl>): bv64 {
    if leaf then ArmWord(page, Write in mode, Execute in mode, User in mode) else (page << 12) | 3
  }

  /** `Entry::new`. */
  function New(f: Format, page: bv64, leaf: bool, mode: set<Acl>): bv64 {
    if f.Riscv? then RiscvNew(page, mode) else ArmNew(page, leaf, mode)
  }

  /** `Entry::is_valid`. */
  predicate IsValid(w: bv64) {
    w & 1 == 1
  }

  /** `Entry::page_number`. */
  function PageNumber(f: Format, w: bv64): bv64 {
    if f.Riscv? then w >> 10 else w >> 12
  }

  /** A table entry gives back the page it was made from. */
  lemma TableEntry(f: Format, page: bv64)
    requires page < PAGE_LIMIT
    ensures IsValid(New(f, page, false, {}))
    ensures PageNumber(f, New(f, page, false, {})) == page
    ensures New(f, page, false, {}) & (if f.Riscv? then 0x3ff else 0xfff) == if f.Riscv? then 1 else 3
  {
    match f
    case Riscv =>
      RiscvBits(page, false, false, false, false);
      RiscvTable(page);
    case Arm => ArmTable(page);
  }

  lemma ArmTable(page: bv64)
    requires page < PAGE_LIMIT
    ensures IsValid((page << 12) | 3) && ((page << 12) | 3) >> 12 == page && ((page << 12) | 3) & 0xfff == 3
  {
  }

  lemma RiscvTable(page: bv64)
    ensures RiscvWord(page, false, false, false, false) & 0x3ff == 1
  {
  }

  lemma RiscvBits(page: bv64, r: bool, w: bool, x: bool, u: bool)
    requires page < PAGE_LIMIT
    ensures var e := RiscvWord(page, r, w, x, u);
            && e >> 10 == page && IsValid(e)
            && (e & 2 != 0 <==> r) && (e & 4 != 0 <==> w) && (e & 8 != 0 <==> x) && (e & 0x10 != 0 <==> u)
  {
  }

  lemma ArmBits(page: bv64, w: bool, x: bool, u: bool)
    requires page < 0x10_0000_0000
    ensures var e := ArmWord(page, w, x, u);
            && (e >> 12) & 0xF_FFFF_FFFF == page && IsValid(e) && e & 0xf3f == 0x403
            && (e & 0x40 != 0 <==> u) && (e & 0x80 != 0 <==> !w)
            && (e & 0x40_0000_0000_0000 != 0 <==> !(x && u)) && (e & 0x20_0000_0000_0000 != 0 <==> !x)
  {
  }

  lemma LeafValid(f: Format, page: bv64, mode: set<Acl>)
    ensures IsValid(New(f, page, true, mode))
  {
  }

  /** RISC-V leaf entries hold the frame and exactly the access mode. */
  lemma RiscvLeaf(page: bv64, mode: set<Acl>)
    requires page < PAGE_LIMIT
    ensures var w := New(Riscv, page, true, mode);
            && PageNumber(Riscv, w) == page
            && (w & 2 != 0 <==> Read in mode) && (w & 4 != 0 <==> Write in mode)
            && (w & 8 != 0 <==> Execute in mode) && (w & 0x10 != 0 <==> User in mode)
  {
    RiscvBits(page, Read in mode, Write in mode, Execute in mode, User in mode);
  }

  /** ARM leaf entries hold the frame in bits 12 to 47 and forbid what the mode does not allow. */
  lemma ArmLeaf(page: bv64, mode: set<Acl>)
    requires page < 0x10_0000_0000
    ensures var w := New(Arm, page, true, mode);
            && (w >> 12) & 0xF_FFFF_FFFF == page && w & 0xf3f == 0x403
            && (w & 0x40 != 0 <==> User in mode) && (w & 0x80 != 0 <==> Write !in mode)
            && (w & 0x40_0000_0000_0000 != 0 <==> !(Execute in mode && User in mode))
            && (w & 0x20_0000_0000_0000 != 0 <==> Execute !in mode)
  {
    ArmBits(page, Write in mode, Execute in mode, User in mode);
  }

  // ------------------------------------------- tables by virtual page number

  predicate Usable(page: bv64) {
    OFFSET <= page < PAGE_LIMIT
  }

  /** The entry that `map_4k` writes for a sub-table, from the table's virtual page. */
  function TableOf(f: Format, page: bv64): bv64 {
    New(f, page - OFFSET, false, {})
  }

  /** The virtual page of the sub-table that an entry refers to. */
  function ChildOf(f: Format, w: bv64): bv64 {
    PageNumber(f, w) + OFFSET
  }

  /** The kernel has physical page `n` at virtual page `n + OFFSET`. */
  lemma Physical(page: bv64)
    requires Usable(page)
    ensures page - OFFSET < PAGE_LIMIT && (page - OFFSET) + OFFSET == page
    ensures page - OFFSET == page - 0xF_FFFF_FC00_0000
  {
  }

  lemma TableRoundTrip(f: Format, page: bv64)
    requires Usable(page)
    ensures IsValid(TableOf(f, page)) && ChildOf(f, TableOf(f, page)) == page
  {
    Physical(page);
    TableEntry(f, page - OFFSET);
  }
}
