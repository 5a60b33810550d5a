/** Virtual page numbers as paths through tables, and what the mapper needs of an entry type. */
module Radix {
  import opened PageEntries

  const PTES: nat := 512

  /** What the mapper uses of an `Entry` type `E` whose tables live in pages `P`. */
  datatype Ops<!P, !E> = Ops(zero: E, valid: E -> bool, table: P -> E, child: E -> P, leaf: (P, set<Acl>) -> E,
      next: P -> P)

  /** Zeroed memory holds no entries, new entries are valid, and a table entry leads back to its table. */
  ghost predicate Lawful<P(!new), E>(ops: Ops<P, E>, usable: P -> bool) {
    && !ops.valid(ops.zero)
    && (forall p :: usable(p) ==> ops.valid(ops.table(p)) && ops.child(ops.table(p)) == p)
    && (forall p, m :: ops.valid(ops.leaf(p, m)))
  }

  function EntryOps(f: Format): Ops<bv64, bv64> {
    Ops(0, e => IsValid(e), p => TableOf(f, p), e => ChildOf(f, e), (p, m) => New(f, p, true, m), p => p + 1)
  }

  /** Both architectures' entries do what the mapper relies on. */
  lemma EntryOpsLawful(f: Format)
    ensures Lawful(EntryOps(f), p => Usable(p))
  {
    forall p | Usable(p) ensures IsValid(TableOf(f, p)) && ChildOf(f, TableOf(f, p)) == p {
      TableRoundTrip(f, p);
    }
    forall p, m ensures IsValid(New(f, p, true, m)) {
      LeafValid(f, p, m);
    }
  }

  /** The leaf for the next page is the one for the frame after; `RiscvLeaf` and `ArmLeaf` say what it holds. */
  lemma NextLeaf(f: Format, p: bv64, mode: set<Acl>)
    ensures EntryOps(f).leaf(EntryOps(f).next(p), mode) == New(f, p + 1, true, mode)
  {
    assert EntryOps(f).next(p) == p + 1;
  }

  // ------------------------------------------------------------- addresses

  /** `v >> (PTE_BITS * n)`. */
  function Up(v: nat, n: nat): nat {
    if n == 0 then v else Up(v, n - 1) / PTES
  }

  /** The number of virtual pages that `n` levels of tables distinguish: 2 to the power of `9 * n`. */
  function Span(n: nat): (s: nat)
    ensures s > 0
  {
    if n == 0 then 1 else 512 * Span(n - 1)
  }

  /** The index that `vpn` selects in a table of level `l`. */
  function Digit(vpn: nat, l: nat): (i: nat)
    ensures i < PTES
  {
    Up(vpn, l) % PTES
  }

  /** The indices that lead from the root down to level `l`: one digit for each level from `height - 1` to `l`. */
  function Path(vpn: nat, l: nat, height: nat): (p: seq<nat>)
    ensures |p| == if l < height then height - l else 0
    decreases height - l
  {
    if l >= height then [] else Path(vpn, l + 1, height) + [Digit(vpn, l)]
  }

  /** The part of `vpn` that the tables distinguish: its low `n` digits. */
  function Low(vpn: nat, n: nat): nat {
    if n == 0 then 0 else PTES * Low(vpn / PTES, n - 1) + vpn % PTES
  }

  lemma {:induction false} UpShift(v: nat, n: nat)
    ensures Up(v, n + 1) == Up(v / PTES, n)
  {
    if n > 0 { UpShift(v, n - 1); }
  }

  lemma {:induction false} LowDigit(u: nat, v: nat, n: nat)
    ensures Low(u, n) == Low(v, n) <==> forall l: nat :: l < n ==> Digit(u, l) == Digit(v, l)
  {
    if n > 0 {
      LowDigit(u / PTES, v / PTES, n - 1);
      if Low(u, n) == Low(v, n) {
        forall l: nat | l < n ensures Digit(u, l) == Digit(v, l) {
          if l > 0 {
            UpShift(u, l - 1);
            UpShift(v, l - 1);
            assert Digit(u / PTES, l - 1) == Digit(v / PTES, l - 1);
          }
        }
      }
      if forall l: nat :: l < n ==> Digit(u, l) == Digit(v, l) {
        forall l: nat | l < n - 1 ensures Digit(u / PTES, l) == Digit(v / PTES, l) {
          UpShift(u, l);
          UpShift(v, l);
          assert Digit(u, l + 1) == Digit(v, l + 1);
        }
        assert Digit(u, 0) == Digit(v, 0);
      }
    }
  }

  lemma {:induction false} PathDigits(u: nat, v: nat, l: nat, height: nat)
    ensures Path(u, l, height) == Path(v, l, height) <==> forall k: nat :: l <= k < height ==>
      Digit(u, k) == Digit(v, k)
    decreases height - l
  {
    if l < height {
      PathDigits(u, v, l + 1, height);
      var pu, pv := Path(u, l, height), Path(v, l, height);
      assert pu[..|pu| - 1] == Path(u, l + 1, height) && pv[..|pv| - 1] == Path(v, l + 1, height);
    }
  }

  /** Two virtual pages use the same leaf slot exactly when their low digits agree. */
  lemma SameSlot(u: nat, v: nat, height: nat)
    ensures Path(u, 0, height) == Path(v, 0, height) <==> Low(u, height) == Low(v, height)
  {
    PathDigits(u, v, 0, height);
    LowDigit(u, v, height);
    assert (forall l: nat :: l < height ==> Digit(u, l) == Digit(v, l)) <==>
           (forall k: nat :: 0 <= k < height ==> Digit(u, k) == Digit(v, k));
  }

  // -------------------------------------------------------- what the digits are

  lemma DivUnique(v: nat, d: nat, q: nat, r: nat)
    requires v == d * q + r && r < d
    ensures v / d == q && v % d == r
  {
    var q', r' := v / d, v % d;
    if q < q' {
      Larger(d, q, q');
      assert false;
    } else if q' < q {
      Larger(d, q', q);
      assert false;
    }
  }

  lemma Larger(d: nat, p: nat, q: nat)
    requires p < q
    ensures d * p + d <= d * q
  {
    assert d * q == d * p + d * (q - p);
    assert d * (q - p) >= d * 1 by { Grows(d, 1, q - p); }
  }

  lemma Grows(d: nat, x: nat, y: nat)
    requires x <= y
    ensures d * x <= d * y
  {
  }

  /** Dividing by 512 and then by `s` is dividing by `512 * s`. */
  lemma DivDiv(v: nat, s: nat)
    requires s > 0
    ensures v / 512 / s == v / (512 * s) && 512 * (v / 512 % s) + v % 512 == v % (512 * s)
  {
    var q, r := v / 512, v % 512;
    var p, t := q / s, q % s;
    assert q == s * p + t;
    assert 512 * (s * p) == 512 * s * p;
    DivUnique(v, 512 * s, p, 512 * t + r);
  }

  lemma {:induction false} UpMeans(v: nat, n: nat)
    ensures Up(v, n) == v / Span(n)
  {
    if n > 0 {
      UpShift(v, n - 1);
      UpMeans(v / 512, n - 1);
      DivDiv(v, Span(n - 1));
    }
  }

  /** The index in a table of level `l` is `vpn >> (9 * l)`, cut to 9 bits. */
  lemma DigitMeans(vpn: nat, l: nat)
    ensures Digit(vpn, l) == vpn / Span(l) % 512
  {
    UpMeans(vpn, l);
  }

  /** The tables distinguish the low `9 * n` bits. */
  lemma {:induction false} LowMeans(vpn: nat, n: nat)
    ensures Low(vpn, n) == vpn % Span(n)
  {
    if n > 0 {
      LowMeans(vpn / 512, n - 1);
      DivDiv(vpn, Span(n - 1));
    }
  }

  /** The number that indices spell, the index in the root first. */
  function Spelled(p: seq<nat>): nat {
    if p == [] then 0 else 512 * Spelled(p[..|p| - 1]) + p[|p| - 1]
  }

  lemma {:induction false} PathUp(vpn: nat, l: nat, height: nat)
    ensures Path(vpn, l + 1, height + 1) == Path(vpn / 512, l, height)
    decreases height - l
  {
    if l < height {
      PathUp(vpn, l + 1, height);
      UpShift(vpn, l);
    }
  }

  /** The path to a virtual page spells its low `9 * height` bits. */
  lemma {:induction false} PathSpells(vpn: nat, height: nat)
    ensures Spelled(Path(vpn, 0, height)) == vpn % Span(height)
  {
    if height > 0 {
      var p := Path(vpn, 0, height);
      PathUp(vpn, 0, height - 1);
      assert p[..|p| - 1] == Path(vpn / 512, 0, height - 1);
      PathSpells(vpn / 512, height - 1);
      DivDiv(vpn, Span(height - 1));
    }
  }

  /** Fewer than `Span(n)` pages in a row all have different low digits. */
  lemma {:induction false} LowUnique(u: nat, v: nat, n: nat)
    requires u <= v < u + Span(n) && Low(u, n) == Low(v, n)
    ensures u == v
  {
    if n > 0 { LowUnique(u / PTES, v / PTES, n - 1); }
  }

  lemma PartUnique(u: nat, v: nat, n: nat)
    requires u <= v < u + Span(n) && u % Span(n) == v % Span(n)
    ensures u == v
  {
    LowMeans(u, n);
    LowMeans(v, n);
    LowUnique(u, v, n);
  }
}
