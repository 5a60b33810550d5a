/** Trees of page tables, and the map from virtual pages to leaf entries that they stand for. */
module PageTables {
  import opened Common
  import opened Radix

  /** The memory that holds tables, read from `root` through `height` levels. */
  datatype Tables<!P(==), !E> = Tables(ops: Ops<P, E>, height: nat, root: P, mem: map<P, seq<E>>)

  /** Which page holds the table that a path leads to, and back. */
  datatype Shape<P(==)> = Shape(at: map<seq<nat>, P>, paths: map<P, seq<nat>>)

  ghost predicate IsTable<P, E>(t: Tables<P, E>, page: P) {
    page in t.mem && |t.mem[page]| == PTES
  }

  ghost function Entry<P, E>(t: Tables<P, E>, page: P, i: nat): E {
    if IsTable(t, page) && i < PTES then t.mem[page][i] else t.ops.zero
  }

  /** The path `p` leads to a table, through a valid entry of the table before it. */
  ghost predicate NodeOk<P, E>(t: Tables<P, E>, s: Shape<P>, p: seq<nat>) {
    && p in s.at && |p| < t.height && IsTable(t, s.at[p])
    && s.at[p] in s.paths && s.paths[s.at[p]] == p
    && (|p| > 0 ==>
          var q, i := p[..|p| - 1], p[|p| - 1];
          && q in s.at && i < PTES && t.ops.valid(Entry(t, s.at[q], i))
          && t.ops.child(Entry(t, s.at[q], i)) == s.at[p])
  }

  /** A valid entry above the last level leads to a table. */
  ghost predicate SlotOk<P, E>(t: Tables<P, E>, s: Shape<P>, p: seq<nat>, i: nat) {
    p in s.at && |p| + 1 < t.height && i < PTES && t.ops.valid(Entry(t, s.at[p], i)) ==> p + [i] in s.at
  }

  /** The tables form a tree of distinct pages: every path leads to its own page, and every table is on one path. */
  ghost predicate Tree<P, E>(t: Tables<P, E>, s: Shape<P>) {
    && t.height > 0 && [] in s.at && s.at[[]] == t.root
    && (forall p {:trigger NodeOk(t, s, p)} :: p in s.at ==> NodeOk(t, s, p))
    && (forall p, i: nat {:trigger SlotOk(t, s, p, i)} :: SlotOk(t, s, p, i))
    && (forall x {:trigger s.paths[x]} :: x in s.paths ==> s.paths[x] in s.at && s.at[s.paths[x]] == x)
  }

  /** The hardware's walk: in a table of level `l` bits `9 * l` to `9 * l + 8` of `vpn` select the entry. */
  ghost function Walk<P, E>(t: Tables<P, E>, page: P, l: nat, vpn: nat): Option<E> {
    var e := Entry(t, page, vpn / Span(l) % 512);
    if !t.ops.valid(e) then None
    else if l == 0 then Some(e)
    else Walk(t, t.ops.child(e), l - 1, vpn)
  }

  ghost function Lookup<P, E>(t: Tables<P, E>, vpn: nat): Option<E>
    requires t.height > 0
  {
    Walk(t, t.root, t.height - 1, vpn)
  }

  /** Three levels, as on RISC-V: bits 18 to 26, 9 to 17 and 0 to 8 select the entries. */
  lemma ThreeLevels<P, E>(t: Tables<P, E>, vpn: nat)
    requires t.height == 3
    ensures var e2 := Entry(t, t.root, vpn / 262144 % 512);
      var e1 := Entry(t, t.ops.child(e2), vpn / 512 % 512);
      var e0 := Entry(t, t.ops.child(e1), vpn % 512);
      Lookup(t, vpn) == if t.ops.valid(e2) && t.ops.valid(e1) && t.ops.valid(e0) then Some(e0) else None
  {
    Spans();
    var e2 := Entry(t, t.root, vpn / 262144 % 512);
    var e1 := Entry(t, t.ops.child(e2), vpn / 512 % 512);
    WalkOnce(t, t.root, 2, vpn);
    WalkOnce(t, t.ops.child(e2), 1, vpn);
    WalkOnce(t, t.ops.child(e1), 0, vpn);
  }

  lemma Spans()
    ensures Span(0) == 1 && Span(1) == 512 && Span(2) == 262144
  {
    assert Span(1) == 512 * Span(0);
    assert Span(2) == 512 * Span(1);
  }

  lemma WalkOnce<P, E>(t: Tables<P, E>, page: P, l: nat, vpn: nat)
    ensures var e := Entry(t, page, vpn / Span(l) % 512);
      Walk(t, page, l, vpn) ==
        if !t.ops.valid(e) then None else if l == 0 then Some(e) else Walk(t, t.ops.child(e), l - 1, vpn)
  {
  }

  /** The leaf entry at the end of a full path; a missing table reads as zeroes. */
  ghost function Slot<P, E>(t: Tables<P, E>, s: Shape<P>, p: seq<nat>, i: nat): E {
    if p in s.at then Entry(t, s.at[p], i) else t.ops.zero
  }

  lemma Parent<P, E>(t: Tables<P, E>, s: Shape<P>, p: seq<nat>, i: nat)
    requires Tree(t, s) && p + [i] in s.at
    ensures p in s.at && i < PTES && |p| + 1 < t.height
    ensures t.ops.valid(Entry(t, s.at[p], i)) && t.ops.child(Entry(t, s.at[p], i)) == s.at[p + [i]]
  {
    var q := p + [i];
    assert NodeOk(t, s, q);
    assert q[..|q| - 1] == p;
  }

  lemma {:induction false} MissingBelow<P, E>(t: Tables<P, E>, s: Shape<P>, vpn: nat, l: nat)
    requires Tree(t, s) && 1 <= l && Path(vpn, l, t.height) !in s.at
    ensures Path(vpn, 1, t.height) !in s.at
  {
    if l > 1 {
      if Path(vpn, l - 1, t.height) in s.at {
        Parent(t, s, Path(vpn, l, t.height), Digit(vpn, l - 1));
      }
      MissingBelow(t, s, vpn, l - 1);
    }
  }

  /** The walk finds the leaf slot of the virtual page, or stops where its table is missing. */
  lemma {:induction false} WalkFinds<P, E>(t: Tables<P, E>, s: Shape<P>, vpn: nat, l: nat)
    requires Tree(t, s) && !t.ops.valid(t.ops.zero) && l < t.height && Path(vpn, l + 1, t.height) in s.at
    ensures var e := Slot(t, s, Path(vpn, 1, t.height), Digit(vpn, 0));
            Walk(t, s.at[Path(vpn, l + 1, t.height)], l, vpn) == if t.ops.valid(e) then Some(e) else None
  {
    var p, i := Path(vpn, l + 1, t.height), Digit(vpn, l);
    DigitMeans(vpn, l);
    if l > 0 {
      assert SlotOk(t, s, p, i);
      assert Path(vpn, l, t.height) == p + [i];
      if t.ops.valid(Entry(t, s.at[p], i)) {
        Parent(t, s, p, i);
        WalkFinds(t, s, vpn, l - 1);
      } else {
        if p + [i] in s.at { Parent(t, s, p, i); }
        MissingBelow(t, s, vpn, l);
      }
    }
  }

  lemma LookupFinds<P, E>(t: Tables<P, E>, s: Shape<P>, vpn: nat)
    requires Tree(t, s) && !t.ops.valid(t.ops.zero)
    ensures var e := Slot(t, s, Path(vpn, 1, t.height), Digit(vpn, 0));
            Lookup(t, vpn) == if t.ops.valid(e) then Some(e) else None
  {
    assert Path(vpn, t.height, t.height) == [];
    WalkFinds(t, s, vpn, t.height - 1);
  }

  // --------------------------------------------------------------- updates

  function SetEntry<P, E>(t: Tables<P, E>, page: P, i: nat, e: E): Tables<P, E>
    requires page in t.mem && i < |t.mem[page]|
  {
    t.(mem := t.mem[page := t.mem[page][i := e]])
  }

  lemma WriteEntry<P, E>(t: Tables<P, E>, page: P, i: nat, e: E)
    requires IsTable(t, page) && i < PTES
    ensures forall x {:trigger IsTable(SetEntry(t, page, i, e), x)} :: IsTable(SetEntry(t, page, i, e), x) <==>
      IsTable(t, x)
    ensures forall x, j {:trigger Entry(SetEntry(t, page, i, e), x, j)} ::
      Entry(SetEntry(t, page, i, e), x, j) == if x == page && j == i then e else Entry(t, x, j)
  {
  }

  /** Writing a leaf entry keeps the tree and changes that slot only. */
  lemma WriteLeaf<P, E>(t: Tables<P, E>, s: Shape<P>, p: seq<nat>, i: nat, e: E)
    requires Tree(t, s) && p in s.at && |p| + 1 == t.height && i < PTES
    ensures IsTable(t, s.at[p])
    ensures var t' := SetEntry(t, s.at[p], i, e);
            Tree(t', s) && forall q, j {:trigger Slot(t', s, q, j)} ::
              Slot(t', s, q, j) == if q == p && j == i then e else Slot(t, s, q, j)
  {
    assert NodeOk(t, s, p);
    WriteEntry(t, s.at[p], i, e);
    var t' := SetEntry(t, s.at[p], i, e);
    forall q | q in s.at ensures NodeOk(t', s, q) {
      assert NodeOk(t, s, q);
      if |q| > 0 { assert NodeOk(t, s, q[..|q| - 1]); }
    }
    forall q, j: nat ensures SlotOk(t', s, q, j) {
      assert SlotOk(t, s, q, j);
      if q in s.at { assert NodeOk(t, s, q); }
    }
    forall q, j ensures Slot(t', s, q, j) == if q == p && j == i then e else Slot(t, s, q, j) {
      if q in s.at { assert NodeOk(t, s, q); }
    }
  }

  /** Attach the zeroed table in `page` at index `i` of the table at `p`. */
  function Attach<P, E>(t: Tables<P, E>, parent: P, i: nat, page: P, zeroes: seq<E>): Tables<P, E>
    requires parent in t.mem && i < |t.mem[parent]| && parent != page
  {
    SetEntry(t.(mem := t.mem[page := zeroes]), parent, i, t.ops.table(page))
  }

  ghost function Attached<P>(s: Shape<P>, p: seq<nat>, i: nat, page: P): Shape<P> {
    Shape(s.at[p + [i] := page], s.paths[page := p + [i]])
  }

  ghost predicate CanAttach<P, E>(t: Tables<P, E>, s: Shape<P>, p: seq<nat>, i: nat, page: P, zeroes: seq<E>) {
    && Tree(t, s) && !t.ops.valid(t.ops.zero) && p in s.at && |p| + 1 < t.height && i < PTES
    && !t.ops.valid(Entry(t, s.at[p], i)) && page !in s.paths
    && |zeroes| == PTES && (forall j :: 0 <= j < PTES ==> zeroes[j] == t.ops.zero)
    && t.ops.valid(t.ops.table(page)) && t.ops.child(t.ops.table(page)) == page
  }

  lemma AttachEntry<P, E>(t: Tables<P, E>, parent: P, i: nat, page: P, zeroes: seq<E>)
    requires IsTable(t, parent) && parent != page && i < PTES
    requires |zeroes| == PTES && forall j :: 0 <= j < PTES ==> zeroes[j] == t.ops.zero
    ensures var t' := Attach(t, parent, i, page, zeroes);
            && (forall x {:trigger IsTable(t', x)} :: IsTable(t', x) <==> x == page || IsTable(t, x))
            && (forall x, j {:trigger Entry(t', x, j)} ::
                  Entry(t', x, j) == if x == page then t.ops.zero
                                     else if x == parent && j == i then t.ops.table(page)
                                     else Entry(t, x, j))
  {
  }

  lemma AttachNode<P, E>(t: Tables<P, E>, s: Shape<P>, p: seq<nat>, i: nat, page: P, zeroes: seq<E>, q: seq<nat>)
    requires CanAttach(t, s, p, i, page, zeroes) && IsTable(t, s.at[p]) && s.at[p] != page
    requires q in Attached(s, p, i, page).at
    ensures NodeOk(Attach(t, s.at[p], i, page, zeroes), Attached(s, p, i, page), q)
  {
    AttachEntry(t, s.at[p], i, page, zeroes);
    assert NodeOk(t, s, p);
    if q == p + [i] {
      assert q[..|q| - 1] == p;
    } else {
      assert NodeOk(t, s, q);
      if |q| > 0 {
        assert q == q[..|q| - 1] + [q[|q| - 1]];
        assert NodeOk(t, s, q[..|q| - 1]);
      }
    }
  }

  /** Attaching an empty table keeps the tree, and every leaf slot reads as before. */
  lemma AttachKeeps<P, E>(t: Tables<P, E>, s: Shape<P>, p: seq<nat>, i: nat, page: P, zeroes: seq<E>)
    requires CanAttach(t, s, p, i, page, zeroes)
    ensures IsTable(t, s.at[p]) && s.at[p] != page && p + [i] !in s.at
    ensures var t', s' := Attach(t, s.at[p], i, page, zeroes), Attached(s, p, i, page);
            && Tree(t', s')
            && forall q, j {:trigger Slot(t', s', q, j)} :: |q| + 1 == t.height ==>
              Slot(t', s', q, j) == Slot(t, s, q, j)
  {
    assert NodeOk(t, s, p);
    if p + [i] in s.at { Parent(t, s, p, i); }
    AttachEntry(t, s.at[p], i, page, zeroes);
    var t', s' := Attach(t, s.at[p], i, page, zeroes), Attached(s, p, i, page);
    forall q | q in s'.at ensures NodeOk(t', s', q) {
      AttachNode(t, s, p, i, page, zeroes, q);
    }
    forall q, j: nat ensures SlotOk(t', s', q, j) {
      assert SlotOk(t, s, q, j);
      if q in s.at { assert NodeOk(t, s, q); }
    }
    forall q, j | |q| + 1 == t.height ensures Slot(t', s', q, j) == Slot(t, s, q, j) {
      if q in s.at { assert NodeOk(t, s, q); }
    }
  }
}
