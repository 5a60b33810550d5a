/** Sets of buddy blocks: what splitting and coalescing mean for the pages they cover. */
module Blocks {
  import opened Dyadic

  /** The pages `[index * 2^order, (index + 1) * 2^order)` of a zone. */
  datatype Block = Block(order: nat, index: nat)

  predicate Covers(b: Block, p: nat) {
    Anc(p, b.order) == b.index
  }

  function Start(b: Block): nat {
    Shl(b.index, b.order)
  }

  function Size(b: Block): nat {
    Pow2(b.order)
  }

  function Buddy(b: Block): Block {
    Block(b.order, if b.index % 2 == 0 then b.index + 1 else b.index - 1)
  }

  function Parent(b: Block): Block {
    Block(b.order + 1, b.index / 2)
  }

  function Left(b: Block): Block
    requires b.order > 0
  {
    Block(b.order - 1, 2 * b.index)
  }

  function Right(b: Block): Block
    requires b.order > 0
  {
    Block(b.order - 1, 2 * b.index + 1)
  }

  ghost predicate Cov(s: set<Block>, p: nat) {
    exists b :: b in s && Covers(b, p)
  }

  ghost predicate Disjoint(s: set<Block>) {
    forall a, b, p: nat :: a in s && b in s && Covers(a, p) && Covers(b, p) ==> a == b
  }

  ghost predicate Apart(s: set<Block>, b: Block) {
    forall p: nat :: Covers(b, p) ==> !Cov(s, p)
  }

  /** No two partners of one order are both free. */
  ghost predicate Coalesced(s: set<Block>) {
    forall b :: b in s ==> Buddy(b) !in s
  }

  /** `t` covers the pages of `s` and of `b`. */
  ghost predicate CoversBoth(t: set<Block>, s: set<Block>, b: Block) {
    forall p: nat :: Cov(t, p) <==> Cov(s, p) || Covers(b, p)
  }

  lemma StartCovered(b: Block)
    ensures Covers(b, Start(b))
    ensures forall p: nat :: Covers(b, p) <==> Start(b) <= p < Start(b) + Size(b)
  {
    ShlMultiple(b.index, b.order);
    forall p: nat ensures Covers(b, p) <==> Start(b) <= p < Start(b) + Size(b) {
      AncInterval(p, b.order, b.index);
    }
  }

  lemma ApartNotIn(s: set<Block>, b: Block)
    requires Apart(s, b)
    ensures b !in s
  {
    StartCovered(b);
    assert b in s ==> Cov(s, Start(b));
  }

  lemma HalvesCover(b: Block, p: nat)
    requires b.order > 0
    ensures Covers(b, p) <==> Covers(Left(b), p) || Covers(Right(b), p)
    ensures !(Covers(Left(b), p) && Covers(Right(b), p))
  {
  }

  lemma ParentCover(b: Block, p: nat)
    ensures Covers(Parent(b), p) <==> Covers(b, p) || Covers(Buddy(b), p)
    ensures !(Covers(b, p) && Covers(Buddy(b), p))
  {
  }

  /** Blocks that share a page are nested: the larger one contains the smaller one. */
  lemma Nested(a: Block, b: Block, p: nat, q: nat)
    requires a.order <= b.order && Covers(a, p) && Covers(b, p) && Covers(a, q)
    ensures Covers(b, q)
  {
    AncCompose(p, a.order, b.order);
    AncCompose(q, a.order, b.order);
  }

  // ---------------------------------------------------------------- freeing

  /** Coalesce `b` with its partner while that partner is free, then list it. */
  ghost function Merge(s: set<Block>, b: Block): set<Block>
    decreases |s|
  {
    if Buddy(b) in s then Merge(s - {Buddy(b)}, Parent(b)) else s + {b}
  }

  lemma {:induction false} MergeStep(s: set<Block>, b: Block)
    requires Disjoint(s) && Apart(s, b) && Buddy(b) in s
    ensures var t := s - {Buddy(b)};
            Disjoint(t) && Apart(t, Parent(b))
            && forall p: nat :: Cov(t, p) || Covers(Parent(b), p) <==> Cov(s, p) || Covers(b, p)
  {
    var t := s - {Buddy(b)};
    forall p: nat
      ensures Covers(Parent(b), p) ==> !Cov(t, p)
      ensures Cov(t, p) || Covers(Parent(b), p) <==> Cov(s, p) || Covers(b, p)
    {
      ParentCover(b, p);
      if Cov(t, p) {
        var c :| c in t && Covers(c, p);
        assert Cov(s, p);
      }
      if Cov(s, p) {
        var c :| c in s && Covers(c, p);
        assert c == Buddy(b) || c in t;
      }
    }
  }

  lemma {:induction false} MergeKeeps(s: set<Block>, b: Block)
    requires Disjoint(s) && Coalesced(s) && Apart(s, b)
    ensures Disjoint(Merge(s, b)) && Coalesced(Merge(s, b)) && CoversBoth(Merge(s, b), s, b)
    decreases |s|
  {
    if Buddy(b) in s {
      MergeStep(s, b);
      MergeKeeps(s - {Buddy(b)}, Parent(b));
    } else {
      AddKeeps(s, b);
    }
  }

  lemma AddKeeps(s: set<Block>, b: Block)
    requires Disjoint(s) && Coalesced(s) && Apart(s, b) && Buddy(b) !in s
    ensures var t := s + {b}; Disjoint(t) && Coalesced(t) && CoversBoth(t, s, b)
  {
    var t := s + {b};
    forall c | c in t ensures Buddy(c) !in t {
      assert Buddy(Buddy(c)) == c;
    }
    forall p: nat ensures Cov(t, p) <==> Cov(s, p) || Covers(b, p) {
      if Cov(t, p) { var c :| c in t && Covers(c, p); assert c == b || c in s; }
      if Cov(s, p) { var c :| c in s && Covers(c, p); assert c in t; }
      assert b in t;
    }
    forall x, y, p: nat | x in t && y in t && Covers(x, p) && Covers(y, p) ensures x == y {
      assert x in s ==> Cov(s, p);
      assert y in s ==> Cov(s, p);
    }
  }

  // ------------------------------------------------------------- allocating

  /** Halve `b` down to order `k`, listing every right half; the left end is handed out. */
  ghost function Split(s: set<Block>, b: Block, k: nat): (set<Block>, Block)
    requires k <= b.order
    decreases b.order
  {
    if b.order == k then (s, b) else Split(s + {Right(b)}, Left(b), k)
  }

  lemma {:induction false} SplitKeeps(s: set<Block>, b: Block, k: nat)
    requires k <= b.order && Disjoint(s) && Coalesced(s) && Apart(s, b)
    ensures var (t, a) := Split(s, b, k);
            && Disjoint(t) && Coalesced(t) && Apart(t, a)
            && a.order == k && Start(a) == Start(b)
            && forall p: nat :: Cov(t, p) || Covers(a, p) <==> Cov(s, p) || Covers(b, p)
    decreases b.order
  {
    if b.order > k {
      SplitStep(s, b);
      var t := s + {Right(b)};
      SplitKeeps(t, Left(b), k);
      forall p: nat ensures Cov(t, p) || Covers(Left(b), p) <==> Cov(s, p) || Covers(b, p) {
        HalvesCover(b, p);
      }
      ShlNext(b.index, b.order - 1);
    }
  }

  lemma SplitStep(s: set<Block>, b: Block)
    requires b.order > 0 && Disjoint(s) && Coalesced(s) && Apart(s, b)
    ensures var t := s + {Right(b)};
            Disjoint(t) && Coalesced(t) && CoversBoth(t, s, Right(b)) && Apart(t, Left(b))
  {
    forall p: nat | Covers(Right(b), p) || Covers(Left(b), p) ensures !Cov(s, p) {
      HalvesCover(b, p);
    }
    assert Apart(s, Left(b)) && Apart(s, Right(b));
    ApartNotIn(s, Left(b));
    assert Buddy(Right(b)) == Left(b);
    AddKeeps(s, Right(b));
    forall p: nat | Covers(Left(b), p) ensures !Cov(s + {Right(b)}, p) {
      HalvesCover(b, p);
    }
  }

  // -------------------------------------------------------- canonical form

  /** A coalesced set that covers a whole block contains a block around it. */
  lemma {:induction false} Enclosing(s: set<Block>, b: Block) returns (c: Block)
    requires Coalesced(s)
    requires forall p: nat :: Covers(b, p) ==> Cov(s, p)
    ensures c in s && c.order >= b.order && Covers(c, Start(b))
    decreases b.order
  {
    StartCovered(b);
    if b.order == 0 {
      c :| c in s && Covers(c, Start(b));
    } else {
      forall p: nat ensures Covers(b, p) <==> Covers(Left(b), p) || Covers(Right(b), p) {
        HalvesCover(b, p);
      }
      StartCovered(Left(b));
      StartCovered(Right(b));
      var l := Enclosing(s, Left(b));
      var r := Enclosing(s, Right(b));
      assert Buddy(Left(b)) == Right(b);
      if l.order >= b.order {
        ShlNext(b.index, b.order - 1);
        c := l;
      } else if r.order >= b.order {
        Nested(b, r, Start(Right(b)), Start(b));
        c := r;
      } else {
        assert false;
      }
    }
  }

  ghost predicate SamePages(s: set<Block>, t: set<Block>) {
    forall p: nat :: Cov(s, p) <==> Cov(t, p)
  }

  lemma CanonicalSubset(s: set<Block>, t: set<Block>, b: Block)
    requires Disjoint(s) && Coalesced(s) && Disjoint(t) && Coalesced(t) && SamePages(s, t)
    requires b in s
    ensures b in t
  {
    StartCovered(b);
    forall p: nat | Covers(b, p) ensures Cov(t, p) { assert Cov(s, p); }
    var c := Enclosing(t, b);
    StartCovered(c);
    forall p: nat | Covers(c, p) ensures Cov(s, p) { assert Cov(t, p); }
    var d := Enclosing(s, c);
    StartCovered(d);
    Nested(c, d, Start(c), Start(b));
    assert d == b;
  }

  /** Coalesced form is canonical: the covered pages determine the blocks of every order. */
  lemma Canonical(s: set<Block>, t: set<Block>)
    requires Disjoint(s) && Coalesced(s) && Disjoint(t) && Coalesced(t) && SamePages(s, t)
    ensures s == t
  {
    forall b | b in s ensures b in t { CanonicalSubset(s, t, b); }
    forall b | b in t ensures b in s { CanonicalSubset(t, s, b); }
  }
}
