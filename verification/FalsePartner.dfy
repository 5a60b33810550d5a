/** A run of the merge loop as written that lists a page which is still allocated. */
module FalsePartner {
  import opened Common
  import opened Dyadic
  import opened Blocks
  import opened ZoneLists
  import opened ZoneRuns
  import opened ZoneTotals

  /** An 8-page zone: the lists of orders 0 to 3; all larger orders are empty. */
  function Small(o0: seq<nat>, o1: seq<nat>, o2: seq<nat>, o3: seq<nat>): Lists {
    Empty()[0 := o0][1 := o1][2 := o2][3 := o3]
  }

  lemma Powers()
    ensures Pow2(0) == 1 && Pow2(1) == 2 && Pow2(2) == 4 && Pow2(3) == 8 && Pow2(4) == 16
  {
  }

  /** Adding in front of a list, and taking its first node, list by list. */
  lemma SmallLists(o0: seq<nat>, o1: seq<nat>, o2: seq<nat>, o3: seq<nat>, x: nat)
    ensures var l := Small(o0, o1, o2, o3);
      && AddFront(l, 0, x) == Small([x] + o0, o1, o2, o3)
      && AddFront(l, 1, x) == Small(o0, [x] + o1, o2, o3)
      && AddFront(l, 2, x) == Small(o0, o1, [x] + o2, o3)
      && AddFront(l, 3, x) == Small(o0, o1, o2, [x] + o3)
      && [x] + [] == [x] && [x][1..] == []
  {
  }

  lemma Fresh()
    ensures 8 < MAX_PAGES && NewLists(8) == Small([], [], [], [0])
  {
    Powers();
    var pages, k := 8, 3;
    LeadsStart(pages, NewCount(pages));
    LeadsNext(Empty(), 0, pages, |Empty()|, NewLists(pages), NewCount(pages), k);
    LeadsEnd(AddFront(Empty(), k, 0), Pow2(k), k, NewLists(pages), NewCount(pages) - 1);
    assert Empty() == Small([], [], [], []);
    SmallLists([], [], [], [], 0);
  }

  lemma FourAllocations()
    ensures Alloc(Small([], [], [], [0]), 0) == Allocated(Small([1], [2], [4], []), 0)
    ensures Alloc(Small([1], [2], [4], []), 0) == Allocated(Small([], [2], [4], []), 1)
    ensures Alloc(Small([], [2], [4], []), 1) == Allocated(Small([], [], [4], []), 2)
    ensures Alloc(Small([], [], [4], []), 0) == Allocated(Small([5], [6], [], []), 4)
  {
    Powers();
    var a, b, c, d := Small([], [], [], [0]), Small([1], [2], [4], []), Small([], [2], [4], []), Small([], [], [4], []);
    assert FirstFrom(a, 0) == 3 && FirstFrom(b, 0) == 0 && FirstFrom(c, 1) == 1 && FirstFrom(d, 0) == 2;
    var e := Small([], [], [], []);
    assert a[3 := a[3][1..]] == e by { SmallLists([], [], [], [], 0); }
    assert d[2 := d[2][1..]] == e by { SmallLists([], [], [], [], 4); }
    SmallLists([], [], [], [], 4);
    SmallLists([], [], [4], [], 2);
    SmallLists([], [2], [4], [], 1);
    assert SplitLists(e, 0, 3, 0) == SplitLists(Small([], [], [4], []), 0, 2, 0) == SplitLists(c, 0, 1, 0);
    SmallLists([], [], [], [], 6);
    SmallLists([], [6], [], [], 5);
    assert SplitLists(e, 4, 2, 0) == SplitLists(Small([], [6], [], []), 4, 1, 0);
    assert b[0 := b[0][1..]] == c && c[1 := c[1][1..]] == d;
  }

  lemma TwoFrees()
    ensures WrittenFree(Small([5], [6], [], []), Block(1, 1)) == Some(Small([5], [2, 6], [], []))
    ensures NoFalsePartner(Small([5], [6], [], []), 2, 1)
    ensures WrittenFree(Small([5], [2, 6], [], []), Block(0, 0)) == Some(Small([5], [0, 6], [], []))
  {
    Powers();
    var a, b, c := Small([5], [6], [], []), Small([5], [2, 6], [], []), Small([5], [6], [], []);
    assert Partner(2, 1) == 0 && Partner(0, 0) == 1 && Partner(0, 1) == 2;
    SmallLists([5], [6], [], [], 2);
    SmallLists([5], [6], [], [], 0);
    assert [2] + [6] == [2, 6] && [0] + [6] == [0, 6] && [2, 6][1..] == [6];
    assert b[1 := Remove(b[1], 2)] == c;
  }

  const OPS := [AllocOp(0), AllocOp(0), AllocOp(1), AllocOp(0), FreeOp(Block(1, 1))]

  function At(i: nat): Zone {
    var p0, p1, p23, p4 := Block(0, 0), Block(0, 1), Block(1, 1), Block(0, 4);
    match i
    case 0 => Zone(Small([], [], [], [0]), {})
    case 1 => Zone(Small([1], [2], [4], []), {p0})
    case 2 => Zone(Small([], [2], [4], []), {p0, p1})
    case 3 => Zone(Small([], [], [4], []), {p0, p1, p23})
    case 4 => Zone(Small([5], [6], [], []), {p0, p1, p23, p4})
    case _ => Zone(Small([5], [2, 6], [], []), {p0, p1, p4})
  }

  lemma AllocSteps(i: nat)
    requires i < 4
    ensures Step(At(i), OPS[i], false) == Some(At(i + 1))
  {
    FourAllocations();
    match i
    case 0 => AllocStep(At(0), 0, At(1).lists, 0, Block(0, 0), At(1));
    case 1 => AllocStep(At(1), 0, At(2).lists, 1, Block(0, 1), At(2));
    case 2 => AllocStep(At(2), 1, At(3).lists, 2, Block(1, 1), At(3));
    case 3 => AllocStep(At(3), 0, At(4).lists, 4, Block(0, 4), At(4));
  }

  lemma AllocStep(z: Zone, k: nat, l: Lists, x: nat, a: Block, z': Zone)
    requires Alloc(z.lists, k) == Allocated(l, x) && a == Block(k, Anc(x, k)) && z' == Zone(l, z.live + {a})
    ensures Step(z, AllocOp(k), false) == Some(z')
  {
  }

  lemma FreeStep()
    ensures Step(At(4), OPS[4], false) == Some(At(5)) && Legal(At(4), OPS[4], false)
  {
    TwoFrees();
    Powers();
    assert At(4).live - {Block(1, 1)} == At(5).live;
  }

  /**
   * After four allocations and one free, all legal, freeing page 0 takes `[2, 4)` for its
   * partner and lists `[0, 2)`, although page 1 is live; pages 2 and 3 are free and no longer listed.
   */
  lemma FalsePartnerWitness() returns (states: seq<Zone>)
    ensures Run(8, states, OPS, false)
    ensures Block(0, 0) in states[5].live && Block(0, 1) in states[5].live && Covers(Block(0, 1), 1)
    ensures !Cov(states[5].live, 2) && !Cov(states[5].live, 3)
    ensures var r := WrittenFree(states[5].lists, Block(0, 0));
            r.Some? && Cov(Abs(r.value), 1) && !Cov(Abs(r.value), 2) && !Cov(Abs(r.value), 3)
  {
    states := LegalRun();
    AfterFalsePartner();
    FreeThen();
  }

  lemma LegalRun() returns (states: seq<Zone>)
    ensures Run(8, states, OPS, false) && states[5] == At(5)
  {
    Fresh();
    states := [At(0), At(1), At(2), At(3), At(4), At(5)];
    forall i | 0 <= i < 5
      ensures Legal(states[i], OPS[i], false) && Step(states[i], OPS[i], false) == Some(states[i + 1])
    {
      if i < 4 { AllocSteps(i); } else { FreeStep(); }
    }
  }

  lemma FreeThen()
    ensures !Cov(At(5).live, 2) && !Cov(At(5).live, 3)
  {
    assert Anc(2, 0) == 2 && Anc(3, 0) == 3;
    forall b | b in At(5).live ensures !Covers(b, 2) && !Covers(b, 3) {
      assert b == Block(0, 0) || b == Block(0, 1) || b == Block(0, 4);
    }
  }

  lemma AfterFalsePartner()
    ensures var r := WrittenFree(At(5).lists, Block(0, 0));
            r.Some? && Cov(Abs(r.value), 1) && !Cov(Abs(r.value), 2) && !Cov(Abs(r.value), 3)
  {
    TwoFrees();
    var l := Small([5], [0, 6], [], []);
    assert 0 in l[1] && Block(1, Anc(0, 1)) in Abs(l) && Covers(Block(1, 0), 1);
    forall b | b in Abs(l) ensures !Covers(b, 2) && !Covers(b, 3) {
      var k, x :| 0 <= k < MAX_POW && x in l[k] && b == Block(k, Anc(x, k));
      assert k < 2;
      assert Anc(2, 0) == 2 && Anc(2, 1) == 1 && Anc(5, 0) == 5 && Anc(6, 1) == 3;
      assert Anc(3, 0) == 3 && Anc(3, 1) == 1;
    }
  }
}
