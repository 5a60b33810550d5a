/** The page numbers that the linked lists carry, and how moving a node changes them. */
module CarriedLists {
  import opened Common
  import opened ZoneLists
  import opened NodeLists

  /** The page numbers that a list of nodes carries. */
  ghost function Numbers(cells: map<Addr, FreeNode>, s: seq<Addr>): seq<nat> {
    if s == [] then []
    else [if s[0] in cells then cells[s[0]].pageNumber else 0] + Numbers(cells, s[1..])
  }

  lemma {:induction false} NumbersAt(cells: map<Addr, FreeNode>, s: seq<Addr>)
    ensures |Numbers(cells, s)| == |s|
    ensures forall i :: 0 <= i < |s| && s[i] in cells ==> Numbers(cells, s)[i] == cells[s[i]].pageNumber
  {
    if s != [] {
      NumbersAt(cells, s[1..]);
      forall i | 0 <= i < |s| && s[i] in cells ensures Numbers(cells, s)[i] == cells[s[i]].pageNumber {
        if i > 0 { assert s[i] == s[1..][i - 1]; }
      }
    }
  }

  /** Lists that do not hold a node, or whose page number stays, carry the same numbers. */
  lemma {:induction false} NumbersFrame(cells: map<Addr, FreeNode>, s: seq<Addr>, a: Addr, node: FreeNode)
    requires a !in s || (a in cells && node.pageNumber == cells[a].pageNumber)
    ensures Numbers(cells[a := node], s) == Numbers(cells, s)
  {
    if s != [] { NumbersFrame(cells, s[1..], a, node); }
  }

  /** The page numbers on the zones' lists are `views`. */
  ghost predicate Carried(m: Memory, y: Layout, views: seq<Lists>) {
    && (forall l {:trigger IsList(views, l)} :: l in y.chains <==> IsList(views, l))
    && forall z: nat, k: nat {:trigger CarriedAt(m, y, views, z, k)} :: z < |views| && k < MAX_POW ==>
      CarriedAt(m, y, views, z, k)
  }

  predicate IsList(views: seq<Lists>, l: List) {
    l == Pool || (l.zone < |views| && l.pow < MAX_POW)
  }

  ghost predicate CarriedAt(m: Memory, y: Layout, views: seq<Lists>, z: nat, k: nat) {
    && z < |views| && k < MAX_POW && Order(z, k) in y.chains
    && views[z][k] == Numbers(m.cells, y.chains[Order(z, k)])
  }

  lemma AddedCarried(m: Memory, y: Layout, views: seq<Lists>, z: nat, pow: nat, a: Addr, node: FreeNode, w: nat, k: nat)
    requires Linked(m, y) && Carried(m, y, views) && z < |views| && pow < MAX_POW && w < |views| && k < MAX_POW
    requires a in y.place && y.place[a] == Pool
    ensures CarriedAt(m, y, views, w, k)
    ensures var s := y.chains[Order(w, k)];
            && (!(w == z && k == pow) ==> views[w][k] == Numbers(m.cells[a := node], s))
            && AddFront(views[w], k, node.pageNumber)[k] == Numbers(m.cells[a := node], [a] + s)
  {
    assert CarriedAt(m, y, views, w, k);
    var s := y.chains[Order(w, k)];
    NotOn(m, y, a, Order(w, k));
    NumbersFrame(m.cells, s, a, node);
    assert ([a] + s)[1..] == s;
  }

  lemma AddNodeCarried(m: Memory, y: Layout, views: seq<Lists>, z: nat, pow: nat, x: nat)
    requires Linked(m, y) && Carried(m, y, views) && z < |views| && pow < MAX_POW && m.heads[Pool].Some?
    ensures y.chains[Pool] != [] && y.chains[Pool][0] in m.cells
    ensures m.heads[Pool].value in m.cells && Order(z, pow) in m.heads
    ensures Linked(MoveFirst(m, Pool, Order(z, pow), x), MovedFirst(y, Pool, Order(z, pow)))
    ensures Carried(MoveFirst(m, Pool, Order(z, pow), x), MovedFirst(y, Pool, Order(z, pow)),
                    views[z := AddFront(views[z], pow, x)])
  {
    var to := Order(z, pow);
    assert CarriedAt(m, y, views, z, pow);
    MoveFirstKeeps(m, y, Pool, to, x);
    var a := y.chains[Pool][0];
    FirstNode(m, y, Pool);
    var m', y' := MoveFirst(m, Pool, to, x), MovedFirst(y, Pool, to);
    var views' := views[z := AddFront(views[z], pow, x)];
    assert forall l {:trigger IsList(views', l)} :: IsList(views', l) <==> IsList(views, l);
    forall w: nat, k: nat | w < |views'| && k < MAX_POW ensures CarriedAt(m', y', views', w, k) {
      AddedCarried(m, y, views, z, pow, a, FreeNode(x, m.heads[to]), w, k);
    }
  }

  ghost predicate SameNumbers(cells: map<Addr, FreeNode>, cells': map<Addr, FreeNode>) {
    cells.Keys == cells'.Keys && forall a :: a in cells ==> cells'[a].pageNumber == cells[a].pageNumber
  }

  lemma {:induction false} NumbersSame(cells: map<Addr, FreeNode>, cells': map<Addr, FreeNode>, s: seq<Addr>)
    requires SameNumbers(cells, cells')
    ensures Numbers(cells', s) == Numbers(cells, s)
  {
    if s != [] { NumbersSame(cells, cells', s[1..]); }
  }

  /** Moving nodes from one list to the pool changes what that list carries, and no other. */
  lemma TakenCarried(m: Memory, y: Layout, views: seq<Lists>, z: nat, pow: nat, m': Memory, y': Layout, v: seq<nat>)
    requires Carried(m, y, views) && z < |views| && pow < MAX_POW
    requires SameBut(y, y', Order(z, pow), Pool) && SameNumbers(m.cells, m'.cells)
    requires Order(z, pow) in y'.chains && v == Numbers(m.cells, y'.chains[Order(z, pow)])
    ensures Carried(m', y', views[z := views[z][pow := v]])
  {
    var views' := views[z := views[z][pow := v]];
    assert forall l {:trigger IsList(views', l)} :: IsList(views', l) <==> IsList(views, l);
    forall w: nat, k: nat | w < |views'| && k < MAX_POW ensures CarriedAt(m', y', views', w, k) {
      assert CarriedAt(m, y, views, w, k);
      NumbersSame(m.cells, m'.cells, y'.chains[Order(w, k)]);
    }
  }

  lemma TakeFirstCarried(m: Memory, y: Layout, views: seq<Lists>, z: nat, pow: nat)
    requires Linked(m, y) && Carried(m, y, views) && z < |views| && pow < MAX_POW
    requires Order(z, pow) in m.heads && m.heads[Order(z, pow)].Some?
    ensures var from := Order(z, pow);
            && m.heads[from].value in m.cells && Pool in m.heads
            && var x := m.cells[m.heads[from].value].pageNumber;
            && y.chains[from] != [] && views[z][pow] != [] && views[z][pow][0] == x
            && Linked(MoveFirst(m, from, Pool, x), MovedFirst(y, from, Pool))
            && Carried(MoveFirst(m, from, Pool, x), MovedFirst(y, from, Pool),
              views[z := views[z][pow := views[z][pow][1..]]])
  {
    var from := Order(z, pow);
    assert CarriedAt(m, y, views, z, pow);
    FirstNode(m, y, from);
    var x := m.cells[m.heads[from].value].pageNumber;
    MoveFirstKeeps(m, y, from, Pool, x);
    TakenCarried(m, y, views, z, pow, MoveFirst(m, from, Pool, x), MovedFirst(y, from, Pool), views[z][pow][1..]);
  }

  lemma {:induction false} NumbersWithout(cells: map<Addr, FreeNode>, s: seq<Addr>, i: nat)
    requires i < |s|
    ensures |Numbers(cells, s)| == |s|
    ensures Numbers(cells, Without(s, i)) == Numbers(cells, s)[..i] + Numbers(cells, s)[i + 1..]
    decreases i
  {
    NumbersAt(cells, s);
    if i == 0 {
      assert Without(s, 0) == s[1..];
    } else {
      NumbersWithout(cells, s[1..], i - 1);
      assert Without(s, i)[1..] == Without(s[1..], i - 1);
    }
  }

  lemma MoveAtNumbers(m: Memory, p: Addr, a: Addr)
    requires p in m.cells && a in m.cells && Pool in m.heads
    ensures SameNumbers(m.cells, MoveAt(m, p, a).cells)
  {
  }

  lemma TakeAtCarried(m: Memory, y: Layout, views: seq<Lists>, z: nat, pow: nat, i: nat)
    requires Linked(m, y) && Carried(m, y, views) && z < |views| && pow < MAX_POW
    requires Order(z, pow) in y.chains && 0 < i < |y.chains[Order(z, pow)]|
    ensures var s := y.chains[Order(z, pow)];
            var v := views[z][pow];
            && s[i] in m.cells && s[i - 1] in m.cells && Pool in m.heads && |v| == |s|
            && Linked(MoveAt(m, s[i - 1], s[i]), MovedAt(y, Order(z, pow), i))
            && Carried(MoveAt(m, s[i - 1], s[i]), MovedAt(y, Order(z, pow), i),
              views[z := views[z][pow := v[..i] + v[i + 1..]]])
  {
    var from := Order(z, pow);
    assert CarriedAt(m, y, views, z, pow);
    var s := y.chains[from];
    var v := views[z][pow];
    MoveAtKeeps(m, y, from, i);
    NumbersWithout(m.cells, s, i);
    MoveAtNumbers(m, s[i - 1], s[i]);
    assert v == Numbers(m.cells, s) && MovedAt(y, from, i).chains[from] == Without(s, i);
    TakenCarried(m, y, views, z, pow, MoveAt(m, s[i - 1], s[i]), MovedAt(y, from, i), v[..i] + v[i + 1..]);
  }

  lemma {:induction false} RemoveAt(v: seq<nat>, x: int, i: nat)
    requires i < |v| && v[i] == x && x !in v[..i]
    ensures x in v && Remove(v, x) == v[..i] + v[i + 1..]
    decreases i
  {
    if i == 0 {
      assert v[..0] + v[1..] == v[1..];
    } else {
      assert v[0] == v[..i][0];
      assert v[1..][..i - 1] == v[..i][1..];
      RemoveAt(v[1..], x, i - 1);
      assert v[..i] + v[i + 1..] == [v[0]] + (v[1..][..i - 1] + v[1..][i..]);
    }
  }

  lemma {:induction false} NumbersGrow(cells: map<Addr, FreeNode>, place: map<Addr, List>, head: Option<Addr>,
      s: seq<Addr>, l: List,
                    cells': map<Addr, FreeNode>)
    requires Chain(cells, place, head, s, l)
    requires forall a {:trigger cells[a]} {:trigger a in cells} :: a in cells ==> a in cells' && cells'[a] == cells[a]
    ensures Numbers(cells', s) == Numbers(cells, s)
    decreases |s|
  {
    if s != [] { NumbersGrow(cells, place, cells[s[0]].next, s[1..], l, cells'); }
  }

  /** New nodes in the pool do not change what the zones' lists carry. */
  lemma GrownCarried(m: Memory, y: Layout, views: seq<Lists>, page: Option<nat>, n: nat, cells: map<Addr, FreeNode>)
    requires Linked(m, y) && Carried(m, y, views) && n > 0 && Extends(m, page, n, cells)
    ensures Linked(Memory(cells, m.heads[Pool := Some(NodeAt(page, 0))]), Grown(y, page, n))
    ensures Carried(Memory(cells, m.heads[Pool := Some(NodeAt(page, 0))]), Grown(y, page, n), views)
    ensures |Grown(y, page, n).chains[Pool]| == |y.chains[Pool]| + n
  {
    GrownLinked(m, y, page, n, cells);
    NodesFromMembers(page, 0, n);
    var m', y' := Memory(cells, m.heads[Pool := Some(NodeAt(page, 0))]), Grown(y, page, n);
    forall z: nat, k: nat | z < |views| && k < MAX_POW ensures CarriedAt(m', y', views, z, k) {
      assert CarriedAt(m, y, views, z, k) && ChainOf(m, y, Order(z, k));
      NumbersGrow(m.cells, y.place, m.heads[Order(z, k)], y.chains[Order(z, k)], Order(z, k), cells);
    }
  }

  /** A new zone brings one empty list for each order. */
  function WithZone(m: Memory, z: nat): Memory {
    m.(heads := m.heads + map l: List | l in ZoneOrders(z, |Empty()|) :: None)
  }

  function ZoneOrders(z: nat, n: nat): (r: set<List>)
    ensures forall l :: l in r <==> l.Order? && l.zone == z && l.pow < n
  {
    if n == 0 then {} else ZoneOrders(z, n - 1) + {Order(z, n - 1)}
  }

  ghost function LaidZone(y: Layout, z: nat): Layout {
    y.(chains := y.chains + map l: List | l in ZoneOrders(z, |Empty()|) :: [])
  }

  lemma WithZoneCarried(m: Memory, y: Layout, views: seq<Lists>)
    requires Linked(m, y) && Carried(m, y, views)
    ensures Linked(WithZone(m, |views|), LaidZone(y, |views|))
    ensures Carried(WithZone(m, |views|), LaidZone(y, |views|), views + [Empty()])
    ensures LaidZone(y, |views|).chains[Pool] == y.chains[Pool]
  {
    var z := |views|;
    var m', y', views' := WithZone(m, z), LaidZone(y, z), views + [Empty()];
    forall l | l in y'.chains ensures ChainOf(m', y', l) {
      if l !in ZoneOrders(z, |Empty()|) { assert ChainOf(m, y, l); }
    }
    forall a | a in m'.cells ensures Placed(y', a) {
      assert Placed(y, a);
      assert IsList(views, y.place[a]);
    }
    forall l ensures l in y'.chains <==> IsList(views', l) {
      assert l in y.chains <==> IsList(views, l);
    }
    forall w: nat, k: nat | w < |views'| && k < MAX_POW ensures CarriedAt(m', y', views', w, k) {
      if w < z { assert CarriedAt(m, y, views, w, k); }
    }
  }
}
