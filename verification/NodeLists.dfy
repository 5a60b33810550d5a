/** The linked lists of free nodes, as cells of memory that point at each other. */
module NodeLists {
  import opened Common
  import opened ZoneLists

  /** A node of the static pool, or node `index` of the extended pool stored at page `page`. */
  datatype Addr = Static(index: nat) | InPage(page: nat, index: nat)

  datatype FreeNode = FreeNode(pageNumber: nat, next: Option<Addr>)

  /** The lists: the pool of unused nodes, and one list for each order of each zone. */
  datatype List = Pool | Order(zone: nat, pow: nat)

  /** The memory that holds the nodes, and the head pointer of every list. */
  datatype Memory = Memory(cells: map<Addr, FreeNode>, heads: map<List, Option<Addr>>)

  /** The nodes of every list in order, and the list that each node is on. */
  datatype Layout = Layout(chains: map<List, seq<Addr>>, place: map<Addr, List>)

  /** The list at `head` runs through exactly the distinct nodes `s` and ends in null; all of them are placed on `l`. */
  ghost predicate Chain(cells: map<Addr, FreeNode>, place: map<Addr, List>, head: Option<Addr>, s: seq<Addr>, l: List)
    decreases |s|
  {
    if s == [] then head == None
    else
      && head == Some(s[0]) && s[0] in cells && s[0] !in s[1..]
      && s[0] in place && place[s[0]] == l
      && Chain(cells, place, cells[s[0]].next, s[1..], l)
  }

  ghost predicate Placed(y: Layout, a: Addr) {
    a in y.place && y.place[a] in y.chains && a in y.chains[y.place[a]]
  }

  ghost predicate ChainOf(m: Memory, y: Layout, l: List) {
    l in y.chains && l in m.heads && Chain(m.cells, y.place, m.heads[l], y.chains[l], l)
  }

  /** Every node is on exactly one list, and every list is acyclic and ends in null. */
  ghost predicate Linked(m: Memory, y: Layout) {
    && Pool in y.chains && m.heads.Keys == y.chains.Keys
    && (forall l {:trigger ChainOf(m, y, l)} :: l in y.chains ==> ChainOf(m, y, l))
    && (forall a {:trigger Placed(y, a)} :: a in m.cells ==> Placed(y, a))
  }

  ghost predicate SameBut(y: Layout, y': Layout, l1: List, l2: List) {
    y.chains.Keys == y'.chains.Keys
    && forall l :: l in y.chains && l != l1 && l != l2 ==> y'.chains[l] == y.chains[l]
  }

  lemma {:induction false} ChainMember(cells: map<Addr, FreeNode>, place: map<Addr, List>, head: Option<Addr>,
      s: seq<Addr>, l: List, i: nat)
    requires Chain(cells, place, head, s, l) && i < |s|
    ensures s[i] in cells && s[i] in place && place[s[i]] == l
    ensures cells[s[i]].next == if i + 1 < |s| then Some(s[i + 1]) else None
    ensures s[i] !in s[..i] && s[i] !in s[i + 1..]
    decreases |s|
  {
    if i > 0 {
      ChainMember(cells, place, cells[s[0]].next, s[1..], l, i - 1);
      assert s[1..][i - 1] == s[i] && s[1..][..i - 1] == s[..i][1..] && s[1..][i..] == s[i + 1..];
      assert s[i] in s[1..];
    }
  }

  /** A node's list and position determine it. */
  lemma OnOneList(m: Memory, y: Layout, l: List, i: nat, l': List, i': nat)
    requires Linked(m, y) && l in y.chains && l' in y.chains && i < |y.chains[l]| && i' < |y.chains[l']|
    ensures y.chains[l][i] == y.chains[l'][i'] <==> l == l' && i == i'
  {
    assert ChainOf(m, y, l) && ChainOf(m, y, l');
    ChainMember(m.cells, y.place, m.heads[l], y.chains[l], l, i);
    ChainMember(m.cells, y.place, m.heads[l'], y.chains[l'], l', i');
    var s := y.chains[l];
    if l == l' && i' < i { assert s[i'] == s[..i][i']; }
    if l == l' && i < i' { assert s[i] == s[..i'][i]; }
  }

  lemma {:induction false} ChainFrame(cells: map<Addr, FreeNode>, place: map<Addr, List>, head: Option<Addr>,
      s: seq<Addr>, l: List,
                   a: Addr, node: FreeNode, to: List)
    requires Chain(cells, place, head, s, l) && a !in s
    ensures Chain(cells[a := node], place[a := to], head, s, l)
    decreases |s|
  {
    if s != [] { ChainFrame(cells, place, cells[s[0]].next, s[1..], l, a, node, to); }
  }

  lemma ChainPush(cells: map<Addr, FreeNode>, place: map<Addr, List>, head: Option<Addr>, s: seq<Addr>, l: List,
                  a: Addr, x: nat)
    requires Chain(cells, place, head, s, l) && a !in s
    ensures Chain(cells[a := FreeNode(x, head)], place[a := l], Some(a), [a] + s, l)
  {
    ChainFrame(cells, place, head, s, l, a, FreeNode(x, head), l);
    assert ([a] + s)[1..] == s;
  }

  lemma NotOn(m: Memory, y: Layout, a: Addr, l: List)
    requires Linked(m, y) && a in y.place && l in y.chains && y.place[a] != l
    ensures a !in y.chains[l]
  {
    assert ChainOf(m, y, l);
    if a in y.chains[l] {
      var i :| 0 <= i < |y.chains[l]| && y.chains[l][i] == a;
      ChainMember(m.cells, y.place, m.heads[l], y.chains[l], l, i);
    }
  }

  lemma FirstNode(m: Memory, y: Layout, l: List)
    requires Linked(m, y) && l in y.chains
    ensures l in m.heads && (m.heads[l].None? <==> y.chains[l] == [])
    ensures m.heads[l].Some? ==>
      && m.heads[l].value == y.chains[l][0] && m.heads[l].value in m.cells
      && m.heads[l].value in y.place && y.place[m.heads[l].value] == l
  {
    assert ChainOf(m, y, l);
  }

  // ------------------------------------------------------------- moving nodes

  /** Unlink the first node of `from` and put it, carrying `x`, in front of `to`. */
  function MoveFirst(m: Memory, from: List, to: List, x: nat): Memory
    requires from in m.heads && to in m.heads && m.heads[from].Some? && m.heads[from].value in m.cells
  {
    var a := m.heads[from].value;
    Memory(m.cells[a := FreeNode(x, m.heads[to])],
           m.heads[from := m.cells[a].next][to := Some(a)])
  }

  ghost function MovedFirst(y: Layout, from: List, to: List): Layout
    requires from in y.chains && to in y.chains && y.chains[from] != []
  {
    var a := y.chains[from][0];
    Layout(y.chains[from := y.chains[from][1..]][to := [a] + y.chains[to]], y.place[a := to])
  }

  lemma MoveFirstChain(m: Memory, y: Layout, from: List, to: List, x: nat, l: List)
    requires Linked(m, y) && from in y.chains && to in y.chains && from != to && l in y.chains
    requires m.heads[from].Some? && y.chains[from] != []
    requires var a := y.chains[from][0]; m.heads[from].value == a && a in m.cells && a in y.place && y.place[a] == from
    ensures ChainOf(MoveFirst(m, from, to, x), MovedFirst(y, from, to), l)
  {
    var a := y.chains[from][0];
    var node := FreeNode(x, m.heads[to]);
    assert ChainOf(m, y, l);
    if l == from {
      ChainFrame(m.cells, y.place, m.cells[a].next, y.chains[l][1..], l, a, node, to);
    } else {
      NotOn(m, y, a, l);
      if l == to {
        ChainPush(m.cells, y.place, m.heads[l], y.chains[l], l, a, x);
      } else {
        ChainFrame(m.cells, y.place, m.heads[l], y.chains[l], l, a, node, to);
      }
    }
  }

  lemma MoveFirstKeeps(m: Memory, y: Layout, from: List, to: List, x: nat)
    requires Linked(m, y) && from in y.chains && to in y.chains && from != to
    requires from in m.heads && m.heads[from].Some?
    ensures y.chains[from] != [] && m.heads[from].value == y.chains[from][0]
    ensures y.chains[from][0] in m.cells && to in m.heads
    ensures Linked(MoveFirst(m, from, to, x), MovedFirst(y, from, to))
    ensures SameBut(y, MovedFirst(y, from, to), from, to)
  {
    FirstNode(m, y, from);
    var m', y' := MoveFirst(m, from, to, x), MovedFirst(y, from, to);
    forall l | l in y'.chains ensures ChainOf(m', y', l) {
      MoveFirstChain(m, y, from, to, x, l);
    }
    forall b | b in m'.cells ensures Placed(y', b) {
      MovedFirstPlaced(m, y, from, to, b);
    }
  }

  lemma MovedFirstPlaced(m: Memory, y: Layout, from: List, to: List, b: Addr)
    requires Linked(m, y) && from in y.chains && to in y.chains && from != to && y.chains[from] != []
    requires b in m.cells
    ensures Placed(MovedFirst(y, from, to), b)
  {
    var a := y.chains[from][0];
    var y' := MovedFirst(y, from, to);
    assert Placed(y, b);
    if b == a {
      assert y'.chains[to][0] == a;
    } else if y.place[b] == from {
      assert y.chains[from] == [a] + y.chains[from][1..];
    }
  }

  /** Unlink `a` by redirecting its predecessor `before`, and put it in front of the pool. */
  function MoveAt(m: Memory, before: Addr, a: Addr): Memory
    requires before in m.cells && a in m.cells && Pool in m.heads
  {
    Memory(m.cells[before := m.cells[before].(next := m.cells[a].next)][a := m.cells[a].(next := m.heads[Pool])],
           m.heads[Pool := Some(a)])
  }

  ghost function Without(s: seq<Addr>, i: nat): seq<Addr>
    requires i < |s|
  {
    s[..i] + s[i + 1..]
  }

  ghost function MovedAt(y: Layout, from: List, i: nat): Layout
    requires from in y.chains && Pool in y.chains && i < |y.chains[from]|
  {
    var a := y.chains[from][i];
    Layout(y.chains[from := Without(y.chains[from], i)][Pool := [a] + y.chains[Pool]], y.place[a := Pool])
  }

  lemma {:induction false} ChainSkip(cells: map<Addr, FreeNode>, place: map<Addr, List>, head: Option<Addr>,
      s: seq<Addr>, l: List, i: nat, node: FreeNode)
    requires Chain(cells, place, head, s, l) && 0 < i < |s| && s[i] in cells && s[i - 1] in cells
    requires node == cells[s[i - 1]].(next := cells[s[i]].next)
    ensures Chain(cells[s[i - 1] := node], place, head, Without(s, i), l)
    decreases i
  {
    var p, t := s[i - 1], Without(s, i);
    if i == 1 {
      var u := s[1..][1..];
      assert t[1..] == u && s[1..] == [s[1]] + u;
      ChainFrame(cells, place, cells[s[1]].next, u, l, p, node, l);
      assert place[p := l] == place;
    } else {
      assert t[1..] == Without(s[1..], i - 1);
      assert p == s[1..][i - 2];
      ChainSkip(cells, place, cells[s[0]].next, s[1..], l, i - 1, node);
    }
  }

  lemma MoveAtSame(m: Memory, y: Layout, from: List, i: nat)
    requires Linked(m, y) && from in y.chains && from != Pool && 0 < i < |y.chains[from]|
    requires y.chains[from][i] in m.cells && y.chains[from][i - 1] in m.cells
    ensures ChainOf(MoveAt(m, y.chains[from][i - 1], y.chains[from][i]), MovedAt(y, from, i), from)
  {
    var s := y.chains[from];
    var node := m.cells[s[i - 1]].(next := m.cells[s[i]].next);
    var cells1 := m.cells[s[i - 1] := node];
    assert ChainOf(m, y, from);
    ChainMember(m.cells, y.place, m.heads[from], s, from, i);
    ChainSkip(m.cells, y.place, m.heads[from], s, from, i, node);
    ChainFrame(cells1, y.place, m.heads[from], Without(s, i), from, s[i], m.cells[s[i]].(next := m.heads[Pool]), Pool);
  }

  lemma MoveAtOther(m: Memory, y: Layout, from: List, i: nat, l: List)
    requires Linked(m, y) && from in y.chains && from != Pool && 0 < i < |y.chains[from]| && l in y.chains && l != from
    requires var a, q := y.chains[from][i], y.chains[from][i - 1];
             a in m.cells && q in m.cells && q in y.place && y.place[q] == from && a !in y.chains[l]
    ensures ChainOf(MoveAt(m, y.chains[from][i - 1], y.chains[from][i]), MovedAt(y, from, i), l)
  {
    var a, q, t := y.chains[from][i], y.chains[from][i - 1], y.chains[l];
    var node := m.cells[q].(next := m.cells[a].next);
    NotOn(m, y, q, l);
    assert ChainOf(m, y, l);
    ChainFrame(m.cells, y.place, m.heads[l], t, l, q, node, from);
    assert y.place[q := from] == y.place;
    if l == Pool {
      ChainPush(m.cells[q := node], y.place, m.heads[l], t, l, a, m.cells[a].pageNumber);
    } else {
      ChainFrame(m.cells[q := node], y.place, m.heads[l], t, l, a, m.cells[a].(next := m.heads[Pool]), Pool);
    }
  }

  lemma MoveAtKeeps(m: Memory, y: Layout, from: List, i: nat)
    requires Linked(m, y) && from in y.chains && from != Pool && 0 < i < |y.chains[from]|
    ensures var a, p := y.chains[from][i], y.chains[from][i - 1];
            && a in m.cells && p in m.cells && a != p && Pool in m.heads
            && Linked(MoveAt(m, p, a), MovedAt(y, from, i))
            && SameBut(y, MovedAt(y, from, i), from, Pool)
  {
    var s := y.chains[from];
    assert ChainOf(m, y, from);
    ChainMember(m.cells, y.place, m.heads[from], s, from, i);
    ChainMember(m.cells, y.place, m.heads[from], s, from, i - 1);
    OnOneList(m, y, from, i, from, i - 1);
    var m', y' := MoveAt(m, s[i - 1], s[i]), MovedAt(y, from, i);
    forall l | l in y'.chains ensures ChainOf(m', y', l) {
      if l == from {
        MoveAtSame(m, y, from, i);
      } else {
        NotOn(m, y, s[i], l);
        MoveAtOther(m, y, from, i, l);
      }
    }
    forall b | b in m'.cells ensures Placed(y', b) {
      MovedAtPlaced(m, y, from, i, b);
    }
  }

  lemma MovedAtPlaced(m: Memory, y: Layout, from: List, i: nat, b: Addr)
    requires Linked(m, y) && from in y.chains && from != Pool && i < |y.chains[from]|
    requires b in m.cells
    ensures Placed(MovedAt(y, from, i), b)
  {
    var s := y.chains[from];
    var y' := MovedAt(y, from, i);
    assert Placed(y, b);
    if b == s[i] {
      assert y'.chains[Pool][0] == b;
    } else if y.place[b] == from {
      assert s == s[..i] + [s[i]] + s[i + 1..];
    }
  }

  // ---------------------------------------------------------- adding nodes

  /** Node `i` of the static pool, or of the pool stored at a page. */
  function NodeAt(page: Option<nat>, i: nat): Addr {
    if page.None? then Static(i) else InPage(page.value, i)
  }

  function NodesFrom(page: Option<nat>, i: nat, n: nat): seq<Addr>
    decreases n - i
  {
    if i >= n then [] else [NodeAt(page, i)] + NodesFrom(page, i + 1, n)
  }

  lemma {:induction false} NodesFromMembers(page: Option<nat>, i: nat, n: nat)
    ensures |NodesFrom(page, i, n)| == if i < n then n - i else 0
    ensures forall a :: a in NodesFrom(page, i, n) <==> exists j: nat :: i <= j < n && a == NodeAt(page, j)
    decreases n - i
  {
    if i < n { NodesFromMembers(page, i + 1, n); }
  }

  /** The first `i` of `n` nodes are linked, each to the next one and the last one to `tail`. */
  ghost predicate LinkedUpTo(cells: map<Addr, FreeNode>, page: Option<nat>, i: nat, n: nat, tail: Option<Addr>) {
    && (forall j: nat {:trigger NodeAt(page, j)} :: j < i ==> NodeAt(page, j) in cells)
    && (forall j: nat, k: nat {:trigger NodeAt(page, j), NodeAt(page, k)} :: j < i && k == j + 1 < n ==>
          cells[NodeAt(page, j)].next == Some(NodeAt(page, k)))
    && (0 < i == n ==> NodeAt(page, n - 1) in cells && cells[NodeAt(page, n - 1)].next == tail)
  }

  lemma {:induction false} ChainSame(cells: map<Addr, FreeNode>, place: map<Addr, List>,
                  cells': map<Addr, FreeNode>, place': map<Addr, List>,
                  head: Option<Addr>, s: seq<Addr>, l: List)
    requires Chain(cells, place, head, s, l)
    requires forall a :: a in cells ==> a in cells' && cells'[a] == cells[a]
    requires forall a :: a in place && a in cells ==> a in place' && place'[a] == place[a]
    ensures Chain(cells', place', head, s, l)
    decreases |s|
  {
    if s != [] { ChainSame(cells, place, cells', place', cells[s[0]].next, s[1..], l); }
  }

  /** Nodes linked one after the other in front of the pool's list extend it. */
  lemma {:induction false} ChainLonger(cells: map<Addr, FreeNode>, place: map<Addr, List>, page: Option<nat>,
      i: nat, n: nat, tail: Option<Addr>, s: seq<Addr>)
    requires LinkedUpTo(cells, page, n, n, tail) && Chain(cells, place, tail, s, Pool)
    requires forall j: nat {:trigger NodeAt(page, j)} :: j < n ==>
      NodeAt(page, j) !in s && NodeAt(page, j) in place && place[NodeAt(page, j)] == Pool
    ensures Chain(cells, place, if i < n then Some(NodeAt(page, i)) else tail, NodesFrom(page, i, n) + s, Pool)
    decreases n - i
  {
    var t := NodesFrom(page, i, n) + s;
    if i < n {
      ChainLonger(cells, place, page, i + 1, n, tail, s);
      NodesFromMembers(page, i + 1, n);
      assert t[1..] == NodesFrom(page, i + 1, n) + s;
      assert NodeAt(page, i) in cells;
      assert i + 1 < n ==> cells[NodeAt(page, i)].next == Some(NodeAt(page, i + 1));
    } else {
      assert t == s;
    }
  }

  /** The layout after `n` new nodes have joined the front of the pool. */
  ghost function Grown(y: Layout, page: Option<nat>, n: nat): Layout
    requires Pool in y.chains
  {
    var t := NodesFrom(page, 0, n);
    Layout(y.chains[Pool := t + y.chains[Pool]], map a | a in y.place.Keys + (set b | b in t) ::
      if a in t then Pool else y.place[a])
  }

  /** `cells` is the memory of `m` and `n` new nodes, linked in front of the pool's list. */
  ghost predicate Extends(m: Memory, page: Option<nat>, n: nat, cells: map<Addr, FreeNode>) {
    && Pool in m.heads && LinkedUpTo(cells, page, n, n, m.heads[Pool])
    && (forall j: nat {:trigger NodeAt(page, j)} :: NodeAt(page, j) !in m.cells)
    && (forall a {:trigger m.cells[a]} {:trigger a in m.cells} :: a in m.cells ==> a in cells && cells[a] == m.cells[a])
    && (forall a {:trigger a in cells} :: a in cells ==> a in m.cells || a in NodesFrom(page, 0, n))
  }

  /** The loop over a new array of nodes has linked the first `i` of them. */
  ghost predicate Linking(m: Memory, page: Option<nat>, i: nat, n: nat, cells: map<Addr, FreeNode>) {
    && Pool in m.heads && LinkedUpTo(cells, page, i, n, m.heads[Pool])
    && (forall a {:trigger m.cells[a]} {:trigger a in m.cells} :: a in m.cells ==> a in cells && cells[a] == m.cells[a])
    && (forall a {:trigger a in cells} :: a in cells ==> a in m.cells || a in NodesFrom(page, 0, n))
  }

  lemma LinkMore(m: Memory, page: Option<nat>, i: nat, n: nat, cells: map<Addr, FreeNode>)
    requires Linking(m, page, i, n, cells) && i < n && NodeAt(page, i) !in m.cells
      && NodeAt(page, i) in NodesFrom(page, 0, n)
    ensures Linking(m, page, i + 1, n,
      cells[NodeAt(page, i) := FreeNode(0, if i + 1 < n then Some(NodeAt(page, i + 1)) else m.heads[Pool])])
  {
  }

  lemma GrownPool(m: Memory, y: Layout, page: Option<nat>, n: nat, cells: map<Addr, FreeNode>)
    requires Linked(m, y) && n > 0 && Extends(m, page, n, cells)
    ensures ChainOf(Memory(cells, m.heads[Pool := Some(NodeAt(page, 0))]), Grown(y, page, n), Pool)
  {
    var y' := Grown(y, page, n);
    assert ChainOf(m, y, Pool);
    GrownPlace(m, y, page, n);
    ChainSame(m.cells, y.place, cells, y'.place, m.heads[Pool], y.chains[Pool], Pool);
    forall j: nat {:trigger NodeAt(page, j)} | j < n
      ensures NodeAt(page, j) !in y.chains[Pool] && NodeAt(page, j) in y'.place && y'.place[NodeAt(page, j)] == Pool
    {
      NewNodeNotOn(m, y, NodeAt(page, j));
      NodesFromMembers(page, 0, n);
    }
    ChainLonger(cells, y'.place, page, 0, n, m.heads[Pool], y.chains[Pool]);
  }

  lemma GrownPlace(m: Memory, y: Layout, page: Option<nat>, n: nat)
    requires Pool in y.chains
    requires forall j: nat {:trigger NodeAt(page, j)} :: NodeAt(page, j) !in m.cells
    ensures forall a :: a in y.place && a in m.cells ==>
      a in Grown(y, page, n).place && Grown(y, page, n).place[a] == y.place[a]
  {
    NodesFromMembers(page, 0, n);
  }

  lemma GrownLinked(m: Memory, y: Layout, page: Option<nat>, n: nat, cells: map<Addr, FreeNode>)
    requires Linked(m, y) && n > 0 && Extends(m, page, n, cells)
    ensures Linked(Memory(cells, m.heads[Pool := Some(NodeAt(page, 0))]), Grown(y, page, n))
  {
    var m', y' := Memory(cells, m.heads[Pool := Some(NodeAt(page, 0))]), Grown(y, page, n);
    GrownPlace(m, y, page, n);
    forall l | l in y'.chains ensures ChainOf(m', y', l) {
      if l == Pool {
        GrownPool(m, y, page, n, cells);
      } else {
        assert ChainOf(m, y, l);
        ChainSame(m.cells, y.place, m'.cells, y'.place, m.heads[l], y.chains[l], l);
      }
    }
    forall a | a in m'.cells ensures Placed(y', a) {
      if a in m.cells { assert Placed(y, a); }
    }
  }

  lemma NewNodeNotOn(m: Memory, y: Layout, a: Addr)
    requires Linked(m, y) && a !in m.cells
    ensures a !in y.chains[Pool]
  {
    assert ChainOf(m, y, Pool);
    if a in y.chains[Pool] {
      var i :| 0 <= i < |y.chains[Pool]| && y.chains[Pool][i] == a;
      ChainMember(m.cells, y.place, m.heads[Pool], y.chains[Pool], Pool, i);
    }
  }
}
