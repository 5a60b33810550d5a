/** Names with wide characters: what they do to the place where the parser of a devicetree stops. */
module DevicetreeNames {
  import opened Common
  import opened Devicetree

  // ------------------------------------------------------------- counting wide characters

  /** The wide characters of all names of a node. */
  function NodeWide(node: Node): nat
    decreases node
  {
    Wide(node.name) + NodesWide(node.children)
  }

  function NodesWide(nodes: seq<Node>): nat
    decreases nodes
  {
    if nodes == [] then 0 else NodeWide(nodes[0]) + NodesWide(nodes[1..])
  }

  function TreeWide(tree: Tree): nat {
    Wide(tree.name) + ItemsWide(tree.items)
  }

  function ItemsWide(items: Items): nat {
    match items
    case Done => 0
    case Nop(rest) => ItemsWide(rest)
    case Prop(_, _, rest) => ItemsWide(rest)
    case Child(tree, rest) => TreeWide(tree) + ItemsWide(rest)
  }

  lemma {:induction false} NodesWideAppend(nodes: seq<Node>, node: Node)
    ensures NodesWide(nodes + [node]) == NodesWide(nodes) + NodeWide(node)
  {
    if nodes == [] {
      assert nodes + [node] == [node] && [node][1..] == [];
    } else {
      assert (nodes + [node])[1..] == nodes[1..] + [node];
      NodesWideAppend(nodes[1..], node);
    }
  }

  /** Cell counts do not matter. */
  lemma {:induction false} NodesWideSame(s: seq<Node>, t: seq<Node>)
    requires |s| == |t| && forall i :: 0 <= i < |s| ==> s[i].name == t[i].name && s[i].children == t[i].children
    ensures NodesWide(s) == NodesWide(t)
  {
    if s != [] { NodesWideSame(s[1..], t[1..]); }
  }

  lemma PropertyWide(g: Gathered, name: Bytes, value: Bytes)
    requires AddProperty(g, name, value).Some?
    ensures NodesWide(AddProperty(g, name, value).value.children) == NodesWide(g.children)
  {
    NodesWideSame(AddProperty(g, name, value).value.children, g.children);
  }

  lemma ChildWide(g: Gathered, child: Node)
    ensures NodesWide(AddChild(g, child).children) == NodesWide(g.children) + NodeWide(child)
  {
    NodesWideAppend(g.children, child.(sizeCells := g.size, addressCells := g.address));
  }

  lemma {:induction false} ChildrenWide(items: Items, strings: Bytes, size: nat, address: nat)
    requires ItemsOk(items, strings)
    ensures NodesWide(ChildrenOf(items, strings, size, address)) == ItemsWide(items)
    decreases items
  {
    match items
    case Done =>
    case Nop(rest) => ChildrenWide(rest, strings, size, address);
    case Prop(_, _, rest) => ChildrenWide(rest, strings, size, address);
    case Child(tree, rest) =>
      MeaningWide(tree, strings);
      ChildrenWide(rest, strings, size, address);
      var all := ChildrenOf(items, strings, size, address);
      assert all[1..] == ChildrenOf(rest, strings, size, address);
  }

  lemma {:induction false} MeaningWide(tree: Tree, strings: Bytes)
    requires WellFormed(tree, strings)
    ensures NodeWide(Meaning(tree, strings)) == TreeWide(tree)
    decreases tree
  {
    ChildrenWide(tree.items, strings, SizeOf(tree.items, strings, 1), AddressOf(tree.items, strings, 2));
  }

  // ------------------------------------------------------------- what the parser consumes

  /** From `b` to `rest` and with `wide` wide characters: a multiple of 4 in all. */
  predicate Even(b: Bytes, rest: Bytes, wide: int) {
    (|b| - |rest| + wide) % 4 == 0
  }

  lemma EvenAdd(b: Bytes, c: Bytes, d: Bytes, x: int, y: int)
    requires Even(b, c, x) && Even(c, d, y)
    ensures Even(b, d, x + y)
  {
  }

  lemma EvenName(b: Bytes, rest: Bytes, n: nat, w: nat)
    requires |b| == |rest| + 4 + n + NamePadding(n + w)
    ensures Even(b, rest, w)
  {
  }

  lemma EvenProperty(b: Bytes, strings: Bytes)
    requires TakeProperty(b, strings).Some?
    ensures Even(b, TakeProperty(b, strings).value.2, 0)
  {
    EvenValue(b, strings, U32(b, 4).value, U32(b, 8).value);
  }

  lemma EvenValue(b: Bytes, strings: Bytes, len: nat, off: nat)
    requires PropertyAt(b, strings, len, off).Some?
    ensures Even(b, PropertyAt(b, strings, len, off).value.2, 0)
  {
  }

  /** A node's name and padding, and the bytes that its loop starts at. */
  lemma NodeParts(b: Bytes, strings: Bytes) returns (name: Bytes, body: Bytes)
    requires ParseNode(b, strings).Some?
    ensures |body| < |b| && Even(b, body, Wide(name))
    ensures ParseNode(b, strings) == ParseBody(body, strings, name, Gathered([], [], 1, 2))
  {
    name := NullString(b[4..]).value.1;
    body := NullString(b[4..]).value.0[NamePadding(Utf8Len(name))..];
    EvenName(b, body, |name|, Wide(name));
  }

  /** The loop stops at `r.0` with the node `r.1`; what it consumed and what it added come to a multiple of 4. */
  predicate BodyEven(b: Bytes, name: Bytes, g: Gathered, r: (Bytes, Node)) {
    r.1.name == name && Even(b, r.0, NodesWide(r.1.children) - NodesWide(g.children))
  }

  lemma EvenNode(b: Bytes, body: Bytes, name: Bytes, g: Gathered, r: (Bytes, Node))
    requires Even(b, body, Wide(name)) && BodyEven(body, name, g, r) && g.children == []
    ensures Even(b, r.0, NodeWide(r.1))
  {
    EvenAdd(b, body, r.0, Wide(name), NodesWide(r.1.children));
  }

  lemma EvenMore(b: Bytes, c: Bytes, name: Bytes, g: Gathered, g': Gathered, w: nat, r: (Bytes, Node))
    requires Even(b, c, w) && NodesWide(g'.children) == NodesWide(g.children) + w && BodyEven(c, name, g', r)
    ensures BodyEven(b, name, g, r)
  {
    EvenAdd(b, c, r.0, w, NodesWide(r.1.children) - NodesWide(g'.children));
  }

  lemma EvenWord(b: Bytes, c: Bytes, w: int)
    requires Even(b, c, w) && |c| >= 4
    ensures Even(b, c[4..], w)
  {
  }

  /** What a node's bytes and the wide characters of the names that come of them add up to. */
  lemma {:induction false} NodeTotal(b: Bytes, strings: Bytes, r: (Bytes, Node))
    requires ParseNode(b, strings) == Some(r)
    ensures Even(b, r.0, NodeWide(r.1))
    decreases |b|, 0
  {
    var name, body := NodeParts(b, strings);
    BodyTotal(body, strings, name, Gathered([], [], 1, 2), r);
    EvenNode(b, body, name, Gathered([], [], 1, 2), r);
  }

  /** One round of the loop: where it goes on, with what, and how many wide characters came in. */
  lemma BodyStep(b: Bytes, strings: Bytes, name: Bytes, g: Gathered, r: (Bytes, Node))
    returns (c: Bytes, g': Gathered)
    requires ParseBody(b, strings, name, g) == Some(r) && U32(b, 0) != Some(END_NODE) && U32(b, 0) != Some(BEGIN_NODE)
    ensures |c| < |b| && Even(b, c, 0) && NodesWide(g'.children) == NodesWide(g.children)
    ensures ParseBody(c, strings, name, g') == Some(r)
  {
    if U32(b, 0) == Some(NOP) {
      c, g' := b[4..], g;
    } else {
      var prop := TakeProperty(b, strings).value;
      c, g' := prop.2, AddProperty(g, prop.0, prop.1).value;
      EvenProperty(b, strings);
      PropertyWide(g, prop.0, prop.1);
    }
  }

  lemma {:induction false} ChildTotal(b: Bytes, strings: Bytes, name: Bytes, g: Gathered, r: (Bytes, Node))
    requires ParseBody(b, strings, name, g) == Some(r) && U32(b, 0) == Some(BEGIN_NODE)
    ensures BodyEven(b, name, g, r)
    decreases |b|, 1
  {
    var child := ParseNode(b, strings).value;
    NodeTotal(b, strings, child);
    EvenWord(b, child.0, NodeWide(child.1));
    ChildWide(g, child.1);
    BodyTotal(child.0[4..], strings, name, AddChild(g, child.1), r);
    EvenMore(b, child.0[4..], name, g, AddChild(g, child.1), NodeWide(child.1), r);
  }

  lemma {:induction false} BodyTotal(b: Bytes, strings: Bytes, name: Bytes, g: Gathered, r: (Bytes, Node))
    requires ParseBody(b, strings, name, g) == Some(r)
    ensures BodyEven(b, name, g, r)
    decreases |b|, 2
  {
    if U32(b, 0) == Some(BEGIN_NODE) {
      ChildTotal(b, strings, name, g, r);
    } else if U32(b, 0) != Some(END_NODE) {
      var c, g' := BodyStep(b, strings, name, g, r);
      BodyTotal(c, strings, name, g', r);
      EvenMore(b, c, name, g, g', 0, r);
    }
  }

  // --------------------------------------------------------------------- flattened trees

  predicate Whole(b: Bytes) {
    |b| % 4 == 0
  }

  lemma WholeAdd(a: Bytes, b: Bytes)
    requires Whole(a) && Whole(b)
    ensures Whole(a + b)
  {
  }

  lemma WholeName(begin: Bytes, name: Bytes, zeros: Bytes, rest: Bytes)
    requires |begin| == 4 && |zeros| == NamePadding(|name|) && Whole(rest)
    ensures Whole(begin + (name + (zeros + rest)))
  {
    NameLength(|name|, |rest|);
  }

  lemma NameLength(n: nat, m: nat)
    requires m % 4 == 0
    ensures (4 + (n + (NamePadding(n) + m))) % 4 == 0
  {
  }

  lemma WholeProp(off: nat, value: Bytes)
    requires off < 0x1_0000_0000 && |value| < 0x1_0000_0000
    ensures Whole(FlatProp(off, value))
  {
    WholeValue(Word(PROP), Word(|value|), Word(off), value, Zeros(ValuePadding(|value|)));
  }

  lemma WholeValue(w0: Bytes, w1: Bytes, w2: Bytes, value: Bytes, zeros: Bytes)
    requires |w0| == 4 && |w1| == 4 && |w2| == 4 && |zeros| == ValuePadding(|value|)
    ensures Whole(w0 + w1 + w2 + value + zeros)
  {
    ValueLength(|value|);
  }

  lemma ValueLength(n: nat)
    ensures (12 + n + ValuePadding(n)) % 4 == 0
  {
  }

  lemma {:induction false} FlattenWhole(tree: Tree, strings: Bytes)
    requires WellFormed(tree, strings)
    ensures Whole(Flatten(tree, strings))
    decreases tree
  {
    ItemsWhole(tree.items, strings);
    WholeName(Word(BEGIN_NODE), tree.name, Zeros(NamePadding(|tree.name|)), FlattenItems(tree.items, strings));
  }

  lemma {:induction false} ItemsWhole(items: Items, strings: Bytes)
    requires ItemsOk(items, strings)
    ensures Whole(FlattenItems(items, strings))
    decreases items
  {
    match items
    case Done =>
    case Nop(rest) =>
      ItemsWhole(rest, strings);
      NopWhole(rest, strings);
    case Prop(off, value, rest) =>
      ItemsWhole(rest, strings);
      PropWhole(off, value, rest, strings);
    case Child(tree, rest) =>
      FlattenWhole(tree, strings);
      ItemsWhole(rest, strings);
      ChildWhole(tree, rest, strings);
  }

  lemma NopWhole(rest: Items, strings: Bytes)
    requires ItemsOk(rest, strings) && Whole(FlattenItems(rest, strings))
    ensures Whole(FlattenItems(Nop(rest), strings))
  {
    WholeAdd(Word(NOP), FlattenItems(rest, strings));
  }

  lemma PropWhole(off: nat, value: Bytes, rest: Items, strings: Bytes)
    requires ItemsOk(Prop(off, value, rest), strings) && Whole(FlattenItems(rest, strings))
    ensures Whole(FlattenItems(Prop(off, value, rest), strings))
  {
    WholeProp(off, value);
    WholeAdd(FlatProp(off, value), FlattenItems(rest, strings));
  }

  lemma ChildWhole(tree: Tree, rest: Items, strings: Bytes)
    requires WellFormed(tree, strings) && ItemsOk(rest, strings)
    requires Whole(Flatten(tree, strings)) && Whole(FlattenItems(rest, strings))
    ensures Whole(FlattenItems(Child(tree, rest), strings))
  {
    WholeChild(Flatten(tree, strings), Word(END_NODE), FlattenItems(rest, strings));
  }

  lemma WholeChild(flat: Bytes, end: Bytes, rest: Bytes)
    requires Whole(flat) && |end| == 4 && Whole(rest)
    ensures Whole(flat + (end + rest))
  {
  }

  /** A tree is parsed back only if the wide characters of its names are a multiple of 4 in all. */
  lemma ParsedTotal(tree: Tree, strings: Bytes, tail: Bytes)
    requires WellFormed(tree, strings)
    ensures NodeParsed(tree, strings, tail) ==> TreeWide(tree) % 4 == 0
  {
    if NodeParsed(tree, strings, tail) {
      var end := Word(END_NODE) + tail;
      NodeTotal(Flatten(tree, strings) + end, strings, (end, Meaning(tree, strings)));
      MeaningWide(tree, strings);
      FlattenWhole(tree, strings);
      EvenWhole(Flatten(tree, strings), end, TreeWide(tree));
    }
  }

  lemma EvenWhole(flat: Bytes, end: Bytes, wide: nat)
    requires Even(flat + end, end, wide) && Whole(flat)
    ensures wide % 4 == 0
  {
  }

  // ------------------------------------------------------------------ exact condition

  /** The names whose wide characters are not a multiple of 4. */
  function BadNames(tree: Tree): nat {
    (if Wide(tree.name) % 4 == 0 then 0 else 1) + BadItems(tree.items)
  }

  function BadItems(items: Items): nat {
    match items
    case Done => 0
    case Nop(rest) => BadItems(rest)
    case Prop(_, _, rest) => BadItems(rest)
    case Child(tree, rest) => BadNames(tree) + BadItems(rest)
  }

  lemma {:induction false} BadTotal(tree: Tree)
    requires BadNames(tree) <= 1
    ensures TreeWide(tree) % 4 == 0 <==> BadNames(tree) == 0
    ensures Narrow(tree) <==> BadNames(tree) == 0
  {
    BadItemsTotal(tree.items);
    SumOfTwo(Wide(tree.name), ItemsWide(tree.items));
  }

  lemma {:induction false} BadItemsTotal(items: Items)
    requires BadItems(items) <= 1
    ensures ItemsWide(items) % 4 == 0 <==> BadItems(items) == 0
    ensures NarrowItems(items) <==> BadItems(items) == 0
  {
    match items
    case Done =>
    case Nop(rest) => BadItemsTotal(rest);
    case Prop(_, _, rest) => BadItemsTotal(rest);
    case Child(tree, rest) =>
      BadTotal(tree);
      BadItemsTotal(rest);
      SumOfTwo(TreeWide(tree), ItemsWide(rest));
  }

  lemma SumOfTwo(x: nat, y: nat)
    ensures x % 4 == 0 ==> ((x + y) % 4 == 0 <==> y % 4 == 0)
    ensures y % 4 == 0 ==> ((x + y) % 4 == 0 <==> x % 4 == 0)
  {
  }

  /** With at most one such name, a tree is parsed back if and only if there is none. */
  lemma TreeExact(tree: Tree, strings: Bytes, tail: Bytes)
    requires WellFormed(tree, strings) && BadNames(tree) <= 1
    ensures NodeParsed(tree, strings, tail) <==> Narrow(tree)
  {
    BadTotal(tree);
    ParsedTotal(tree, strings, tail);
    if Narrow(tree) { NodeParses(tree, strings, tail); }
  }

  /** In particular a node without contents. */
  lemma LeafExact(name: Bytes, strings: Bytes, tail: Bytes)
    requires 0 !in name
    ensures NodeParsed(Tree(name, Done), strings, tail) <==> Wide(name) % 4 == 0
  {
    TreeExact(Tree(name, Done), strings, tail);
  }
}
