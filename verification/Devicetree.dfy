/** Devicetree blobs: what a tree flattens to, and what parsing a structure block means. */
module Devicetree {
  import opened Common

  type Byte = x: nat | x < 256
  type Bytes = seq<Byte>

  const BEGIN_NODE: nat := 1
  const END_NODE: nat := 2
  const PROP: nat := 3
  const NOP: nat := 4

  datatype Property = Property(name: Bytes, value: Bytes)
  /** A parsed node; a name holds one character per byte. */
  datatype Node = Node(name: Bytes, progs: seq<Property>, children: seq<Node>, sizeCells: nat, addressCells: nat)

  // -------------------------------------------------------------- big-endian words

  function BigEndian(b0: nat, b1: nat, b2: nat, b3: nat): nat {
    0x100_0000 * b0 + 0x1_0000 * b1 + 256 * b2 + b3
  }

  /** The big-endian word at `offset`. */
  function U32(b: Bytes, offset: nat): Option<nat> {
    if |b| < offset + 4 then None
    else Some(BigEndian(b[offset], b[offset + 1], b[offset + 2], b[offset + 3]))
  }

  lemma WordDigits(n: nat)
    requires n < 0x1_0000_0000
    ensures n / 0x100_0000 < 256
    ensures BigEndian(n / 0x100_0000, n / 0x1_0000 % 256, n / 256 % 256, n % 256) == n
  {
    var a, b := n / 256, n / 256 / 256;
    assert n / 0x1_0000 == b && n / 0x100_0000 == b / 256;
  }

  function Word(n: nat): (w: Bytes)
    requires n < 0x1_0000_0000
    ensures |w| == 4 && U32(w, 0) == Some(n)
  {
    WordDigits(n);
    [n / 0x100_0000, n / 0x1_0000 % 256, n / 256 % 256, n % 256]
  }

  lemma WordFirst(w: Bytes, rest: Bytes)
    requires |w| == 4
    ensures U32(w + rest, 0) == U32(w, 0) && (w + rest)[4..] == rest
  {
  }

  lemma Assoc(a: Bytes, b: Bytes, c: Bytes)
    ensures (a + b) + c == a + (b + c)
  {
  }

  // ------------------------------------------------------------------ strings

  /** The string up to the first NUL, and what is left from that NUL on. */
  function NullString(b: Bytes): (r: Option<(Bytes, Bytes)>)
    ensures r.Some? ==> r.value.1 + r.value.0 == b && |r.value.0| >= 1
  {
    if b == [] then None
    else if b[0] == 0 then Some((b, []))
    else
      var r := NullString(b[1..]);
      if r.None? then None else Some((r.value.0, [b[0]] + r.value.1))
  }

  /** The characters that UTF-8 encodes in two bytes. */
  function Wide(name: Bytes): nat {
    if name == [] then 0 else (if name[0] >= 128 then 1 else 0) + Wide(name[1..])
  }

  /** `String::len`, of a string made of one character per byte. */
  function Utf8Len(name: Bytes): nat {
    |name| + Wide(name)
  }

  function Zeros(n: nat): (z: Bytes)
    ensures |z| == n && forall i :: 0 <= i < n ==> z[i] == 0
  {
    seq(n, _ => 0)
  }

  /** From a name's NUL on, the bytes up to the next multiple of 4. */
  function NamePadding(n: nat): nat {
    4 - n % 4
  }

  lemma PaddingShift(n: nat, w: nat)
    ensures (n + w) % 4 == n % 4 <==> w % 4 == 0
  {
  }

  /** The parser skips the padding of a name exactly if the wide characters are a multiple of 4. */
  lemma PaddingExact(name: Bytes)
    ensures NamePadding(Utf8Len(name)) == NamePadding(|name|) <==> Wide(name) % 4 == 0
  {
    PaddingShift(|name|, Wide(name));
  }

  lemma {:induction false} NullStringOf(name: Bytes, rest: Bytes)
    requires 0 !in name && rest != [] && rest[0] == 0
    ensures NullString(name + rest) == Some((rest, name))
  {
    if name == [] {
      assert name + rest == rest;
    } else {
      assert (name + rest)[1..] == name[1..] + rest;
      NullStringOf(name[1..], rest);
      assert [name[0]] + name[1..] == name && name[0] in name;
    }
  }

  const SIZE_CELLS: Bytes := [35, 115, 105, 122, 101, 45, 99, 101, 108, 108, 115]
  const ADDRESS_CELLS: Bytes := [35, 97, 100, 100, 114, 101, 115, 115, 45, 99, 101, 108, 108, 115]

  // ------------------------------------------------------------------- parsing

  /** What a node's loop has gathered so far. */
  datatype Gathered = Gathered(progs: seq<Property>, children: seq<Node>, size: nat, address: nat)

  function SetSize(children: seq<Node>, v: nat): (r: seq<Node>)
    ensures |r| == |children| && forall i :: 0 <= i < |r| ==> r[i] == children[i].(sizeCells := v)
  {
    seq(|children|, i requires 0 <= i < |children| => children[i].(sizeCells := v))
  }

  function SetAddress(children: seq<Node>, v: nat): (r: seq<Node>)
    ensures |r| == |children| && forall i :: 0 <= i < |r| ==> r[i] == children[i].(addressCells := v)
  {
    seq(|children|, i requires 0 <= i < |children| => children[i].(addressCells := v))
  }

  function AddChild(g: Gathered, child: Node): Gathered {
    g.(children := g.children + [child.(sizeCells := g.size, addressCells := g.address)])
  }

  /** A property takes effect; a cell count needs four bytes. */
  function AddProperty(g: Gathered, name: Bytes, value: Bytes): Option<Gathered> {
    if name == SIZE_CELLS then
      if U32(value, 0).None? then None
      else Some(g.(size := U32(value, 0).value, children := SetSize(g.children, U32(value, 0).value)))
    else if name == ADDRESS_CELLS then
      if U32(value, 0).None? then None
      else Some(g.(address := U32(value, 0).value, children := SetAddress(g.children, U32(value, 0).value)))
    else Some(g.(progs := g.progs + [Property(name, value)]))
  }

  function ValuePadding(len: nat): nat {
    (4 - len % 4) % 4
  }

  /** A property at the front: its name and value, and what follows its padding. */
  function TakeProperty(b: Bytes, strings: Bytes): (r: Option<(Bytes, Bytes, Bytes)>)
    ensures r.Some? ==> |r.value.2| + 12 <= |b|
  {
    if |b| < 12 then None else PropertyAt(b, strings, U32(b, 4).value, U32(b, 8).value)
  }

  /** The property with a value of `len` bytes, and its name at offset `off`. */
  function PropertyAt(b: Bytes, strings: Bytes, len: nat, off: nat): (r: Option<(Bytes, Bytes, Bytes)>)
    ensures r.Some? ==> |r.value.2| + 12 <= |b|
  {
    if off > |strings| || |b| < 12 + len + ValuePadding(len) || NullString(strings[off..]).None? then None
    else Some((NullString(strings[off..]).value.1, b[12..12 + len], b[12 + len + ValuePadding(len)..]))
  }

  /** `None` stands for a panic: an index out of range. */
  function ParseNode(b: Bytes, strings: Bytes): (r: Option<(Bytes, Node)>)
    ensures r.Some? ==> 4 <= |r.value.0| < |b|
    decreases |b|, 0
  {
    if |b| < 4 || NullString(b[4..]).None? then None
    else
      var rest, name := NullString(b[4..]).value.0, NullString(b[4..]).value.1;
      var padding := NamePadding(Utf8Len(name));
      if |rest| < padding then None
      else ParseBody(rest[padding..], strings, name, Gathered([], [], 1, 2))
  }

  function ParseBody(b: Bytes, strings: Bytes, name: Bytes, g: Gathered): (r: Option<(Bytes, Node)>)
    ensures r.Some? ==> 4 <= |r.value.0| <= |b|
    decreases |b|, 1
  {
    var token := U32(b, 0);
    if token.None? then None
    else if token.value == END_NODE then Some((b, Node(name, g.progs, g.children, g.size, g.address)))
    else if token.value == BEGIN_NODE then
      var child := ParseNode(b, strings);
      if child.None? then None
      else ParseBody(child.value.0[4..], strings, name, AddChild(g, child.value.1))
    else if token.value == NOP then ParseBody(b[4..], strings, name, g)
    else
      var prop := TakeProperty(b, strings);
      if prop.None? then None
      else
        var g' := AddProperty(g, prop.value.0, prop.value.1);
        if g'.None? then None else ParseBody(prop.value.2, strings, name, g'.value)
  }

  // --------------------------------------------------------------- flattened trees

  /** The contents of a node, in the order they are flattened. */
  datatype Items =
    | Done
    | Nop(rest: Items)
    | Prop(off: nat, value: Bytes, rest: Items)
    | Child(tree: Tree, rest: Items)

  datatype Tree = Tree(name: Bytes, items: Items)

  /** The name that a property's offset stands for. */
  function NameAt(strings: Bytes, off: nat): Option<Bytes> {
    if off > |strings| || NullString(strings[off..]).None? then None else Some(NullString(strings[off..]).value.1)
  }

  predicate IsCells(name: Bytes) {
    name == SIZE_CELLS || name == ADDRESS_CELLS
  }

  predicate WellFormed(tree: Tree, strings: Bytes) {
    0 !in tree.name && ItemsOk(tree.items, strings)
  }

  predicate ItemsOk(items: Items, strings: Bytes) {
    match items
    case Done => true
    case Nop(rest) => ItemsOk(rest, strings)
    case Prop(off, value, rest) =>
      && off < 0x1_0000_0000 && |value| < 0x1_0000_0000 && NameAt(strings, off).Some?
      && (IsCells(NameAt(strings, off).value) ==> |value| >= 4) && ItemsOk(rest, strings)
    case Child(tree, rest) => WellFormed(tree, strings) && ItemsOk(rest, strings)
  }

  /** The parser finds the end of the padding of every name; see `PaddingExact`. */
  predicate Narrow(tree: Tree) {
    Wide(tree.name) % 4 == 0 && NarrowItems(tree.items)
  }

  predicate NarrowItems(items: Items) {
    match items
    case Done => true
    case Nop(rest) => NarrowItems(rest)
    case Prop(_, _, rest) => NarrowItems(rest)
    case Child(tree, rest) => Narrow(tree) && NarrowItems(rest)
  }

  /** A node without its end token. */
  function Flatten(tree: Tree, strings: Bytes): Bytes
    requires WellFormed(tree, strings)
  {
    Word(BEGIN_NODE) + (tree.name + (Zeros(NamePadding(|tree.name|)) + FlattenItems(tree.items, strings)))
  }

  function FlattenItems(items: Items, strings: Bytes): Bytes
    requires ItemsOk(items, strings)
  {
    match items
    case Done => []
    case Nop(rest) => Word(NOP) + FlattenItems(rest, strings)
    case Prop(off, value, rest) => FlatProp(off, value) + FlattenItems(rest, strings)
    case Child(tree, rest) => Flatten(tree, strings) + (Word(END_NODE) + FlattenItems(rest, strings))
  }

  function FlatProp(off: nat, value: Bytes): Bytes
    requires off < 0x1_0000_0000 && |value| < 0x1_0000_0000
  {
    Word(PROP) + Word(|value|) + Word(off) + value + Zeros(ValuePadding(|value|))
  }

  // ------------------------------------------------------------- what trees mean

  /** The last `#size-cells` of a node, or the default. */
  function SizeOf(items: Items, strings: Bytes, default: nat): nat
    requires ItemsOk(items, strings)
  {
    match items
    case Done => default
    case Nop(rest) => SizeOf(rest, strings, default)
    case Child(_, rest) => SizeOf(rest, strings, default)
    case Prop(off, value, rest) =>
      SizeOf(rest, strings, if NameAt(strings, off).value == SIZE_CELLS then U32(value, 0).value else default)
  }

  function AddressOf(items: Items, strings: Bytes, default: nat): nat
    requires ItemsOk(items, strings)
  {
    match items
    case Done => default
    case Nop(rest) => AddressOf(rest, strings, default)
    case Child(_, rest) => AddressOf(rest, strings, default)
    case Prop(off, value, rest) =>
      AddressOf(rest, strings, if NameAt(strings, off).value == ADDRESS_CELLS then U32(value, 0).value else default)
  }

  /** The properties other than cell counts, in order. */
  function PropertiesOf(items: Items, strings: Bytes): seq<Property>
    requires ItemsOk(items, strings)
  {
    match items
    case Done => []
    case Nop(rest) => PropertiesOf(rest, strings)
    case Child(_, rest) => PropertiesOf(rest, strings)
    case Prop(off, value, rest) =>
      (if IsCells(NameAt(strings, off).value) then [] else [Property(NameAt(strings, off).value, value)])
        + PropertiesOf(rest, strings)
  }

  /** The children, in order, each with the cell counts given. */
  function ChildrenOf(items: Items, strings: Bytes, size: nat, address: nat): seq<Node>
    requires ItemsOk(items, strings)
  {
    match items
    case Done => []
    case Nop(rest) => ChildrenOf(rest, strings, size, address)
    case Prop(_, _, rest) => ChildrenOf(rest, strings, size, address)
    case Child(tree, rest) =>
      [Meaning(tree, strings).(sizeCells := size, addressCells := address)] + ChildrenOf(rest, strings, size, address)
  }

  /** The node that a tree stands for, with its own cell counts. */
  function Meaning(tree: Tree, strings: Bytes): Node
    requires WellFormed(tree, strings)
  {
    var size, address := SizeOf(tree.items, strings, 1), AddressOf(tree.items, strings, 2);
    Node(tree.name, PropertiesOf(tree.items, strings), ChildrenOf(tree.items, strings, size, address), size, address)
  }

  // ------------------------------------------------------------------ round trip

  /** What the loop gathers from a node's contents. */
  function Gather(items: Items, strings: Bytes, g: Gathered): Gathered
    requires ItemsOk(items, strings)
  {
    match items
    case Done => g
    case Nop(rest) => Gather(rest, strings, g)
    case Child(tree, rest) => Gather(rest, strings, AddChild(g, Meaning(tree, strings)))
    case Prop(off, value, rest) => Gather(rest, strings, AddProperty(g, NameAt(strings, off).value, value).value)
  }

  function Recell(children: seq<Node>, size: nat, address: nat): seq<Node> {
    SetAddress(SetSize(children, size), address)
  }

  /** The children gathered carry the cell counts gathered. */
  predicate Uniform(g: Gathered) {
    Recell(g.children, g.size, g.address) == g.children
  }

  lemma RecellTwice(children: seq<Node>, s: nat, a: nat, s': nat, a': nat)
    ensures Recell(Recell(children, s, a), s', a') == Recell(children, s', a')
    ensures Recell(SetSize(children, s), s', a') == Recell(children, s', a')
    ensures Recell(SetAddress(children, a), s', a') == Recell(children, s', a')
  {
  }

  lemma AddPropertyUniform(g: Gathered, name: Bytes, value: Bytes)
    requires Uniform(g) && AddProperty(g, name, value).Some?
    ensures Uniform(AddProperty(g, name, value).value)
  {
    if name == SIZE_CELLS {
      RecellTwice(g.children, g.size, g.address, U32(value, 0).value, g.address);
    } else if name == ADDRESS_CELLS {
      RecellTwice(g.children, g.size, g.address, g.size, U32(value, 0).value);
    }
  }

  lemma RecellAppend(children: seq<Node>, child: Node, size: nat, address: nat)
    ensures Recell(children + [child], size, address) ==
      Recell(children, size, address) + [child.(sizeCells := size, addressCells := address)]
  {
  }

  /** Whatever the order of properties and children, each child ends up with the final cell counts. */
  lemma {:induction false} GatherMeans(items: Items, strings: Bytes, g: Gathered)
    requires ItemsOk(items, strings) && Uniform(g)
    ensures var size, address := SizeOf(items, strings, g.size), AddressOf(items, strings, g.address);
      Gather(items, strings, g) == Gathered(g.progs + PropertiesOf(items, strings),
        Recell(g.children, size, address) + ChildrenOf(items, strings, size, address), size, address)
    decreases items
  {
    var size, address := SizeOf(items, strings, g.size), AddressOf(items, strings, g.address);
    match items
    case Done =>
    case Nop(rest) => GatherMeans(rest, strings, g);
    case Child(tree, rest) =>
      var child := Meaning(tree, strings);
      var g' := AddChild(g, child);
      RecellAppend(g.children, child.(sizeCells := g.size, addressCells := g.address), g.size, g.address);
      GatherMeans(rest, strings, g');
      RecellAppend(g.children, child.(sizeCells := g.size, addressCells := g.address), size, address);
    case Prop(off, value, rest) =>
      var name := NameAt(strings, off).value;
      AddPropertyUniform(g, name, value);
      GatherMeans(rest, strings, AddProperty(g, name, value).value);
      RecellTwice(g.children, U32Or(value), U32Or(value), size, address);
  }

  function U32Or(value: Bytes): nat {
    if U32(value, 0).None? then 0 else U32(value, 0).value
  }

  lemma WordsFirst(w0: Bytes, w1: Bytes, w2: Bytes, rest: Bytes)
    requires |w0| == 4 && |w1| == 4 && |w2| == 4
    ensures var b := w0 + w1 + w2 + rest;
      && U32(b, 0) == U32(w0, 0) && U32(b, 4) == U32(w1, 0) && U32(b, 8) == U32(w2, 0)
      && |b| == 12 + |rest| && b[12..] == rest
  {
  }

  lemma TakeFirst(b: Bytes, value: Bytes, zeros: Bytes, rest: Bytes)
    requires |b| == 12 + |value| + |zeros| + |rest| && b[12..] == value + zeros + rest
    ensures b[12..12 + |value|] == value && b[12 + |value| + |zeros|..] == rest
  {
    assert b[12..12 + |value|] == b[12..][..|value|];
    assert b[12 + |value| + |zeros|..] == b[12..][|value| + |zeros|..];
  }

  lemma PropertyWords(w0: Bytes, w1: Bytes, w2: Bytes, value: Bytes, zeros: Bytes, rest: Bytes, off: nat,
      strings: Bytes)
    requires |w0| == 4 && |w1| == 4 && |w2| == 4 && U32(w1, 0) == Some(|value|) && U32(w2, 0) == Some(off)
    requires |zeros| == ValuePadding(|value|) && NameAt(strings, off).Some?
    ensures var b := w0 + w1 + w2 + (value + zeros + rest);
      U32(b, 0) == U32(w0, 0) && TakeProperty(b, strings) == Some((NameAt(strings, off).value, value, rest))
  {
    var b := w0 + w1 + w2 + (value + zeros + rest);
    WordsFirst(w0, w1, w2, value + zeros + rest);
    TakeFirst(b, value, zeros, rest);
  }

  lemma PropertyFirst(off: nat, value: Bytes, rest: Bytes, strings: Bytes)
    requires off < 0x1_0000_0000 && |value| < 0x1_0000_0000 && NameAt(strings, off).Some?
    ensures U32(FlatProp(off, value) + rest, 0) == Some(PROP)
    ensures TakeProperty(FlatProp(off, value) + rest, strings) == Some((NameAt(strings, off).value, value, rest))
  {
    var zeros := Zeros(ValuePadding(|value|));
    PropertyWords(Word(PROP), Word(|value|), Word(off), value, zeros, rest, off, strings);
    PropertyAssoc(Word(PROP), Word(|value|), Word(off), value, zeros, rest);
  }

  lemma PropertyAssoc(w0: Bytes, w1: Bytes, w2: Bytes, value: Bytes, zeros: Bytes, rest: Bytes)
    ensures w0 + w1 + w2 + value + zeros + rest == w0 + w1 + w2 + (value + zeros + rest)
  {
    Assoc(w0 + w1 + w2, value, zeros);
    Assoc(w0 + w1 + w2, value + zeros, rest);
  }

  /** The bytes of a node's contents, its end token, and whatever follows. */
  function Block(items: Items, strings: Bytes, tail: Bytes): Bytes
    requires ItemsOk(items, strings)
  {
    FlattenItems(items, strings) + (Word(END_NODE) + tail)
  }

  lemma NopStep(b: Bytes, strings: Bytes, name: Bytes, g: Gathered)
    requires U32(b, 0) == Some(NOP)
    ensures ParseBody(b, strings, name, g) == ParseBody(b[4..], strings, name, g)
  {
  }

  lemma PropertyStep(b: Bytes, strings: Bytes, name: Bytes, g: Gathered)
    requires U32(b, 0) == Some(PROP) && TakeProperty(b, strings).Some?
    requires AddProperty(g, TakeProperty(b, strings).value.0, TakeProperty(b, strings).value.1).Some?
    ensures var prop := TakeProperty(b, strings).value;
      ParseBody(b, strings, name, g) == ParseBody(prop.2, strings, name, AddProperty(g, prop.0, prop.1).value)
  {
  }

  lemma ChildStep(b: Bytes, strings: Bytes, name: Bytes, g: Gathered)
    requires U32(b, 0) == Some(BEGIN_NODE) && ParseNode(b, strings).Some?
    ensures var child := ParseNode(b, strings).value;
      ParseBody(b, strings, name, g) == ParseBody(child.0[4..], strings, name, AddChild(g, child.1))
  {
  }

  lemma NodeStep(b: Bytes, strings: Bytes, name: Bytes, zeros: Bytes, rest: Bytes)
    requires |b| >= 4 && b[4..] == name + (zeros + rest) && 0 !in name && Wide(name) % 4 == 0
    requires |zeros| == NamePadding(|name|) && zeros[0] == 0
    ensures ParseNode(b, strings) == ParseBody(rest, strings, name, Gathered([], [], 1, 2))
  {
    NullStringOf(name, zeros + rest);
    PaddingExact(name);
    assert (zeros + rest)[|zeros|..] == rest;
  }

  /** The loop gathers what `items` say, and stops at the end token after them. */
  ghost predicate Parses(items: Items, strings: Bytes, name: Bytes, g: Gathered, tail: Bytes)
    requires ItemsOk(items, strings)
  {
    var all := Gather(items, strings, g);
    ParseBody(Block(items, strings, tail), strings, name, g) ==
      Some((Word(END_NODE) + tail, Node(name, all.progs, all.children, all.size, all.address)))
  }

  lemma DoneParses(strings: Bytes, name: Bytes, g: Gathered, tail: Bytes)
    ensures Parses(Done, strings, name, g, tail)
  {
    assert Block(Done, strings, tail) == Word(END_NODE) + tail;
    WordFirst(Word(END_NODE), tail);
  }

  lemma NopParses(rest: Items, strings: Bytes, name: Bytes, g: Gathered, tail: Bytes)
    requires ItemsOk(rest, strings) && Parses(rest, strings, name, g, tail)
    ensures Parses(Nop(rest), strings, name, g, tail)
  {
    var after := Block(rest, strings, tail);
    Assoc(Word(NOP), FlattenItems(rest, strings), Word(END_NODE) + tail);
    WordFirst(Word(NOP), after);
    NopStep(Word(NOP) + after, strings, name, g);
  }

  lemma PropParses(off: nat, value: Bytes, rest: Items, strings: Bytes, name: Bytes,
                   g: Gathered, g': Gathered, tail: Bytes)
    requires ItemsOk(Prop(off, value, rest), strings)
    requires AddProperty(g, NameAt(strings, off).value, value) == Some(g') && Parses(rest, strings, name, g', tail)
    ensures Parses(Prop(off, value, rest), strings, name, g, tail)
  {
    var after := Block(rest, strings, tail);
    Assoc(FlatProp(off, value), FlattenItems(rest, strings), Word(END_NODE) + tail);
    PropertyFirst(off, value, after, strings);
    PropertyStep(FlatProp(off, value) + after, strings, name, g);
  }

  lemma ChildParses(tree: Tree, rest: Items, strings: Bytes, name: Bytes, g: Gathered, tail: Bytes)
    requires WellFormed(tree, strings) && ItemsOk(rest, strings)
    requires NodeParsed(tree, strings, Block(rest, strings, tail))
    requires Parses(rest, strings, name, AddChild(g, Meaning(tree, strings)), tail)
    ensures Parses(Child(tree, rest), strings, name, g, tail)
  {
    var after := Block(rest, strings, tail);
    var flat, end := Flatten(tree, strings), Word(END_NODE);
    Assoc(flat, end + FlattenItems(rest, strings), end + tail);
    Assoc(end, FlattenItems(rest, strings), end + tail);
    assert Block(Child(tree, rest), strings, tail) == flat + (end + after);
    NodeBegins(tree, strings, end + after);
    WordFirst(end, after);
    ChildStep(flat + (end + after), strings, name, g);
  }

  lemma {:induction false} BodyParses(items: Items, strings: Bytes, name: Bytes, g: Gathered, tail: Bytes)
    requires ItemsOk(items, strings) && NarrowItems(items)
    ensures Parses(items, strings, name, g, tail)
    decreases items
  {
    match items
    case Done => DoneParses(strings, name, g, tail);
    case Nop(rest) =>
      BodyParses(rest, strings, name, g, tail);
      NopParses(rest, strings, name, g, tail);
    case Prop(off, value, rest) =>
      var g' := AddProperty(g, NameAt(strings, off).value, value).value;
      BodyParses(rest, strings, name, g', tail);
      PropParses(off, value, rest, strings, name, g, g', tail);
    case Child(tree, rest) =>
      NodeParses(tree, strings, Block(rest, strings, tail));
      BodyParses(rest, strings, name, AddChild(g, Meaning(tree, strings)), tail);
      ChildParses(tree, rest, strings, name, g, tail);
  }

  lemma NodeBegins(tree: Tree, strings: Bytes, tail: Bytes)
    requires WellFormed(tree, strings)
    ensures U32(Flatten(tree, strings) + tail, 0) == Some(BEGIN_NODE)
    ensures (Flatten(tree, strings) + tail)[4..] ==
      tree.name + (Zeros(NamePadding(|tree.name|)) + (FlattenItems(tree.items, strings) + tail))
  {
    var zeros, items := Zeros(NamePadding(|tree.name|)), FlattenItems(tree.items, strings);
    Assoc(zeros, items, tail);
    Assoc(tree.name, zeros + items, tail);
    Assoc(Word(BEGIN_NODE), tree.name + (zeros + items), tail);
    WordFirst(Word(BEGIN_NODE), tree.name + (zeros + items) + tail);
  }

  ghost predicate NodeParsed(tree: Tree, strings: Bytes, tail: Bytes)
    requires WellFormed(tree, strings)
  {
    ParseNode(Flatten(tree, strings) + (Word(END_NODE) + tail), strings) ==
      Some((Word(END_NODE) + tail, Meaning(tree, strings)))
  }

  lemma GatherIsMeaning(tree: Tree, strings: Bytes, g: Gathered)
    requires WellFormed(tree, strings) && g == Gathered([], [], 1, 2)
    ensures var all := Gather(tree.items, strings, g);
      Node(tree.name, all.progs, all.children, all.size, all.address) == Meaning(tree, strings)
  {
    GatherMeans(tree.items, strings, g);
    assert Recell([], SizeOf(tree.items, strings, 1), AddressOf(tree.items, strings, 2)) == [];
  }

  /** Parsing a flattened tree returns the tree, and stops at its own end token. */
  lemma {:induction false} NodeParses(tree: Tree, strings: Bytes, tail: Bytes)
    requires WellFormed(tree, strings) && Narrow(tree)
    ensures NodeParsed(tree, strings, tail)
    decreases tree
  {
    var start := Gathered([], [], 1, 2);
    BodyParses(tree.items, strings, tree.name, start, tail);
    GatherIsMeaning(tree, strings, start);
    NodeBegins(tree, strings, Word(END_NODE) + tail);
    NodeStep(Flatten(tree, strings) + (Word(END_NODE) + tail), strings, tree.name, Zeros(NamePadding(|tree.name|)),
             Block(tree.items, strings, tail));
  }
}
