/** The devicetree parser as it runs: loops over the bytes that are left. */
module DevicetreeParser {
  import opened Common
  import opened Devicetree
  import opened DevicetreeMisreads

  const MAGIC: Bytes := [0xd0, 0x0d, 0xfe, 0xed]

  datatype Outcome = Ok(version: nat, root: Node) | InvalidHeader(magic: Bytes) | Panic

  method ParseNullString(b: Bytes) returns (r: Option<(Bytes, Bytes)>)
    ensures r == NullString(b)
  {
    var bytes, name: Bytes := b, [];
    PrependMore([], [], NullString(b));
    while bytes != [] && bytes[0] != 0
      invariant NullString(b) == Prepend(name, NullString(bytes))
      decreases |bytes|
    {
      PrependMore(name, [bytes[0]], NullString(bytes[1..]));
      name := name + [bytes[0]];
      bytes := bytes[1..];
    }
    assert name + [] == name;
    r := if bytes == [] then None else Some((bytes, name));
  }

  function Prepend(name: Bytes, r: Option<(Bytes, Bytes)>): Option<(Bytes, Bytes)> {
    if r.None? then None else Some((r.value.0, name + r.value.1))
  }

  lemma PrependMore(name: Bytes, more: Bytes, r: Option<(Bytes, Bytes)>)
    ensures Prepend([], r) == r && Prepend(name, Prepend(more, r)) == Prepend(name + more, r)
  {
    if r.Some? {
      assert [] + r.value.1 == r.value.1;
      Assoc(name, more, r.value.1);
    }
  }

  method UpdateSizes(children: seq<Node>, v: nat) returns (r: seq<Node>)
    ensures r == SetSize(children, v)
  {
    r := children;
    for i := 0 to |children|
      invariant |r| == |children|
      invariant forall j :: 0 <= j < i ==> r[j] == children[j].(sizeCells := v)
      invariant forall j :: i <= j < |r| ==> r[j] == children[j]
    {
      r := r[i := r[i].(sizeCells := v)];
    }
  }

  method UpdateAddresses(children: seq<Node>, v: nat) returns (r: seq<Node>)
    ensures r == SetAddress(children, v)
  {
    r := children;
    for i := 0 to |children|
      invariant |r| == |children|
      invariant forall j :: 0 <= j < i ==> r[j] == children[j].(addressCells := v)
      invariant forall j :: i <= j < |r| ==> r[j] == children[j]
    {
      r := r[i := r[i].(addressCells := v)];
    }
  }

  method ReadProperty(b: Bytes, strings: Bytes) returns (r: Option<(Bytes, Bytes, Bytes)>)
    ensures r == TakeProperty(b, strings)
  {
    if |b| < 12 {
      return None;
    }
    r := ReadAt(b, strings, U32(b, 4).value, U32(b, 8).value);
  }

  method ReadAt(b: Bytes, strings: Bytes, len: nat, off: nat) returns (r: Option<(Bytes, Bytes, Bytes)>)
    ensures r == PropertyAt(b, strings, len, off)
  {
    if off > |strings| {
      return None;
    }
    var text := ParseNullString(strings[off..]);
    var padding := ValuePadding(len);
    if text.None? || |b| < 12 + len + padding {
      return None;
    }
    r := Some((text.value.1, b[12..12 + len], b[12 + len + padding..]));
  }

  /** A property takes effect on what has been gathered. */
  method ApplyProperty(g: Gathered, name: Bytes, value: Bytes) returns (r: Option<Gathered>)
    ensures r == AddProperty(g, name, value)
  {
    var cells := U32(value, 0);
    if name == SIZE_CELLS {
      if cells.None? {
        return None;
      }
      var children := UpdateSizes(g.children, cells.value);
      r := Some(g.(size := cells.value, children := children));
    } else if name == ADDRESS_CELLS {
      if cells.None? {
        return None;
      }
      var children := UpdateAddresses(g.children, cells.value);
      r := Some(g.(address := cells.value, children := children));
    } else {
      r := Some(g.(progs := g.progs + [Property(name, value)]));
    }
  }

  /** A property at the front of `b` takes effect on what has been gathered. */
  method ParseProperty(b: Bytes, strings: Bytes, g: Gathered) returns (r: Option<(Bytes, Gathered)>)
    ensures r.Some? <==> Effect(b, strings, g).Some?
    ensures r.Some? ==> r.value.0 == TakeProperty(b, strings).value.2 && r.value.1 == Effect(b, strings, g).value
  {
    var prop := ReadProperty(b, strings);
    if prop.None? {
      return None;
    }
    var g' := ApplyProperty(g, prop.value.0, prop.value.1);
    r := if g'.None? then None else Some((prop.value.2, g'.value));
  }

  ghost function Effect(b: Bytes, strings: Bytes, g: Gathered): Option<Gathered> {
    if TakeProperty(b, strings).None? then None
    else AddProperty(g, TakeProperty(b, strings).value.0, TakeProperty(b, strings).value.1)
  }

  /** The loop is at `bytes` with `g` gathered. */
  ghost predicate At(b: Bytes, strings: Bytes, name: Bytes, bytes: Bytes, g: Gathered) {
    |bytes| < |b| && ParseNode(b, strings) == ParseBody(bytes, strings, name, g)
  }

  method Parse(b: Bytes, strings: Bytes) returns (r: Option<(Bytes, Node)>)
    ensures r == ParseNode(b, strings)
    decreases |b|
  {
    if |b| < 4 {
      return None;
    }
    var text := ParseNullString(b[4..]);
    if text.None? {
      return None;
    }
    var bytes, name := text.value.0, text.value.1;
    var padding := 4 - Utf8Len(name) % 4;
    if |bytes| < padding {
      return None;
    }
    bytes := bytes[padding..];
    var g := Gathered([], [], 1, 2);
    while true
      invariant At(b, strings, name, bytes, g)
      decreases |bytes|
    {
      var token := U32(bytes, 0);
      if token.None? {
        return None;
      }
      if token.value == END_NODE {
        return Some((bytes, Node(name, g.progs, g.children, g.size, g.address)));
      }
      if token.value == BEGIN_NODE {
        var child := Parse(bytes, strings);
        if child.None? {
          return None;
        }
        bytes := child.value.0[4..];
        g := AddChild(g, child.value.1);
      } else if token.value == NOP {
        bytes := bytes[4..];
      } else {
        var next := ParseProperty(bytes, strings, g);
        if next.None? {
          return None;
        }
        bytes, g := next.value.0, next.value.1;
      }
    }
  }

  function ParseBlob(b: Bytes): Outcome {
    if !(MAGIC <= b) then if |b| < 4 then Panic else InvalidHeader(b[..4])
    else if |b| < 24 || U32(b, 12).value > |b| || U32(b, 8).value > |b| then Panic
    else
      var root := ParseNode(b[U32(b, 8).value..], b[U32(b, 12).value..]);
      if root.None? then Panic else Ok(U32(b, 20).value, root.value.1)
  }

  /** The header leads to a strings block and a structure block. */
  predicate Headed(b: Bytes) {
    MAGIC <= b && |b| >= 24 && U32(b, 12).value <= |b| && U32(b, 8).value <= |b|
  }

  function StringsOf(b: Bytes): Bytes
    requires Headed(b)
  {
    b[U32(b, 12).value..]
  }

  function StructureOf(b: Bytes): Bytes
    requires Headed(b)
  {
    b[U32(b, 8).value..]
  }

  /** The blob holds `tree`, after the NOP tokens `p`. */
  ghost predicate Stores(b: Bytes, p: Bytes, tree: Tree, tail: Bytes) {
    && Headed(b) && WellFormed(tree, StringsOf(b)) && Narrow(tree) && Nops(p)
    && StructureOf(b) == Structure(p, tree, StringsOf(b), tail)
  }

  ghost predicate Found(r: Outcome, b: Bytes, tree: Tree)
    requires Headed(b) && WellFormed(tree, StringsOf(b))
  {
    r == Ok(U32(b, 20).value, Meaning(tree, StringsOf(b)))
  }

  /** The parser finds the tree of a blob whose structure block starts with the begin token of the root. */
  lemma BlobParses(b: Bytes, p: Bytes, tree: Tree, tail: Bytes)
    requires Stores(b, p, tree, tail) && U32(StructureOf(b), 0) == Some(BEGIN_NODE)
    ensures Found(ParseBlob(b), b, tree)
  {
    FirstToken(p, tree, StringsOf(b), tail);
    NodeParses(tree, StringsOf(b), tail);
    assert Structure(p, tree, StringsOf(b), tail) == Flatten(tree, StringsOf(b)) + (Word(END_NODE) + tail);
  }

  /** And only then, but for a root without a name whose contents are not telling, behind one NOP token. */
  lemma BlobExact(b: Bytes, p: Bytes, tree: Tree, tail: Bytes)
    requires Stores(b, p, tree, tail) && (|p| == 4 && tree.name == [] ==> Telling(tree.items, StringsOf(b)))
    ensures Found(ParseBlob(b), b, tree) <==> U32(StructureOf(b), 0) == Some(BEGIN_NODE)
  {
    FirstToken(p, tree, StringsOf(b), tail);
    LeadingNops(p, tree, StringsOf(b), tail);
  }

  /** `DeviceTree::parse`. */
  method ParseTree(b: Bytes) returns (r: Outcome)
    ensures r == ParseBlob(b)
    ensures forall p, tree, tail {:trigger Stores(b, p, tree, tail)} ::
      Stores(b, p, tree, tail) && U32(StructureOf(b), 0) == Some(BEGIN_NODE) ==> Found(r, b, tree)
  {
    forall p, tree, tail | Stores(b, p, tree, tail) && U32(StructureOf(b), 0) == Some(BEGIN_NODE)
      ensures Found(ParseBlob(b), b, tree)
    {
      BlobParses(b, p, tree, tail);
    }
    if !(MAGIC <= b) {
      return if |b| < 4 then Panic else InvalidHeader(b[..4]);
    }
    if |b| < 24 || U32(b, 12).value > |b| || U32(b, 8).value > |b| {
      return Panic;
    }
    var structOff, stringsOff, version := U32(b, 8).value, U32(b, 12).value, U32(b, 20).value;
    var root := Parse(b[structOff..], b[stringsOff..]);
    r := if root.None? then Panic else Ok(version, root.value.1);
  }
}
