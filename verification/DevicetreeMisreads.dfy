/** Devicetrees that the parser takes for others: names with wide characters, and NOP tokens before the root. */
module DevicetreeMisreads {
  import opened Common
  import opened Devicetree

  // ------------------------------------------------------------ what the loop keeps

  /** Node `r` has name `name`, and goes on from the properties and children in `g`. */
  ghost predicate Extends(r: Node, name: Bytes, g: Gathered) {
    && r.name == name && g.progs <= r.progs && |g.children| <= |r.children|
    && forall i :: 0 <= i < |g.children| ==> r.children[i].children == g.children[i].children
  }

  /** The loop stops where it starts or at least a word later, and keeps the name and what it has gathered. */
  lemma {:induction false} BodyKeeps(b: Bytes, strings: Bytes, name: Bytes, g: Gathered)
    requires ParseBody(b, strings, name, g).Some?
    ensures var r := ParseBody(b, strings, name, g).value;
      (|r.0| == |b| || |r.0| + 4 <= |b|) && Extends(r.1, name, g)
    decreases |b|
  {
    var token := U32(b, 0).value;
    if token == BEGIN_NODE {
      var child := ParseNode(b, strings).value;
      BodyKeeps(child.0[4..], strings, name, AddChild(g, child.1));
    } else if token == NOP {
      BodyKeeps(b[4..], strings, name, g);
    } else if token != END_NODE {
      var prop := TakeProperty(b, strings).value;
      BodyKeeps(prop.2, strings, name, AddProperty(g, prop.0, prop.1).value);
    }
  }

  // ------------------------------------------------------------------- wide names

  lemma NameStep(b: Bytes, strings: Bytes, name: Bytes, rest: Bytes)
    requires |b| >= 4 && b[4..] == name + rest && 0 !in name && rest != [] && rest[0] == 0
    requires |rest| >= NamePadding(Utf8Len(name))
    ensures ParseNode(b, strings) ==
      ParseBody(rest[NamePadding(Utf8Len(name))..], strings, name, Gathered([], [], 1, 2))
  {
    NullStringOf(name, rest);
  }

  /** A token that is none of the four is read as a property; its length may be too much. */
  lemma TooLong(b: Bytes, strings: Bytes, name: Bytes, g: Gathered)
    requires U32(b, 0) == Some(0) && (|b| < 12 || |b| < 12 + U32(b, 4).value)
    ensures ParseBody(b, strings, name, g) == None
  {
  }

  lemma AtLeast(b: Bytes, n: nat)
    requires |b| >= 8 && b[4] >= 2 && n < 0x200_0000
    ensures U32(b, 4).Some? && n < U32(b, 4).value
  {
    var b4: nat, b5: nat, b6: nat, b7: nat := b[4], b[5], b[6], b[7];
    assert BigEndian(b4, b5, b6, b7) >= 0x100_0000 * b4;
  }

  lemma Misaligned(b: Bytes, zeros: Bytes, w: Bytes, tail: Bytes)
    requires |zeros| == 3 && zeros[2] == 0 && |w| == 4 && w[0] == w[1] == w[2] == 0 && w[3] == 2
    requires b == (zeros + (w + tail))[2..] && |tail| < 0x200_0000
    ensures U32(b, 0) == Some(0) && (|b| < 12 || |b| < 12 + U32(b, 4).value)
  {
    assert |b| == 5 + |tail| && b[0] == 0 && b[1] == w[0] && b[2] == w[1] && b[3] == w[2] && b[4] == w[3];
    if |b| >= 12 { AtLeast(b, |tail|); }
  }

  lemma OneWide(name: Bytes)
    requires |name| == 1 && name[0] >= 128
    ensures Utf8Len(name) == 2
  {
    assert Wide(name[1..]) == 0;
  }

  lemma WideLeafPanics(b: Bytes, name: Bytes, zeros: Bytes, w: Bytes, tail: Bytes, strings: Bytes)
    requires |name| == 1 && name[0] >= 128 && |b| >= 4 && b[4..] == name + (zeros + (w + tail))
    requires |zeros| == 3 && zeros[0] == 0 && zeros[2] == 0
    requires |w| == 4 && w[0] == w[1] == w[2] == 0 && w[3] == 2 && |tail| < 0x200_0000
    ensures ParseNode(b, strings) == None
  {
    var rest := zeros + (w + tail);
    OneWide(name);
    NameStep(b, strings, name, rest);
    Misaligned(rest[2..], zeros, w, tail);
    TooLong(rest[2..], strings, name, Gathered([], [], 1, 2));
  }

  /** A node named by one wide character is a panic, unless 32 MiB follow it. */
  lemma WideNamePanics(c: Byte, strings: Bytes, tail: Bytes)
    requires c >= 128 && |tail| < 0x200_0000
    ensures ParseNode(Flatten(Tree([c], Done), strings) + (Word(END_NODE) + tail), strings) == None
  {
    var name, w := [c], Word(END_NODE);
    LeafBytes(name, strings, w + tail);
    WideLeafPanics(Flatten(Tree(name, Done), strings) + (w + tail), name, Zeros(NamePadding(|name|)), w, tail, strings);
  }

  lemma LeafBytes(name: Bytes, strings: Bytes, end: Bytes)
    requires 0 !in name
    ensures var b := Flatten(Tree(name, Done), strings) + end;
      |b| >= 4 && b[4..] == name + (Zeros(NamePadding(|name|)) + end)
  {
    assert FlattenItems(Done, strings) + end == end;
    NodeBegins(Tree(name, Done), strings, end);
  }

  // ------------------------------------------------------- NOP tokens before the root

  /** Any number of NOP tokens. */
  predicate Nops(p: Bytes) {
    p == [] || (|p| >= 4 && U32(p, 0) == Some(NOP) && Nops(p[4..]))
  }

  /** A structure block, with the bytes `p` before the root. */
  function Structure(p: Bytes, tree: Tree, strings: Bytes, tail: Bytes): Bytes
    requires WellFormed(tree, strings)
  {
    p + (Flatten(tree, strings) + (Word(END_NODE) + tail))
  }

  /** Whether there are NOPs before the root can be told from the first word. */
  lemma FirstToken(p: Bytes, tree: Tree, strings: Bytes, tail: Bytes)
    requires WellFormed(tree, strings) && Nops(p)
    ensures U32(Structure(p, tree, strings, tail), 0) == Some(BEGIN_NODE) <==> p == []
  {
    var block := Flatten(tree, strings) + (Word(END_NODE) + tail);
    if p == [] {
      assert p + block == block;
      NodeBegins(tree, strings, Word(END_NODE) + tail);
    } else {
      assert U32(p + block, 0) == U32(p, 0);
    }
  }

  /** The first word is skipped unread, and the next one is taken for an empty name and its padding. */
  lemma WordForName(w: Bytes, word: Bytes, rest: Bytes, strings: Bytes, whole: Bytes)
    requires |w| == 4 && |word| == 4 && word[0] == 0 && whole == w + (word + rest)
    ensures ParseNode(whole, strings) == ParseBody(rest, strings, [], Gathered([], [], 1, 2))
  {
    WordFirst(w, word + rest);
    WordFirst(word, rest);
    assert word + rest == [] + (word + rest);
    NameStep(whole, strings, [], word + rest);
  }

  lemma NopSkipped(w: Bytes, more: Bytes, b: Bytes, strings: Bytes, name: Bytes, g: Gathered)
    requires |w| == 4 && U32(w, 0) == Some(NOP)
    ensures ParseBody((w + more) + b, strings, name, g) == ParseBody(more + b, strings, name, g)
  {
    Assoc(w, more, b);
    WordFirst(w, more + b);
    NopStep((w + more) + b, strings, name, g);
  }

  lemma {:induction false} NopsSkipped(p: Bytes, b: Bytes, strings: Bytes, name: Bytes, g: Gathered)
    requires Nops(p)
    ensures ParseBody(p + b, strings, name, g) == ParseBody(b, strings, name, g)
    decreases |p|
  {
    if p == [] {
      assert p + b == b;
    } else {
      assert p[..4] + p[4..] == p;
      NopSkipped(p[..4], p[4..], b, strings, name, g);
      NopsSkipped(p[4..], b, strings, name, g);
    }
  }

  /** The second NOP is taken for the name, and the others are skipped. */
  lemma NopsForName(p: Bytes, b: Bytes, strings: Bytes)
    requires Nops(p) && |p| >= 8
    ensures ParseNode(p + b, strings) == ParseBody(b, strings, [], Gathered([], [], 1, 2))
  {
    var after := p[8..] + b;
    assert p[4..][4..] == p[8..];
    assert p + b == p[..4] + (p[4..8] + after);
    SmallWord(p[4..], NOP);
    WordForName(p[..4], p[4..8], after, strings, p + b);
    NopsSkipped(p[8..], b, strings, [], Gathered([], [], 1, 2));
  }

  lemma SmallWord(b: Bytes, token: nat)
    requires U32(b, 0) == Some(token) && token < 0x100_0000
    ensures b[0] == 0
  {
  }

  lemma BeginBytes(tree: Tree, strings: Bytes, end: Bytes)
    requires WellFormed(tree, strings)
    ensures Flatten(tree, strings) + end == Word(BEGIN_NODE) +
      (tree.name + (Zeros(NamePadding(|tree.name|)) + (FlattenItems(tree.items, strings) + end)))
  {
    var zeros, items := Zeros(NamePadding(|tree.name|)), FlattenItems(tree.items, strings);
    Assoc(Word(BEGIN_NODE), tree.name + (zeros + items), end);
    Assoc(tree.name, zeros + items, end);
    Assoc(zeros, items, end);
  }

  /** After one NOP, the root's begin token is its name, and the loop starts at the bytes of its name. */
  lemma OneNop(p: Bytes, tree: Tree, strings: Bytes, tail: Bytes)
    requires WellFormed(tree, strings) && |p| == 4
    ensures ParseNode(Structure(p, tree, strings, tail), strings) ==
      ParseBody(tree.name + (Zeros(NamePadding(|tree.name|)) + Block(tree.items, strings, tail)), strings, [],
                Gathered([], [], 1, 2))
  {
    BeginBytes(tree, strings, Word(END_NODE) + tail);
    SmallWord(Word(BEGIN_NODE), BEGIN_NODE);
    WordForName(p, Word(BEGIN_NODE), tree.name + (Zeros(NamePadding(|tree.name|)) + Block(tree.items, strings, tail)),
                strings, Structure(p, tree, strings, tail));
  }

  /** At a node's begin token, the loop takes the node for a child and goes on behind its end token. */
  lemma RootAsChild(tree: Tree, strings: Bytes, tail: Bytes, g: Gathered)
    requires WellFormed(tree, strings) && Narrow(tree)
    ensures ParseBody(Flatten(tree, strings) + (Word(END_NODE) + tail), strings, [], g) ==
      ParseBody(tail, strings, [], AddChild(g, Meaning(tree, strings)))
  {
    NodeBegins(tree, strings, Word(END_NODE) + tail);
    NodeParses(tree, strings, tail);
    ChildStep(Flatten(tree, strings) + (Word(END_NODE) + tail), strings, [], g);
    WordFirst(Word(END_NODE), tail);
  }

  /** After more, the root becomes the first child of a node without a name. */
  lemma MoreNops(p: Bytes, tree: Tree, strings: Bytes, tail: Bytes)
    requires WellFormed(tree, strings) && Narrow(tree) && Nops(p) && |p| >= 8
    ensures ParseNode(Structure(p, tree, strings, tail), strings) ==
      ParseBody(tail, strings, [], AddChild(Gathered([], [], 1, 2), Meaning(tree, strings)))
  {
    NopsForName(p, Flatten(tree, strings) + (Word(END_NODE) + tail), strings);
    RootAsChild(tree, strings, tail, Gathered([], [], 1, 2));
  }

  /** No node has the children of its first child. */
  lemma {:induction false} NoLoop(node: Node)
    requires node.children != []
    ensures node.children[0].children != node.children
  {
    if node.children[0].children == node.children {
      NoLoop(node.children[0]);
    }
  }

  ghost predicate RootFound(p: Bytes, tree: Tree, strings: Bytes, tail: Bytes)
    requires WellFormed(tree, strings)
  {
    var r := ParseNode(Structure(p, tree, strings, tail), strings);
    r.Some? && r.value.1 == Meaning(tree, strings)
  }

  /** The name is lost: the root that is found has none. */
  lemma NameLost(p: Bytes, tree: Tree, strings: Bytes, tail: Bytes)
    requires WellFormed(tree, strings) && |p| == 4 && tree.name != []
    ensures !RootFound(p, tree, strings, tail)
  {
    OneNop(p, tree, strings, tail);
    if RootFound(p, tree, strings, tail) {
      BodyKeeps(tree.name + (Zeros(NamePadding(|tree.name|)) + Block(tree.items, strings, tail)), strings, [],
                Gathered([], [], 1, 2));
      assert false;
    }
  }

  lemma ChildKept(b: Bytes, strings: Bytes, g: Gathered, child: Node)
    requires ParseBody(b, strings, [], AddChild(g, child)).Some? && g.children == []
    ensures ParseBody(b, strings, [], AddChild(g, child)).value.1 != child
  {
    BodyKeeps(b, strings, [], AddChild(g, child));
    var r := ParseBody(b, strings, [], AddChild(g, child)).value.1;
    assert r.children[0].children == child.children;
    NoLoop(r);
  }

  // ------------------------------------------------- one NOP before a root without a name

  /** The token that a node's contents start with, or its end token. */
  function FirstWord(items: Items): (n: nat)
    ensures 1 <= n <= 4
  {
    match items
    case Done => END_NODE
    case Nop(_) => NOP
    case Prop(_, _, _) => PROP
    case Child(_, _) => BEGIN_NODE
  }

  /** The name at `off` is that of a cell count. */
  predicate CellsAt(strings: Bytes, off: nat) {
    NameAt(strings, off).Some? && IsCells(NameAt(strings, off).value)
  }

  /**
   * The padding of an empty name and the first token of the contents read as a property whose value has as many
   * bytes as that token says. It is no cell count, and the contents do not start with a property of that length.
   */
  predicate Telling(items: Items, strings: Bytes)
    requires ItemsOk(items, strings)
  {
    && (items.Nop? ==> !CellsAt(strings, FirstWord(items.rest)))
    && (PropertiesOf(items, strings) == [] || |PropertiesOf(items, strings)[0].value| != FirstWord(items))
  }

  lemma FlatPropWord(off: nat, value: Bytes, rest: Bytes)
    requires off < 0x1_0000_0000 && |value| < 0x1_0000_0000
    ensures U32(FlatProp(off, value) + rest, 0) == Some(PROP)
  {
    PropertyAssoc(Word(PROP), Word(|value|), Word(off), value, Zeros(ValuePadding(|value|)), rest);
    WordsFirst(Word(PROP), Word(|value|), Word(off), value + Zeros(ValuePadding(|value|)) + rest);
  }

  lemma BlockWord(items: Items, strings: Bytes, tail: Bytes)
    requires ItemsOk(items, strings)
    ensures U32(Block(items, strings, tail), 0) == Some(FirstWord(items))
  {
    var end := Word(END_NODE) + tail;
    match items
    case Done =>
      assert Block(items, strings, tail) == end;
      WordFirst(Word(END_NODE), tail);
    case Nop(rest) =>
      Assoc(Word(NOP), FlattenItems(rest, strings), end);
      WordFirst(Word(NOP), FlattenItems(rest, strings) + end);
    case Prop(off, value, rest) =>
      Assoc(FlatProp(off, value), FlattenItems(rest, strings), end);
      FlatPropWord(off, value, FlattenItems(rest, strings) + end);
    case Child(tree, rest) =>
      Assoc(Flatten(tree, strings), Word(END_NODE) + FlattenItems(rest, strings), end);
      NodeBegins(tree, strings, Word(END_NODE) + FlattenItems(rest, strings) + end);
  }

  lemma WordAfter(w: Bytes, b: Bytes)
    requires |w| == 4
    ensures U32(w + b, 4) == U32(b, 0) && U32(w + b, 8) == U32(b, 4)
  {
  }

  lemma ZeroWord() returns (zeros: Bytes)
    ensures zeros == Zeros(4) && |zeros| == 4 && U32(zeros, 0) == Some(0)
  {
    zeros := Zeros(4);
  }

  /** The three words that the parser takes for the head of a property. */
  lemma HeadWords(items: Items, strings: Bytes, tail: Bytes, zeros: Bytes, b: Bytes)
    requires ItemsOk(items, strings) && |zeros| == 4 && U32(zeros, 0) == Some(0)
    requires b == zeros + Block(items, strings, tail)
    ensures U32(b, 0) == Some(0) && U32(b, 4) == Some(FirstWord(items))
    ensures items.Nop? ==> U32(b, 8) == Some(FirstWord(items.rest))
  {
    var block := Block(items, strings, tail);
    WordFirst(zeros, block);
    WordAfter(zeros, block);
    BlockWord(items, strings, tail);
    if items.Nop? {
      Assoc(Word(NOP), FlattenItems(items.rest, strings), Word(END_NODE) + tail);
      WordAfter(Word(NOP), Block(items.rest, strings, tail));
      BlockWord(items.rest, strings, tail);
    }
  }

  lemma TakenLength(b: Bytes, strings: Bytes, n: nat)
    requires U32(b, 4) == Some(n) && TakeProperty(b, strings).Some?
    ensures |TakeProperty(b, strings).value.1| == n
    ensures NameAt(strings, U32(b, 8).value) == Some(TakeProperty(b, strings).value.0)
  {
  }

  /** Unless it is a cell count, a property at the front stays the first one. */
  lemma FirstProperty(b: Bytes, strings: Bytes, n: nat, g: Gathered)
    requires U32(b, 0) == Some(0) && U32(b, 4) == Some(n) && 1 <= n <= 4 && g.progs == []
    requires n == 4 ==> U32(b, 8).Some? && !CellsAt(strings, U32(b, 8).value)
    requires ParseBody(b, strings, [], g).Some?
    ensures var r := ParseBody(b, strings, [], g).value.1; r.progs != [] && |r.progs[0].value| == n
  {
    var prop := TakeProperty(b, strings).value;
    TakenLength(b, strings, n);
    var g' := AddProperty(g, prop.0, prop.1).value;
    assert g'.progs == [Property(prop.0, prop.1)];
    BodyKeeps(prop.2, strings, [], g');
  }

  /** A root without a name is lost behind one NOP, whatever its contents are, if they are telling. */
  lemma NamelessLost(p: Bytes, tree: Tree, strings: Bytes, tail: Bytes)
    requires WellFormed(tree, strings) && |p| == 4 && tree.name == [] && Telling(tree.items, strings)
    ensures !RootFound(p, tree, strings, tail)
  {
    var b := NamelessBody(p, tree, strings, tail);
    if RootFound(p, tree, strings, tail) {
      FirstProperty(b, strings, FirstWord(tree.items), Gathered([], [], 1, 2));
      assert false;
    }
  }

  lemma NamelessBody(p: Bytes, tree: Tree, strings: Bytes, tail: Bytes) returns (b: Bytes)
    requires WellFormed(tree, strings) && |p| == 4 && tree.name == []
    ensures ParseNode(Structure(p, tree, strings, tail), strings) ==
      ParseBody(b, strings, [], Gathered([], [], 1, 2))
    ensures U32(b, 0) == Some(0) && U32(b, 4) == Some(FirstWord(tree.items))
    ensures tree.items.Nop? ==> U32(b, 8) == Some(FirstWord(tree.items.rest))
  {
    OneNop(p, tree, strings, tail);
    b := NamelessWords(tree, strings, tail);
  }

  lemma NamelessWords(tree: Tree, strings: Bytes, tail: Bytes) returns (b: Bytes)
    requires WellFormed(tree, strings) && tree.name == []
    ensures b == tree.name + (Zeros(NamePadding(|tree.name|)) + Block(tree.items, strings, tail))
    ensures U32(b, 0) == Some(0) && U32(b, 4) == Some(FirstWord(tree.items))
    ensures tree.items.Nop? ==> U32(b, 8) == Some(FirstWord(tree.items.rest))
  {
    var zeros := EmptyName(tree.name, Block(tree.items, strings, tail));
    b := zeros + Block(tree.items, strings, tail);
    HeadWords(tree.items, strings, tail, zeros, b);
  }

  lemma EmptyName(name: Bytes, rest: Bytes) returns (zeros: Bytes)
    requires name == []
    ensures |zeros| == 4 && U32(zeros, 0) == Some(0) && name + (Zeros(NamePadding(|name|)) + rest) == zeros + rest
  {
    zeros := Zeros(NamePadding(|name|));
    AllZero(zeros);
    NoName(name, zeros + rest);
  }

  lemma AllZero(zeros: Bytes)
    requires |zeros| == 4 && forall i :: 0 <= i < 4 ==> zeros[i] == 0
    ensures U32(zeros, 0) == Some(0)
  {
  }

  lemma NoName(name: Bytes, rest: Bytes)
    requires name == []
    ensures name + rest == rest
  {
  }

  /**
   * NOP tokens before the root: it is found if and only if there are none. Only a root without a name whose
   * contents are not telling may be found behind exactly one; see `LuckyRootFound`.
   */
  lemma LeadingNops(p: Bytes, tree: Tree, strings: Bytes, tail: Bytes)
    requires WellFormed(tree, strings) && Narrow(tree) && Nops(p)
    requires |p| == 4 && tree.name == [] ==> Telling(tree.items, strings)
    ensures RootFound(p, tree, strings, tail) <==> p == []
  {
    if p == [] {
      NodeParses(tree, strings, tail);
      assert Structure(p, tree, strings, tail) == Flatten(tree, strings) + (Word(END_NODE) + tail);
    } else if |p| == 4 {
      if tree.name == [] { NamelessLost(p, tree, strings, tail); } else { NameLost(p, tree, strings, tail); }
    } else {
      assert |p| >= 8;
      MoreNops(p, tree, strings, tail);
      if RootFound(p, tree, strings, tail) {
        ChildKept(tail, strings, Gathered([], [], 1, 2), Meaning(tree, strings));
        assert false;
      }
    }
  }

  lemma Tokens() returns (begin: Bytes, end: Bytes)
    ensures begin == Word(BEGIN_NODE) && |begin| == 4 && begin[0] == 0
    ensures end == Word(END_NODE) && |end| == 4 && U32(end, 0) == Some(END_NODE)
  {
    begin, end := Word(BEGIN_NODE), Word(END_NODE);
    SmallWord(begin, BEGIN_NODE);
  }

  /** Four bytes, and the name of the cell count at offset 4. */
  function LuckyStrings(): Bytes {
    Zeros(4) + (SIZE_CELLS + [0])
  }

  function LuckyRest(): Items {
    Prop(4, Word(PROP), Done)
  }

  function LuckyTree(): Tree {
    Tree([], Nop(Nop(Prop(4, Word(NOP), LuckyRest()))))
  }

  lemma LuckyName()
    ensures NameAt(LuckyStrings(), 4) == Some(SIZE_CELLS)
  {
    assert LuckyStrings()[4..] == SIZE_CELLS + [0];
    NullStringOf(SIZE_CELLS, [0]);
  }

  lemma LuckyMeans()
    ensures WellFormed(LuckyTree(), LuckyStrings()) && ItemsOk(LuckyRest(), LuckyStrings())
    ensures Meaning(LuckyTree(), LuckyStrings()) == Node([], [], [], PROP, 2)
  {
    LuckyName();
    var strings, rest := LuckyStrings(), LuckyRest();
    assert ItemsOk(Done, strings);
    assert ItemsOk(rest, strings);
    assert ItemsOk(Prop(4, Word(NOP), rest), strings);
    assert ItemsOk(Nop(Prop(4, Word(NOP), rest)), strings);
    assert SizeOf(rest, strings, NOP) == SizeOf(Done, strings, PROP) == PROP;
    assert PropertiesOf(rest, strings) == [];
  }

  lemma Regroup(z: Bytes, n: Bytes, p: Bytes, none: Bytes, x: Bytes, e: Bytes)
    requires none == []
    ensures none + (z + ((n + (n + ((p + n + n + n + none) + x))) + e)) ==
      z + n + n + (p + none + ((n + (n + (n + x))) + e))
  {
    assert p + n + n + n + none == p + (n + (n + n));
    Assoc(p, n + (n + n), x);
    Assoc(n, n + n, x);
    Assoc(n, n, x);
    var y := n + (n + (n + x));
    assert (p + n + n + n + none) + x == p + y;
    Assoc(n, n + (p + y), e);
    Assoc(n, p + y, e);
    Assoc(p, y, e);
    Assoc(z, n, n + (p + (y + e)));
    Assoc(z + n, n, p + (y + e));
    assert p + none == p;
  }

  /** The bytes of the tree, cut where the parser cuts them. */
  lemma LuckyBytes(p: Bytes, tail: Bytes, begin: Bytes, z: Bytes, w: Bytes, value: Bytes, after: Bytes)
    requires WellFormed(LuckyTree(), LuckyStrings()) && ItemsOk(LuckyRest(), LuckyStrings())
    requires begin == Word(BEGIN_NODE) && z == Zeros(4) && w == Word(4) && value == Word(PROP)
    requires after == Block(Nop(Nop(Nop(LuckyRest()))), LuckyStrings(), tail)
    ensures Structure(p, LuckyTree(), LuckyStrings(), tail) == p + (begin + (z + w + w + (value + [] + after)))
  {
    BeginBytes(LuckyTree(), LuckyStrings(), Word(END_NODE) + tail);
    assert |Word(NOP)| == 4 && ValuePadding(4) == 0 && Zeros(0) == [];
    Regroup(z, w, value, Zeros(0), FlattenItems(LuckyRest(), LuckyStrings()), Word(END_NODE) + tail);
  }

  lemma LuckyWords() returns (w: Bytes, value: Bytes)
    ensures w == Word(4) && |w| == 4 && U32(w, 0) == Some(4)
    ensures value == Word(PROP) && |value| == 4 && U32(value, 0) == Some(PROP)
  {
    w, value := Word(4), Word(PROP);
  }

  lemma LuckyShape(p: Bytes, tail: Bytes, after: Bytes) returns (begin: Bytes, z: Bytes, w: Bytes, value: Bytes)
    requires WellFormed(LuckyTree(), LuckyStrings()) && ItemsOk(LuckyRest(), LuckyStrings())
    requires after == Block(Nop(Nop(Nop(LuckyRest()))), LuckyStrings(), tail)
    ensures |begin| == 4 && begin[0] == 0 && |z| == 4 && |w| == 4 && |value| == 4
    ensures U32(z, 0) == Some(0) && U32(w, 0) == Some(4) && U32(value, 0) == Some(PROP)
    ensures Structure(p, LuckyTree(), LuckyStrings(), tail) == p + (begin + (z + w + w + (value + [] + after)))
  {
    var end;
    begin, end := Tokens();
    z := ZeroWord();
    w, value := LuckyWords();
    LuckyBytes(p, tail, begin, z, w, value, after);
  }

  lemma SizeProperty(b: Bytes, strings: Bytes, name: Bytes, value: Bytes, after: Bytes)
    requires U32(b, 0) == Some(0) && TakeProperty(b, strings) == Some((name, value, after))
    requires name == SIZE_CELLS && U32(value, 0).Some?
    ensures ParseBody(b, strings, [], Gathered([], [], 1, 2)) ==
      ParseBody(after, strings, [], Gathered([], [], U32(value, 0).value, 2))
  {
    assert SetSize([], U32(value, 0).value) == [];
  }

  /** The padding, a length, an offset and four bytes are read as a cell count. */
  lemma SizeWords(p: Bytes, begin: Bytes, z: Bytes, w: Bytes, value: Bytes, after: Bytes, strings: Bytes, whole: Bytes)
    requires |p| == 4 && |begin| == 4 && begin[0] == 0 && |z| == 4 && |w| == 4 && |value| == 4
    requires U32(z, 0) == Some(0) && U32(w, 0) == Some(4) && NameAt(strings, 4) == Some(SIZE_CELLS)
    requires whole == p + (begin + (z + w + w + (value + [] + after)))
    ensures ParseNode(whole, strings) == ParseBody(after, strings, [], Gathered([], [], U32(value, 0).value, 2))
  {
    var b := z + w + w + (value + [] + after);
    WordForName(p, begin, b, strings, whole);
    PropertyWords(z, w, w, value, [], after, 4, strings);
    SizeProperty(b, strings, SIZE_CELLS, value, after);
  }

  /** After the property that the parser sees come three NOPs and the last property of the tree. */
  lemma LuckyStep(p: Bytes, tail: Bytes)
    requires WellFormed(LuckyTree(), LuckyStrings()) && ItemsOk(LuckyRest(), LuckyStrings()) && |p| == 4
    ensures ParseNode(Structure(p, LuckyTree(), LuckyStrings(), tail), LuckyStrings()) ==
      ParseBody(Block(Nop(Nop(Nop(LuckyRest()))), LuckyStrings(), tail), LuckyStrings(), [], Gathered([], [], PROP, 2))
  {
    var after := Block(Nop(Nop(Nop(LuckyRest()))), LuckyStrings(), tail);
    var begin, z, w, value := LuckyShape(p, tail, after);
    LuckyName();
    SizeWords(p, begin, z, w, value, after, LuckyStrings(), Structure(p, LuckyTree(), LuckyStrings(), tail));
  }

  lemma LuckyGather()
    requires ItemsOk(LuckyRest(), LuckyStrings())
    ensures Gather(Nop(Nop(Nop(LuckyRest()))), LuckyStrings(), Gathered([], [], PROP, 2)) == Gathered([], [], PROP, 2)
  {
    LuckyName();
    var strings, rest, g := LuckyStrings(), LuckyRest(), Gathered([], [], PROP, 2);
    assert AddProperty(g, SIZE_CELLS, Word(PROP)) == Some(g) by { assert SetSize([], PROP) == []; }
    assert Gather(rest, strings, g) == Gather(Done, strings, g) == g;
    assert Gather(Nop(rest), strings, g) == g;
    assert Gather(Nop(Nop(rest)), strings, g) == g;
  }

  /** But one may be found by chance: here the value of a property has the bytes of a NOP. */
  lemma LuckyRootFound(p: Bytes, tail: Bytes)
    requires |p| == 4
    ensures WellFormed(LuckyTree(), LuckyStrings()) && RootFound(p, LuckyTree(), LuckyStrings(), tail)
  {
    LuckyMeans();
    LuckyStep(p, tail);
    LuckyGather();
    BodyParses(Nop(Nop(Nop(LuckyRest()))), LuckyStrings(), [], Gathered([], [], PROP, 2), tail);
  }
}
