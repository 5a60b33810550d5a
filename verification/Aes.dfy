/** AES on a block in place: the rounds of sections 5.1 and 5.3 of FIPS 197. */
module Aes {
  import opened AesRounds
  import opened AesCipher

  method AddRoundKey(o: Ops<bv8>, block: array<bv8>, key: Block)
    requires block.Length == 16
    modifies block
    ensures block[..] == Xor(o, old(block[..]), key)
  {
    for i := 0 to 16
      invariant forall j :: 0 <= j < i ==> block[j] == o.add(old(block[j]), key[j])
      invariant forall j :: i <= j < 16 ==> block[j] == old(block[j])
    {
      block[i] := o.add(block[i], key[i]);
    }
  }

  /** `sub_bytes` and `sub_bytes_inv`, with either table. */
  method SubBytes(table: bv8 -> bv8, block: array<bv8>)
    requires block.Length == 16
    modifies block
    ensures block[..] == Map(table, old(block[..]))
  {
    for i := 0 to 16
      invariant forall j :: 0 <= j < i ==> block[j] == table(old(block[j]))
      invariant forall j :: i <= j < 16 ==> block[j] == old(block[j])
    {
      block[i] := table(block[i]);
    }
  }

  /** One row takes its bytes from columns `c0` to `c3`. */
  function RowShifted(s: Block, row: nat, c0: nat, c1: nat, c2: nat, c3: nat): Block
    requires row < 4 && c0 < 4 && c1 < 4 && c2 < 4 && c3 < 4
  {
    s[row := s[4 * c0 + row]][4 + row := s[4 * c1 + row]][8 + row := s[4 * c2 + row]][12 + row := s[4 * c3 + row]]
  }

  method ShiftRow(block: array<bv8>, row: nat, c0: nat, c1: nat, c2: nat, c3: nat)
    requires block.Length == 16 && row < 4 && c0 < 4 && c1 < 4 && c2 < 4 && c3 < 4
    modifies block
    ensures block[..] == RowShifted(old(block[..]), row, c0, c1, c2, c3)
  {
    block[row], block[4 + row], block[8 + row], block[12 + row] :=
      block[4 * c0 + row], block[4 * c1 + row], block[4 * c2 + row], block[4 * c3 + row];
  }

  method ShiftRowsOf(block: array<bv8>)
    requires block.Length == 16
    modifies block
    ensures block[..] == ShiftRows(old(block[..]))
  {
    ShiftRow(block, 1, 1, 2, 3, 0);
    ShiftRow(block, 2, 2, 3, 0, 1);
    ShiftRow(block, 3, 3, 0, 1, 2);
    ThreeRows(old(block[..]));
  }

  method ShiftRowsInvOf(block: array<bv8>)
    requires block.Length == 16
    modifies block
    ensures block[..] == ShiftRowsInv(old(block[..]))
  {
    ShiftRow(block, 1, 3, 0, 1, 2);
    ShiftRow(block, 2, 2, 3, 0, 1);
    ShiftRow(block, 3, 1, 2, 3, 0);
    ThreeRowsInv(old(block[..]));
  }

  lemma ThreeRows(s: Block)
    ensures RowShifted(RowShifted(RowShifted(s, 1, 1, 2, 3, 0), 2, 2, 3, 0, 1), 3, 3, 0, 1, 2) == ShiftRows(s)
  {
  }

  lemma ThreeRowsInv(s: Block)
    ensures RowShifted(RowShifted(RowShifted(s, 1, 3, 0, 1, 2), 2, 2, 3, 0, 1), 3, 1, 2, 3, 0) == ShiftRowsInv(s)
  {
  }

  // ------------------------------------------------------------------ mixing in place

  /** The columns before `col` are done, the others as they were. */
  ghost predicate Done(block: array<bv8>, done: seq<bv8>, was: Block, col: nat)
    requires block.Length == 16 && col <= 4
    reads block
  {
    |done| == 4 * col && block[..] == done + was[4 * col..]
  }

  method WriteColumn(block: array<bv8>, col: nat, c: seq<bv8>, ghost done: seq<bv8>, ghost was: Block)
    requires block.Length == 16 && col < 4 && |c| == 4 && Done(block, done, was, col)
    modifies block
    ensures Done(block, done + c, was, col + 1)
  {
    block[4 * col] := c[0];
    block[4 * col + 1] := c[1];
    block[4 * col + 2] := c[2];
    block[4 * col + 3] := c[3];
    assert block[..] == done + c + was[4 * (col + 1)..];
  }

  lemma NextColumn(was: Block, col: nat)
    requires col < 4
    ensures was[..4 * (col + 1)] == was[..4 * col] + was[4 * col..4 * col + 4] && was[..16] == was && was[16..] == []
  {
  }

  type Column = s: seq<bv8> | |s| == 4 witness [0, 0, 0, 0]

  /** Each column through `f`. */
  function Columns(f: Column -> Column, a: seq<bv8>): (r: seq<bv8>)
    requires |a| % 4 == 0
    ensures |r| == |a|
  {
    if a == [] then [] else f(a[..4]) + Columns(f, a[4..])
  }

  lemma {:induction false} ColumnsAppend(f: Column -> Column, a: seq<bv8>, c: Column)
    requires |a| % 4 == 0
    ensures Columns(f, a + c) == Columns(f, a) + f(c)
  {
    if a == [] {
      assert a + c == c && c[..4] == c && c[4..] == [];
    } else {
      assert (a + c)[..4] == a[..4] && (a + c)[4..] == a[4..] + c;
      ColumnsAppend(f, a[4..], c);
    }
  }

  function Mixing(o: Ops<bv8>): Column -> Column {
    (c: Column) => MixColumn(o, c)
  }

  function MixingInv(o: Ops<bv8>): Column -> Column {
    (c: Column) => MixColumnInv(o, c)
  }

  lemma {:induction false} ColumnsMix(o: Ops<bv8>, a: seq<bv8>)
    requires |a| % 4 == 0
    ensures Columns(Mixing(o), a) == MixColumns(o, a) && Columns(MixingInv(o), a) == MixColumnsInv(o, a)
  {
    if a != [] { ColumnsMix(o, a[4..]); }
  }

  method MapColumn(f: Column -> Column, block: array<bv8>, col: nat, ghost was: Block)
    requires block.Length == 16 && col < 4 && Done(block, Columns(f, was[..4 * col]), was, col)
    modifies block
    ensures Done(block, Columns(f, was[..4 * (col + 1)]), was, col + 1)
  {
    var a := block[4 * col..4 * col + 4];
    assert a == was[4 * col..4 * col + 4];
    assert was[..4 * (col + 1)] == was[..4 * col] + a by { NextColumn(was, col); }
    ColumnsAppend(f, was[..4 * col], a);
    WriteColumn(block, col, f(a), Columns(f, was[..4 * col]), was);
  }

  /** The loop of `mix_columns` and `mix_columns_inv`. */
  method MapColumns(f: Column -> Column, block: array<bv8>)
    requires block.Length == 16
    modifies block
    ensures block[..] == Columns(f, old(block[..]))
  {
    ghost var was := block[..];
    for col := 0 to 4
      invariant Done(block, Columns(f, was[..4 * col]), was, col)
    {
      MapColumn(f, block, col, was);
    }
    NextColumn(was, 3);
  }

  method MixColumnsOf(o: Ops<bv8>, block: array<bv8>)
    requires block.Length == 16
    modifies block
    ensures block[..] == MixColumns(o, old(block[..]))
  {
    ColumnsMix(o, block[..]);
    MapColumns(Mixing(o), block);
  }

  method MixColumnsInvOf(o: Ops<bv8>, block: array<bv8>)
    requires block.Length == 16
    modifies block
    ensures block[..] == MixColumnsInv(o, old(block[..]))
  {
    ColumnsMix(o, block[..]);
    MapColumns(MixingInv(o), block);
  }

  // ------------------------------------------------------------------------- blocks

  /** The steps `p` are those of AES with the tables `o`. */
  ghost predicate StepsAt(p: Steps<Block, Block>, o: Ops<bv8>, k: Block, a: Block) {
    && p.start(k, a) == AddKey(o, k, a) && p.startInv(k, a) == AddKey(o, k, a)
    && p.round(k, a) == Round(o, k, a) && p.roundInv(k, a) == RoundInv(o, k, a)
    && p.last(k, a) == Last(o, k, a) && p.lastInv(k, a) == LastInv(o, k, a)
  }

  ghost predicate StepsOf(p: Steps<Block, Block>, o: Ops<bv8>) {
    forall k, a {:trigger StepsAt(p, o, k, a)} :: StepsAt(p, o, k, a)
  }

  lemma AesStepsOf(o: Ops<bv8>)
    ensures StepsOf(AesSteps(o), o)
  {
    forall k: Block, a: Block ensures StepsAt(AesSteps(o), o, k, a) {}
  }

  method Start(o: Ops<bv8>, block: array<bv8>, key: Block, ghost p: Steps<Block, Block>)
    requires block.Length == 16 && StepsOf(p, o)
    modifies block
    ensures block[..] == p.start(key, old(block[..])) && block[..] == p.startInv(key, old(block[..]))
  {
    assert StepsAt(p, o, key, block[..]);
    AddRoundKey(o, block, key);
  }

  method FullRound(o: Ops<bv8>, block: array<bv8>, key: Block, ghost p: Steps<Block, Block>)
    requires block.Length == 16 && StepsOf(p, o)
    modifies block
    ensures block[..] == p.round(key, old(block[..]))
  {
    assert StepsAt(p, o, key, block[..]);
    SubBytes(o.sbox, block);
    ShiftRowsOf(block);
    MixColumnsOf(o, block);
    AddRoundKey(o, block, key);
  }

  method FullRoundInv(o: Ops<bv8>, block: array<bv8>, key: Block, ghost p: Steps<Block, Block>)
    requires block.Length == 16 && StepsOf(p, o)
    modifies block
    ensures block[..] == p.roundInv(key, old(block[..]))
  {
    assert StepsAt(p, o, key, block[..]);
    AddRoundKey(o, block, key);
    MixColumnsInvOf(o, block);
    ShiftRowsInvOf(block);
    SubBytes(o.sboxInv, block);
  }

  method LastRound(o: Ops<bv8>, block: array<bv8>, key: Block, ghost p: Steps<Block, Block>)
    requires block.Length == 16 && StepsOf(p, o)
    modifies block
    ensures block[..] == p.last(key, old(block[..]))
  {
    assert StepsAt(p, o, key, block[..]);
    SubBytes(o.sbox, block);
    ShiftRowsOf(block);
    AddRoundKey(o, block, key);
  }

  method LastRoundInv(o: Ops<bv8>, block: array<bv8>, key: Block, ghost p: Steps<Block, Block>)
    requires block.Length == 16 && StepsOf(p, o)
    modifies block
    ensures block[..] == p.lastInv(key, old(block[..]))
  {
    assert StepsAt(p, o, key, block[..]);
    AddRoundKey(o, block, key);
    ShiftRowsInvOf(block);
    SubBytes(o.sboxInv, block);
  }

  method BlockEncrypt(o: Ops<bv8>, keys: seq<Block>, block: array<bv8>, ghost p: Steps<Block, Block>)
    requires block.Length == 16 && |keys| >= 2 && StepsOf(p, o)
    modifies block
    ensures block[..] == Encrypt(p, keys, old(block[..]))
  {
    ghost var was := block[..];
    Start(o, block, keys[0], p);
    for round := 1 to |keys| - 1
      invariant block[..] == Rounds(p, keys, was, round - 1)
    {
      FullRound(o, block, keys[round], p);
    }
    LastRound(o, block, keys[|keys| - 1], p);
  }

  method BlockDecrypt(o: Ops<bv8>, keys: seq<Block>, block: array<bv8>, ghost p: Steps<Block, Block>)
    requires block.Length == 16 && |keys| >= 2 && StepsOf(p, o)
    modifies block
    ensures block[..] == Decrypt(p, keys, old(block[..]))
  {
    ghost var was := block[..];
    LastRoundInv(o, block, keys[|keys| - 1], p);
    for round := |keys| - 1 downto 1
      invariant RoundsInv(p, keys, block[..], round - 1) == Decrypt(p, keys, was)
    {
      FullRoundInv(o, block, keys[round], p);
    }
    Start(o, block, keys[0], p);
  }
}
