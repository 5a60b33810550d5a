/** The cipher of section 5.1 of FIPS 197, byte by byte, and that encryption is it. */
module AesStandard {
  import opened AesRounds
  import opened AesCipher

  type Table = bv8 -> bv8
  type Multiply = (bv8, bv8) -> bv8

  // ----------------------------------------------------------------------- the standard

  /** Byte `row` of column `col`. */
  function At(a: Block, row: nat, col: nat): bv8
    requires row < 4 && col < 4
  {
    a[4 * col + row]
  }

  /** Row `row + i` of column `col` after substituting bytes and shifting rows. */
  function Shifted(sbox: Table, a: Block, row: nat, col: nat, i: nat): bv8 {
    sbox(At(a, (row + i) % 4, (col + row + i) % 4))
  }

  /** A full round: the bytes of a shifted column times 2, 3, 1 and 1, and the key. */
  ghost predicate RoundAt(sbox: Table, mul: Multiply, key: Block, a: Block, b: Block, row: nat, col: nat) {
    row < 4 && col < 4 ==>
      var s0, s1 := Shifted(sbox, a, row, col, 0), Shifted(sbox, a, row, col, 1);
      var s2, s3 := Shifted(sbox, a, row, col, 2), Shifted(sbox, a, row, col, 3);
      At(b, row, col) == mul(2, s0) ^ mul(3, s1) ^ s2 ^ s3 ^ At(key, row, col)
  }

  /** The last round has no multiplication. */
  ghost predicate LastAt(sbox: Table, key: Block, a: Block, b: Block, row: nat, col: nat) {
    row < 4 && col < 4 ==> At(b, row, col) == Shifted(sbox, a, row, col, 0) ^ At(key, row, col)
  }

  ghost predicate IsStart(key: Block, a: Block, b: Block) {
    forall i :: 0 <= i < 16 ==> b[i] == a[i] ^ key[i]
  }

  ghost predicate IsRound(sbox: Table, mul: Multiply, key: Block, a: Block, b: Block) {
    forall row: nat, col: nat {:trigger RoundAt(sbox, mul, key, a, b, row, col)} ::
      RoundAt(sbox, mul, key, a, b, row, col)
  }

  ghost predicate IsLast(sbox: Table, key: Block, a: Block, b: Block) {
    forall row: nat, col: nat {:trigger LastAt(sbox, key, a, b, row, col)} :: LastAt(sbox, key, a, b, row, col)
  }

  ghost predicate RoundIn(sbox: Table, mul: Multiply, keys: seq<Block>, states: seq<Block>, i: nat) {
    0 < i < |states| && i < |keys| ==> IsRound(sbox, mul, keys[i], states[i - 1], states[i])
  }

  /** `states` are the blocks after the first key and after each of `n` full rounds; `b` is the ciphertext of `a`. */
  ghost predicate Chain(sbox: Table, mul: Multiply, keys: seq<Block>, n: nat, a: Block, states: seq<Block>, b: Block) {
    && |states| == n + 1 && |keys| == n + 2 && IsStart(keys[0], a, states[0])
    && (forall i: nat {:trigger RoundIn(sbox, mul, keys, states, i)} :: RoundIn(sbox, mul, keys, states, i))
    && IsLast(sbox, keys[n + 1], states[n], b)
  }

  // --------------------------------------------------------------------- the round steps

  /** Addition is exclusive or, and the tables are those of the standard. */
  ghost predicate Standard(o: Ops<bv8>, sbox: Table, mul: Multiply) {
    && o.sbox == sbox && (forall x, y {:trigger o.add(x, y)} :: o.add(x, y) == x ^ y)
    && (forall x {:trigger o.mul2(x)} :: o.mul2(x) == mul(2, x))
    && (forall x {:trigger o.mul3(x)} :: o.mul3(x) == mul(3, x))
  }

  function Around(k: nat): nat {
    if k < 4 then k else k - 4
  }

  /** Byte `row` of column `col` of `m` is mixed from that column of `a`. */
  ghost predicate MixedAt(o: Ops<bv8>, a: seq<bv8>, m: seq<bv8>, row: nat, col: nat) {
    && row < 4 && 4 * col + 3 < |a| == |m|
    && m[4 * col + row] == Mixed(o, a[4 * col + row], a[4 * col + Around(row + 1)],
                                 a[4 * col + Around(row + 2)], a[4 * col + Around(row + 3)])
  }

  /** Mixing on a block, column by column. */
  lemma {:induction false} MixedByte(o: Ops<bv8>, a: seq<bv8>, row: nat, col: nat)
    requires |a| % 4 == 0 && row < 4 && 4 * col < |a|
    ensures MixedAt(o, a, MixColumns(o, a), row, col)
    decreases col
  {
    if col == 0 {
      FirstMixed(o, a, row);
    } else {
      MixedByte(o, a[4..], row, col - 1);
      LaterMixed(o, a[..4], a[4..], MixColumn(o, a[..4]), MixColumns(o, a[4..]), row, col);
      assert a[..4] + a[4..] == a;
    }
  }

  lemma FirstMixed(o: Ops<bv8>, a: seq<bv8>, row: nat)
    requires |a| % 4 == 0 && row < 4 && 0 < |a|
    ensures MixedAt(o, a, MixColumns(o, a), row, 0)
  {
    FirstColumn(o, a[..4], row);
    assert MixColumns(o, a)[row] == MixColumn(o, a[..4])[row];
  }

  lemma LaterMixed(o: Ops<bv8>, a: seq<bv8>, b: seq<bv8>, m: seq<bv8>, n: seq<bv8>, row: nat, col: nat)
    requires |a| == 4 && |m| == 4 && col > 0 && MixedAt(o, b, n, row, col - 1)
    ensures MixedAt(o, a + b, m + n, row, col)
  {
    var k := 4 * (col - 1);
    assert 4 * col == k + 4;
  }

  lemma FirstColumn(o: Ops<bv8>, a: seq<bv8>, row: nat)
    requires |a| == 4 && row < 4
    ensures MixColumn(o, a)[row] == Mixed(o, a[row], a[Around(row + 1)], a[Around(row + 2)], a[Around(row + 3)])
  {
    if row == 0 { } else if row == 1 { } else if row == 2 { }
  }

  /** Every byte of `t` is what substitution and the shift of its row make of `a`. */
  ghost predicate Shuffled(sbox: Table, a: Block, t: Block) {
    forall row: nat, col: nat {:trigger ShuffledAt(sbox, a, t, row, col)} :: ShuffledAt(sbox, a, t, row, col)
  }

  ghost predicate ShuffledAt(sbox: Table, a: Block, t: Block, row: nat, col: nat) {
    row < 4 && col < 4 ==> At(t, row, col) == sbox(At(a, row, (col + row) % 4))
  }

  lemma SubShiftShuffles(o: Ops<bv8>, a: Block)
    ensures Shuffled(o.sbox, a, SubShift(o, a))
  {
    var m := Map(o.sbox, a);
    forall row: nat, col: nat ensures ShuffledAt(o.sbox, a, SubShift(o, a), row, col) {
      if row < 4 && col < 4 { ShiftRowsMeans(m, row, col); }
    }
  }

  lemma ShiftedByte(sbox: Table, a: Block, t: Block, row: nat, col: nat, i: nat)
    requires Shuffled(sbox, a, t) && row < 4 && col < 4 && i < 4
    ensures t[4 * col + Around(row + i)] == Shifted(sbox, a, row, col, i)
  {
    var r := Around(row + i);
    Turned(row, i, col);
    assert ShuffledAt(sbox, a, t, r, col);
  }

  lemma Turned(row: nat, i: nat, col: nat)
    requires row < 4 && i < 4 && col < 4
    ensures (row + i) % 4 == Around(row + i) && (col + Around(row + i)) % 4 == (col + row + i) % 4
  {
  }

  /** The bytes of one round, put together. */
  lemma RoundSum(o: Ops<bv8>, sbox: Table, mul: Multiply, s0: bv8, s1: bv8, s2: bv8, s3: bv8, k: bv8)
    requires Standard(o, sbox, mul)
    ensures o.add(Mixed(o, s0, s1, s2, s3), k) == mul(2, s0) ^ mul(3, s1) ^ s2 ^ s3 ^ k
  {
    SumBytes(mul(2, s0), s3, s2, mul(3, s1), k);
  }

  lemma SumBytes(p: bv8, q: bv8, r: bv8, s: bv8, k: bv8)
    ensures ((p ^ q) ^ (r ^ s)) ^ k == p ^ s ^ r ^ q ^ k
  {
  }

  /** Column `col` after mixing, from four bytes before it. */
  lemma MixedColumn(o: Ops<bv8>, sbox: Table, a: Block, t: Block, row: nat, col: nat)
    requires Shuffled(sbox, a, t) && row < 4 && col < 4
    ensures MixColumns(o, t)[4 * col + row] ==
      Mixed(o, Shifted(sbox, a, row, col, 0), Shifted(sbox, a, row, col, 1),
            Shifted(sbox, a, row, col, 2), Shifted(sbox, a, row, col, 3))
  {
    ShiftedByte(sbox, a, t, row, col, 0);
    ShiftedByte(sbox, a, t, row, col, 1);
    ShiftedByte(sbox, a, t, row, col, 2);
    ShiftedByte(sbox, a, t, row, col, 3);
    MixedByte(o, t, row, col);
  }

  lemma RoundByte(o: Ops<bv8>, sbox: Table, mul: Multiply, key: Block, a: Block, t: Block, b: Block, row: nat, col: nat)
    requires Standard(o, sbox, mul) && Shuffled(sbox, a, t) && row < 4 && col < 4
    requires b[4 * col + row] == o.add(MixColumns(o, t)[4 * col + row], key[4 * col + row])
    ensures RoundAt(sbox, mul, key, a, b, row, col)
  {
    MixedColumn(o, sbox, a, t, row, col);
    RoundSum(o, sbox, mul, Shifted(sbox, a, row, col, 0), Shifted(sbox, a, row, col, 1),
             Shifted(sbox, a, row, col, 2), Shifted(sbox, a, row, col, 3), key[4 * col + row]);
  }

  lemma RoundFrom(o: Ops<bv8>, sbox: Table, mul: Multiply, key: Block, a: Block, t: Block, b: Block)
    requires Standard(o, sbox, mul) && Shuffled(sbox, a, t) && b == Xor(o, MixColumns(o, t), key)
    ensures IsRound(sbox, mul, key, a, b)
  {
    forall row: nat, col: nat ensures RoundAt(sbox, mul, key, a, b, row, col) {
      if row < 4 && col < 4 { RoundByte(o, sbox, mul, key, a, t, b, row, col); }
    }
  }

  /** A full round of the cipher is that of the standard. */
  lemma RoundMeans(o: Ops<bv8>, sbox: Table, mul: Multiply, key: Block, a: Block)
    requires Standard(o, sbox, mul)
    ensures IsRound(sbox, mul, key, a, Round(o, key, a))
  {
    SubShiftShuffles(o, a);
    RoundFrom(o, sbox, mul, key, a, SubShift(o, a), Round(o, key, a));
  }

  lemma LastFrom(o: Ops<bv8>, sbox: Table, mul: Multiply, key: Block, a: Block, t: Block, b: Block)
    requires Standard(o, sbox, mul) && Shuffled(sbox, a, t) && b == Xor(o, t, key)
    ensures IsLast(sbox, key, a, b)
  {
    forall row: nat, col: nat ensures LastAt(sbox, key, a, b, row, col) {
      LastByte(o, sbox, mul, key, a, t, b, row, col);
    }
  }

  lemma LastByte(o: Ops<bv8>, sbox: Table, mul: Multiply, key: Block, a: Block, t: Block, b: Block, row: nat, col: nat)
    requires Standard(o, sbox, mul) && Shuffled(sbox, a, t)
    requires row < 4 && col < 4 ==> b[4 * col + row] == o.add(t[4 * col + row], key[4 * col + row])
    ensures LastAt(sbox, key, a, b, row, col)
  {
    assert ShuffledAt(sbox, a, t, row, col);
    if row < 4 && col < 4 { Turned(row, 0, col); }
  }

  lemma LastMeans(o: Ops<bv8>, sbox: Table, mul: Multiply, key: Block, a: Block)
    requires Standard(o, sbox, mul)
    ensures IsLast(sbox, key, a, Last(o, key, a))
  {
    SubShiftShuffles(o, a);
    LastFrom(o, sbox, mul, key, a, SubShift(o, a), Last(o, key, a));
  }

  lemma StartMeans(o: Ops<bv8>, sbox: Table, mul: Multiply, key: Block, a: Block)
    requires Standard(o, sbox, mul)
    ensures IsStart(key, a, AddKey(o, key, a))
  {
  }

  // ------------------------------------------------------------------------- the cipher

  function StateAt(o: Ops<bv8>, keys: seq<Block>, a: Block, i: nat): Block {
    if i < |keys| then Rounds<Block, Block>(AesSteps(o), keys, a, i) else a
  }

  lemma StateNext(o: Ops<bv8>, sbox: Table, mul: Multiply, keys: seq<Block>, a: Block, i: nat)
    requires Standard(o, sbox, mul) && 0 < i < |keys|
    ensures IsRound(sbox, mul, keys[i], StateAt(o, keys, a, i - 1), StateAt(o, keys, a, i))
  {
    RoundMeans(o, sbox, mul, keys[i], StateAt(o, keys, a, i - 1));
  }

  /** Encryption with `n + 2` round keys is the standard's cipher with `n` full rounds. */
  lemma EncryptIsStandard(o: Ops<bv8>, sbox: Table, mul: Multiply, keys: seq<Block>, n: nat, a: Block)
    returns (states: seq<Block>)
    requires Standard(o, sbox, mul) && |keys| == n + 2
    ensures Chain(sbox, mul, keys, n, a, states, Encrypt(AesSteps(o), keys, a))
  {
    states := seq(n + 1, i requires 0 <= i => StateAt(o, keys, a, i));
    StartMeans(o, sbox, mul, keys[0], a);
    AllRounds(o, sbox, mul, keys, a, states);
    LastMeans(o, sbox, mul, keys[n + 1], states[n]);
    EncryptEnds(o, keys, n, a);
  }

  lemma EncryptEnds(o: Ops<bv8>, keys: seq<Block>, n: nat, a: Block)
    requires |keys| == n + 2
    ensures Encrypt(AesSteps(o), keys, a) == Last(o, keys[n + 1], StateAt(o, keys, a, n))
    ensures StateAt(o, keys, a, 0) == AddKey(o, keys[0], a)
  {
  }

  lemma AllRounds(o: Ops<bv8>, sbox: Table, mul: Multiply, keys: seq<Block>, a: Block, states: seq<Block>)
    requires Standard(o, sbox, mul) && |states| < |keys|
    requires forall i :: 0 <= i < |states| ==> states[i] == StateAt(o, keys, a, i)
    ensures forall i: nat {:trigger RoundIn(sbox, mul, keys, states, i)} :: RoundIn(sbox, mul, keys, states, i)
  {
    forall i: nat ensures RoundIn(sbox, mul, keys, states, i) {
      if 0 < i < |states| { StateNext(o, sbox, mul, keys, a, i); }
    }
  }
}
