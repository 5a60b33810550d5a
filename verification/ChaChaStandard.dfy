/** ChaCha20 word by word, as sections 2.1 to 2.3 of RFC 8439 define it. */
module ChaChaStandard {
  import opened ChaChaStream
  import opened ChaChaBlock
  import opened ChaCha20

  // ---------------------------------------------------------------------- quarter rounds

  /** The example of section 2.1.1. */
  lemma QuarterExample()
    ensures QuarterRound(Quad(0x11111111, 0x01020304, 0x9b8d6f43, 0x01234567)) ==
      Quad(0xea2a92f4, 0xcb1cf8ce, 0x4581472e, 0x5881c4bb)
  {
  }

  /** `x'` is `x` after the quarter round on words `a`, `b`, `c` and `d`. */
  ghost predicate Quartered(quarter: Quad -> Quad, x: Matrix, x': Matrix, a: nat, b: nat, c: nat, d: nat) {
    && a < b < c < d < 16
    && Quad(x'[a], x'[b], x'[c], x'[d]) == quarter(Quad(x[a], x[b], x[c], x[d]))
    && forall j :: 0 <= j < 16 && j != a && j != b && j != c && j != d ==> x'[j] == x[j]
  }

  ghost predicate Columns(quarter: Quad -> Quad, m: Matrix, x: Matrix, y: Matrix, z: Matrix, m': Matrix) {
    && Quartered(quarter, m, x, 0, 4, 8, 12)
    && Quartered(quarter, x, y, 1, 5, 9, 13)
    && Quartered(quarter, y, z, 2, 6, 10, 14)
    && Quartered(quarter, z, m', 3, 7, 11, 15)
  }

  ghost predicate Diagonals(quarter: Quad -> Quad, m: Matrix, x: Matrix, y: Matrix, z: Matrix, m': Matrix) {
    && Quartered(quarter, m, x, 0, 5, 10, 15)
    && Quartered(quarter, x, y, 1, 6, 11, 12)
    && Quartered(quarter, y, z, 2, 7, 8, 13)
    && Quartered(quarter, z, m', 3, 4, 9, 14)
  }

  lemma QuarteredIs(quarter: Quad -> Quad, x: Matrix, x': Matrix, a: nat, b: nat, c: nat, d: nat)
    requires a < b < c < d < 16
    ensures Quartered(quarter, x, x', a, b, c, d) <==> x' == QuarterAt(quarter, x, a, b, c, d)
  {
    var y := QuarterAt(quarter, x, a, b, c, d);
    assert Quartered(quarter, x, y, a, b, c, d);
    if Quartered(quarter, x, x', a, b, c, d) {
      assert forall j :: 0 <= j < 16 ==> x'[j] == y[j];
    }
  }

  lemma ColumnsAre(quarter: Quad -> Quad, m: Matrix, x: Matrix, y: Matrix, z: Matrix, m': Matrix)
    requires Columns(quarter, m, x, y, z, m')
    ensures ColumnRounds(quarter, m, 4) == m'
  {
    QuarteredIs(quarter, m, x, 0, 4, 8, 12);
    assert ColumnRounds(quarter, m, 1) == ColumnRound(quarter, m, 0);
    QuarteredIs(quarter, x, y, 1, 5, 9, 13);
    assert ColumnRounds(quarter, m, 2) == ColumnRound(quarter, x, 1);
    QuarteredIs(quarter, y, z, 2, 6, 10, 14);
    assert ColumnRounds(quarter, m, 3) == ColumnRound(quarter, y, 2);
    QuarteredIs(quarter, z, m', 3, 7, 11, 15);
  }

  lemma DiagonalsAre(quarter: Quad -> Quad, m: Matrix, x: Matrix, y: Matrix, z: Matrix, m': Matrix)
    requires Diagonals(quarter, m, x, y, z, m')
    ensures DiagonalRounds(quarter, m, 4) == m'
  {
    QuarteredIs(quarter, m, x, 0, 5, 10, 15);
    assert DiagonalRounds(quarter, m, 1) == DiagonalRound(quarter, m, 0);
    QuarteredIs(quarter, x, y, 1, 6, 11, 12);
    assert DiagonalRounds(quarter, m, 2) == DiagonalRound(quarter, x, 1);
    QuarteredIs(quarter, y, z, 2, 7, 8, 13);
    assert DiagonalRounds(quarter, m, 3) == DiagonalRound(quarter, y, 2);
    QuarteredIs(quarter, z, m', 3, 4, 9, 14);
  }

  lemma ColumnSteps(quarter: Quad -> Quad, m: Matrix) returns (x: Matrix, y: Matrix, z: Matrix, m': Matrix)
    ensures Columns(quarter, m, x, y, z, m')
  {
    x := QuarterAt(quarter, m, 0, 4, 8, 12);
    QuarteredIs(quarter, m, x, 0, 4, 8, 12);
    y := QuarterAt(quarter, x, 1, 5, 9, 13);
    QuarteredIs(quarter, x, y, 1, 5, 9, 13);
    z := QuarterAt(quarter, y, 2, 6, 10, 14);
    QuarteredIs(quarter, y, z, 2, 6, 10, 14);
    m' := QuarterAt(quarter, z, 3, 7, 11, 15);
    QuarteredIs(quarter, z, m', 3, 7, 11, 15);
  }

  lemma DiagonalSteps(quarter: Quad -> Quad, m: Matrix) returns (x: Matrix, y: Matrix, z: Matrix, m': Matrix)
    ensures Diagonals(quarter, m, x, y, z, m')
  {
    x := QuarterAt(quarter, m, 0, 5, 10, 15);
    QuarteredIs(quarter, m, x, 0, 5, 10, 15);
    y := QuarterAt(quarter, x, 1, 6, 11, 12);
    QuarteredIs(quarter, x, y, 1, 6, 11, 12);
    z := QuarterAt(quarter, y, 2, 7, 8, 13);
    QuarteredIs(quarter, y, z, 2, 7, 8, 13);
    m' := QuarterAt(quarter, z, 3, 4, 9, 14);
    QuarteredIs(quarter, z, m', 3, 4, 9, 14);
  }

  // ------------------------------------------------------------------------ double rounds

  /** Eight quarter rounds lead from `m` to `m'`: on the four columns and then on the four diagonals. */
  ghost predicate InnerBlock(quarter: Quad -> Quad, m: Matrix, m': Matrix) {
    exists x, y, z, mid, u, v, w ::
      Columns(quarter, m, x, y, z, mid) && Diagonals(quarter, mid, u, v, w, m')
  }

  lemma StepsMake(quarter: Quad -> Quad, m: Matrix) returns (m': Matrix)
    ensures InnerBlock(quarter, m, m')
  {
    var x, y, z, mid := ColumnSteps(quarter, m);
    var u, v, w, last := DiagonalSteps(quarter, mid);
    m' := last;
  }

  /** A double round, and only it, is the eight quarter rounds. */
  lemma DoubleRoundMeans(quarter: Quad -> Quad, m: Matrix, m': Matrix)
    ensures m' == DoubleRound(quarter, m) <==> InnerBlock(quarter, m, m')
  {
    var n := StepsMake(quarter, m);
    InnerIs(quarter, m, n);
    if InnerBlock(quarter, m, m') {
      InnerIs(quarter, m, m');
    }
  }

  lemma InnerIs(quarter: Quad -> Quad, m: Matrix, m': Matrix)
    requires InnerBlock(quarter, m, m')
    ensures m' == DoubleRound(quarter, m)
  {
    var x, y, z, mid, u, v, w :| Columns(quarter, m, x, y, z, mid) && Diagonals(quarter, mid, u, v, w, m');
    ColumnsAre(quarter, m, x, y, z, mid);
    DiagonalsAre(quarter, mid, u, v, w, m');
  }

  /** Each matrix is a double round after the one before. */
  ghost predicate Chain(quarter: Quad -> Quad, ms: seq<Matrix>) {
    forall i :: 0 <= i < |ms| - 1 ==> InnerBlock(quarter, ms[i], ms[i + 1])
  }

  lemma {:induction false} ChainTo(quarter: Quad -> Quad, m: Matrix, n: nat) returns (ms: seq<Matrix>)
    ensures |ms| == n + 1 && ms[0] == m && ms[n] == Rounds(quarter, m, n) && Chain(quarter, ms)
  {
    if n == 0 {
      ms := [m];
    } else {
      var before := ChainTo(quarter, m, n - 1);
      ms := before + [Rounds(quarter, m, n)];
      DoubleRoundMeans(quarter, before[n - 1], ms[n]);
      forall i | 0 <= i < n ensures InnerBlock(quarter, ms[i], ms[i + 1]) {
        if i < n - 1 { assert ms[i] == before[i] && ms[i + 1] == before[i + 1]; }
      }
    }
  }

  // ---------------------------------------------------------------------------- the block

  /** The first matrix: "expa", "nd 3", "2-by", "te k", the key, the counter and the nonce. */
  ghost predicate IsFirst(m: Matrix, key: seq<bv32>, nonce: seq<bv32>, counter: nat)
    requires |key| == 8 && |nonce| == 3 && counter <= 0xffff_ffff
  {
    && LittleEndian(m[0]) == [0x65, 0x78, 0x70, 0x61] && LittleEndian(m[1]) == [0x6e, 0x64, 0x20, 0x33]
    && LittleEndian(m[2]) == [0x32, 0x2d, 0x62, 0x79] && LittleEndian(m[3]) == [0x74, 0x65, 0x20, 0x6b]
    && m[4..12] == key && m[12] == counter as bv32 && m[13..] == nonce
  }

  lemma Expand()
    ensures |CONSTANTS| == 4
    ensures LittleEndian(CONSTANTS[0]) == [0x65, 0x78, 0x70, 0x61]
    ensures LittleEndian(CONSTANTS[1]) == [0x6e, 0x64, 0x20, 0x33]
    ensures LittleEndian(CONSTANTS[2]) == [0x32, 0x2d, 0x62, 0x79]
    ensures LittleEndian(CONSTANTS[3]) == [0x74, 0x65, 0x20, 0x6b]
  {
  }

  lemma InitialMeans(key: seq<bv32>, nonce: seq<bv32>, counter: nat)
    requires |key| == 8 && |nonce| == 3 && counter <= 0xffff_ffff
    ensures IsFirst(Initial(key, nonce, counter), key, nonce, counter)
  {
    Expand();
  }

  lemma {:induction false} StoredAt(store: (bv32, bv32) -> Four, m: Matrix, origin: Matrix, n: nat, i: nat)
    requires i < n <= 16
    ensures Serialized(store, m, origin, n)[4 * i..4 * i + 4] == store(m[i], origin[i])
  {
    if i < n - 1 {
      StoredAt(store, m, origin, n - 1, i);
      var before := Serialized(store, m, origin, n - 1);
      assert (before + store(m[n - 1], origin[n - 1]))[4 * i..4 * i + 4] == before[4 * i..4 * i + 4];
    }
  }

  /** Low byte first. */
  lemma LittleEndianExample()
    ensures LittleEndian(0x04030201) == [1, 2, 3, 4]
  {
  }

  /** Word `i` of the block: that of the last matrix plus that of the first. */
  ghost predicate SumAt(block: Block, first: Matrix, last: Matrix, i: nat) {
    i < 16 ==> block[4 * i..4 * i + 4] == LittleEndian(last[i] + first[i])
  }

  ghost predicate Summed(block: Block, first: Matrix, last: Matrix) {
    forall i: nat {:trigger SumAt(block, first, last, i)} :: SumAt(block, first, last, i)
  }

  lemma SumsMake(quarter: Quad -> Quad, m: Matrix, rounds: nat, block: Block, last: Matrix)
    requires last == Rounds(quarter, m, rounds) && block == BlockOf(quarter, StoreSum, m, rounds)
    ensures Summed(block, m, last)
  {
    forall i: nat ensures SumAt(block, m, last, i) {
      if i < 16 { StoredAt(StoreSum, last, m, |m|, i); }
    }
  }

  lemma ChainMakes(quarter: Quad -> Quad, m: Matrix, rounds: nat, block: Block) returns (ms: seq<Matrix>)
    requires block == BlockOf(quarter, StoreSum, m, rounds)
    ensures |ms| == rounds + 1 && ms[0] == m && Chain(quarter, ms) && Summed(block, m, ms[rounds])
  {
    ms := ChainTo(quarter, m, rounds);
    SumsMake(quarter, m, rounds, block, ms[rounds]);
  }

  /** Ten double rounds from the first matrix, and then the sums. */
  lemma BlockIsStandard(key: seq<bv32>, nonce: seq<bv32>, counter: nat) returns (ms: seq<Matrix>)
    requires |key| == 8 && |nonce| == 3 && counter <= 0xffff_ffff
    ensures |ms| == 11 && Chain(QuarterRound, ms) && IsFirst(ms[0], key, nonce, counter)
    ensures Summed(BlocksOf(key, nonce)(counter), ms[0], ms[10])
  {
    InitialMeans(key, nonce, counter);
    ms := ChainMakes(QuarterRound, Initial(key, nonce, counter), 10, BlocksOf(key, nonce)(counter));
  }
}
