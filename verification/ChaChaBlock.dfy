/** The ChaCha20 block function: sections 2.1 to 2.3 of RFC 8439. */
module ChaChaBlock {
  import opened ChaChaStream

  type Matrix = s: seq<bv32> | |s| == 16 witness seq(16, _ => 0)

  datatype Quad = Quad(a: bv32, b: bv32, c: bv32, d: bv32)

  function QuarterRound(q: Quad): Quad {
    var a := q.a + q.b;
    var d := (q.d ^ a).RotateLeft(16);
    var c := q.c + d;
    var b := (q.b ^ c).RotateLeft(12);
    var a' := a + b;
    var d' := (d ^ a').RotateLeft(8);
    var c' := c + d';
    var b' := (b ^ c').RotateLeft(7);
    Quad(a', b', c', d')
  }

  /** A quarter round on four words of the matrix. */
  function QuarterAt(quarter: Quad -> Quad, m: Matrix, a: nat, b: nat, c: nat, d: nat): Matrix
    requires a < 16 && b < 16 && c < 16 && d < 16
  {
    var q := quarter(Quad(m[a], m[b], m[c], m[d]));
    m[a := q.a][b := q.b][c := q.c][d := q.d]
  }

  /** Word `i` of row `row`, of four rows of four. */
  function Cell(row: nat, i: nat): (k: nat)
    requires row < 4
    ensures k < 16
  {
    4 * row + i % 4
  }

  /** The quarter round on column `i`, or on the diagonal that starts there. */
  function ColumnRound(quarter: Quad -> Quad, m: Matrix, i: nat): Matrix {
    QuarterAt(quarter, m, Cell(0, i), Cell(1, i), Cell(2, i), Cell(3, i))
  }

  function DiagonalRound(quarter: Quad -> Quad, m: Matrix, i: nat): Matrix {
    QuarterAt(quarter, m, Cell(0, i), Cell(1, i + 1), Cell(2, i + 2), Cell(3, i + 3))
  }

  /** Columns 0 to `n - 1`, one after another. */
  function ColumnRounds(quarter: Quad -> Quad, m: Matrix, n: nat): Matrix {
    if n == 0 then m else ColumnRound(quarter, ColumnRounds(quarter, m, n - 1), n - 1)
  }

  function DiagonalRounds(quarter: Quad -> Quad, m: Matrix, n: nat): Matrix {
    if n == 0 then m else DiagonalRound(quarter, DiagonalRounds(quarter, m, n - 1), n - 1)
  }

  function DoubleRound(quarter: Quad -> Quad, m: Matrix): Matrix {
    DiagonalRounds(quarter, ColumnRounds(quarter, m, 4), 4)
  }

  function Rounds(quarter: Quad -> Quad, m: Matrix, n: nat): Matrix {
    if n == 0 then m else DoubleRound(quarter, Rounds(quarter, m, n - 1))
  }

  // --------------------------------------------------------------------- in place

  method QuarterRoundAt(quarter: Quad -> Quad, matrix: array<bv32>, a: nat, b: nat, c: nat, d: nat)
    requires matrix.Length == 16 && a < 16 && b < 16 && c < 16 && d < 16
    requires a != b && a != c && a != d && b != c && b != d && c != d
    modifies matrix
    ensures matrix[..] == QuarterAt(quarter, old(matrix[..]), a, b, c, d)
  {
    var q := quarter(Quad(matrix[a], matrix[b], matrix[c], matrix[d]));
    matrix[a], matrix[b], matrix[c], matrix[d] := q.a, q.b, q.c, q.d;
  }

  method DoubleRoundOf(quarter: Quad -> Quad, matrix: array<bv32>)
    requires matrix.Length == 16
    modifies matrix
    ensures matrix[..] == DoubleRound(quarter, old(matrix[..]))
  {
    ghost var m := matrix[..];
    QuarterRoundAt(quarter, matrix, 0, 4, 8, 12);
    assert matrix[..] == ColumnRounds(quarter, m, 1);
    QuarterRoundAt(quarter, matrix, 1, 5, 9, 13);
    assert matrix[..] == ColumnRounds(quarter, m, 2);
    QuarterRoundAt(quarter, matrix, 2, 6, 10, 14);
    assert matrix[..] == ColumnRounds(quarter, m, 3);
    QuarterRoundAt(quarter, matrix, 3, 7, 11, 15);
    assert matrix[..] == ColumnRounds(quarter, m, 4);
    ghost var n := matrix[..];
    QuarterRoundAt(quarter, matrix, 0, 5, 10, 15);
    assert matrix[..] == DiagonalRounds(quarter, n, 1);
    QuarterRoundAt(quarter, matrix, 1, 6, 11, 12);
    assert matrix[..] == DiagonalRounds(quarter, n, 2);
    QuarterRoundAt(quarter, matrix, 2, 7, 8, 13);
    assert matrix[..] == DiagonalRounds(quarter, n, 3);
    QuarterRoundAt(quarter, matrix, 3, 4, 9, 14);
  }

  // ----------------------------------------------------------------- the block function

  const CONSTANTS: seq<bv32> := [0x61707865, 0x3320646e, 0x79622d32, 0x6b206574]
  const DOUBLE_ROUNDS: nat := 10

  /** Constants, key, counter and nonce. */
  function Initial(key: seq<bv32>, nonce: seq<bv32>, counter: nat): Matrix
    requires |key| == 8 && |nonce| == 3 && counter <= MAX_COUNTER
  {
    CONSTANTS + key + [counter as bv32] + nonce
  }

  function LittleEndian(w: bv32): (r: seq<bv8>)
    ensures |r| == 4
  {
    [(w & 0xff) as bv8, ((w >> 8) & 0xff) as bv8, ((w >> 16) & 0xff) as bv8, (w >> 24) as bv8]
  }

  type Four = s: seq<bv8> | |s| == 4 witness [0, 0, 0, 0]

  /** A word with the first matrix's word added. */
  function StoreSum(w: bv32, first: bv32): Four {
    LittleEndian(w + first)
  }

  /** The words after the rounds, each stored with its word of the first matrix. */
  function Serialized(store: (bv32, bv32) -> Four, m: Matrix, origin: Matrix, n: nat): (r: seq<bv8>)
    requires n <= 16
    ensures |r| == 4 * n
  {
    if n == 0 then [] else Serialized(store, m, origin, n - 1) + store(m[n - 1], origin[n - 1])
  }

  function BlockOf(quarter: Quad -> Quad, store: (bv32, bv32) -> Four, origin: Matrix, rounds: nat): Block {
    Serialized(store, Rounds(quarter, origin, rounds), origin, |origin|)
  }

  method RunRounds(quarter: Quad -> Quad, origin: Matrix, rounds: nat) returns (m: Matrix)
    ensures m == Rounds(quarter, origin, rounds)
  {
    var matrix := new bv32[16](i requires 0 <= i < 16 => origin[i]);
    assert matrix[..] == origin;
    for i := 0 to rounds
      invariant matrix[..] == Rounds(quarter, origin, i)
    {
      DoubleRoundOf(quarter, matrix);
    }
    m := matrix[..];
  }

  method Serialize(store: (bv32, bv32) -> Four, m: Matrix, origin: Matrix) returns (state: Block)
    ensures state == Serialized(store, m, origin, |origin|)
  {
    var bytes: seq<bv8> := [];
    for i := 0 to |origin|
      invariant bytes == Serialized(store, m, origin, i)
    {
      bytes := bytes + store(m[i], origin[i]);
    }
    state := bytes;
  }

  /** `update_state`: the block for a first matrix. */
  method MakeBlock(quarter: Quad -> Quad, store: (bv32, bv32) -> Four, origin: Matrix, rounds: nat)
      returns (state: Block)
    ensures state == BlockOf(quarter, store, origin, rounds)
  {
    var m := RunRounds(quarter, origin, rounds);
    state := Serialize(store, m, origin);
  }

  /** `u32::from_le_bytes`. */
  function FromLittleEndian(b: seq<bv8>): bv32
    requires |b| == 4
  {
    (b[0] as bv32) | ((b[1] as bv32) << 8) | ((b[2] as bv32) << 16) | ((b[3] as bv32) << 24)
  }

  lemma LittleEndianBytes(b0: bv8, b1: bv8, b2: bv8, b3: bv8)
    ensures LittleEndian(FromLittleEndian([b0, b1, b2, b3])) == [b0, b1, b2, b3]
  {
  }

  /** Reading a word and writing it back. */
  lemma LittleEndianInverse(b: seq<bv8>)
    requires |b| == 4
    ensures LittleEndian(FromLittleEndian(b)) == b
  {
    LittleEndianBytes(b[0], b[1], b[2], b[3]);
    assert b == [b[0], b[1], b[2], b[3]];
  }
}
