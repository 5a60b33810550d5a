/** A block-buffered stream cipher: the buffer does not show, however a message is cut into calls. */
module ChaChaStream {

  const BLOCK: nat := 64
  /** The last block that may be made: making it leaves the 32-bit counter at its maximum. */
  const MAX_COUNTER: nat := 0xffff_ffff

  type Bytes = seq<bv8>
  type Block = s: seq<bv8> | |s| == 64 witness seq(64, _ => 0)

  /** A byte and a keystream byte, exclusive or. */
  function Mask(b: bv8, k: bv8): bv8 {
    b ^ k
  }

  /** The operator is the exclusive or: bit by bit, zero changes nothing and a one flips. */
  lemma MaskMeans(a: bv8, b: bv8, k: bv8)
    ensures Mask(0, k) == k && Mask(a ^ b, k) == a ^ Mask(b, k)
  {
  }

  lemma MaskTwice(b: bv8, k: bv8)
    ensures Mask(Mask(b, k), k) == b
  {
  }

  /** Byte `p` of the keystream: byte `p % 64` of block `p / 64`. */
  function StreamAt(blocks: nat -> Block, p: nat): bv8 {
    blocks(p / 64)[p % 64]
  }

  /** The message combined with the keystream from position `p` on. */
  function Cipher(blocks: nat -> Block, p: nat, m: Bytes): (r: Bytes)
    ensures |r| == |m| && forall i :: 0 <= i < |m| ==> r[i] == Mask(m[i], StreamAt(blocks, p + i))
  {
    seq(|m|, i requires 0 <= i < |m| => Mask(m[i], StreamAt(blocks, p + i)))
  }

  /** The same keystream twice is nothing. */
  lemma CipherTwice(blocks: nat -> Block, p: nat, m: Bytes)
    ensures Cipher(blocks, p, Cipher(blocks, p, m)) == m
  {
    var c := Cipher(blocks, p, m);
    forall i | 0 <= i < |m| ensures Cipher(blocks, p, c)[i] == m[i] { MaskTwice(m[i], StreamAt(blocks, p + i)); }
  }

  lemma CipherSplit(blocks: nat -> Block, p: nat, a: Bytes, b: Bytes)
    ensures Cipher(blocks, p, a + b) == Cipher(blocks, p, a) + Cipher(blocks, p + |a|, b)
  {
    var whole, parts := Cipher(blocks, p, a + b), Cipher(blocks, p, a) + Cipher(blocks, p + |a|, b);
    forall i | 0 <= i < |a| + |b| ensures whole[i] == parts[i] {
      if i >= |a| { assert p + i == p + |a| + (i - |a|); }
    }
  }

  function Concat(chunks: seq<Bytes>): Bytes {
    if chunks == [] then [] else chunks[0] + Concat(chunks[1..])
  }

  lemma {:induction false} ConcatAppend(chunks: seq<Bytes>, c: Bytes)
    ensures Concat(chunks + [c]) == Concat(chunks) + c
  {
    if chunks == [] {
      assert chunks + [c] == [c];
      assert Concat([c]) == c + Concat([]);
    } else {
      assert (chunks + [c])[1..] == chunks[1..] + [c];
      ConcatAppend(chunks[1..], c);
      assert chunks[0] + (Concat(chunks[1..]) + c) == chunks[0] + Concat(chunks[1..]) + c;
    }
  }

  /** How far the keystream has been used. */
  function PositionOf(counter: nat, ptr: nat): int {
    if ptr == 0 then BLOCK * counter else BLOCK * (counter - 1) + ptr
  }

  lemma WithinBlock(counter: nat, ptr: nat, j: nat)
    requires ptr + j < BLOCK
    ensures (BLOCK * counter + ptr + j) / BLOCK == counter && (BLOCK * counter + ptr + j) % BLOCK == ptr + j
  {
  }

  /** The buffer is used up when its end is reached. */
  lemma PointerWraps(ptr: nat)
    requires ptr <= BLOCK
    ensures ptr % BLOCK == if ptr == BLOCK then 0 else ptr
  {
  }

  /** The first `done` bytes of `a` are the message's combined with the keystream, the others as they were. */
  ghost predicate Upto(blocks: nat -> Block, p: nat, m: Bytes, a: Bytes, done: nat) {
    |a| == |m| && done <= |m| && a[..done] == Cipher(blocks, p, m[..done]) && a[done..] == m[done..]
  }

  lemma NextByte(blocks: nat -> Block, p: nat, m: Bytes, a: Bytes, done: nat)
    requires Upto(blocks, p, m, a, done) && done < |m|
    ensures Upto(blocks, p, m, a[done := Mask(a[done], StreamAt(blocks, p + done))], done + 1)
  {
    var a' := a[done := Mask(a[done], StreamAt(blocks, p + done))];
    assert a[done] == a[done..][0] == m[done];
    assert m[..done + 1] == m[..done] + [m[done]];
    CipherSplit(blocks, p, m[..done], [m[done]]);
    assert a'[..done + 1] == a[..done] + [a'[done]];
    assert a'[done + 1..] == a[done..][1..];
  }

  /** The next byte, taken from the buffered block `blocks(c)`. */
  lemma NextBuffered(blocks: nat -> Block, p: nat, m: Bytes, a: Bytes, done: nat, c: nat, j: nat)
    requires Upto(blocks, p, m, a, done) && done < |m| && j < BLOCK && p + done == BLOCK * c + j
    ensures Upto(blocks, p, m, a[done := Mask(a[done], blocks(c)[j])], done + 1)
  {
    WithinBlock(c, j, 0);
    NextByte(blocks, p, m, a, done);
  }

  // ------------------------------------------------------- a new key under an old buffer

  /** The blocks of a new key, except that the one before `counter` is still the buffered one. */
  function Spliced(blocks: nat -> Block, counter: nat, buffered: Block): nat -> Block {
    (c: nat) => if c + 1 == counter then buffered else blocks(c)
  }

  ghost predicate SameAt(f: nat -> Block, g: nat -> Block, q: nat) {
    StreamAt(f, q) == StreamAt(g, q)
  }

  /** The same keystream from position `p` on. */
  ghost predicate SameFrom(f: nat -> Block, g: nat -> Block, p: nat) {
    forall q: nat {:trigger SameAt(f, g, q)} :: q >= p ==> SameAt(f, g, q)
  }

  lemma BlockIndex(counter: nat, q: nat)
    requires counter >= 1 && q >= BLOCK * (counter - 1)
    ensures q / BLOCK + 1 == counter <==> q < BLOCK * counter
    ensures q < BLOCK * counter ==> q % BLOCK == q - BLOCK * (counter - 1)
  {
  }

  /** The old block does not show if and only if none of it is left, or what is left is the new key's too. */
  lemma SplicedExact(blocks: nat -> Block, counter: nat, ptr: nat, buffered: Block)
    requires counter >= 1 && 0 < ptr < BLOCK
    ensures SameFrom(Spliced(blocks, counter, buffered), blocks, PositionOf(counter, ptr)) <==>
      buffered[ptr..] == blocks(counter - 1)[ptr..]
  {
    var f, p, next := Spliced(blocks, counter, buffered), BLOCK * (counter - 1), blocks(counter - 1);
    if buffered[ptr..] == next[ptr..] {
      forall q: nat | q >= p + ptr ensures SameAt(f, blocks, q) {
        BlockIndex(counter, q);
        if q < BLOCK * counter { assert buffered[ptr..][q - p - ptr] == next[ptr..][q - p - ptr]; }
      }
    }
    if SameFrom(f, blocks, p + ptr) {
      forall j | ptr <= j < BLOCK ensures buffered[j] == next[j] {
        assert SameAt(f, blocks, p + j);
        BlockIndex(counter, p + j);
      }
    }
  }

  /** For every key and every place in a block there is a buffered block that does show. */
  lemma SplicedShows(blocks: nat -> Block, counter: nat, ptr: nat) returns (buffered: Block)
    requires counter >= 1 && 0 < ptr < BLOCK
    ensures !SameFrom(Spliced(blocks, counter, buffered), blocks, PositionOf(counter, ptr))
  {
    var next := blocks(counter - 1);
    buffered := next[63 := if next[63] == 0 then 1 else 0];
    assert buffered[ptr..][63 - ptr] != next[ptr..][63 - ptr];
    SplicedExact(blocks, counter, ptr, buffered);
  }
}
