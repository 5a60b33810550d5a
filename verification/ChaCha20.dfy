/** The ChaCha20 stream cipher: section 2.4 of RFC 8439. */
module ChaCha20 {
  import opened ChaChaStream
  import opened ChaChaBlock

  ghost predicate BlockAt(blocks: nat -> Block, key: seq<bv32>, nonce: seq<bv32>, counter: nat) {
    |key| == 8 && |nonce| == 3 && counter <= MAX_COUNTER ==>
      blocks(counter) == BlockOf(QuarterRound, StoreSum, Initial(key, nonce, counter), DOUBLE_ROUNDS)
  }

  /** From `first` on, `blocks` is the block function at this key and nonce. */
  ghost predicate Keyed(blocks: nat -> Block, key: seq<bv32>, nonce: seq<bv32>, first: nat) {
    && |key| == 8 && |nonce| == 3
    && forall counter: nat {:trigger BlockAt(blocks, key, nonce, counter)} ::
         counter >= first ==> BlockAt(blocks, key, nonce, counter)
  }

  ghost function BlocksOf(key: seq<bv32>, nonce: seq<bv32>): nat -> Block
    requires |key| == 8 && |nonce| == 3
  {
    (counter: nat) =>
      if counter <= MAX_COUNTER then BlockOf(QuarterRound, StoreSum, Initial(key, nonce, counter), DOUBLE_ROUNDS)
      else seq(64, _ => 0)
  }

  lemma KeyedExists(key: seq<bv32>, nonce: seq<bv32>)
    requires |key| == 8 && |nonce| == 3
    ensures Keyed(BlocksOf(key, nonce), key, nonce, 0)
  {
    forall counter: nat ensures BlockAt(BlocksOf(key, nonce), key, nonce, counter) {}
  }

  lemma KeyedLater(blocks: nat -> Block, key: seq<bv32>, nonce: seq<bv32>, first: nat)
    requires Keyed(blocks, key, nonce, first)
    ensures Keyed(blocks, key, nonce, first + 1)
  {
  }

  /** A buffered block takes no part in the blocks to come. */
  lemma SplicedKeyed(blocks: nat -> Block, key: seq<bv32>, nonce: seq<bv32>, counter: nat, buffered: Block)
    requires Keyed(blocks, key, nonce, 0)
    ensures Keyed(Spliced(blocks, counter, buffered), key, nonce, counter)
  {
    var f := Spliced(blocks, counter, buffered);
    forall c: nat | c >= counter ensures BlockAt(f, key, nonce, c) {
      assert BlockAt(blocks, key, nonce, c);
      assert f(c) == blocks(c);
    }
  }

  lemma {:induction false} ConcatTake(chunks: seq<Bytes>, i: nat)
    requires i < |chunks|
    ensures Concat(chunks[..i + 1]) == Concat(chunks[..i]) + chunks[i]
    ensures |Concat(chunks[..i + 1])| <= |Concat(chunks)|
  {
    assert chunks[..i + 1] == chunks[..i] + [chunks[i]];
    ConcatAppend(chunks[..i], chunks[i]);
    if i + 1 == |chunks| {
      assert chunks[..i + 1] == chunks;
    } else {
      ConcatPrefix(chunks, i + 1);
    }
  }

  lemma {:induction false} ConcatPrefix(chunks: seq<Bytes>, i: nat)
    requires i <= |chunks|
    ensures |Concat(chunks[..i])| <= |Concat(chunks)|
    decreases |chunks| - i
  {
    if i == |chunks| {
      assert chunks[..i] == chunks;
    } else {
      assert chunks[..i + 1] == chunks[..i] + [chunks[i]];
      ConcatAppend(chunks[..i], chunks[i]);
      ConcatPrefix(chunks, i + 1);
    }
  }

  /** After `i` calls at positions from `p` on, the outputs make up the message so far, combined. */
  ghost predicate ChunksTo(blocks: nat -> Block, p: nat, chunks: seq<Bytes>, out: seq<Bytes>, position: nat, i: nat) {
    && i <= |chunks| && |out| == i && position == p + |Concat(chunks[..i])|
    && Concat(out) == Cipher(blocks, p, Concat(chunks[..i]))
  }

  lemma ChunksNext(blocks: nat -> Block, p: nat, chunks: seq<Bytes>, out: seq<Bytes>, position: nat, i: nat)
    requires ChunksTo(blocks, p, chunks, out, position, i) && i < |chunks|
    ensures ChunksTo(blocks, p, chunks, out + [Cipher(blocks, position, chunks[i])], position + |chunks[i]|, i + 1)
    ensures position + |chunks[i]| <= p + |Concat(chunks)|
  {
    ConcatTake(chunks, i);
    ConcatAppend(out, Cipher(blocks, position, chunks[i]));
    CipherSplit(blocks, p, Concat(chunks[..i]), chunks[i]);
  }

  /** Little-endian words. */
  method ReadWords(bytes: seq<bv8>, n: nat) returns (words: seq<bv32>)
    requires |bytes| == 4 * n
    ensures |words| == n && forall i :: 0 <= i < n ==> LittleEndian(words[i]) == bytes[4 * i..4 * i + 4]
  {
    words := [];
    for i := 0 to n
      invariant |words| == i && forall j :: 0 <= j < i ==> LittleEndian(words[j]) == bytes[4 * j..4 * j + 4]
    {
      LittleEndianInverse(bytes[4 * i..4 * i + 4]);
      words := words + [FromLittleEndian(bytes[4 * i..4 * i + 4])];
    }
  }

  class ChaCha20 {
    var key: seq<bv32>
    var nonce: seq<bv32>
    var counter: nat
    var state: Block
    var statePtr: nat
    /** The blocks of the keystream, by counter; those to come are the key's. */
    ghost var blocks: nat -> Block

    ghost predicate Valid()
      reads this
    {
      && Keyed(blocks, key, nonce, counter) && counter <= MAX_COUNTER && statePtr < BLOCK
      && (statePtr > 0 ==> counter >= 1 && state == blocks(counter - 1))
    }

    ghost function Position(): nat
      requires Valid()
      reads this
    {
      PositionOf(counter, statePtr)
    }

    constructor ()
      ensures Valid() && Position() == 0 && key == seq(8, _ => 0) && nonce == seq(3, _ => 0)
      ensures blocks == BlocksOf(key, nonce)
    {
      key, nonce := seq(8, _ => 0), seq(3, _ => 0);
      counter, statePtr := 0, 0;
      state := seq(64, _ => 0);
      new;
      KeyedExists(key, nonce);
      blocks := BlocksOf(key, nonce);
    }

    /** The keystream after a change of key or nonce: what is left of the buffered block, then the new blocks. */
    ghost predicate Rekeyed()
      reads this
    {
      && |key| == 8 && |nonce| == 3
      && blocks == if statePtr == 0 then BlocksOf(key, nonce) else Spliced(BlocksOf(key, nonce), counter, state)
    }

    /** No byte of the buffered block shows that is not the new key's. */
    ghost predicate Clean()
      requires |key| == 8 && |nonce| == 3
      reads this
    {
      || statePtr == 0
      || (counter >= 1 && statePtr < BLOCK && state[statePtr..] == BlocksOf(key, nonce)(counter - 1)[statePtr..])
    }

    /** `set_key`. The stream is the new key's from here on if and only if the buffer is clean. */
    method SetKey(bytes: seq<bv8>)
      requires Valid() && |bytes| == 32
      modifies `key, `blocks
      ensures |key| == 8 && forall i :: 0 <= i < 8 ==> LittleEndian(key[i]) == bytes[4 * i..4 * i + 4]
      ensures Valid() && Rekeyed() && Position() == old(Position())
      ensures SameFrom(blocks, BlocksOf(key, nonce), Position()) <==> Clean()
    {
      key := ReadWords(bytes, 8);
      Rekey();
    }

    method SetNonce(bytes: seq<bv8>)
      requires Valid() && |bytes| == 12
      modifies `nonce, `blocks
      ensures |nonce| == 3 && forall i :: 0 <= i < 3 ==> LittleEndian(nonce[i]) == bytes[4 * i..4 * i + 4]
      ensures Valid() && Rekeyed() && Position() == old(Position())
      ensures SameFrom(blocks, BlocksOf(key, nonce), Position()) <==> Clean()
    {
      nonce := ReadWords(bytes, 3);
      Rekey();
    }

    /** What a new key or nonce does to the keystream. */
    ghost method Rekey()
      requires |key| == 8 && |nonce| == 3 && counter <= MAX_COUNTER && statePtr < BLOCK
      requires statePtr > 0 ==> counter >= 1
      modifies `blocks
      ensures Valid() && Rekeyed() && (SameFrom(blocks, BlocksOf(key, nonce), Position()) <==> Clean())
    {
      ghost var next := BlocksOf(key, nonce);
      KeyedExists(key, nonce);
      if statePtr == 0 {
        blocks := next;
        assert SameFrom(blocks, next, Position());
      } else {
        blocks := Spliced(next, counter, state);
        SplicedKeyed(next, key, nonce, counter, state);
        SplicedExact(next, counter, statePtr, state);
      }
    }

    method UpdateState()
      requires Keyed(blocks, key, nonce, counter) && counter <= MAX_COUNTER
      modifies `state
      ensures state == blocks(counter)
    {
      assert BlockAt(blocks, key, nonce, counter);
      state := MakeBlock(QuarterRound, StoreSum, Initial(key, nonce, counter), DOUBLE_ROUNDS);
    }

    /** Make the next block when the buffer is used up. */
    method Refill()
      requires Valid() && Position() < BLOCK * MAX_COUNTER
      modifies `state, `counter
      ensures Keyed(blocks, key, nonce, counter)
      ensures counter <= MAX_COUNTER && statePtr < BLOCK && counter >= 1 && state == blocks(counter - 1)
      ensures BLOCK * (counter - 1) + statePtr == old(Position())
    {
      if statePtr == 0 {
        UpdateState();
        KeyedLater(blocks, key, nonce, counter);
        counter := counter + 1;
      }
    }

    /** Combine the next `n` bytes with the buffer. */
    method XorBytes(block: array<bv8>, done: nat, n: nat, ghost m: Bytes, ghost p: nat)
      requires 0 < n && done + n <= block.Length == |m| && statePtr + n <= BLOCK
      requires counter >= 1 && state == blocks(counter - 1) && BLOCK * (counter - 1) + statePtr == p + done
      requires Upto(blocks, p, m, block[..], done)
      modifies block
      ensures Upto(blocks, p, m, block[..], done + n)
    {
      for i := 0 to n
        invariant Upto(blocks, p, m, block[..], done + i)
      {
        NextBuffered(blocks, p, m, block[..], done + i, counter - 1, statePtr + i);
        ghost var before := block[..];
        block[done + i] := Mask(block[done + i], state[statePtr + i]);
        assert block[..] == before[done + i := block[done + i]];
      }
    }

    /** `n` bytes of the buffer are used up. */
    method Advance(n: nat)
      requires Keyed(blocks, key, nonce, counter) && counter <= MAX_COUNTER && statePtr < BLOCK
        && 0 < n <= BLOCK - statePtr
      requires counter >= 1 && state == blocks(counter - 1)
      modifies `statePtr
      ensures Valid() && Position() == BLOCK * (counter - 1) + old(statePtr) + n
    {
      PointerWraps(statePtr + n);
      statePtr := (statePtr + n) % BLOCK;
    }

    /** One pass of the loop: up to the end of the buffer, or of the message. */
    method EncryptSome(block: array<bv8>, done: nat, ghost m: Bytes, ghost p: nat) returns (done': nat)
      requires Valid() && done < block.Length == |m| && p + block.Length <= BLOCK * MAX_COUNTER
      requires Position() == p + done && Upto(blocks, p, m, block[..], done)
      modifies `state, `counter, `statePtr, block
      ensures Valid() && done < done' <= block.Length && Position() == p + done' && Upto(blocks, p, m, block[..], done')
    {
      Refill();
      var n := if block.Length - done < BLOCK - statePtr then block.Length - done else BLOCK - statePtr;
      XorBytes(block, done, n, m, p);
      done' := done + n;
      Advance(n);
    }

    method Encrypt(block: array<bv8>)
      requires Valid() && Position() + block.Length <= BLOCK * MAX_COUNTER
      modifies `state, `counter, `statePtr, block
      ensures Valid() && Position() == old(Position()) + block.Length
      ensures block[..] == Cipher(blocks, old(Position()), old(block[..]))
    {
      ghost var m, p := block[..], Position();
      var done := 0;
      while done < block.Length
        invariant done <= block.Length && Valid() && Position() == p + done
        invariant Upto(blocks, p, m, block[..], done)
      {
        done := EncryptSome(block, done, m, p);
      }
      assert m[..done] == m && block[..done] == block[..];
    }

    /** Decryption is encryption. */
    method Decrypt(block: array<bv8>)
      requires Valid() && Position() + block.Length <= BLOCK * MAX_COUNTER
      modifies `state, `counter, `statePtr, block
      ensures Valid() && Position() == old(Position()) + block.Length
      ensures block[..] == Cipher(blocks, old(Position()), old(block[..]))
    {
      Encrypt(block);
    }

    /** A message in any number of calls. */
    method EncryptChunks(chunks: seq<Bytes>) returns (out: seq<Bytes>)
      requires Valid() && Position() + |Concat(chunks)| <= BLOCK * MAX_COUNTER
      modifies `state, `counter, `statePtr
      ensures Valid() && |out| == |chunks| && Concat(out) == Cipher(blocks, old(Position()), Concat(chunks))
    {
      out := [];
      ghost var p := Position();
      for i := 0 to |chunks|
        invariant Valid() && ChunksTo(blocks, p, chunks, out, Position(), i)
      {
        ChunksNext(blocks, p, chunks, out, Position(), i);
        var chunk := EncryptChunk(chunks[i]);
        out := out + [chunk];
      }
      assert chunks[..|chunks|] == chunks;
    }

    method EncryptChunk(chunk: Bytes) returns (out: Bytes)
      requires Valid() && Position() + |chunk| <= BLOCK * MAX_COUNTER
      modifies `state, `counter, `statePtr
      ensures Valid() && Position() == old(Position()) + |chunk| && out == Cipher(blocks, old(Position()), chunk)
    {
      var block := new bv8[|chunk|](i requires 0 <= i < |chunk| => chunk[i]);
      assert block[..] == chunk;
      Encrypt(block);
      out := block[..];
    }
  }
}
