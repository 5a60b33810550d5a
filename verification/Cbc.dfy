/** Cipher block chaining over any invertible block cipher: section 6.2 of NIST SP 800-38A. */
module Cbc {

  type Bytes = seq<bv8>

  function Add(a: bv8, b: bv8): bv8 {
    a ^ b
  }

  function Xor(a: Bytes, b: Bytes): (r: Bytes)
    requires |a| == |b|
    ensures |r| == |a| && forall i :: 0 <= i < |a| ==> r[i] == Add(a[i], b[i])
  {
    seq(|a|, i requires 0 <= i < |a| => Add(a[i], b[i]))
  }

  /** The operator is the exclusive or. */
  lemma AddMeans(a: bv8, b: bv8, k: bv8)
    ensures Add(0, k) == k && Add(a ^ b, k) == a ^ Add(b, k)
  {
  }

  lemma AddTwice(a: bv8, b: bv8)
    ensures Add(Add(a, b), b) == a
  {
  }

  lemma XorTwice(a: Bytes, b: Bytes)
    requires |a| == |b|
    ensures Xor(Xor(a, b), b) == a
  {
    forall i | 0 <= i < |a| ensures Xor(Xor(a, b), b)[i] == a[i] { AddTwice(a[i], b[i]); }
  }

  /** `f` keeps the length of blocks of `size` bytes. */
  ghost predicate Sized(f: Bytes -> Bytes, size: nat) {
    forall a {:trigger f(a)} :: |a| == size ==> |f(a)| == size
  }

  ghost predicate InverseAt(enc: Bytes -> Bytes, dec: Bytes -> Bytes, size: nat, a: Bytes) {
    |a| == size ==> dec(enc(a)) == a
  }

  /** A block cipher: `dec` undoes `enc` on blocks of `size` bytes. */
  ghost predicate BlockCipher(enc: Bytes -> Bytes, dec: Bytes -> Bytes, size: nat) {
    && Sized(enc, size) && Sized(dec, size)
    && forall a {:trigger InverseAt(enc, dec, size, a)} :: InverseAt(enc, dec, size, a)
  }

  predicate AllSized(blocks: seq<Bytes>, size: nat) {
    forall i :: 0 <= i < |blocks| ==> |blocks[i]| == size
  }

  /** The ciphertext of a message: each block is added to the ciphertext before it. */
  ghost function Encrypted(enc: Bytes -> Bytes, size: nat, iv: Bytes, blocks: seq<Bytes>): (r: seq<Bytes>)
    requires Sized(enc, size) && |iv| == size && AllSized(blocks, size)
    ensures |r| == |blocks| && AllSized(r, size)
    decreases blocks
  {
    if blocks == [] then []
    else
      var c := enc(Xor(blocks[0], iv));
      [c] + Encrypted(enc, size, c, blocks[1..])
  }

  ghost function Decrypted(dec: Bytes -> Bytes, size: nat, iv: Bytes, blocks: seq<Bytes>): (r: seq<Bytes>)
    requires Sized(dec, size) && |iv| == size && AllSized(blocks, size)
    ensures |r| == |blocks|
    decreases blocks
  {
    if blocks == [] then [] else [Xor(dec(blocks[0]), iv)] + Decrypted(dec, size, blocks[0], blocks[1..])
  }

  /** Decryption from the same initial vector returns the message, whatever its length. */
  lemma {:induction false} RoundTrip(enc: Bytes -> Bytes, dec: Bytes -> Bytes, size: nat, iv: Bytes, blocks: seq<Bytes>)
    requires BlockCipher(enc, dec, size) && |iv| == size && AllSized(blocks, size)
    ensures Decrypted(dec, size, iv, Encrypted(enc, size, iv, blocks)) == blocks
    decreases blocks
  {
    if blocks != [] {
      var x := Xor(blocks[0], iv);
      var c := enc(x);
      var rest := Encrypted(enc, size, c, blocks[1..]);
      assert ([c] + rest)[1..] == rest;
      assert InverseAt(enc, dec, size, x);
      XorTwice(blocks[0], iv);
      RoundTrip(enc, dec, size, c, blocks[1..]);
    }
  }

  /** After `i` blocks: the ciphertext so far, and the rest from the last ciphertext block on. */
  ghost predicate EncryptedTo(enc: Bytes -> Bytes, size: nat, iv: Bytes, blocks: seq<Bytes>, out: seq<Bytes>,
      prev: Bytes, i: nat) {
    && Sized(enc, size) && |iv| == size && |prev| == size && AllSized(blocks, size) && i <= |blocks|
    && Encrypted(enc, size, iv, blocks) == out + Encrypted(enc, size, prev, blocks[i..])
  }

  lemma EncryptNext(enc: Bytes -> Bytes, size: nat, iv: Bytes, blocks: seq<Bytes>, out: seq<Bytes>, prev: Bytes,
      i: nat, c: Bytes)
    requires EncryptedTo(enc, size, iv, blocks, out, prev, i) && i < |blocks| && c == enc(Xor(blocks[i], prev))
    ensures EncryptedTo(enc, size, iv, blocks, out + [c], c, i + 1)
  {
    var rest := blocks[i..];
    assert blocks[i] == rest[0] && rest[1..] == blocks[i + 1..];
    assert out + ([c] + Encrypted(enc, size, c, rest[1..])) == out + [c] + Encrypted(enc, size, c, rest[1..]);
  }

  ghost predicate DecryptedTo(dec: Bytes -> Bytes, size: nat, iv: Bytes, blocks: seq<Bytes>, out: seq<Bytes>,
      prev: Bytes, i: nat) {
    && Sized(dec, size) && |iv| == size && |prev| == size && AllSized(blocks, size) && i <= |blocks|
    && Decrypted(dec, size, iv, blocks) == out + Decrypted(dec, size, prev, blocks[i..])
  }

  lemma DecryptNext(dec: Bytes -> Bytes, size: nat, iv: Bytes, blocks: seq<Bytes>, out: seq<Bytes>, prev: Bytes,
      i: nat, c: Bytes)
    requires DecryptedTo(dec, size, iv, blocks, out, prev, i) && i < |blocks|
    requires |dec(blocks[i])| == size && c == Xor(dec(blocks[i]), prev)
    ensures DecryptedTo(dec, size, iv, blocks, out + [c], blocks[i], i + 1)
  {
    var rest := blocks[i..];
    assert blocks[i] == rest[0] && rest[1..] == blocks[i + 1..];
    assert out + ([c] + Decrypted(dec, size, rest[0], rest[1..])) ==
      out + [c] + Decrypted(dec, size, rest[0], rest[1..]);
  }

  class CbcCipher {
    const encrypt: Bytes -> Bytes
    const decrypt: Bytes -> Bytes
    const size: nat
    var prevBlock: Bytes

    ghost predicate Valid()
      reads this
    {
      Sized(encrypt, size) && Sized(decrypt, size) && |prevBlock| == size
    }

    constructor (encrypt: Bytes -> Bytes, decrypt: Bytes -> Bytes, size: nat)
      requires Sized(encrypt, size) && Sized(decrypt, size)
      ensures Valid() && this.encrypt == encrypt && this.decrypt == decrypt && this.size == size
      ensures prevBlock == seq(size, _ => 0)
    {
      this.encrypt, this.decrypt, this.size := encrypt, decrypt, size;
      prevBlock := seq(size, _ => 0);
    }

    method SetIv(iv: Bytes)
      requires Valid() && |iv| == size
      modifies this
      ensures Valid() && prevBlock == iv
    {
      prevBlock := iv;
    }

    method AddPrevious(block: array<bv8>)
      requires block.Length == |prevBlock|
      modifies block
      ensures block[..] == Xor(old(block[..]), prevBlock)
    {
      for i := 0 to block.Length
        invariant forall j :: 0 <= j < i ==> block[j] == Add(old(block[j]), prevBlock[j])
        invariant forall j :: i <= j < block.Length ==> block[j] == old(block[j])
      {
        block[i] := Add(block[i], prevBlock[i]);
      }
    }

    /** The block cipher on a block in place. */
    method Apply(f: Bytes -> Bytes, block: array<bv8>)
      requires |f(block[..])| == block.Length
      modifies block
      ensures block[..] == f(old(block[..]))
    {
      var result := f(block[..]);
      for i := 0 to block.Length
        invariant forall j :: 0 <= j < i ==> block[j] == result[j]
      {
        block[i] := result[i];
      }
    }

    method BlockEncrypt(block: array<bv8>)
      requires Valid() && block.Length == size
      modifies this, block
      ensures Valid() && block[..] == encrypt(Xor(old(block[..]), old(prevBlock))) && prevBlock == block[..]
    {
      AddPrevious(block);
      Apply(encrypt, block);
      prevBlock := block[..];
    }

    method BlockDecrypt(block: array<bv8>)
      requires Valid() && block.Length == size
      modifies this, block
      ensures Valid() && prevBlock == old(block[..]) && |decrypt(old(block[..]))| == size
      ensures block[..] == Xor(decrypt(old(block[..])), old(prevBlock))
    {
      var ciphertext := block[..];
      Apply(decrypt, block);
      AddPrevious(block);
      prevBlock := ciphertext;
    }

    method EncryptOne(b: Bytes) returns (c: Bytes)
      requires Valid() && |b| == size
      modifies this
      ensures Valid() && c == encrypt(Xor(b, old(prevBlock))) && prevBlock == c
    {
      var block := new bv8[size](k requires 0 <= k < size => b[k]);
      assert block[..] == b;
      BlockEncrypt(block);
      c := block[..];
    }

    method DecryptOne(b: Bytes) returns (c: Bytes)
      requires Valid() && |b| == size
      modifies this
      ensures Valid() && prevBlock == b && |decrypt(b)| == size && c == Xor(decrypt(b), old(prevBlock))
    {
      var block := new bv8[size](k requires 0 <= k < size => b[k]);
      assert block[..] == b;
      BlockDecrypt(block);
      c := block[..];
    }

    /** Block after block, from the current state on. */
    method EncryptAll(blocks: seq<Bytes>) returns (out: seq<Bytes>)
      requires Valid() && AllSized(blocks, size)
      modifies this
      ensures Valid() && out == Encrypted(encrypt, size, old(prevBlock), blocks)
    {
      out := [];
      for i := 0 to |blocks|
        invariant Valid() && EncryptedTo(encrypt, size, old(prevBlock), blocks, out, prevBlock, i)
      {
        ghost var prev := prevBlock;
        var c := EncryptOne(blocks[i]);
        EncryptNext(encrypt, size, old(prevBlock), blocks, out, prev, i, c);
        out := out + [c];
      }
    }

    method DecryptAll(blocks: seq<Bytes>) returns (out: seq<Bytes>)
      requires Valid() && AllSized(blocks, size)
      modifies this
      ensures Valid() && out == Decrypted(decrypt, size, old(prevBlock), blocks)
    {
      out := [];
      for i := 0 to |blocks|
        invariant Valid() && DecryptedTo(decrypt, size, old(prevBlock), blocks, out, prevBlock, i)
      {
        ghost var prev := prevBlock;
        var c := DecryptOne(blocks[i]);
        DecryptNext(decrypt, size, old(prevBlock), blocks, out, prev, i, c);
        out := out + [c];
      }
    }
  }
}
