/** AES-128 and AES-256 with the source's tables: single blocks, and messages in CBC mode. */
module AesModes {
  import opened AesCipher
  import opened AesKeys
  import AesData
  import AesStandard
  import AesTables
  import Aes
  import Cbc

  /** Decryption inverts encryption for every key and block, at both key sizes. */
  lemma BlockRoundTrip(keys: seq<Block>, block: Block)
    requires |keys| >= 2
    ensures Decrypt(AesSteps(AesTables.Tables()), keys, Encrypt(AesSteps(AesTables.Tables()), keys, block)) == block
  {
    AesTables.TablesLawful();
    AesInvertible(AesTables.Tables());
    DecryptEncrypt(AesSteps(AesTables.Tables()), keys, block);
  }

  lemma TablesStandard()
    ensures AesStandard.Standard(AesTables.Tables(), AesData.Sbox, AesTables.Product)
  {
    var o := AesTables.Tables();
    forall x ensures o.mul2(x) == AesTables.Product(2, x) {
      AesTables.Mul2Means(x);
      AesTables.ProductOfTwo(x);
    }
    forall x ensures o.mul3(x) == AesTables.Product(3, x) {
      AesTables.Mul3Means(x);
      AesTables.ProductOfThree(x);
    }
  }

  /** `b` is the ciphertext of `a` by section 5.1 of FIPS 197, with `n` full rounds. */
  ghost predicate Enciphers(keys: seq<Block>, n: nat, a: Block, b: Block) {
    exists states :: AesStandard.Chain(AesData.Sbox, AesTables.Product, keys, n, a, states, b)
  }

  lemma EncryptMeans(keys: seq<Block>, n: nat, a: Block)
    requires |keys| == n + 2
    ensures Enciphers(keys, n, a, Encrypt(AesSteps(AesTables.Tables()), keys, a))
  {
    TablesStandard();
    var states := AesStandard.EncryptIsStandard(
      AesTables.Tables(), AesData.Sbox, AesTables.Product, keys, n, a);
  }

  function RoundConstant(i: nat): bv8 {
    if i < 15 then AesData.Rc(i) else 0
  }

  class AesCipherState {
    var roundKeys: seq<Block>

    constructor ()
      ensures roundKeys == []
    {
      roundKeys := [];
    }

    method SetKey128(key: seq<bv8>)
      requires |key| == 16
      modifies this
      ensures |roundKeys| == 11 && Scheduled(AesTables.Tables(), RoundConstant, key, 4, roundKeys)
    {
      roundKeys := AesKeys.SetKey128(AesTables.Tables(), RoundConstant, key);
    }

    method SetKey256(key: seq<bv8>)
      requires |key| == 32
      modifies this
      ensures |roundKeys| == 15 && Scheduled(AesTables.Tables(), RoundConstant, key, 8, roundKeys)
    {
      roundKeys := AesKeys.SetKey256(AesTables.Tables(), RoundConstant, key);
    }

    method BlockEncrypt(block: array<bv8>)
      requires |roundKeys| >= 2 && block.Length == 16
      modifies block
      ensures block[..] == Encrypt(AesSteps(AesTables.Tables()), roundKeys, old(block[..]))
      ensures |roundKeys| == 11 ==> Enciphers(roundKeys, 9, old(block[..]), block[..])
      ensures |roundKeys| == 15 ==> Enciphers(roundKeys, 13, old(block[..]), block[..])
    {
      EncryptMeans(roundKeys, |roundKeys| - 2, block[..]);
      Aes.AesStepsOf(AesTables.Tables());
      Aes.BlockEncrypt(AesTables.Tables(), roundKeys, block, AesSteps(AesTables.Tables()));
    }

    method BlockDecrypt(block: array<bv8>)
      requires |roundKeys| >= 2 && block.Length == 16
      modifies block
      ensures block[..] == Decrypt(AesSteps(AesTables.Tables()), roundKeys, old(block[..]))
    {
      Aes.AesStepsOf(AesTables.Tables());
      Aes.BlockDecrypt(AesTables.Tables(), roundKeys, block, AesSteps(AesTables.Tables()));
    }
  }

  // --------------------------------------------------------------------------- CBC

  function EncryptBlock(keys: seq<Block>): Cbc.Bytes -> Cbc.Bytes
    requires |keys| >= 2
  {
    (a: Cbc.Bytes) => if |a| == 16 then Encrypt<Block, Block>(AesSteps(AesTables.Tables()), keys, a) else a
  }

  function DecryptBlock(keys: seq<Block>): Cbc.Bytes -> Cbc.Bytes
    requires |keys| >= 2
  {
    (a: Cbc.Bytes) => if |a| == 16 then Decrypt<Block, Block>(AesSteps(AesTables.Tables()), keys, a) else a
  }

  lemma IsBlockCipher(keys: seq<Block>)
    requires |keys| >= 2
    ensures Cbc.BlockCipher(EncryptBlock(keys), DecryptBlock(keys), 16)
  {
    forall a ensures Cbc.InverseAt(EncryptBlock(keys), DecryptBlock(keys), 16, a) {
      if |a| == 16 { BlockRoundTrip(keys, a); }
    }
  }

  /** AES in CBC mode returns every message, for any key, initial vector and length. */
  lemma MessageRoundTrip(keys: seq<Block>, iv: Cbc.Bytes, blocks: seq<Cbc.Bytes>)
    requires |keys| >= 2 && |iv| == 16 && Cbc.AllSized(blocks, 16)
    ensures Cbc.Sized(EncryptBlock(keys), 16) && Cbc.Sized(DecryptBlock(keys), 16)
    ensures Cbc.Decrypted(DecryptBlock(keys), 16, iv, Cbc.Encrypted(EncryptBlock(keys), 16, iv, blocks)) == blocks
  {
    IsBlockCipher(keys);
    Cbc.RoundTrip(EncryptBlock(keys), DecryptBlock(keys), 16, iv, blocks);
  }
}
