/** AES block encryption and decryption as functions, and that one undoes the other. */
module AesCipher {
  import opened AesRounds

  // ----------------------------------------------------------- rounds of any invertible steps

  /** What is done with a key: before the first round, in each full round, and in the last one. */
  datatype Steps<!K, !S> = Steps(
    start: (K, S) -> S, startInv: (K, S) -> S, round: (K, S) -> S, roundInv: (K, S) -> S,
    last: (K, S) -> S, lastInv: (K, S) -> S)

  ghost predicate UndoneAt<K, S>(f: (K, S) -> S, g: (K, S) -> S, k: K, s: S) {
    g(k, f(k, s)) == s
  }

  ghost predicate Undone<K(!new), S(!new)>(f: (K, S) -> S, g: (K, S) -> S) {
    forall k, s {:trigger UndoneAt(f, g, k, s)} :: UndoneAt(f, g, k, s)
  }

  ghost predicate Invertible<K(!new), S(!new)>(p: Steps<K, S>) {
    Undone(p.start, p.startInv) && Undone(p.round, p.roundInv) && Undone(p.last, p.lastInv)
  }

  /** The state after the first key and `n` full rounds. */
  function Rounds<K, S>(p: Steps<K, S>, keys: seq<K>, s: S, n: nat): S
    requires n < |keys|
  {
    if n == 0 then p.start(keys[0], s) else p.round(keys[n], Rounds(p, keys, s, n - 1))
  }

  function Encrypt<K, S>(p: Steps<K, S>, keys: seq<K>, s: S): S
    requires |keys| >= 2
  {
    p.last(keys[|keys| - 1], Rounds(p, keys, s, |keys| - 2))
  }

  /** Rounds `n` down to 1 undone, and then the first key. */
  function RoundsInv<K, S>(p: Steps<K, S>, keys: seq<K>, s: S, n: nat): S
    requires n < |keys|
    decreases n
  {
    if n == 0 then p.startInv(keys[0], s) else RoundsInv(p, keys, p.roundInv(keys[n], s), n - 1)
  }

  function Decrypt<K, S>(p: Steps<K, S>, keys: seq<K>, s: S): S
    requires |keys| >= 2
  {
    RoundsInv(p, keys, p.lastInv(keys[|keys| - 1], s), |keys| - 2)
  }

  lemma {:induction false} RoundsInverse<K(!new), S(!new)>(p: Steps<K, S>, keys: seq<K>, s: S, n: nat)
    requires Invertible(p) && n < |keys|
    ensures RoundsInv(p, keys, Rounds(p, keys, s, n), n) == s
  {
    if n == 0 {
      assert UndoneAt(p.start, p.startInv, keys[0], s);
    } else {
      assert UndoneAt(p.round, p.roundInv, keys[n], Rounds(p, keys, s, n - 1));
      RoundsInverse(p, keys, s, n - 1);
    }
  }

  /** Decryption inverts encryption, whatever the round keys and however many rounds. */
  lemma DecryptEncrypt<K(!new), S(!new)>(p: Steps<K, S>, keys: seq<K>, s: S)
    requires Invertible(p) && |keys| >= 2
    ensures Decrypt(p, keys, Encrypt(p, keys, s)) == s
  {
    assert UndoneAt(p.last, p.lastInv, keys[|keys| - 1], Rounds(p, keys, s, |keys| - 2));
    RoundsInverse(p, keys, s, |keys| - 2);
  }

  // ----------------------------------------------------------------------- the AES steps

  type Block = s: seq<bv8> | |s| == 16 witness seq(16, _ => 0)

  function SubShift(o: Ops<bv8>, a: Block): Block {
    ShiftRows(Map(o.sbox, a))
  }

  function SubShiftInv(o: Ops<bv8>, a: Block): Block {
    Map(o.sboxInv, ShiftRowsInv(a))
  }

  function AddKey(o: Ops<bv8>, key: Block, a: Block): Block {
    Xor(o, a, key)
  }

  function Round(o: Ops<bv8>, key: Block, a: Block): Block {
    Xor(o, MixColumns(o, SubShift(o, a)), key)
  }

  function RoundInv(o: Ops<bv8>, key: Block, a: Block): Block {
    SubShiftInv(o, MixColumnsInv(o, Xor(o, a, key)))
  }

  function Last(o: Ops<bv8>, key: Block, a: Block): Block {
    Xor(o, SubShift(o, a), key)
  }

  function LastInv(o: Ops<bv8>, key: Block, a: Block): Block {
    SubShiftInv(o, Xor(o, a, key))
  }

  lemma SubShiftInverse(o: Ops<bv8>, a: Block)
    requires Lawful(o)
    ensures SubShiftInv(o, SubShift(o, a)) == a
  {
    ShiftInverse(Map(o.sbox, a));
    SubInverse(o, a);
  }

  lemma RoundInverse(o: Ops<bv8>, key: Block, a: Block)
    requires Lawful(o)
    ensures RoundInv(o, key, Round(o, key, a)) == a
  {
    XorTwice(o, MixColumns(o, SubShift(o, a)), key);
    MixInverse(o, SubShift(o, a));
    SubShiftInverse(o, a);
  }

  lemma LastInverse(o: Ops<bv8>, key: Block, a: Block)
    requires Lawful(o)
    ensures LastInv(o, key, Last(o, key, a)) == a
  {
    XorTwice(o, SubShift(o, a), key);
    SubShiftInverse(o, a);
  }

  function Adding(o: Ops<bv8>): (Block, Block) -> Block {
    (k: Block, a: Block) => AddKey(o, k, a)
  }

  function Rounding(o: Ops<bv8>): (Block, Block) -> Block {
    (k: Block, a: Block) => Round(o, k, a)
  }

  function RoundingInv(o: Ops<bv8>): (Block, Block) -> Block {
    (k: Block, a: Block) => RoundInv(o, k, a)
  }

  function Ending(o: Ops<bv8>): (Block, Block) -> Block {
    (k: Block, a: Block) => Last(o, k, a)
  }

  function EndingInv(o: Ops<bv8>): (Block, Block) -> Block {
    (k: Block, a: Block) => LastInv(o, k, a)
  }

  function AesSteps(o: Ops<bv8>): Steps<Block, Block> {
    Steps(Adding(o), Adding(o), Rounding(o), RoundingInv(o), Ending(o), EndingInv(o))
  }

  lemma AddingUndone(o: Ops<bv8>)
    requires Lawful(o)
    ensures Undone(Adding(o), Adding(o))
  {
    forall k: Block, a: Block ensures UndoneAt(Adding(o), Adding(o), k, a) { XorTwice(o, a, k); }
  }

  lemma RoundingUndone(o: Ops<bv8>)
    requires Lawful(o)
    ensures Undone(Rounding(o), RoundingInv(o))
  {
    forall k: Block, a: Block ensures UndoneAt(Rounding(o), RoundingInv(o), k, a) { RoundInverse(o, k, a); }
  }

  lemma EndingUndone(o: Ops<bv8>)
    requires Lawful(o)
    ensures Undone(Ending(o), EndingInv(o))
  {
    forall k: Block, a: Block ensures UndoneAt(Ending(o), EndingInv(o), k, a) { LastInverse(o, k, a); }
  }

  lemma AesInvertible(o: Ops<bv8>)
    requires Lawful(o)
    ensures Invertible(AesSteps(o))
  {
    AddingUndone(o);
    RoundingUndone(o);
    EndingUndone(o);
  }
}
