/** The key schedules of AES-128 and AES-256, against the word recurrence of section 5.2 of FIPS 197. */
module AesKeys {
  import opened AesRounds
  import opened AesCipher

  type Rcon = nat -> bv8

  /** Byte `b` of word `i`: the word before, transformed at every `nk` words, added to the one `nk` back. */
  function Word(o: Ops<bv8>, rc: Rcon, key: seq<bv8>, nk: nat, i: nat, b: nat): bv8
    requires nk >= 4 && |key| == 4 * nk && b < 4
    decreases i
  {
    if i < nk then key[4 * i + b]
    else o.add(Word(o, rc, key, nk, i - nk, b), Temp(o, rc, key, nk, i, b))
  }

  /** `RotWord`, `SubWord` and the round constant, where they apply. */
  function Temp(o: Ops<bv8>, rc: Rcon, key: seq<bv8>, nk: nat, i: nat, b: nat): bv8
    requires nk >= 4 && |key| == 4 * nk && b < 4 && i >= nk
    decreases i, 0
  {
    if i % nk == 0 then
      o.add(o.sbox(Word(o, rc, key, nk, i - 1, (b + 1) % 4)), if b == 0 then rc(i / nk - 1) else o.zero)
    else if nk > 6 && i % nk == 4 then o.sbox(Word(o, rc, key, nk, i - 1, b))
    else Word(o, rc, key, nk, i - 1, b)
  }

  /** Round key `r` holds the words `4 * r` to `4 * r + 3`. */
  ghost predicate KeyByte(o: Ops<bv8>, rc: Rcon, key: seq<bv8>, nk: nat, keys: seq<Block>, r: nat, c: nat, b: nat) {
    nk >= 4 && |key| == 4 * nk && r < |keys| && c < 4 && b < 4 ==>
      keys[r][4 * c + b] == Word(o, rc, key, nk, 4 * r + c, b)
  }

  ghost predicate Scheduled(o: Ops<bv8>, rc: Rcon, key: seq<bv8>, nk: nat, keys: seq<Block>) {
    forall r: nat, c: nat, b: nat {:trigger KeyByte(o, rc, key, nk, keys, r, c, b)} ::
      KeyByte(o, rc, key, nk, keys, r, c, b)
  }

  // --------------------------------------------------------------- one round key

  /**
   * What a round of `set_key` makes: the first column from `old` and the bytes `mixed`, each other
   * column from `old` and the column before it.
   */
  predicate Expanded(o: Ops<bv8>, old_: Block, mixed: seq<bv8>, next: Block)
    requires |mixed| == 4
  {
    && (forall b :: 0 <= b < 4 ==> next[b] == o.add(old_[b], mixed[b]))
    && (forall k :: 4 <= k < 16 ==> next[k] == o.add(old_[k], next[k - 4]))
  }

  method Expand(o: Ops<bv8>, old_: Block, mixed: seq<bv8>) returns (next: Block)
    requires |mixed| == 4
    ensures Expanded(o, old_, mixed, next)
  {
    var bytes: seq<bv8> := [];
    for row := 0 to 4
      invariant |bytes| == row && forall b :: 0 <= b < row ==> bytes[b] == o.add(old_[b], mixed[b])
    {
      bytes := bytes + [o.add(old_[row], mixed[row])];
    }
    for k := 4 to 16
      invariant |bytes| == k && (forall b :: 0 <= b < 4 ==> bytes[b] == o.add(old_[b], mixed[b]))
      invariant forall j :: 4 <= j < k ==> bytes[j] == o.add(old_[j], bytes[j - 4])
    {
      bytes := bytes + [o.add(old_[k], bytes[k - 4])];
    }
    next := bytes;
  }

  /** The bytes that the first column of round key `r` is mixed with. */
  ghost predicate MixedFor(o: Ops<bv8>, rc: Rcon, key: seq<bv8>, nk: nat, r: nat, mixed: seq<bv8>) {
    && nk >= 4 && |key| == 4 * nk && 4 * r >= nk && |mixed| == 4
    && forall b :: 0 <= b < 4 ==> mixed[b] == Temp(o, rc, key, nk, 4 * r, b)
  }

  lemma {:induction false} ExpandedByte(o: Ops<bv8>, rc: Rcon, key: seq<bv8>, nk: nat, keys: seq<Block>,
                                        mixed: seq<bv8>, next: Block, c: nat, b: nat)
    requires (nk == 4 || nk == 8) && |key| == 4 * nk && |keys| >= nk / 4 && c < 4 && b < 4
    requires Scheduled(o, rc, key, nk, keys) && MixedFor(o, rc, key, nk, |keys|, mixed)
    requires Expanded(o, keys[|keys| - nk / 4], mixed, next)
    ensures next[4 * c + b] == Word(o, rc, key, nk, 4 * |keys| + c, b)
    decreases c
  {
    var r, i := |keys|, 4 * |keys| + c;
    assert i - nk == 4 * (r - nk / 4) + c;
    assert KeyByte(o, rc, key, nk, keys, r - nk / 4, c, b);
    if c > 0 {
      ExpandedByte(o, rc, key, nk, keys, mixed, next, c - 1, b);
      InsideRound(r, c, nk);
      assert next[4 * c + b] == o.add(keys[r - nk / 4][4 * c + b], next[4 * c + b - 4]);
      assert 4 * c + b - 4 == 4 * (c - 1) + b;
    }
  }

  lemma InsideRound(r: nat, c: nat, nk: nat)
    requires (nk == 4 || nk == 8) && 0 < c < 4
    ensures (4 * r + c) % nk != 0 && !(nk > 6 && (4 * r + c) % nk == 4)
  {
    assert (4 * r + c) % 4 == c;
  }

  lemma ExpandScheduled(o: Ops<bv8>, rc: Rcon, key: seq<bv8>, nk: nat, keys: seq<Block>, mixed: seq<bv8>, next: Block)
    requires (nk == 4 || nk == 8) && |key| == 4 * nk && |keys| >= nk / 4
    requires Scheduled(o, rc, key, nk, keys) && MixedFor(o, rc, key, nk, |keys|, mixed)
    requires Expanded(o, keys[|keys| - nk / 4], mixed, next)
    ensures Scheduled(o, rc, key, nk, keys + [next])
  {
    var keys' := keys + [next];
    forall r: nat, c: nat, b: nat ensures KeyByte(o, rc, key, nk, keys', r, c, b) {
      if r < |keys| {
        assert KeyByte(o, rc, key, nk, keys, r, c, b);
      } else if r == |keys| && c < 4 && b < 4 {
        ExpandedByte(o, rc, key, nk, keys, mixed, next, c, b);
      }
    }
  }

  lemma FirstScheduled(o: Ops<bv8>, rc: Rcon, key: seq<bv8>, nk: nat, keys: seq<Block>)
    requires (nk == 4 || nk == 8) && |key| == 4 * nk && |keys| == nk / 4
    requires keys[0] == key[..16] && (nk == 8 ==> keys[1] == key[16..])
    ensures Scheduled(o, rc, key, nk, keys)
  {
    forall r: nat, c: nat, b: nat ensures KeyByte(o, rc, key, nk, keys, r, c, b) {}
  }

  // ---------------------------------------------------------------- the two schedules

  /** `SubWord(RotWord(w)) ^ Rcon`, of the last column of a key. */
  method RotSub(o: Ops<bv8>, prev: Block, constant: bv8) returns (mixed: seq<bv8>)
    ensures |mixed| == 4
    ensures forall b :: 0 <= b < 4 ==>
      mixed[b] == o.add(o.sbox(prev[4 * 3 + (b + 1) % 4]), if b == 0 then constant else o.zero)
  {
    mixed := [];
    for row := 0 to 4
      invariant |mixed| == row
      invariant forall b :: 0 <= b < row ==>
        mixed[b] == o.add(o.sbox(prev[4 * 3 + (b + 1) % 4]), if b == 0 then constant else o.zero)
    {
      mixed := mixed + [o.add(o.sbox(prev[4 * 3 + (row + 1) % 4]), if row == 0 then constant else o.zero)];
    }
  }

  method SubLast(o: Ops<bv8>, prev: Block) returns (mixed: seq<bv8>)
    ensures |mixed| == 4 && forall b :: 0 <= b < 4 ==> mixed[b] == o.sbox(prev[4 * 3 + b])
  {
    mixed := [];
    for row := 0 to 4
      invariant |mixed| == row && forall b :: 0 <= b < row ==> mixed[b] == o.sbox(prev[4 * 3 + b])
    {
      mixed := mixed + [o.sbox(prev[4 * 3 + row])];
    }
  }

  lemma RotSubMixed(o: Ops<bv8>, rc: Rcon, key: seq<bv8>, nk: nat, keys: seq<Block>, mixed: seq<bv8>, constant: bv8)
    requires (nk == 4 || nk == 8) && |key| == 4 * nk && |keys| >= nk / 4 && Scheduled(o, rc, key, nk, keys)
    requires 4 * |keys| % nk == 0 && constant == rc(4 * |keys| / nk - 1) && |mixed| == 4
    requires forall b :: 0 <= b < 4 ==>
      mixed[b] == o.add(o.sbox(keys[|keys| - 1][4 * 3 + (b + 1) % 4]), if b == 0 then constant else o.zero)
    ensures MixedFor(o, rc, key, nk, |keys|, mixed)
  {
    var r := |keys|;
    forall b | 0 <= b < 4 ensures mixed[b] == Temp(o, rc, key, nk, 4 * r, b) {
      assert KeyByte(o, rc, key, nk, keys, r - 1, 3, (b + 1) % 4);
      assert 4 * (r - 1) + 3 == 4 * r - 1;
    }
  }

  lemma SubLastMixed(o: Ops<bv8>, rc: Rcon, key: seq<bv8>, keys: seq<Block>, mixed: seq<bv8>)
    requires |key| == 32 && |keys| >= 2 && |keys| % 2 == 1 && Scheduled(o, rc, key, 8, keys)
    requires |mixed| == 4 && forall b :: 0 <= b < 4 ==> mixed[b] == o.sbox(keys[|keys| - 1][4 * 3 + b])
    ensures MixedFor(o, rc, key, 8, |keys|, mixed)
  {
    var r := |keys|;
    assert 4 * r % 8 == 4;
    forall b | 0 <= b < 4 ensures mixed[b] == Temp(o, rc, key, 8, 4 * r, b) {
      assert KeyByte(o, rc, key, 8, keys, r - 1, 3, b);
      assert 4 * (r - 1) + 3 == 4 * r - 1;
    }
  }

  method NextKey128(o: Ops<bv8>, rc: Rcon, keys: seq<Block>, ghost key: seq<bv8>) returns (keys': seq<Block>)
    requires |key| == 16 && |keys| >= 1 && Scheduled(o, rc, key, 4, keys)
    ensures |keys'| == |keys| + 1 && Scheduled(o, rc, key, 4, keys')
  {
    var round := |keys|;
    var mixed := RotSub(o, keys[round - 1], rc(round - 1));
    RotSubMixed(o, rc, key, 4, keys, mixed, rc(round - 1));
    var next := Expand(o, keys[round - 1], mixed);
    ExpandScheduled(o, rc, key, 4, keys, mixed, next);
    keys' := keys + [next];
  }

  /** The first column of round key `|keys|` of AES-256 is mixed with one of two transformations in turn. */
  method Mixed256(o: Ops<bv8>, rc: Rcon, keys: seq<Block>, ghost key: seq<bv8>) returns (mixed: seq<bv8>)
    requires |key| == 32 && |keys| >= 2 && Scheduled(o, rc, key, 8, keys)
    ensures MixedFor(o, rc, key, 8, |keys|, mixed)
  {
    var round := |keys|;
    if round % 2 == 0 {
      mixed := RotSub(o, keys[round - 1], rc((round - 1) / 2));
      assert 4 * round % 8 == 0 && 4 * round / 8 - 1 == (round - 1) / 2;
      RotSubMixed(o, rc, key, 8, keys, mixed, rc((round - 1) / 2));
    } else {
      mixed := SubLast(o, keys[round - 1]);
      SubLastMixed(o, rc, key, keys, mixed);
    }
  }

  method NextKey256(o: Ops<bv8>, rc: Rcon, keys: seq<Block>, ghost key: seq<bv8>) returns (keys': seq<Block>)
    requires |key| == 32 && |keys| >= 2 && Scheduled(o, rc, key, 8, keys)
    ensures |keys'| == |keys| + 1 && Scheduled(o, rc, key, 8, keys')
  {
    var mixed := Mixed256(o, rc, keys, key);
    var next := Expand(o, keys[|keys| - 2], mixed);
    ExpandScheduled(o, rc, key, 8, keys, mixed, next);
    keys' := keys + [next];
  }

  const AES128_ROUND: nat := 10
  const AES256_ROUND: nat := 14

  method SetKey128(o: Ops<bv8>, rc: Rcon, key: seq<bv8>) returns (keys: seq<Block>)
    requires |key| == 16
    ensures |keys| == 11 && Scheduled(o, rc, key, 4, keys)
  {
    keys := [key];
    FirstScheduled(o, rc, key, 4, keys);
    for round := 1 to AES128_ROUND + 1
      invariant |keys| == round && Scheduled(o, rc, key, 4, keys)
    {
      keys := NextKey128(o, rc, keys, key);
    }
  }

  method SetKey256(o: Ops<bv8>, rc: Rcon, key: seq<bv8>) returns (keys: seq<Block>)
    requires |key| == 32
    ensures |keys| == 15 && Scheduled(o, rc, key, 8, keys)
  {
    keys := [key[..16], key[16..]];
    FirstScheduled(o, rc, key, 8, keys);
    for round := 2 to AES256_ROUND + 1
      invariant |keys| == round && Scheduled(o, rc, key, 8, keys)
    {
      keys := NextKey256(o, rc, keys, key);
    }
  }
}
