/** Key expansion word by word, as figure 11 of FIPS 197 has it. */
module AesKeyWords {
  import opened AesRounds
  import opened AesKeys

  datatype Word4 = Word4(b0: bv8, b1: bv8, b2: bv8, b3: bv8)

  function XorWord(o: Ops<bv8>, x: Word4, y: Word4): Word4 {
    Word4(o.add(x.b0, y.b0), o.add(x.b1, y.b1), o.add(x.b2, y.b2), o.add(x.b3, y.b3))
  }

  function SubWord(o: Ops<bv8>, x: Word4): Word4 {
    Word4(o.sbox(x.b0), o.sbox(x.b1), o.sbox(x.b2), o.sbox(x.b3))
  }

  function RotWord(x: Word4): Word4 {
    Word4(x.b1, x.b2, x.b3, x.b0)
  }

  /** Word `i` of the expanded key. */
  function KeyWord(o: Ops<bv8>, rc: Rcon, key: seq<bv8>, nk: nat, i: nat): Word4
    requires nk >= 4 && |key| == 4 * nk
  {
    Word4(Word(o, rc, key, nk, i, 0), Word(o, rc, key, nk, i, 1),
          Word(o, rc, key, nk, i, 2), Word(o, rc, key, nk, i, 3))
  }

  /** The word before, changed at every multiple of `nk` and, with long keys, half way between. */
  function Changed(o: Ops<bv8>, rc: Rcon, nk: nat, i: nat, before: Word4): Word4
    requires i >= nk > 0
  {
    if i % nk == 0 then XorWord(o, SubWord(o, RotWord(before)), Word4(rc(i / nk - 1), o.zero, o.zero, o.zero))
    else if nk > 6 && i % nk == 4 then SubWord(o, before)
    else before
  }

  /** The key comes first. */
  lemma KeyFirst(o: Ops<bv8>, rc: Rcon, key: seq<bv8>, nk: nat, i: nat)
    requires nk >= 4 && |key| == 4 * nk && i < nk
    ensures KeyWord(o, rc, key, nk, i) == Word4(key[4 * i], key[4 * i + 1], key[4 * i + 2], key[4 * i + 3])
  {
  }

  /** Then each word is the sum of the one `nk` before and of the one before, changed. */
  lemma ExpansionMeans(o: Ops<bv8>, rc: Rcon, key: seq<bv8>, nk: nat, i: nat)
    requires nk >= 4 && |key| == 4 * nk && i >= nk
    ensures KeyWord(o, rc, key, nk, i) ==
      XorWord(o, KeyWord(o, rc, key, nk, i - nk), Changed(o, rc, nk, i, KeyWord(o, rc, key, nk, i - 1)))
  {
    TempIs(o, rc, key, nk, i);
  }

  lemma TempIs(o: Ops<bv8>, rc: Rcon, key: seq<bv8>, nk: nat, i: nat)
    requires nk >= 4 && |key| == 4 * nk && i >= nk
    ensures Changed(o, rc, nk, i, KeyWord(o, rc, key, nk, i - 1)) ==
      Word4(Temp(o, rc, key, nk, i, 0), Temp(o, rc, key, nk, i, 1),
            Temp(o, rc, key, nk, i, 2), Temp(o, rc, key, nk, i, 3))
  {
  }
}
