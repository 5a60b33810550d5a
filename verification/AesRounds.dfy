/** The round steps of AES over any bytes and tables that obey a few laws, and their inverses. */
module AesRounds {

  /** The sum of two bytes, the zero byte and the lookup tables. */
  datatype Ops<!B> = Ops(
    add: (B, B) -> B, zero: B, sbox: B -> B, sboxInv: B -> B,
    mul2: B -> B, mul3: B -> B, mul9: B -> B, mul11: B -> B, mul13: B -> B, mul14: B -> B)

  ghost predicate AddLaw<B>(o: Ops<B>, a: B, b: B, c: B) {
    && o.add(a, b) == o.add(b, a) && o.add(o.add(a, b), c) == o.add(a, o.add(b, c))
    && o.add(o.add(a, b), b) == a && o.add(a, o.zero) == a
  }

  /** The sum of four bytes. */
  function Sum<B>(o: Ops<B>, a: B, b: B, c: B, d: B): B {
    o.add(o.add(a, b), o.add(c, d))
  }

  ghost predicate LinearAt<B>(o: Ops<B>, f: B -> B, a: B, b: B, c: B, d: B) {
    f(Sum(o, a, b, c, d)) == Sum(o, f(a), f(b), f(c), f(d))
  }

  ghost predicate Linear<B(!new)>(o: Ops<B>, f: B -> B) {
    forall a, b, c, d {:trigger LinearAt(o, f, a, b, c, d)} :: LinearAt(o, f, a, b, c, d)
  }

  /** One column of the product of the two mixing matrices: 1 on the diagonal and 0 elsewhere. */
  ghost predicate Circulant<B>(o: Ops<B>, x: B) {
    && Sum(o, o.mul9(o.mul3(x)), o.mul11(x), o.mul13(x), o.mul14(o.mul2(x))) == x
    && Sum(o, o.mul9(x), o.mul11(o.mul2(x)), o.mul13(x), o.mul14(o.mul3(x))) == o.zero
    && Sum(o, o.mul9(x), o.mul11(o.mul3(x)), o.mul13(o.mul2(x)), o.mul14(x)) == o.zero
    && Sum(o, o.mul9(o.mul2(x)), o.mul11(x), o.mul13(o.mul3(x)), o.mul14(x)) == o.zero
  }

  ghost predicate SboxAt<B>(o: Ops<B>, x: B) {
    o.sboxInv(o.sbox(x)) == x
  }

  ghost predicate Lawful<B(!new)>(o: Ops<B>) {
    && (forall a, b, c {:trigger AddLaw(o, a, b, c)} :: AddLaw(o, a, b, c))
    && (forall x {:trigger SboxAt(o, x)} :: SboxAt(o, x))
    && Linear(o, o.mul9) && Linear(o, o.mul11) && Linear(o, o.mul13) && Linear(o, o.mul14)
    && forall x {:trigger Circulant(o, x)} :: Circulant(o, x)
  }

  // ---------------------------------------------------------------- rearranging sums

  lemma Swap<B(!new)>(o: Ops<B>, a: B, b: B, c: B, d: B)
    requires Lawful(o)
    ensures o.add(o.add(a, b), o.add(c, d)) == o.add(o.add(a, c), o.add(b, d))
  {
    assert AddLaw(o, a, b, o.add(c, d)) && AddLaw(o, b, c, d) && AddLaw(o, c, b, d) && AddLaw(o, a, c, o.add(b, d));
  }

  lemma PairRows<B(!new)>(o: Ops<B>, a0: B, a1: B, a2: B, a3: B, b0: B, b1: B, b2: B, b3: B)
    requires Lawful(o)
    ensures o.add(Sum(o, a0, a1, a2, a3), Sum(o, b0, b1, b2, b3)) ==
            Sum(o, o.add(a0, b0), o.add(a1, b1), o.add(a2, b2), o.add(a3, b3))
  {
    Swap(o, o.add(a0, a1), o.add(a2, a3), o.add(b0, b1), o.add(b2, b3));
    Swap(o, a0, a1, b0, b1);
    Swap(o, a2, a3, b2, b3);
  }

  /** Adding up a square by rows or by columns. */
  lemma Transpose<B(!new)>(o: Ops<B>, a0: B, a1: B, a2: B, a3: B, b0: B, b1: B, b2: B, b3: B,
                           c0: B, c1: B, c2: B, c3: B, d0: B, d1: B, d2: B, d3: B)
    requires Lawful(o)
    ensures Sum(o, Sum(o, a0, a1, a2, a3), Sum(o, b0, b1, b2, b3), Sum(o, c0, c1, c2, c3), Sum(o, d0, d1, d2, d3)) ==
            Sum(o, Sum(o, a0, b0, c0, d0), Sum(o, a1, b1, c1, d1), Sum(o, a2, b2, c2, d2), Sum(o, a3, b3, c3, d3))
  {
    PairRows(o, a0, a1, a2, a3, b0, b1, b2, b3);
    PairRows(o, c0, c1, c2, c3, d0, d1, d2, d3);
    PairRows(o, o.add(a0, b0), o.add(a1, b1), o.add(a2, b2), o.add(a3, b3),
             o.add(c0, d0), o.add(c1, d1), o.add(c2, d2), o.add(c3, d3));
  }

  lemma Reversed<B(!new)>(o: Ops<B>, a: B, b: B, c: B, d: B)
    requires Lawful(o)
    ensures Sum(o, a, b, c, d) == Sum(o, d, c, b, a)
  {
    assert AddLaw(o, a, b, a) && AddLaw(o, c, d, a) && AddLaw(o, o.add(a, b), o.add(c, d), a);
  }

  lemma Paired<B(!new)>(o: Ops<B>, a: B, b: B, c: B, d: B)
    requires Lawful(o)
    ensures Sum(o, a, b, c, d) == Sum(o, b, a, d, c)
  {
    assert AddLaw(o, a, b, a) && AddLaw(o, c, d, a);
  }

  lemma Crossed<B(!new)>(o: Ops<B>, a: B, b: B, c: B, d: B)
    requires Lawful(o)
    ensures Sum(o, a, b, c, d) == Sum(o, c, b, a, d)
  {
    Swap(o, a, b, c, d);
    assert AddLaw(o, a, c, a);
    Swap(o, c, a, b, d);
  }

  // ------------------------------------------------------------------- mixing columns

  function Mixed<B>(o: Ops<B>, a0: B, a1: B, a2: B, a3: B): B {
    Sum(o, o.mul2(a0), a3, a2, o.mul3(a1))
  }

  function Unmixed<B>(o: Ops<B>, b0: B, b1: B, b2: B, b3: B): B {
    Sum(o, o.mul9(b3), o.mul11(b1), o.mul13(b2), o.mul14(b0))
  }

  /** The sums of the products with each input byte, for the first output byte. */
  lemma Regroup<B(!new)>(o: Ops<B>, n3: B, n2: B, n1: B, n0: B, b1: B, b0: B, b3: B, b2: B,
                         d2: B, d1: B, d0: B, d3: B, e0: B, e3: B, e2: B, e1: B, a: B)
    requires Lawful(o) && Sum(o, n0, b0, d0, e0) == a
    requires Sum(o, n1, b1, d1, e1) == o.zero && Sum(o, n2, b2, d2, e2) == o.zero && Sum(o, n3, b3, d3, e3) == o.zero
    ensures Sum(o, Sum(o, n3, n2, n1, n0), Sum(o, b1, b0, b3, b2), Sum(o, d2, d1, d0, d3), Sum(o, e0, e3, e2, e1)) == a
  {
    assert AddLaw(o, a, o.zero, a) && AddLaw(o, o.zero, o.zero, o.zero);
    Transpose(o, n0, n1, n2, n3, b0, b1, b2, b3, d0, d1, d2, d3, e0, e1, e2, e3);
    Reversed(o, n3, n2, n1, n0);
    Paired(o, b1, b0, b3, b2);
    Crossed(o, d2, d1, d0, d3);
    Paired(o, e0, e3, e2, e1);
    Crossed(o, e3, e0, e1, e2);
    Paired(o, e1, e0, e3, e2);
  }

  lemma UnmixMix<B(!new)>(o: Ops<B>, a0: B, a1: B, a2: B, a3: B)
    requires Lawful(o)
    ensures Unmixed(o, Mixed(o, a0, a1, a2, a3), Mixed(o, a1, a2, a3, a0), Mixed(o, a2, a3, a0, a1),
      Mixed(o, a3, a0, a1, a2)) == a0
  {
    assert LinearAt(o, o.mul9, o.mul2(a3), a2, a1, o.mul3(a0));
    assert LinearAt(o, o.mul11, o.mul2(a1), a0, a3, o.mul3(a2));
    assert LinearAt(o, o.mul13, o.mul2(a2), a1, a0, o.mul3(a3));
    assert LinearAt(o, o.mul14, o.mul2(a0), a3, a2, o.mul3(a1));
    assert Circulant(o, a0) && Circulant(o, a1) && Circulant(o, a2) && Circulant(o, a3);
    Regroup(o, o.mul9(o.mul2(a3)), o.mul9(a2), o.mul9(a1), o.mul9(o.mul3(a0)),
            o.mul11(o.mul2(a1)), o.mul11(a0), o.mul11(a3), o.mul11(o.mul3(a2)),
            o.mul13(o.mul2(a2)), o.mul13(a1), o.mul13(a0), o.mul13(o.mul3(a3)),
            o.mul14(o.mul2(a0)), o.mul14(a3), o.mul14(a2), o.mul14(o.mul3(a1)), a0);
  }

  function MixColumn<B>(o: Ops<B>, a: seq<B>): (r: seq<B>)
    requires |a| == 4
    ensures |r| == 4
  {
    [Mixed(o, a[0], a[1], a[2], a[3]), Mixed(o, a[1], a[2], a[3], a[0]),
     Mixed(o, a[2], a[3], a[0], a[1]), Mixed(o, a[3], a[0], a[1], a[2])]
  }

  function MixColumnInv<B>(o: Ops<B>, b: seq<B>): (r: seq<B>)
    requires |b| == 4
    ensures |r| == 4
  {
    [Unmixed(o, b[0], b[1], b[2], b[3]), Unmixed(o, b[1], b[2], b[3], b[0]),
     Unmixed(o, b[2], b[3], b[0], b[1]), Unmixed(o, b[3], b[0], b[1], b[2])]
  }

  lemma ColumnInverse<B(!new)>(o: Ops<B>, a: seq<B>)
    requires Lawful(o) && |a| == 4
    ensures MixColumnInv(o, MixColumn(o, a)) == a
  {
    UnmixMix(o, a[0], a[1], a[2], a[3]);
    UnmixMix(o, a[1], a[2], a[3], a[0]);
    UnmixMix(o, a[2], a[3], a[0], a[1]);
    UnmixMix(o, a[3], a[0], a[1], a[2]);
  }

  /** The columns one after another. */
  function MixColumns<B>(o: Ops<B>, a: seq<B>): (r: seq<B>)
    requires |a| % 4 == 0
    ensures |r| == |a|
  {
    if a == [] then [] else MixColumn(o, a[..4]) + MixColumns(o, a[4..])
  }

  function MixColumnsInv<B>(o: Ops<B>, b: seq<B>): (r: seq<B>)
    requires |b| % 4 == 0
    ensures |r| == |b|
  {
    if b == [] then [] else MixColumnInv(o, b[..4]) + MixColumnsInv(o, b[4..])
  }

  lemma {:induction false} MixInverse<B(!new)>(o: Ops<B>, a: seq<B>)
    requires Lawful(o) && |a| % 4 == 0
    ensures MixColumnsInv(o, MixColumns(o, a)) == a
  {
    if a != [] {
      var first, rest := MixColumn(o, a[..4]), MixColumns(o, a[4..]);
      assert (first + rest)[..4] == first && (first + rest)[4..] == rest;
      ColumnInverse(o, a[..4]);
      MixInverse(o, a[4..]);
      assert a == a[..4] + a[4..];
    }
  }

  // ------------------------------------------------------ keys, substitution, shifting

  /** `add_round_key`. */
  function Xor<B>(o: Ops<B>, a: seq<B>, b: seq<B>): (r: seq<B>)
    requires |a| == |b|
    ensures |r| == |a| && forall i :: 0 <= i < |r| ==> r[i] == o.add(a[i], b[i])
  {
    seq(|a|, i requires 0 <= i < |a| => o.add(a[i], b[i]))
  }

  lemma XorTwice<B(!new)>(o: Ops<B>, a: seq<B>, b: seq<B>)
    requires Lawful(o) && |a| == |b|
    ensures Xor(o, Xor(o, a, b), b) == a
  {
    forall i | 0 <= i < |a| ensures Xor(o, Xor(o, a, b), b)[i] == a[i] { assert AddLaw(o, a[i], b[i], a[i]); }
  }

  function Map<B>(f: B -> B, a: seq<B>): (r: seq<B>)
    ensures |r| == |a| && forall i :: 0 <= i < |r| ==> r[i] == f(a[i])
  {
    seq(|a|, i requires 0 <= i < |a| => f(a[i]))
  }

  lemma SubInverse<B(!new)>(o: Ops<B>, a: seq<B>)
    requires Lawful(o)
    ensures Map(o.sboxInv, Map(o.sbox, a)) == a
  {
    forall i | 0 <= i < |a| ensures Map(o.sboxInv, Map(o.sbox, a))[i] == a[i] { assert SboxAt(o, a[i]); }
  }

  /** Each row moves on by its number of columns; column `c` is bytes `4 * c` to `4 * c + 3`. */
  function ShiftRows<B>(a: seq<B>): (r: seq<B>)
    requires |a| == 16
    ensures |r| == 16
  {
    [a[0], a[5], a[10], a[15], a[4], a[9], a[14], a[3],
     a[8], a[13], a[2], a[7], a[12], a[1], a[6], a[11]]
  }

  function ShiftRowsInv<B>(a: seq<B>): (r: seq<B>)
    requires |a| == 16
    ensures |r| == 16
  {
    [a[0], a[13], a[10], a[7], a[4], a[1], a[14], a[11],
     a[8], a[5], a[2], a[15], a[12], a[9], a[6], a[3]]
  }

  /** Section 5.1.2 of FIPS 197: byte (row, col) comes from column `col + row`, around. */
  lemma ShiftRowsMeans<B>(a: seq<B>, row: nat, col: nat)
    requires |a| == 16 && row < 4 && col < 4
    ensures ShiftRows(a)[4 * col + row] == a[4 * ((col + row) % 4) + row]
  {
    var to := if col + row < 4 then col + row else col + row - 4;
    assert (col + row) % 4 == to;
    if row == 0 { } else if row == 1 { } else if row == 2 { }
    if col == 0 { } else if col == 1 { } else if col == 2 { }
  }

  lemma ShiftInverse<B>(a: seq<B>)
    requires |a| == 16
    ensures ShiftRowsInv(ShiftRows(a)) == a
  {
  }
}
