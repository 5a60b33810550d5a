/** What the lookup tables of AES stand for: arithmetic in GF(2^8), section 4 of FIPS 197. */
module AesTables {
  import opened AesRounds
  import opened AesLinear
  import opened AesData

  // ------------------------------------------------------- multiplication by powers of x

  /** `t` times the low part of the reduction polynomial, for `t` of few bits. */
  function Reduced(t: bv8): bv8 {
    t ^ (t << 1) ^ (t << 3) ^ (t << 4)
  }

  /** Multiplication by x: `xtime` of section 4.2. */
  function Times2(x: bv8): bv8 {
    (x << 1) ^ Reduced(x >> 7)
  }

  function Times4(x: bv8): bv8 {
    (x << 2) ^ Reduced(x >> 6)
  }

  function Times8(x: bv8): bv8 {
    (x << 3) ^ Reduced(x >> 5)
  }

  function Times10(x: bv8): bv8 {
    Times8(x) ^ Times2(x)
  }

  function Times12(x: bv8): bv8 {
    Times8(x) ^ Times4(x)
  }

  /** Shift, and reduce by the polynomial x^8 + x^4 + x^3 + x + 1. */
  lemma Times2Means(x: bv8)
    ensures Times2(x) == if x & 0x80 == 0 then x << 1 else (x << 1) ^ 0x1b
  {
  }

  lemma TimesMean(x: bv8)
    ensures Times4(x) == Times2(Times2(x)) && Times8(x) == Times4(Times2(x)) && Times8(x) == Times2(Times4(x))
  {
  }

  lemma Times2Xor(x: bv8, y: bv8)
    ensures Times2(x ^ y) == Times2(x) ^ Times2(y)
  {
  }

  lemma TwiceAdditive(h: bv8 -> bv8, f: bv8 -> bv8, g: bv8 -> bv8)
    requires Additive(f) && Additive(g) && forall x :: h(x) == f(g(x))
    ensures Additive(h)
  {
    forall x, y ensures AddAt(h, x, y) { assert AddAt(g, x, y) && AddAt(f, g(x), g(y)); }
  }

  // ------------------------------------------------------------- what the tables hold

  lemma Mul2Means(x: bv8)
    ensures Mul2(x) == Times2(x)
  {
  }

  lemma Mul3Means(x: bv8)
    ensures Mul3(x) == Times2(x) ^ x
  {
  }

  lemma Mul9Means(x: bv8)
    ensures Mul9(x) == Times8(x) ^ x
  {
  }

  predicate Entry11(x: bv8) {
    Mul11(x) == Times8(x) ^ Times2(x) ^ x
  }

  lemma Mul11Means(x: bv8)
    ensures Entry11(x)
  {
  }

  predicate Entry13(x: bv8) {
    Mul13(x) == Times8(x) ^ Times4(x) ^ x
  }

  lemma Mul13Means(x: bv8)
    ensures Entry13(x)
  {
  }

  predicate Entry14(x: bv8) {
    Mul14(x) == Times8(x) ^ Times4(x) ^ Times2(x)
  }

  lemma Mul14Means(x: bv8)
    ensures Entry14(x)
  {
  }

  lemma SboxInverse(x: bv8)
    ensures SboxInv(Sbox(x)) == x
  {
  }

  lemma RcMeans(i: nat)
    requires i < 15
    ensures Rc(i) == if i == 0 then 1 else Times2(Rc(i - 1))
  {
  }

  // --------------------------------------------------- the substitution box, section 5.1.1

  function Rotate(x: bv8, k: bv8): bv8
    requires k <= 8
  {
    (x << k) | (x >> (8 - k))
  }

  function Affine(y: bv8): bv8 {
    y ^ Rotate(y, 1) ^ Rotate(y, 2) ^ Rotate(y, 3) ^ Rotate(y, 4) ^ 0x63
  }

  /** The byte that the affine map takes to `z`. */
  function Unaffine(z: bv8): bv8 {
    Rotate(z, 1) ^ Rotate(z, 3) ^ Rotate(z, 6) ^ 0x05
  }

  lemma AffineInverse(z: bv8)
    ensures Affine(Unaffine(z)) == z
  {
  }

  function IfBit(y: bv8, bit: bv8, x: bv8): bv8 {
    if y & bit == 0 then 0 else x
  }

  /** The product of two bytes, section 4.2: the sum of `x` times each power of x that is in `y`. */
  function Product(x: bv8, y: bv8): bv8 {
    IfBit(y, 1, x) ^ IfBit(y, 2, Times2(x)) ^ IfBit(y, 4, Times4(x)) ^ IfBit(y, 8, Times8(x))
      ^ IfBit(y, 16, Times8(Times2(x))) ^ IfBit(y, 32, Times8(Times4(x))) ^ IfBit(y, 64, Times8(Times8(x)))
      ^ IfBit(y, 128, Times8(Times8(Times2(x))))
  }

  lemma ProductOfTwo(x: bv8)
    ensures Product(2, x) == Times2(x)
  {
  }

  lemma ProductOfThree(x: bv8)
    ensures Product(3, x) == Times2(x) ^ x
  {
  }

  /** The entry of `x` stands for the inverse of `x`. */
  predicate Inverse(x: bv8) {
    Product(x, Unaffine(Sbox(x))) == 1
  }

  lemma SboxInverts(x: bv8)
    requires x != 0
    ensures Inverse(x)
  {
  }

  /** Every entry is the affine image of the inverse of its index, and that of 0 the image of 0. */
  lemma SboxMeans(x: bv8)
    ensures Sbox(x) == Affine(Unaffine(Sbox(x))) && Unaffine(Sbox(0)) == 0
    ensures x != 0 ==> Inverse(x)
  {
    AffineInverse(Sbox(x));
    if x != 0 { SboxInverts(x); }
  }

  // ------------------------------------------------------------------------ laws

  function Tables(): Ops<bv8> {
    Ops(Add, 0, Sbox, SboxInv, Mul2, Mul3, Mul9, Mul11, Mul13, Mul14)
  }

  /** The tables with multiplication by 2 written out. */
  function Worked(): Ops<bv8> {
    Ops(Add, 0, Sbox, SboxInv, Times2, Mul3, Mul9, Mul11, Mul13, Mul14)
  }

  function One(x: bv8): bv8 {
    x
  }

  function PowersOfX(): Powers {
    Powers(One, Times2, Times4, Times8, Times10, Times12)
  }

  lemma Times2Additive()
    ensures Additive(Times2)
  {
    forall x, y ensures AddAt(Times2, x, y) { Times2Xor(x, y); }
  }

  lemma PowersAdditive()
    ensures Additive(One) && Additive(Times2) && Additive(Times4) && Additive(Times8)
  {
    forall x, y ensures AddAt(One, x, y) {}
    Times2Additive();
    forall x ensures Times4(x) == Times2(Times2(x)) { TimesMean(x); }
    TwiceAdditive(Times4, Times2, Times2);
    forall x ensures Times8(x) == Times4(Times2(x)) { TimesMean(x); }
    TwiceAdditive(Times8, Times4, Times2);
  }

  lemma Mul11Plus(x: bv8)
    ensures PlusAt(Mul11, Times10, One, x)
  {
    Mul11Means(x);
    Three(Times8(x), Times2(x), x);
  }

  lemma Mul13Plus(x: bv8)
    ensures PlusAt(Mul13, Times12, One, x)
  {
    Mul13Means(x);
    Three(Times8(x), Times4(x), x);
  }

  lemma Mul14Plus(x: bv8)
    ensures PlusAt(Mul14, Times12, Times2, x)
  {
    Mul14Means(x);
    Three(Times8(x), Times4(x), Times2(x));
  }

  lemma SumsOfPowers()
    ensures Plus(Times10, Times8, Times2) && Plus(Times12, Times8, Times4) && Plus(Mul3, Times2, One)
    ensures Plus(Mul9, Times8, One) && Plus(Mul11, Times10, One)
    ensures Plus(Mul13, Times12, One) && Plus(Mul14, Times12, Times2)
  {
    forall x ensures PlusAt(Times10, Times8, Times2, x) {}
    forall x ensures PlusAt(Times12, Times8, Times4, x) {}
    forall x ensures PlusAt(Mul3, Times2, One, x) { Mul3Means(x); }
    forall x ensures PlusAt(Mul9, Times8, One, x) { Mul9Means(x); }
    forall x ensures PlusAt(Mul11, Times10, One, x) { Mul11Plus(x); }
    forall x ensures PlusAt(Mul13, Times12, One, x) { Mul13Plus(x); }
    forall x ensures PlusAt(Mul14, Times12, Times2, x) { Mul14Plus(x); }
  }

  lemma WorkedLawful()
    ensures Lawful(Worked())
  {
    PowersAdditive();
    SumsOfPowers();
    forall x ensures PowersAt(PowersOfX(), x) { TimesMean(x); }
    forall x ensures SboxAt(Worked(), x) { SboxInverse(x); }
    BuiltLawful(Worked(), PowersOfX());
  }

  /** The tables of the source obey the laws that decryption needs. */
  lemma TablesLawful()
    ensures Lawful(Tables())
  {
    WorkedLawful();
    forall a, b, c ensures AddLaw(Tables(), a, b, c) { assert AddLaw(Worked(), a, b, c); }
    forall f | Linear(Worked(), f) ensures Linear(Tables(), f) {
      forall a, b, c, d ensures LinearAt(Tables(), f, a, b, c, d) { assert LinearAt(Worked(), f, a, b, c, d); }
    }
    forall x ensures Circulant(Tables(), x) {
      Mul2Means(x);
      assert Circulant(Worked(), x);
    }
    forall x ensures SboxAt(Tables(), x) { SboxInverse(x); }
  }
}
