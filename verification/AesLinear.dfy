/** Sums of linear byte functions, and the products that the mixing matrices need. */
module AesLinear {
  import opened AesRounds

  /** The sum of two bytes: exclusive or. */
  function Add(a: bv8, b: bv8): bv8 {
    a ^ b
  }

  /** The sum of four bytes. */
  function Total(a: bv8, b: bv8, c: bv8, d: bv8): bv8 {
    Add(Add(a, b), Add(c, d))
  }

  lemma AddLaws(a: bv8, b: bv8, c: bv8)
    ensures Add(a, b) == Add(b, a) && Add(Add(a, b), c) == Add(a, Add(b, c))
  {
  }

  lemma AddCancels(a: bv8, b: bv8)
    ensures Add(Add(a, b), b) == a && Add(a, 0) == a
  {
  }

  lemma SwapInner(a: bv8, b: bv8, c: bv8, d: bv8)
    ensures Add(Add(a, b), Add(c, d)) == Add(Add(a, c), Add(b, d))
  {
    AddLaws(a, b, Add(c, d));
    AddLaws(b, c, d);
    AddLaws(c, b, d);
    AddLaws(a, c, Add(b, d));
  }

  ghost predicate AddAt(f: bv8 -> bv8, x: bv8, y: bv8) {
    f(Add(x, y)) == Add(f(x), f(y))
  }

  ghost predicate Additive(f: bv8 -> bv8) {
    forall x, y {:trigger AddAt(f, x, y)} :: AddAt(f, x, y)
  }

  /** `h` is the sum of `f` and `g`. */
  ghost predicate PlusAt(h: bv8 -> bv8, f: bv8 -> bv8, g: bv8 -> bv8, x: bv8) {
    h(x) == Add(f(x), g(x))
  }

  ghost predicate Plus(h: bv8 -> bv8, f: bv8 -> bv8, g: bv8 -> bv8) {
    forall x {:trigger PlusAt(h, f, g, x)} :: PlusAt(h, f, g, x)
  }

  lemma PlusAdditive(h: bv8 -> bv8, f: bv8 -> bv8, g: bv8 -> bv8)
    requires Plus(h, f, g) && Additive(f) && Additive(g)
    ensures Additive(h)
  {
    forall x, y ensures AddAt(h, x, y) {
      assert PlusAt(h, f, g, x) && PlusAt(h, f, g, y) && PlusAt(h, f, g, Add(x, y));
      assert AddAt(f, x, y) && AddAt(g, x, y);
      SwapInner(f(x), g(x), f(y), g(y));
    }
  }

  lemma AdditiveLinear(o: Ops<bv8>, f: bv8 -> bv8)
    requires o.add == Add && Additive(f)
    ensures Linear(o, f)
  {
    forall a, b, c, d ensures LinearAt(o, f, a, b, c, d) {
      assert AddAt(f, Add(a, b), Add(c, d)) && AddAt(f, a, b) && AddAt(f, c, d);
    }
  }

  /** Multiplication by 1, 2, 4, 8 and their sums 10 and 12. */
  datatype Powers = Powers(
    one: bv8 -> bv8, two: bv8 -> bv8, four: bv8 -> bv8, eight: bv8 -> bv8, ten: bv8 -> bv8, twelve: bv8 -> bv8)

  ghost predicate PowersAt(p: Powers, x: bv8) {
    p.one(x) == x && p.four(x) == p.two(p.two(x)) && p.eight(x) == p.four(p.two(x))
  }

  /** The tables are sums of multiplications by powers of x. */
  ghost predicate Built(o: Ops<bv8>, p: Powers) {
    && o.add == Add && o.zero == 0
    && Additive(p.one) && Additive(p.two) && Additive(p.four) && Additive(p.eight)
    && (forall x {:trigger PowersAt(p, x)} :: PowersAt(p, x))
    && Plus(p.ten, p.eight, p.two) && Plus(p.twelve, p.eight, p.four)
    && o.mul2 == p.two && Plus(o.mul3, p.two, p.one) && Plus(o.mul9, p.eight, p.one)
    && Plus(o.mul11, p.ten, p.one) && Plus(o.mul13, p.twelve, p.one) && Plus(o.mul14, p.twelve, p.two)
  }

  lemma BuiltAdditive(o: Ops<bv8>, p: Powers)
    requires Built(o, p)
    ensures Additive(o.mul9) && Additive(o.mul11) && Additive(o.mul13) && Additive(o.mul14)
  {
    PlusAdditive(p.ten, p.eight, p.two);
    PlusAdditive(p.twelve, p.eight, p.four);
    PlusAdditive(o.mul9, p.eight, p.one);
    PlusAdditive(o.mul11, p.ten, p.one);
    PlusAdditive(o.mul13, p.twelve, p.one);
    PlusAdditive(o.mul14, p.twelve, p.two);
  }

  lemma Three(a: bv8, b: bv8, c: bv8)
    ensures Add(Add(a, b), c) == a ^ b ^ c
  {
  }

  /** The products of `x` by 1, 2, 4 and 8 that make up the tables' entries. */
  lemma Entries(o: Ops<bv8>, p: Powers, x: bv8, x2: bv8, x4: bv8, x8: bv8)
    requires Built(o, p) && x2 == p.two(x) && x4 == p.four(x) && x8 == p.eight(x)
    ensures o.mul9(x) == x8 ^ x && o.mul11(x) == x8 ^ x2 ^ x
    ensures o.mul13(x) == x8 ^ x4 ^ x && o.mul14(x) == x8 ^ x4 ^ x2
  {
    assert PowersAt(p, x) && PlusAt(p.ten, p.eight, p.two, x) && PlusAt(p.twelve, p.eight, p.four, x);
    assert PlusAt(o.mul9, p.eight, p.one, x) && PlusAt(o.mul11, p.ten, p.one, x);
    assert PlusAt(o.mul13, p.twelve, p.one, x) && PlusAt(o.mul14, p.twelve, p.two, x);
    Three(x8, x2, x);
    Three(x8, x4, x);
    Three(x8, x4, x2);
  }

  /** Three times `x` is twice `x` and `x`. */
  lemma Threefold(o: Ops<bv8>, p: Powers, x: bv8)
    requires Built(o, p)
    ensures o.mul9(o.mul3(x)) == Add(o.mul9(p.two(x)), o.mul9(x))
      && o.mul11(o.mul3(x)) == Add(o.mul11(p.two(x)), o.mul11(x))
    ensures o.mul13(o.mul3(x)) == Add(o.mul13(p.two(x)), o.mul13(x))
      && o.mul14(o.mul3(x)) == Add(o.mul14(p.two(x)), o.mul14(x))
  {
    var x2 := p.two(x);
    assert PowersAt(p, x) && PlusAt(o.mul3, p.two, p.one, x);
    BuiltAdditive(o, p);
    assert AddAt(o.mul9, x2, x) && AddAt(o.mul11, x2, x) && AddAt(o.mul13, x2, x) && AddAt(o.mul14, x2, x);
  }

  // The four entries of a column of the product matrix: `p` to `s` are the products by 9, 11, 13 and 14, of
  // `x`, of `2 * x` or of both.

  lemma CancelFirst(x1: bv8, x2: bv8, x4: bv8, x8: bv8, x16: bv8, p: bv8, p': bv8, q: bv8, r: bv8, s: bv8)
    requires p == x16 ^ x2 && p' == x8 ^ x1 && q == x8 ^ x2 ^ x1 && r == x8 ^ x4 ^ x1 && s == x16 ^ x8 ^ x4
    ensures Total(Add(p, p'), q, r, s) == x1
  {
  }

  lemma CancelSecond(x1: bv8, x2: bv8, x4: bv8, x8: bv8, x16: bv8, p: bv8, q: bv8, r: bv8, s: bv8, s': bv8)
    requires p == x8 ^ x1 && q == x16 ^ x4 ^ x2 && r == x8 ^ x4 ^ x1 && s == x16 ^ x8 ^ x4 && s' == x8 ^ x4 ^ x2
    ensures Total(p, q, r, Add(s, s')) == 0
  {
  }

  lemma CancelThird(x1: bv8, x2: bv8, x4: bv8, x8: bv8, x16: bv8, p: bv8, q: bv8, q': bv8, r: bv8, s: bv8)
    requires p == x8 ^ x1 && q == x16 ^ x4 ^ x2 && q' == x8 ^ x2 ^ x1 && r == x16 ^ x8 ^ x2 && s == x8 ^ x4 ^ x2
    ensures Total(p, Add(q, q'), r, s) == 0
  {
  }

  lemma CancelFourth(x1: bv8, x2: bv8, x4: bv8, x8: bv8, x16: bv8, p: bv8, q: bv8, r: bv8, r': bv8, s: bv8)
    requires p == x16 ^ x2 && q == x8 ^ x2 ^ x1 && r == x16 ^ x8 ^ x2 && r' == x8 ^ x4 ^ x1 && s == x8 ^ x4 ^ x2
    ensures Total(p, q, Add(r, r'), s) == 0
  {
  }

  lemma BuiltCirculant(o: Ops<bv8>, p: Powers, x: bv8)
    requires Built(o, p)
    ensures Circulant(o, x)
  {
    var x2, x4, x8 := p.two(x), p.four(x), p.eight(x);
    var x16 := p.eight(x2);
    assert PowersAt(p, x) && PowersAt(p, x2);
    Entries(o, p, x, x2, x4, x8);
    Entries(o, p, x2, x4, x8, x16);
    Threefold(o, p, x);
    CancelFirst(x, x2, x4, x8, x16, o.mul9(x2), o.mul9(x), o.mul11(x), o.mul13(x), o.mul14(x2));
    CancelSecond(x, x2, x4, x8, x16, o.mul9(x), o.mul11(x2), o.mul13(x), o.mul14(x2), o.mul14(x));
    CancelThird(x, x2, x4, x8, x16, o.mul9(x), o.mul11(x2), o.mul11(x), o.mul13(x2), o.mul14(x));
    CancelFourth(x, x2, x4, x8, x16, o.mul9(x2), o.mul11(x), o.mul13(x2), o.mul13(x), o.mul14(x));
  }

  lemma BuiltLawful(o: Ops<bv8>, p: Powers)
    requires Built(o, p) && forall x {:trigger SboxAt(o, x)} :: SboxAt(o, x)
    ensures Lawful(o)
  {
    BuiltAdditive(o, p);
    AdditiveLinear(o, o.mul9);
    AdditiveLinear(o, o.mul11);
    AdditiveLinear(o, o.mul13);
    AdditiveLinear(o, o.mul14);
    forall x ensures Circulant(o, x) { BuiltCirculant(o, p, x); }
    forall a, b, c ensures AddLaw(o, a, b, c) {
      AddLaws(a, b, c);
      AddCancels(a, b);
    }
  }
}
