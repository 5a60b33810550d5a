/** When a reseeded MT19937 gives the sequence of a new one: the recurrence run backwards. */
module Reseeding {
  import opened MersenneTwister
  import Tempering

  /** The upper bit and the lower bits of a word. */
  function Top(x: bv32): bv32 {
    x & 0x8000_0000
  }

  function Low(x: bv32): bv32 {
    x & 0x7fff_ffff
  }

  function Untwist(z: bv32): bv32 {
    if z & 0x8000_0000 == 0 then z << 1 else ((z ^ 0x9908_b0df) << 1) | 1
  }

  lemma TwistInverse(y: bv32)
    ensures Untwist(Twist(y)) == y
  {
  }

  lemma JoinedParts(a: bv32, b: bv32)
    ensures Top(Joined(a, b)) == Top(a) && Low(Joined(a, b)) == Low(b)
  {
  }

  lemma JoinedSame(a: bv32, b: bv32, c: bv32, d: bv32)
    requires Top(a) == Top(c) && Low(b) == Low(d)
    ensures Joined(a, b) == Joined(c, d)
  {
  }

  lemma XorCancel(m: bv32, x: bv32, y: bv32)
    requires m ^ x == m ^ y
    ensures x == y
  {
  }

  lemma NextTells(a: bv32, b: bv32, m: bv32, c: bv32, d: bv32)
    requires Next(a, b, m) == Next(c, d, m)
    ensures Joined(a, b) == Joined(c, d)
  {
    XorCancel(m, Twist(Joined(a, b)), Twist(Joined(c, d)));
    TwistInverse(Joined(a, b));
    TwistInverse(Joined(c, d));
  }

  lemma NextTellsParts(a: bv32, b: bv32, m: bv32, c: bv32, d: bv32)
    requires Next(a, b, m) == Next(c, d, m)
    ensures Top(a) == Top(c) && Low(b) == Low(d)
  {
    NextTells(a, b, m, c, d);
    JoinedParts(a, b);
    JoinedParts(c, d);
  }

  lemma PartsTellNext(a: bv32, b: bv32, m: bv32, c: bv32, d: bv32)
    requires Top(a) == Top(c) && Low(b) == Low(d)
    ensures Next(a, b, m) == Next(c, d, m)
  {
    JoinedSame(a, b, c, d);
  }

  lemma TopLow(x: bv32, y: bv32)
    requires Top(x) == Top(y) && Low(x) == Low(y)
    ensures x == y
  {
  }

  /** A term can be told from the three it is made of up to the bits that the recurrence does not look at. */
  ghost predicate Reversible(g: Generator, top: bv32 -> bv32, low: bv32 -> bv32) {
    && (forall a, b, m, c, d {:trigger g.next(a, b, m), g.next(c, d, m)} ::
          g.next(a, b, m) == g.next(c, d, m) ==> top(a) == top(c) && low(b) == low(d))
    && (forall a, b, m, c, d {:trigger g.next(a, b, m), g.next(c, d, m)} ::
          top(a) == top(c) && low(b) == low(d) ==> g.next(a, b, m) == g.next(c, d, m))
    && (forall x, y {:trigger top(x), low(y)} :: top(x) == top(y) && low(x) == low(y) ==> x == y)
    && (forall x, y {:trigger g.temper(x), g.temper(y)} :: g.temper(x) == g.temper(y) ==> x == y)
  }

  ghost predicate Agree(g: Generator, w: Words, v: Words, n: nat) {
    Term(g, w, n) == Term(g, v, n)
  }

  ghost predicate SameOutputs(g: Generator, w: Words, v: Words) {
    forall n: nat :: Output(g, w, n) == Output(g, v, n)
  }

  /** The same words, except perhaps for the lower bits of the first. */
  ghost predicate SameStart(w: Words, v: Words, top: bv32 -> bv32) {
    top(w[0]) == top(v[0]) && forall j :: 1 <= j < N ==> w[j] == v[j]
  }

  // ---------------------------------------------------------------- backwards

  /** The terms above `n` agree, and the upper bits of term `n`. */
  ghost predicate AgreeAbove(g: Generator, w: Words, v: Words, top: bv32 -> bv32, n: nat) {
    && top(Term(g, w, n)) == top(Term(g, v, n))
    && forall j: nat {:trigger Agree(g, w, v, j)} :: j > n ==> Agree(g, w, v, j)
  }

  lemma OneBack(g: Generator, w: Words, v: Words, top: bv32 -> bv32, low: bv32 -> bv32, n: nat)
    requires Reversible(g, top, low) && AgreeAbove(g, w, v, top, n + 1)
    ensures AgreeAbove(g, w, v, top, n)
  {
    assert Agree(g, w, v, n + N) && Agree(g, w, v, n + M);
    Unfold(g, w, n);
    Unfold(g, v, n);
    assert Agree(g, w, v, n + 1);
  }

  lemma Unfold(g: Generator, w: Words, n: nat)
    ensures Term(g, w, n + N) == g.next(Term(g, w, n), Term(g, w, n + 1), Term(g, w, n + M))
  {
    assert n + N - N == n && n + N - N + 1 == n + 1 && n + N - N + M == n + M;
  }

  lemma {:induction false} AllBack(g: Generator, w: Words, v: Words, top: bv32 -> bv32, low: bv32 -> bv32, n: nat)
    requires Reversible(g, top, low) && AgreeAbove(g, w, v, top, n)
    ensures AgreeAbove(g, w, v, top, 0)
  {
    if n > 0 {
      OneBack(g, w, v, top, low, n - 1);
      AllBack(g, w, v, top, low, n - 1);
    }
  }

  lemma FirstTerm(g: Generator, w: Words, j: nat)
    requires j < N
    ensures Term(g, w, j) == w[j]
  {
  }

  lemma OutputsTell(g: Generator, w: Words, v: Words, top: bv32 -> bv32, low: bv32 -> bv32)
    requires Reversible(g, top, low) && SameOutputs(g, w, v)
    ensures SameStart(w, v, top)
  {
    forall j: nat | j >= N ensures Agree(g, w, v, j) {
      assert Output(g, w, j - N) == Output(g, v, j - N);
      assert j - N + N == j;
    }
    assert Agree(g, w, v, N);
    AllBack(g, w, v, top, low, N);
    FirstTerm(g, w, 0);
    FirstTerm(g, v, 0);
    forall j | 1 <= j < N ensures w[j] == v[j] {
      assert Agree(g, w, v, j);
      FirstTerm(g, w, j);
      FirstTerm(g, v, j);
    }
  }

  // ----------------------------------------------------------------- forwards

  lemma OneForward(g: Generator, w: Words, v: Words, top: bv32 -> bv32, low: bv32 -> bv32, k: nat)
    requires Reversible(g, top, low) && top(Term(g, w, k)) == top(Term(g, v, k))
    requires Agree(g, w, v, k + 1) && Agree(g, w, v, k + M)
    ensures Agree(g, w, v, k + N)
  {
    Unfold(g, w, k);
    Unfold(g, v, k);
  }

  lemma StartAgrees(g: Generator, w: Words, v: Words, top: bv32 -> bv32, n: nat)
    requires SameStart(w, v, top) && n < N
    ensures top(Term(g, w, n)) == top(Term(g, v, n)) && (n > 0 ==> Agree(g, w, v, n))
  {
    FirstTerm(g, w, n);
    FirstTerm(g, v, n);
  }

  lemma {:induction false} StartTells(g: Generator, w: Words, v: Words, top: bv32 -> bv32, low: bv32 -> bv32, n: nat)
    requires Reversible(g, top, low) && SameStart(w, v, top)
    ensures top(Term(g, w, n)) == top(Term(g, v, n)) && (n > 0 ==> Agree(g, w, v, n))
  {
    if n < N {
      StartAgrees(g, w, v, top, n);
    } else {
      StartTells(g, w, v, top, low, n - N);
      StartTells(g, w, v, top, low, n - N + 1);
      StartTells(g, w, v, top, low, n - N + M);
      OneForward(g, w, v, top, low, n - N);
    }
  }

  /** Two generators give the same outputs if and only if they start from the same words, up to 31 bits. */
  lemma OutputsExact(g: Generator, w: Words, v: Words, top: bv32 -> bv32, low: bv32 -> bv32)
    requires Reversible(g, top, low)
    ensures SameOutputs(g, w, v) <==> SameStart(w, v, top)
  {
    if SameStart(w, v, top) {
      forall n: nat ensures Output(g, w, n) == Output(g, v, n) {
        StartTells(g, w, v, top, low, n + N);
        assert Agree(g, w, v, n + N);
      }
    }
    if SameOutputs(g, w, v) {
      OutputsTell(g, w, v, top, low);
    }
  }

  // ------------------------------------------------------------------ reseeding

  /** Seeding counts: it differs from index to index. */
  ghost predicate Counted(g: Generator) {
    forall x, i: nat, j: nat {:trigger g.seedStep(x, i), g.seedStep(x, j)} ::
      i < N && j < N && g.seedStep(x, i) == g.seedStep(x, j) ==> i == j
  }

  lemma SeededNext(g: Generator, seed: bv32, i: nat, j: nat)
    requires Counted(g) && i < j < N - 1 && Seeded(g, seed, i) == Seeded(g, seed, j)
    ensures Seeded(g, seed, i + 1) != Seeded(g, seed, j + 1)
  {
  }

  /** No other index reads the same words. */
  lemma SeededFromExact(g: Generator, seed: bv32, k: nat, top: bv32 -> bv32)
    requires Counted(g) && k < N
    ensures SameStart(SeededFrom(g, seed, k), SeededFrom(g, seed, 0), top) <==> k == 0
  {
    if k > 0 && SameStart(SeededFrom(g, seed, k), SeededFrom(g, seed, 0), top) {
      SeededDiffers(g, seed, k, SeededFrom(g, seed, k), SeededFrom(g, seed, 0));
      assert false;
    }
  }

  lemma SeededDiffers(g: Generator, seed: bv32, k: nat, w: Words, v: Words)
    requires Counted(g) && 0 < k < N && w == SeededFrom(g, seed, k) && v == SeededFrom(g, seed, 0)
    ensures exists j :: 1 <= j < N && w[j] != v[j]
  {
    if k == 1 {
      assert w[1] == Seeded(g, seed, 2) && v[1] == Seeded(g, seed, 1);
      assert w[2] == Seeded(g, seed, 3) && v[2] == Seeded(g, seed, 2);
      if w[1] == v[1] { SeededNext(g, seed, 1, 2); }
    } else {
      var d := N - k;
      assert w[d] == Seeded(g, seed, 0) && v[d] == Seeded(g, seed, d);
      assert w[d + 1] == Seeded(g, seed, 1) && v[d + 1] == Seeded(g, seed, d + 1);
      if w[d] == v[d] { SeededNext(g, seed, 0, d); }
    }
  }

  lemma BitsOf(i: nat)
    requires i < N
    ensures ((i % 0x1_0000_0000) as bv32) as nat == i
  {
  }

  lemma IndexTells(i: nat, j: nat)
    requires i < N && j < N && Index(i) == Index(j)
    ensures i == j
  {
    BitsOf(i);
    BitsOf(j);
  }

  ghost predicate CancelsAt(plus: (bv32, bv32) -> bv32, a: bv32, b: bv32, c: bv32) {
    plus(a, b) == plus(a, c) ==> b == c
  }

  ghost predicate Cancels(plus: (bv32, bv32) -> bv32) {
    forall a, b, c {:trigger CancelsAt(plus, a, b, c)} :: CancelsAt(plus, a, b, c)
  }

  ghost predicate Tells(index: nat -> bv32) {
    forall i: nat, j: nat {:trigger index(i), index(j)} :: i < N && j < N && index(i) == index(j) ==> i == j
  }

  lemma StepCounted(g: Generator, plus: (bv32, bv32) -> bv32, spread: bv32 -> bv32, index: nat -> bv32)
    requires g.seedStep == SeedStep(plus, spread, index) && Cancels(plus) && Tells(index)
    ensures Counted(g)
  {
    forall x, i: nat, j: nat | i < N && j < N && g.seedStep(x, i) == g.seedStep(x, j) ensures i == j {
      assert CancelsAt(plus, spread(x), index(i), index(j));
    }
  }

  function Minus(a: bv32, b: bv32): bv32 {
    a - b
  }

  lemma SumLess(a: bv32, b: bv32)
    ensures Minus(a + b, a) == b
  {
  }

  lemma PlusLess(a: bv32, b: bv32)
    ensures Minus(Plus(a, b), a) == b
  {
    SumLess(a, b);
  }

  lemma PlusCancels()
    ensures Cancels(Plus)
  {
    forall a, b, c ensures CancelsAt(Plus, a, b, c) {
      PlusLess(a, b);
      PlusLess(a, c);
    }
  }

  lemma IndexesTell()
    ensures Tells(Index)
  {
    forall i: nat, j: nat | i < N && j < N && Index(i) == Index(j) ensures i == j { IndexTells(i, j); }
  }

  lemma MtCounted()
    ensures Counted(Mt())
  {
    PlusCancels();
    IndexesTell();
    StepCounted(Mt(), Plus, Spread, Index);
  }

  lemma MtReversible()
    ensures Reversible(Mt(), Top, Low)
  {
    var g := Mt();
    forall a, b, m, c, d | g.next(a, b, m) == g.next(c, d, m) ensures Top(a) == Top(c) && Low(b) == Low(d) {
      NextTellsParts(a, b, m, c, d);
    }
    forall a, b, m, c, d | Top(a) == Top(c) && Low(b) == Low(d) ensures g.next(a, b, m) == g.next(c, d, m) {
      PartsTellNext(a, b, m, c, d);
    }
    forall x, y | Top(x) == Top(y) && Low(x) == Low(y) ensures x == y { TopLow(x, y); }
    forall x, y | g.temper(x) == g.temper(y) ensures x == y {
      Tempering.TemperBijection(x);
      Tempering.TemperBijection(y);
    }
  }

  /** A reseeded generator gives the outputs of a new one if and only if its index is at the front. */
  lemma ReseedExact(seed: bv32, k: nat)
    requires k < N
    ensures SameOutputs(Mt(), SeededFrom(Mt(), seed, k), SeededFrom(Mt(), seed, 0)) <==> k == 0
  {
    MtCounted();
    MtReversible();
    OutputsExact(Mt(), SeededFrom(Mt(), seed, k), SeededFrom(Mt(), seed, 0), Top, Low);
    SeededFromExact(Mt(), seed, k, Top);
  }
}
