/** MT19937 one word at a time: a circular array that always holds a window of the infinite recurrence. */
module MersenneTwister {
  import Tempering

  const N: nat := 624
  const M: nat := 397

  /** The three word functions: of seeding, of the recurrence and of tempering. */
  datatype Generator = Generator(
    seedStep: (bv32, nat) -> bv32, next: (bv32, bv32, bv32) -> bv32, temper: bv32 -> bv32)

  function Spread(seed: bv32): bv32 {
    1812433253 * (seed ^ (seed >> 30))
  }

  /** `i as u32`. */
  function Index(i: nat): bv32 {
    (i % 0x1_0000_0000) as bv32
  }

  function Plus(a: bv32, b: bv32): bv32 {
    a + b
  }

  /** One step of seeding. */
  function SeedStep(plus: (bv32, bv32) -> bv32, spread: bv32 -> bv32, index: nat -> bv32): (bv32, nat) -> bv32 {
    (seed: bv32, i: nat) => plus(spread(seed), index(i))
  }

  /** The upper bit of `a` and the lower bits of `b`. */
  function Joined(a: bv32, b: bv32): bv32 {
    (a & 0x8000_0000) | (b & 0x7fff_ffff)
  }

  /** Times the matrix of the recurrence. */
  function Twist(y: bv32): bv32 {
    if y & 1 == 1 then (y >> 1) ^ 0x9908_b0df else y >> 1
  }

  function Next(a: bv32, b: bv32, m: bv32): bv32 {
    m ^ Twist(Joined(a, b))
  }

  /** The generator of the source; what is proved below of every generator holds of it. */
  function Mt(): Generator {
    Generator(SeedStep(Plus, Spread, Index), Next, Tempering.Temper)
  }

  // ----------------------------------------------------------------- the recurrence

  function Seeded(g: Generator, seed: bv32, i: nat): bv32 {
    if i == 0 then seed else g.seedStep(Seeded(g, seed, i - 1), i)
  }

  type Words = s: seq<bv32> | |s| == N witness seq(N, _ => 0)

  /** Term `n` of the sequence whose first 624 terms are `words`. */
  function Term(g: Generator, words: Words, n: nat): bv32 {
    if n < N then words[n]
    else g.next(Term(g, words, n - N), Term(g, words, n - N + 1), Term(g, words, n - N + M))
  }

  /** Output `n`. */
  function Output(g: Generator, words: Words, n: nat): bv32 {
    g.temper(Term(g, words, n + N))
  }

  /** Around the array. */
  function Wrap(i: nat): nat {
    if i < N then i else i - N
  }

  lemma WrapMeans(i: nat)
    requires i < 2 * N
    ensures i % N == Wrap(i) < N
  {
  }

  ghost predicate HoldsAt(g: Generator, words: Words, n: nat, state: seq<bv32>, k: nat, j: nat) {
    |state| == N && k < N && j < N ==> state[Wrap(k + j)] == Term(g, words, n + j)
  }

  /** From index `k` around, the array holds terms `n` to `n + 623`. */
  ghost predicate Window(g: Generator, words: Words, n: nat, state: seq<bv32>, k: nat) {
    |state| == N && k < N && forall j: nat {:trigger HoldsAt(g, words, n, state, k, j)} ::
      HoldsAt(g, words, n, state, k, j)
  }

  /** Overwriting the oldest term by the next moves the window on. */
  lemma WindowNext(g: Generator, words: Words, n: nat, state: seq<bv32>, k: nat)
    requires Window(g, words, n, state, k)
    ensures Window(g, words, n + 1, state[k := Term(g, words, n + N)], Wrap(k + 1))
  {
    var state', n', k' := state[k := Term(g, words, n + N)], n + 1, Wrap(k + 1);
    forall j: nat ensures HoldsAt(g, words, n', state', k', j) {
      if j < N - 1 {
        assert HoldsAt(g, words, n, state, k, j + 1);
        assert n + 1 + j == n + (j + 1);
      }
    }
  }

  /** The seeded words, read around the array from index `k`. */
  function SeededFrom(g: Generator, seed: bv32, k: nat): (words: Words)
    requires k < N
    ensures forall j :: 0 <= j < N ==> words[j] == Seeded(g, seed, Wrap(k + j))
  {
    seq(N, j requires 0 <= j < N => Seeded(g, seed, Wrap(k + j)))
  }

  lemma WindowStart(g: Generator, seed: bv32, state: seq<bv32>, k: nat)
    requires |state| == N && k < N && forall i :: 0 <= i < N ==> state[i] == Seeded(g, seed, i)
    ensures Window(g, SeededFrom(g, seed, k), 0, state, k)
  {
    var words := SeededFrom(g, seed, k);
    forall j: nat ensures HoldsAt(g, words, 0, state, k, j) {}
  }

  // -------------------------------------------------------------- known words and outputs

  lemma IndexMeans(i: nat)
    requires i < 0x1_0000_0000
    ensures Index(i) == i as bv32
  {
    assert i % 0x1_0000_0000 == i;
  }

  lemma SpreadExample()
    ensures Plus(Spread(5489), 1) == 1301868182 && Plus(Spread(1301868182), 2) == 2938499221
    ensures Plus(Spread(2938499221), 3) == 2950281878
  {
  }

  lemma SeedStepMeans(seed: bv32, i: nat, index: bv32)
    requires i < 0x1_0000_0000 && index == i as bv32
    ensures Mt().seedStep(seed, i) == Plus(Spread(seed), index)
  {
    IndexMeans(i);
  }

  /** The first words seeded from 5489, the seed that MT19937 is known by. */
  lemma SeedExample()
    ensures Mt().seedStep(5489, 1) == 1301868182
    ensures Mt().seedStep(1301868182, 2) == 2938499221
    ensures Mt().seedStep(2938499221, 3) == 2950281878
  {
    SpreadExample();
    SeedStepMeans(5489, 1, 1);
    SeedStepMeans(1301868182, 2, 2);
    SeedStepMeans(2938499221, 3, 3);
  }

  lemma NextExample()
    ensures Next(5489, 1301868182, 3183906156) == 2601187879
    ensures Next(1301868182, 2938499221, 1728556020) == 3919438689
    ensures Next(2938499221, 2950281878, 3502241336) == 2270374771
  {
  }

  lemma TermStep(g: Generator, words: Words, n: nat)
    requires n < 227
    ensures Output(g, words, n) == g.temper(g.next(words[n], words[n + 1], words[n + 397]))
  {
    var a, b, c := Term(g, words, n), Term(g, words, n + 1), Term(g, words, n + 397);
    assert a == words[n] && b == words[n + 1] && c == words[n + 397];
    assert Term(g, words, n + N) == g.next(a, b, c);
  }

  /** And the first outputs: 3499211612, 581869302, 3890346734. */
  lemma OutputExample(words: Words)
    requires words[0] == 5489 && words[1] == 1301868182 && words[2] == 2938499221 && words[3] == 2950281878
    requires words[397] == 3183906156 && words[398] == 1728556020 && words[399] == 3502241336
    ensures Output(Mt(), words, 0) == 3499211612
    ensures Output(Mt(), words, 1) == 581869302
    ensures Output(Mt(), words, 2) == 3890346734
  {
    TermStep(Mt(), words, 0);
    TermStep(Mt(), words, 1);
    TermStep(Mt(), words, 2);
    NextExample();
    Tempering.TemperExample();
  }

  type Four = s: seq<bv8> | |s| == 4 witness [0, 0, 0, 0]

  /** `u32::to_be_bytes`. */
  function BigEndian(w: bv32): Four {
    [(w >> 24) as bv8, ((w >> 16) & 0xff) as bv8, ((w >> 8) & 0xff) as bv8, (w & 0xff) as bv8]
  }

  /** The word is the sum of its bytes, each in its place. */
  lemma BigEndianMeans(w: bv32)
    ensures var b := BigEndian(w);
      w == ((b[0] as bv32) << 24) | ((b[1] as bv32) << 16) | ((b[2] as bv32) << 8) | (b[3] as bv32)
  {
  }

  /** Byte `p` of the buffer is byte `p % 4` of output `first + p / 4`. */
  ghost predicate FilledAt(g: Generator, bytes: bv32 -> Four, words: Words, first: nat, buf: seq<bv8>, p: nat) {
    p < |buf| ==> buf[p] == bytes(Output(g, words, first + p / 4))[p % 4]
  }

  ghost predicate Filled(g: Generator, bytes: bv32 -> Four, words: Words, first: nat, buf: seq<bv8>, n: nat) {
    forall p: nat {:trigger FilledAt(g, bytes, words, first, buf, p)} :: p < n ==>
      FilledAt(g, bytes, words, first, buf, p)
  }

  /** Up to four more bytes, from one more output. */
  lemma FillMore(g: Generator, bytes: bv32 -> Four, words: Words, first: nat, buf: seq<bv8>, ptr: nat, word: bv32,
      buf': seq<bv8>)
    requires ptr % 4 == 0 && Filled(g, bytes, words, first, buf, ptr) && word == Output(g, words, first + ptr / 4)
    requires |buf'| == |buf| && ptr < |buf| && buf'[..ptr] == buf[..ptr]
    requires forall j :: 0 <= j < 4 && ptr + j < |buf| ==> buf'[ptr + j] == bytes(word)[j]
    ensures Filled(g, bytes, words, first, buf', ptr + 4)
  {
    forall p: nat | p < ptr + 4 ensures FilledAt(g, bytes, words, first, buf', p) {
      if p < ptr {
        assert FilledAt(g, bytes, words, first, buf, p);
        assert buf'[..ptr][p] == buf[..ptr][p];
      } else if p < |buf| {
        var j := p - ptr;
        assert buf'[ptr + j] == bytes(word)[j] && p / 4 == ptr / 4 && p % 4 == j;
      }
    }
  }

  // --------------------------------------------------------------------- generator

  class MT19937 {
    const g: Generator
    const stateArray: array<bv32>
    var stateIndex: nat
    /** The words that the sequence starts from. */
    ghost var start: Words
    /** How many words have been drawn. */
    ghost var drawn: nat

    ghost predicate Valid()
      reads this, stateArray
    {
      stateArray.Length == N && Window(g, start, drawn, stateArray[..], stateIndex)
    }

    constructor (g: Generator, seed: bv32)
      ensures Valid() && fresh(stateArray) && this.g == g && start == SeededFrom(g, seed, 0) && drawn == 0
    {
      this.g := g;
      stateArray := new bv32[N];
      stateIndex := 0;
      start, drawn := SeededFrom(g, seed, 0), 0;
      new;
      Seed(seed);
      WindowStart(g, seed, stateArray[..], 0);
    }

    /** Fill the array from a seed; the index stays where it is. */
    method Seed(seed: bv32)
      requires stateArray.Length == N
      modifies stateArray
      ensures forall i :: 0 <= i < N ==> stateArray[i] == Seeded(g, seed, i)
    {
      var word := seed;
      stateArray[0] := seed;
      for i := 1 to N
        invariant word == Seeded(g, seed, i - 1)
        invariant forall j :: 0 <= j < i ==> stateArray[j] == Seeded(g, seed, j)
      {
        word := g.seedStep(word, i);
        stateArray[i] := word;
      }
    }

    method RandomUint32() returns (r: bv32)
      requires Valid()
      modifies stateArray, `stateIndex, `drawn
      ensures Valid() && drawn == old(drawn) + 1 && r == Output(g, start, old(drawn))
    {
      var k := stateIndex;
      WrapMeans(k + 1);
      WrapMeans(k + M);
      assert HoldsAt(g, start, drawn, stateArray[..], k, 0);
      assert HoldsAt(g, start, drawn, stateArray[..], k, 1);
      assert HoldsAt(g, start, drawn, stateArray[..], k, M);
      var y := g.next(stateArray[k], stateArray[(k + 1) % N], stateArray[(k + M) % N]);
      assert y == Term(g, start, drawn + N);
      WindowNext(g, start, drawn, stateArray[..], k);
      ghost var before := stateArray[..];
      stateArray[k] := y;
      assert stateArray[..] == before[k := y];
      stateIndex := (k + 1) % N;
      drawn := drawn + 1;
      r := g.temper(y);
    }

    /** A new seed starts the sequence over, but from the word that the index points at. */
    method Reseed(seed: bv32)
      requires Valid()
      modifies stateArray, `start, `drawn
      ensures Valid() && drawn == 0 && stateIndex == old(stateIndex) < N && start == SeededFrom(g, seed, stateIndex)
    {
      Seed(seed);
      start, drawn := SeededFrom(g, seed, stateIndex), 0;
      WindowStart(g, seed, stateArray[..], stateIndex);
    }

    /** Copy a word's bytes, as far as the buffer goes. */
    method PutWord(bytes: bv32 -> Four, word: bv32, buf: array<bv8>, ptr: nat)
      requires ptr < buf.Length
      modifies buf
      ensures buf[..ptr] == old(buf[..ptr])
      ensures forall j :: 0 <= j < 4 && ptr + j < buf.Length ==> buf[ptr + j] == bytes(word)[j]
    {
      var end := if buf.Length < ptr + 4 then buf.Length else ptr + 4;
      for i := ptr to end
        invariant buf[..ptr] == old(buf[..ptr])
        invariant forall j :: 0 <= j < i - ptr ==> buf[ptr + j] == bytes(word)[j]
      {
        buf[i] := bytes(word)[i - ptr];
      }
    }

    /** Fill a buffer with the bytes of successive outputs, in the order that `bytes` gives them. */
    method Fill(bytes: bv32 -> Four, buf: array<bv8>)
      requires Valid()
      modifies stateArray, `stateIndex, `drawn, buf
      ensures Valid() && drawn == old(drawn) + (buf.Length + 3) / 4
      ensures Filled(g, bytes, start, old(drawn), buf[..], buf.Length)
    {
      ghost var first := drawn;
      var ptr := 0;
      while ptr < buf.Length
        invariant Valid() && ptr % 4 == 0 && drawn == first + ptr / 4 && ptr < buf.Length + 4
        invariant Filled(g, bytes, start, first, buf[..], ptr)
      {
        var word := RandomUint32();
        ghost var before := buf[..];
        PutWord(bytes, word, buf, ptr);
        FillMore(g, bytes, start, first, before, ptr, word, buf[..]);
        ptr := ptr + 4;
      }
    }

    /** `gen_bytes`: the upper byte of each output first. */
    method GenBytes(buf: array<bv8>)
      requires Valid()
      modifies stateArray, `stateIndex, `drawn, buf
      ensures Valid() && drawn == old(drawn) + (buf.Length + 3) / 4
      ensures Filled(g, BigEndian, start, old(drawn), buf[..], buf.Length)
    {
      Fill(BigEndian, buf);
    }
  }
}
