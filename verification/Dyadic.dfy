/** Powers of two and the dyadic intervals the buddy allocator works with. */
module Dyadic {

  function Pow2(k: nat): (r: nat)
    ensures r >= 1
  {
    if k == 0 then 1 else 2 * Pow2(k - 1)
  }

  /** `i << k`. */
  function Shl(i: nat, k: nat): nat {
    if k == 0 then i else 2 * Shl(i, k - 1)
  }

  /** `p >> k`: the index of the order-`k` interval that page `p` lies in. */
  function Anc(p: nat, k: nat): nat {
    if k == 0 then p else Anc(p, k - 1) / 2
  }

  /** `x.is_multiple_of(1 << k)`, bit by bit. */
  predicate Multiple(x: nat, k: nat) {
    k == 0 || (x % 2 == 0 && Multiple(x / 2, k - 1))
  }

  lemma {:induction false} ShlMeans(i: nat, k: nat)
    ensures Shl(i, k) == i * Pow2(k)
  {
    if k > 0 { ShlMeans(i, k - 1); }
  }

  lemma DoubleMod(x: nat, h: nat)
    requires h > 0
    ensures x % (2 * h) == 2 * (x / 2 % h) + x % 2
  {
    var q, r := x / 2 / h, x / 2 % h;
    assert x / 2 == h * q + r;
    assert x == (2 * h) * q + (2 * r + x % 2) by { assert 2 * (h * q) == (2 * h) * q; }
    ModUnique(x, 2 * h, q, 2 * r + x % 2);
  }

  lemma ModUnique(x: nat, m: nat, q: nat, r: nat)
    requires m > 0 && r < m && x == m * q + r
    ensures x % m == r
  {
    assert m * (x / m - q) == r - x % m;
    ScaledBelow(x / m - q, m);
  }

  lemma ScaledBelow(d: int, m: int)
    requires -m < m * d < m
    ensures d == 0
  {
  }

  lemma {:induction false} MultipleMeans(x: nat, k: nat)
    ensures Multiple(x, k) <==> x % Pow2(k) == 0
  {
    if k > 0 {
      MultipleMeans(x / 2, k - 1);
      DoubleMod(x, Pow2(k - 1));
    }
  }

  lemma {:induction false} ShlNext(i: nat, k: nat)
    ensures Shl(i + 1, k) == Shl(i, k) + Pow2(k)
    ensures Shl(2 * i, k) == Shl(i, k + 1)
    ensures Shl(0, k) == 0
  {
    if k > 0 { ShlNext(i, k - 1); }
  }

  lemma {:induction false} ShlMultiple(i: nat, k: nat)
    ensures Multiple(Shl(i, k), k) && Anc(Shl(i, k), k) == i
    ensures Multiple(Shl(i, k), k + 1) <==> i % 2 == 0
  {
    if k > 0 {
      ShlMultiple(i, k - 1);
      AncCompose(Shl(i, k), 1, k);
    }
  }

  lemma {:induction false} MultipleShl(x: nat, k: nat)
    requires Multiple(x, k)
    ensures x == Shl(Anc(x, k), k)
  {
    if k > 0 {
      MultipleShl(x / 2, k - 1);
      AncCompose(x, 1, k);
    }
  }

  lemma {:induction false} MultipleBelow(x: nat, t: nat, k: nat)
    requires k <= t && Multiple(x, t)
    ensures Multiple(x, k)
  {
    if k > 0 { MultipleBelow(x / 2, t - 1, k - 1); }
  }

  lemma {:induction false} AncInterval(p: nat, k: nat, i: nat)
    ensures Anc(p, k) == i <==> Shl(i, k) <= p < Shl(i, k) + Pow2(k)
  {
    if k != 0 {
      AncInterval(p, k - 1, 2 * i);
      AncInterval(p, k - 1, 2 * i + 1);
      ShlNext(i, k - 1);
      ShlNext(2 * i, k - 1);
    }
  }

  lemma {:induction false} AncCompose(p: nat, k: nat, j: nat)
    requires k <= j
    ensures Anc(p, j) == Anc(Anc(p, k), j - k)
    decreases j
  {
    if j > k {
      AncCompose(p, k, j - 1);
    }
  }

  lemma {:induction false} Pow2Monotone(j: nat, k: nat)
    requires j <= k
    ensures Pow2(j) <= Pow2(k)
    ensures j < k ==> 2 * Pow2(j) <= Pow2(k)
  {
    if j < k {
      Pow2Monotone(j, k - 1);
    }
  }

  lemma {:induction false} Pow2Add(j: nat, k: nat)
    ensures Pow2(j + k) == Pow2(j) * Pow2(k)
  {
    if k > 0 { Pow2Add(j, k - 1); }
  }

  lemma {:induction false} Pow2Injective(j: nat, k: nat)
    ensures Pow2(j) == Pow2(k) <==> j == k
  {
    if j < k { Pow2Monotone(j, k); } else if k < j { Pow2Monotone(k, j); }
  }

  /** `usize::BITS - leading_zeros - 1`: the order of the largest power of two in `n`. */
  function FloorLog2(n: nat): (k: nat)
    requires n > 0
    ensures Pow2(k) <= n < Pow2(k + 1)
  {
    if n == 1 then 0 else 1 + FloorLog2(n / 2)
  }

  /** The order of `n.next_power_of_two()`; zero pages round up to one. */
  function CeilLog2(n: nat): (k: nat)
    ensures n <= Pow2(k)
    ensures k > 0 ==> Pow2(k - 1) < n
  {
    if n <= 1 then 0 else 1 + CeilLog2((n + 1) / 2)
  }
}
