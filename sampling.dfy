/** Python's `random.choices(population, weights, k=1)` and
    `random.choice(seq)` on an explicit stream of draws. The stream stands for
    a seeded `random.Random`: element `k` is the `k`-th number in `[0, 1)` the
    generator hands out, so the same seed means the same stream. */
module Sampling {
  import opened Numbers

  /** One draw of `random.random()`: a number in `[0, 1)`. */
  type Draw = u: real | 0.0 <= u < 1.0

  /** The caller-owned random stream: the draws in the order they are consumed. */
  type Stream = nat -> Draw

  /** The cumulative-weight rule of `random.choices`: the first index `i < n - 1`
      whose running total exceeds `x`, and `n - 1` when there is none (this is
      `bisect_right(cum_weights, x, 0, n - 1)` on non-decreasing totals). */
  function Pick(w: seq<real>, x: real): (i: nat)
    requires |w| > 0
    ensures i < |w|
  {
    if |w| == 1 then 0
    else if x < w[0] then 0
    else 1 + Pick(w[1..], x - w[0])
  }

  /** A draw scaled by a positive total: a point of `[0, total)`. */
  function Scale(u: Draw, t: real): (x: real)
    requires t > 0.0
    ensures 0.0 <= x < t
  {
    assert t - u * t == (1.0 - u) * t;
    assert (1.0 - u) * t > 0.0;
    u * t
  }

  /** `random.choices(range(n), w)[0]` for the draw `u`: scale `u` by the total
      weight and apply the cumulative-weight rule. */
  function WeightedIndex(w: seq<real>, u: Draw): (i: nat)
    requires |w| > 0 && Sum(w) > 0.0
    ensures i < |w|
  {
    Pick(w, Scale(u, Sum(w)))
  }

  /** With non-negative weights and `0 <= x < total`, index `i` is picked exactly
      when `x` lies in `[cum[i-1], cum[i])`, the slice of the total that belongs
      to `w[i]`. */
  lemma {:induction false} PickInterval(w: seq<real>, x: real, i: nat)
    requires |w| > 0 && NonNegative(w) && 0.0 <= x < Sum(w) && i < |w|
    ensures Pick(w, x) == i <==> Sum(w[..i]) <= x < Sum(w[..i + 1])
    decreases |w|
  {
    if i == 0 {
      assert w[..1] == [w[0]];
      assert w[..0] == [];
      if |w| == 1 {
        assert w == w[..1];
      }
    } else {
      var t := w[1..];
      assert w[..i][1..] == t[..i - 1];
      assert w[..i + 1][1..] == t[..i];
      assert Sum(w[..i]) == w[0] + Sum(t[..i - 1]);
      assert Sum(w[..i + 1]) == w[0] + Sum(t[..i]);
      if x < w[0] {
        SumPrefixBounded(t, i - 1);
      } else {
        PickInterval(t, x - w[0], i - 1);
      }
    }
  }

  lemma PickIntervalAt(w: seq<real>, t: real, x: real, i: nat)
    requires |w| > 0 && NonNegative(w) && t == Sum(w) && 0.0 <= x < t && i < |w|
    ensures Pick(w, x) == i <==> Sum(w[..i]) <= x < Sum(w[..i + 1])
  {
    PickInterval(w, x, i);
  }

  /** A category or language whose weight is zero is never chosen when the
      weights are non-negative and their total is positive. */
  lemma WeightedIndexPositive(w: seq<real>, u: Draw)
    requires |w| > 0 && NonNegative(w) && Sum(w) > 0.0
    ensures w[WeightedIndex(w, u)] > 0.0
  {
    var i := WeightedIndex(w, u);
    WeightedIndexInterval(w, u, i);
    SumPrefixStep(w, i);
  }

  /** The draws that choose index `i` are those in `[cum[i-1]/total, cum[i]/total)`,
      an interval of length `w[i]/total`: selection probability follows weight. */
  lemma WeightedIndexInterval(w: seq<real>, u: Draw, i: nat)
    requires |w| > 0 && NonNegative(w) && Sum(w) > 0.0 && i < |w|
    ensures WeightedIndex(w, u) == i <==> Sum(w[..i]) <= Scale(u, Sum(w)) < Sum(w[..i + 1])
  {
    PickIntervalAt(w, Sum(w), Scale(u, Sum(w)), i);
  }

  /** `random.choice(seq)` for a list of `n` elements, as the index `floor(u * n)`. */
  function UniformIndex(n: nat, u: Draw): (i: nat)
    requires n > 0
    ensures i < n
  {
    var x := u * n as real;
    assert x < n as real by {
      assert u * n as real < 1.0 * n as real;
    }
    x.Floor
  }

  /** Each of the `n` indices is chosen by a draw interval of length `1/n`. */
  lemma UniformIndexInterval(n: nat, u: Draw, i: nat)
    requires n > 0
    ensures UniformIndex(n, u) == i <==> i as real <= u * n as real < (i + 1) as real
  {
  }
}
