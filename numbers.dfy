/** Real-number helpers: the `sum()` and `abs()` builtins on exact reals. */
module Numbers {

  function Abs(x: real): real {
    if x < 0.0 then -x else x
  }

  /** Python's `sum()` over a list of numbers, with exact real arithmetic. */
  function Sum(w: seq<real>): real {
    if |w| == 0 then 0.0 else w[0] + Sum(w[1..])
  }

  predicate NonNegative(w: seq<real>) {
    forall i :: 0 <= i < |w| ==> 0.0 <= w[i]
  }

  /** Extending a list by one element adds that element to its sum. */
  lemma {:induction false} SumSnoc(w: seq<real>, x: real)
    ensures Sum(w + [x]) == Sum(w) + x
  {
    if |w| > 0 {
      assert (w + [x])[1..] == w[1..] + [x];
      SumSnoc(w[1..], x);
    }
  }

  /** The sum of a prefix grows by the next element. */
  lemma SumPrefixStep(w: seq<real>, i: nat)
    requires i < |w|
    ensures Sum(w[..i + 1]) == Sum(w[..i]) + w[i]
  {
    assert w[..i + 1] == w[..i] + [w[i]];
    SumSnoc(w[..i], w[i]);
  }

  /** A sum of non-negative numbers is non-negative. */
  lemma {:induction false} SumNonNegative(w: seq<real>)
    requires NonNegative(w)
    ensures Sum(w) >= 0.0
  {
    if |w| > 0 {
      SumNonNegative(w[1..]);
    }
  }

  /** With non-negative numbers, a prefix sums to no more than the whole list. */
  lemma {:induction false} SumPrefixBounded(w: seq<real>, i: nat)
    requires NonNegative(w) && i <= |w|
    ensures 0.0 <= Sum(w[..i]) <= Sum(w)
  {
    if i > 0 {
      assert w[..i][1..] == w[1..][..i - 1];
      SumPrefixBounded(w[1..], i - 1);
    } else {
      SumNonNegative(w);
    }
  }

  /** `10 ** e` as an exact real. */
  function Pow10(e: nat): (r: real)
    ensures r >= 1.0
  {
    if e == 0 then 1.0 else 10.0 * Pow10(e - 1)
  }
}
