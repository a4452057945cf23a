/** Generic combinators over fallible per-element steps: the shape of a Python
    loop that walks a list in order and raises at the first bad element. */
module Results {
  import opened Wrappers

  /** The index of the first element satisfying `p`, if there is one. */
  function FirstWhere<T>(xs: seq<T>, p: T -> bool): (r: Option<nat>)
    ensures r.None? <==> forall i :: 0 <= i < |xs| ==> !p(xs[i])
    ensures r.Some? ==> r.value < |xs| && p(xs[r.value])
    ensures r.Some? ==> forall j :: 0 <= j < r.value ==> !p(xs[j])
  {
    if |xs| == 0 then None
    else if p(xs[0]) then Some(0)
    else
      match FirstWhere(xs[1..], p)
      case None => None
      case Some(i) => Some(i + 1)
  }

  /** A loop over `xs` that updates an accumulator with a step that may fail;
      the first failure ends it. Defined on the last element, so that a loop
      over a prefix matches it step by step. */
  function Fold<A, X, E>(step: (A, X) -> Result<A, E>, init: A, xs: seq<X>): Result<A, E>
    decreases |xs|
  {
    if |xs| == 0 then Ok(init)
    else
      match Fold(step, init, xs[..|xs| - 1])
      case Err(e) => Err(e)
      case Ok(a) => step(a, xs[|xs| - 1])
  }

  /** One more iteration of the loop. */
  lemma FoldPrefixStep<A, X, E>(step: (A, X) -> Result<A, E>, init: A, xs: seq<X>, i: nat)
    requires i < |xs|
    ensures Fold(step, init, xs[..i + 1]) ==
      match Fold(step, init, xs[..i])
      case Err(e) => Err(e)
      case Ok(a) => step(a, xs[i])
  {
    assert xs[..i + 1][..i] == xs[..i];
  }

  /** Once a prefix has failed, the whole loop fails with the same error. */
  lemma {:induction false} FoldErrSticky<A, X, E>(step: (A, X) -> Result<A, E>, init: A, xs: seq<X>, i: nat)
    requires i <= |xs| && Fold(step, init, xs[..i]).Err?
    ensures Fold(step, init, xs) == Fold(step, init, xs[..i])
    decreases |xs|
  {
    if i < |xs| {
      var front := xs[..|xs| - 1];
      assert front[..i] == xs[..i];
      FoldErrSticky(step, init, front, i);
    } else {
      assert xs[..i] == xs;
    }
  }

  /** The loop over the whole list is the loop over all its elements. */
  lemma FoldAll<A, X, E>(step: (A, X) -> Result<A, E>, init: A, xs: seq<X>)
    ensures Fold(step, init, xs[..|xs|]) == Fold(step, init, xs)
  {
    assert xs[..|xs|] == xs;
  }

  /** When whether a step fails depends only on the element, the loop succeeds
      exactly when no element is bad, and otherwise fails with the error of the
      first bad element. */
  lemma {:induction false} FoldFirstBad<A(!new), X(!new), E>(step: (A, X) -> Result<A, E>, init: A, xs: seq<X>, bad: X -> bool, err: X -> E)
    requires forall a, x :: step(a, x).Err? <==> bad(x)
    requires forall a, x :: bad(x) ==> step(a, x) == Err(err(x))
    ensures Fold(step, init, xs).Ok? <==> forall i :: 0 <= i < |xs| ==> !bad(xs[i])
    ensures Fold(step, init, xs).Err? ==>
      exists i :: (0 <= i < |xs| && bad(xs[i]) && (forall j :: 0 <= j < i ==> !bad(xs[j]))
        && Fold(step, init, xs) == Err(err(xs[i])))
    decreases |xs|
  {
    if |xs| > 0 {
      var front := xs[..|xs| - 1];
      var last := xs[|xs| - 1];
      FoldFirstBad(step, init, front, bad, err);
      assert forall i :: 0 <= i < |front| ==> front[i] == xs[i];
      match Fold(step, init, front)
      case Err(e) =>
        var i :| 0 <= i < |front| && bad(front[i]) && (forall j :: 0 <= j < i ==> !bad(front[j])) && e == err(front[i]);
        assert bad(xs[i]) && Fold(step, init, xs) == Err(err(xs[i]));
      case Ok(a) =>
        if bad(last) {
          assert Fold(step, init, xs) == Err(err(xs[|xs| - 1]));
        }
    }
  }
}
