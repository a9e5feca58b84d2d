/** The accumulator loops the schedulers share: a running maximum seeded with a
    start value (`x = Math.max(x, term)`), a running sum, and the scan that keeps
    the FIRST candidate with a strictly smaller cost (`if (c < best) { best = c; idx = i; }`,
    started from a "no candidate yet" sentinel). Every fold is defined from the end of
    its sequence, so that a loop over a prefix `xs[..k]` meets its definition directly. */
module Folds {

  function Max(a: real, b: real): real
  {
    if a >= b then a else b
  }

  /** The running maximum of `init` and every element of `xs`. */
  function MaxFrom(init: real, xs: seq<real>): real
    decreases |xs|
  {
    if xs == [] then init else Max(MaxFrom(init, xs[..|xs| - 1]), xs[|xs| - 1])
  }

  /** The running maximum is at least the seed and every element, and it is the seed
      or one of the elements. */
  lemma {:induction false} MaxFromBounds(init: real, xs: seq<real>)
    ensures init <= MaxFrom(init, xs)
    ensures forall i :: 0 <= i < |xs| ==> xs[i] <= MaxFrom(init, xs)
    ensures MaxFrom(init, xs) == init || exists i :: 0 <= i < |xs| && MaxFrom(init, xs) == xs[i]
    decreases |xs|
  {
    if xs != [] {
      var front := xs[..|xs| - 1];
      MaxFromBounds(init, front);
      forall i | 0 <= i < |xs| ensures xs[i] <= MaxFrom(init, xs) {
        if i < |xs| - 1 {
          assert xs[i] == front[i];
        }
      }
      if MaxFrom(init, xs) != init && MaxFrom(init, xs) != xs[|xs| - 1] {
        var i :| 0 <= i < |front| && MaxFrom(init, front) == front[i];
        assert MaxFrom(init, xs) == xs[i];
      }
    }
  }

  /** Raising the seed never lowers the running maximum. */
  lemma {:induction false} MaxFromMonotone(a: real, b: real, xs: seq<real>)
    requires a <= b
    ensures MaxFrom(a, xs) <= MaxFrom(b, xs)
    decreases |xs|
  {
    if xs != [] {
      MaxFromMonotone(a, b, xs[..|xs| - 1]);
    }
  }

  /** The running sum, left to right. */
  function Sum(xs: seq<real>): real
    decreases |xs|
  {
    if xs == [] then 0.0 else Sum(xs[..|xs| - 1]) + xs[|xs| - 1]
  }

  lemma {:induction false} SumNonNegative(xs: seq<real>)
    requires forall i :: 0 <= i < |xs| ==> 0.0 <= xs[i]
    ensures 0.0 <= Sum(xs)
    decreases |xs|
  {
    if xs != [] {
      SumNonNegative(xs[..|xs| - 1]);
    }
  }

  /** Termwise domination carries over to the sums. */
  lemma {:induction false} SumMonotone(xs: seq<real>, ys: seq<real>)
    requires |xs| == |ys|
    requires forall i :: 0 <= i < |xs| ==> xs[i] <= ys[i]
    ensures Sum(xs) <= Sum(ys)
    decreases |xs|
  {
    if xs != [] {
      SumMonotone(xs[..|xs| - 1], ys[..|ys| - 1]);
    }
  }

  /** The index a `<`-scan over `costs` ends with: the first position of a minimum. */
  function ArgMinFirst(costs: seq<real>): (r: nat)
    requires |costs| > 0
    ensures r < |costs|
    ensures forall j :: 0 <= j < |costs| ==> costs[r] <= costs[j]
    ensures forall j :: 0 <= j < r ==> costs[r] < costs[j]
    decreases |costs|
  {
    if |costs| == 1 then 0
    else
      var prev := ArgMinFirst(costs[..|costs| - 1]);
      if costs[|costs| - 1] < costs[prev] then |costs| - 1 else prev
  }

  /** One more turn of a running-maximum loop. */
  lemma MaxFromNext(init: real, xs: seq<real>, k: nat)
    requires k < |xs|
    ensures MaxFrom(init, xs[..k + 1]) == Max(MaxFrom(init, xs[..k]), xs[k])
  {
    assert xs[..k + 1][..k] == xs[..k];
  }

  /** One more turn of a running-sum loop. */
  lemma SumNext(xs: seq<real>, k: nat)
    requires k < |xs|
    ensures Sum(xs[..k + 1]) == Sum(xs[..k]) + xs[k]
  {
    assert xs[..k + 1][..k] == xs[..k];
  }

  /** One more turn of a `<`-scan: the new candidate wins only when strictly smaller. */
  lemma ArgMinFirstNext(costs: seq<real>, k: nat)
    requires 0 < k < |costs|
    ensures ArgMinFirst(costs[..k + 1]) ==
            if costs[k] < costs[ArgMinFirst(costs[..k])] then k else ArgMinFirst(costs[..k])
  {
    assert costs[..k + 1][..k] == costs[..k];
  }

  /** `Math.pow(x, 2)`. */
  function Square(x: real): real
  {
    x * x
  }

  /** A square is never negative, and positive exactly for a non-zero base. */
  lemma SquareSign(x: real, d: real)
    requires d == x * x
    ensures 0.0 <= d && (0.0 < d <==> x != 0.0)
  {
    if x < 0.0 {
      calc {
        d;
      ==
        (-x) * (-x);
      >
        0.0;
      }
    } else if 0.0 < x {
      calc {
        d;
      ==
        x * x;
      >
        0.0;
      }
    }
  }
}
