/** Counting the elements of a sequence that satisfy a predicate. */
module Tallies {

  ghost function Tally<T>(xs: seq<T>, p: T -> bool): (n: nat)
    ensures n <= |xs|
  {
    if |xs| == 0 then 0
    else Tally(xs[..|xs| - 1], p) + (if p(xs[|xs| - 1]) then 1 else 0)
  }

  lemma Append<T>(xs: seq<T>, x: T, p: T -> bool)
    ensures Tally(xs + [x], p) == Tally(xs, p) + (if p(x) then 1 else 0)
  {
    assert (xs + [x])[..|xs + [x]| - 1] == xs;
  }

  lemma {:induction false} Change<T>(xs: seq<T>, i: nat, x: T, p: T -> bool)
    requires i < |xs|
    ensures Tally(xs[i := x], p) == Tally(xs, p) - (if p(xs[i]) then 1 else 0) + (if p(x) then 1 else 0)
  {
    var n := |xs| - 1;
    if i < n {
      Change(xs[..n], i, x, p);
      assert xs[i := x][..n] == xs[..n][i := x];
    } else {
      assert xs[i := x][..n] == xs[..n];
    }
  }

  lemma {:induction false} AtMost<T>(xs: seq<T>, p: T -> bool, q: T -> bool)
    requires forall i :: 0 <= i < |xs| && p(xs[i]) ==> q(xs[i])
    ensures Tally(xs, p) <= Tally(xs, q)
  {
    if |xs| > 0 {
      AtMost(xs[..|xs| - 1], p, q);
    }
  }
}
