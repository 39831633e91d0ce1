/** Facts about sequences shared by the modules that fill a dictionary in
    a loop, where a later equal key overwrites an earlier one. */
module Sequences {

  /** Position of the last occurrence of `x` in `xs`. */
  function LastIndex<T(==)>(xs: seq<T>, x: T): (j: nat)
    requires x in xs
    ensures j < |xs| && xs[j] == x
    ensures forall j' :: j < j' < |xs| ==> xs[j'] != x
  {
    if xs[|xs| - 1] == x then |xs| - 1
    else
      assert x in xs[..|xs| - 1] by {
        var w :| 0 <= w < |xs| && xs[w] == x;
        assert xs[..|xs| - 1][w] == x;
      }
      LastIndex(xs[..|xs| - 1], x)
  }

  /** Appending `y` makes it the last occurrence of itself and leaves the
      last occurrence of every other element where it was. */
  lemma LastIndexSnoc<T>(xs: seq<T>, y: T, x: T)
    requires x in xs + [y]
    ensures x == y ==> LastIndex(xs + [y], x) == |xs|
    ensures x != y ==> x in xs && LastIndex(xs + [y], x) == LastIndex(xs, x)
  {
    var ys := xs + [y];
    assert ys[..|ys| - 1] == xs;
    if x != y {
      assert x in xs by {
        var w :| 0 <= w < |ys| && ys[w] == x;
        assert w < |xs| && xs[w] == x;
      }
    }
  }
}
