/**
 * The part of the golang-set library the presence sources use: a set is
 * built by adding the elements of a slice one at a time, so duplicates
 * collapse and order is forgotten.
 */
module Sets {

  /** The set of the elements of `xs`. */
  function SetOf<T>(xs: seq<T>): set<T>
  {
    set x | x in xs
  }

  /**
   * `NewSet(xs...)` and the loop of `Add` calls: the elements are added one
   * by one, and the result holds exactly the elements of `xs`.
   */
  method AddAll<T>(xs: seq<T>) returns (s: set<T>)
    ensures forall x :: x in s <==> x in xs
  {
    s := {};
    for i := 0 to |xs|
      invariant forall x :: x in s <==> x in xs[..i]
    {
      assert xs[..i + 1] == xs[..i] + [xs[i]];
      s := s + {xs[i]};
    }
    assert xs[..|xs|] == xs;
  }
}
