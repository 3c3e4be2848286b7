/**
 * Keeping, in order, the results of a partial per-element step: the shape
 * of a loop that emits something for some elements and nothing for
 * others, as both handlers of the spider are.
 */
module Sequences {
  import opened Wrappers

  /** The values `f` gives for the elements of `xs`, in order, skipping `None`. */
  function Collect<T, U>(xs: seq<T>, f: T -> Option<U>): seq<U>
  {
    if xs == [] then []
    else
      var y := f(xs[|xs| - 1]);
      Collect(xs[..|xs| - 1], f) + (if y.Some? then [y.value] else [])
  }

  /** The number of elements of `xs` for which `f` gives a value. */
  function CountSome<T, U>(xs: seq<T>, f: T -> Option<U>): (n: nat)
    ensures n <= |xs|
  {
    if xs == [] then 0
    else CountSome(xs[..|xs| - 1], f) + (if f(xs[|xs| - 1]).Some? then 1 else 0)
  }

  /**
   * Element `i` with a value has it at position `CountSome(xs[..i], f)`,
   * the number of elements with a value before it. Those positions grow
   * strictly along `xs` and there are as many results as elements with a
   * value, so each such element gives exactly one result, in order.
   */
  lemma {:induction false} CollectPositions<T, U>(xs: seq<T>, f: T -> Option<U>)
    ensures |Collect(xs, f)| == CountSome(xs, f)
    ensures forall i :: 0 <= i < |xs| && f(xs[i]).Some? ==>
      CountSome(xs[..i], f) < |Collect(xs, f)| && Collect(xs, f)[CountSome(xs[..i], f)] == f(xs[i]).value
    ensures forall i, k :: 0 <= i < k <= |xs| && f(xs[i]).Some? ==> CountSome(xs[..i], f) < CountSome(xs[..k], f)
  {
    if xs != [] {
      var n := |xs| - 1;
      var init := xs[..n];
      CollectPositions(init, f);
      var c0 := Collect(init, f);
      var c := Collect(xs, f);
      assert c[..|c0|] == c0;
      forall i | 0 <= i < n && f(xs[i]).Some?
        ensures CountSome(xs[..i], f) < |c| && c[CountSome(xs[..i], f)] == f(xs[i]).value
      {
        assert init[..i] == xs[..i];
        assert init[i] == xs[i];
      }
      assert xs[..n] == init;
      assert xs[..n + 1] == xs;
      forall i, k | 0 <= i < k <= |xs| && f(xs[i]).Some?
        ensures CountSome(xs[..i], f) < CountSome(xs[..k], f)
      {
        assert init[..i] == xs[..i];
        if k <= n {
          assert init[..k] == xs[..k];
          assert init[i] == xs[i];
        } else if i < n {
          assert init[i] == xs[i];
        }
      }
    }
  }
}
