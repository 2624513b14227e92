/** Results that may be absent. */
module Wrappers {

  datatype Option<+T> = None | Some(value: T)

  /** Rust's `collect::<Option<Vec<_>>>()`: all the results, or none at the first absence. */
  function Traverse<A, B>(f: A -> Option<B>, xs: seq<A>): (r: Option<seq<B>>)
    ensures r.Some? <==> forall x <- xs :: f(x).Some?
    ensures r.Some? ==> |r.value| == |xs|
    ensures r.Some? ==> forall k | 0 <= k < |xs| :: f(xs[k]) == Some(r.value[k])
  {
    if xs == [] then Some([])
    else
      var head := f(xs[0]);
      var tail := Traverse(f, xs[1..]);
      assert xs == [xs[0]] + xs[1..];
      if head.Some? && tail.Some? then Some([head.value] + tail.value) else None
  }
}
