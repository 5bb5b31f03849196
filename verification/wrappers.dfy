/** Optional values, and the result of a call that may let an exception escape. */
module Wrappers {

  /** A value that may be missing (Python's `None`). */
  datatype Option<T> = None | Some(value: T)

  /** A call either returns a value or an exception escapes it to the caller. */
  datatype Fallible<T> = Returned(value: T) | Threw

  /** Calling `f` on each element in turn and collecting the results: the
      first exception escapes, and nothing is collected then. */
  function MapAll<A, B>(xs: seq<A>, f: A -> Fallible<B>): Fallible<seq<B>> {
    if xs == [] then Returned([])
    else
      var last := f(xs[|xs| - 1]);
      var init := MapAll(xs[..|xs| - 1], f);
      if init.Threw? || last.Threw? then Threw else Returned(init.value + [last.value])
  }

  /** One more call: its result is appended, or its exception escapes. */
  lemma MapAllSnoc<A, B>(xs: seq<A>, x: A, f: A -> Fallible<B>)
    ensures MapAll(xs + [x], f) ==
      if MapAll(xs, f).Threw? || f(x).Threw? then Threw
      else Returned(MapAll(xs, f).value + [f(x).value])
  {
    assert (xs + [x])[..|xs|] == xs;
  }

  /** An exception escapes exactly when some call throws; otherwise the
      results are those of the calls, one per element, in order. */
  lemma {:induction false} MapAllSpec<A, B>(xs: seq<A>, f: A -> Fallible<B>)
    ensures MapAll(xs, f).Threw? <==> exists k :: 0 <= k < |xs| && f(xs[k]).Threw?
    ensures MapAll(xs, f).Returned? ==>
      |MapAll(xs, f).value| == |xs| &&
      forall k :: 0 <= k < |xs| ==> f(xs[k]) == Returned(MapAll(xs, f).value[k])
  {
    if xs != [] {
      var init := xs[..|xs| - 1];
      MapAllSpec(init, f);
      assert forall k :: 0 <= k < |init| ==> init[k] == xs[k];
    }
  }
}
