/** Optional values and success/failure results shared by the screen models, with one fact about an optional head in front of a sequence. */
module Results {

  /** A value that may be absent (a JavaScript `undefined` field). */
  datatype Option<+T> = None | Some(value: T)

  /** The outcome of a guard: the value to submit, or the alert shown instead. */
  datatype Result<+T, +E> = Ok(value: T) | Err(error: E)

  /** Putting an element that has a property in front of elements that have it keeps them all such. */
  lemma AllAfterCons<T>(p: T -> bool, here: Option<T>, tail: seq<T>)
    requires here.Some? ==> p(here.value)
    requires forall i :: 0 <= i < |tail| ==> p(tail[i])
    ensures var all := (if here.Some? then [here.value] else []) + tail;
            forall i :: 0 <= i < |all| ==> p(all[i])
  {
    var first := if here.Some? then [here.value] else [];
    var all := first + tail;
    forall i | 0 <= i < |all|
      ensures p(all[i])
    {
      if i >= |first| {
        assert all[i] == tail[i - |first|];
      }
    }
  }
}
