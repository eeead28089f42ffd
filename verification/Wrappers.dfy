/** Types shared by the other modules. */
module Wrappers {
  datatype Option<+T> = None | Some(value: T)

  /** `front` before the rest, if there is one. */
  function Prepended<T>(front: seq<T>, rest: Option<seq<T>>): Option<seq<T>> {
    if rest.None? then None else Some(front + rest.value)
  }

  lemma PrependedNext<T>(front: seq<T>, x: T, rest: Option<seq<T>>)
    ensures Prepended(front, Prepended([x], rest)) == Prepended(front + [x], rest)
  {
    if rest.Some? {
      assert front + ([x] + rest.value) == front + [x] + rest.value;
    }
  }

  datatype Timespec = Timespec(sec: int, nsec: int)
}
