/** The optional value used for Python's None and for runs that raise, and list prefixing on it. */
module Wrappers {

  datatype Option<+T> = None | Some(value: T)

  /** `p + the result`, or None when there is none. */
  function Prepend<T>(p: seq<T>, o: Option<seq<T>>): Option<seq<T>>
  {
    if o.None? then None else Some(p + o.value)
  }

  lemma PrependNil<T>(o: Option<seq<T>>)
    ensures Prepend([], o) == o
  {
    if o.Some? { assert [] + o.value == o.value; }
  }

  lemma PrependTwice<T>(p: seq<T>, q: seq<T>, o: Option<seq<T>>)
    ensures Prepend(p, Prepend(q, o)) == Prepend(p + q, o)
  {
    if o.Some? { assert p + (q + o.value) == (p + q) + o.value; }
  }
}
