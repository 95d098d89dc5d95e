/** Small things every part uses. */
module Basics {
  /** A result that may be missing; `:-` passes the lack of one on. */
  datatype Option<+T> = None | Some(value: T)
  {
    predicate IsFailure() { None? }
    function PropagateFailure<U>(): Option<U>
      requires None?
    {
      None
    }
    function Extract(): T
      requires Some?
    {
      value
    }
  }

  lemma Associates<T>(a: seq<T>, b: seq<T>, c: seq<T>)
    ensures (a + b) + c == a + (b + c)
  {
  }

  lemma EmptyFront<T>(a: seq<T>)
    ensures [] + a == a
  {
  }
}
