/** The error container: one wrapped failure plus an append-only list of
    context entries, and the fallible outcome type that carries it. */
module Errors {
  import Rendering

  /** A fallible outcome: a success payload or a failure. */
  datatype Result<T, E> = Ok(value: T) | Err(error: E)

  /** The container. The wrapped failure is of an arbitrary type `E` that
      holds no references, so a container never wraps another container; its
      own display text is supplied by the caller as a function `msg`. */
  class Error<E(!new)> {
    var inner: E
    var context: seq<string>

    /** Wrapping a failure keeps that very failure and starts with no context. */
    constructor From(value: E)
      ensures inner == value
      ensures context == []
    {
      inner := value;
      context := [];
    }

    /** Pushes one entry onto the end of the context list; the wrapped
        failure and the earlier entries stay as they were. */
    method ExtendContext(s: string)
      modifies this
      ensures inner == old(inner)
      ensures context == old(context) + [s]
    {
      context := context + [s];
    }

    /** The rendered text: the failure's message, a line break, then every
        context entry after a line break of its own, oldest first. */
    function ToString(msg: E -> string): (r: string)
      reads this
      ensures r == msg(inner) + "\n" + Rendering.Trail(context)
      ensures context == [] ==> r == msg(inner) + "\n"
    {
      Rendering.Render(msg(inner), context)
    }

    /** Converting back to a plain boxed failure hands out the wrapped
        failure itself; the context is not part of the result. */
    method IntoBoxed() returns (e: E)
      ensures e == inner
    {
      e := inner;
    }
  }
}
