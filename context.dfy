/** The context extension on fallible outcomes: on failure, the failure is
    wrapped in a fresh container carrying exactly one context entry; on
    success, the payload passes through untouched. */
module ContextExt {
  import Rendering
  import opened Errors

  /** A closure producing a context entry, with a counter of how often it
      has been invoked (the entry it produces is already rendered to text). */
  class Thunk {
    const text: string
    var calls: nat

    constructor (text: string)
      ensures this.text == text && calls == 0
    {
      this.text := text;
      calls := 0;
    }

    /** Invokes the closure once. */
    method Call() returns (s: string)
      modifies this
      ensures s == text
      ensures calls == old(calls) + 1
    {
      s := text;
      calls := calls + 1;
    }
  }

  /** Attaches the already rendered entry `c` to a failing outcome. The
      failure type holds no references, so it cannot itself be a container:
      the extension only applies to plain failures, never to `Error`. */
  method Context<T, E(!new)>(outcome: Result<T, E>, c: string) returns (res: Result<T, Error<E>>)
    ensures outcome.Ok? <==> res.Ok?
    ensures outcome.Ok? ==> res == Ok(outcome.value)
    ensures outcome.Err? ==> fresh(res.error) && res.error.inner == outcome.error && res.error.context == [c]
  {
    if outcome.Ok? {
      res := Ok(outcome.value);
    } else {
      var err := new Error<E>.From(outcome.error);
      err.ExtendContext(c);
      res := Err(err);
    }
  }

  /** As `Context`, with the entry produced by `f`, which is invoked exactly
      once on failure and never on success. */
  method WithContext<T, E(!new)>(outcome: Result<T, E>, f: Thunk) returns (res: Result<T, Error<E>>)
    modifies f
    ensures outcome.Ok? <==> res.Ok?
    ensures outcome.Ok? ==> res == Ok(outcome.value) && f.calls == old(f.calls)
    ensures outcome.Err? ==> f.calls == old(f.calls) + 1
    ensures outcome.Err? ==> fresh(res.error) && res.error.inner == outcome.error && res.error.context == [f.text]
  {
    if outcome.Ok? {
      res := Ok(outcome.value);
    } else {
      var err := new Error<E>.From(outcome.error);
      var c := f.Call();
      err.ExtendContext(c);
      res := Err(err);
    }
  }

  /** A root failure reading "connection refused" gains the entry "while
      opening session" in a middle layer; the top layer, holding the
      container itself, pushes "while handling request 42" onto it. */
  method EndToEnd() returns (rendered: string)
    ensures rendered == "connection refused" + "\n" + "\n" + "while opening session"
      + "\n" + "while handling request 42"
    ensures Rendering.Split(rendered)
      == ["connection refused", "", "while opening session", "while handling request 42"]
  {
    var root: Result<int, string> := Err("connection refused");
    var f := new Thunk("while opening session");
    var middle := WithContext(root, f);
    assert f.calls == 1;
    var err := middle.error;
    err.ExtendContext("while handling request 42");
    var msg := (s: string) => s;
    rendered := err.ToString(msg);
    var cs := ["while opening session", "while handling request 42"];
    assert err.context == cs;
    assert Rendering.AllSingleLine(cs) by {
      assert Rendering.SingleLine(cs[0]) && Rendering.SingleLine(cs[1]);
    }
    Rendering.RenderLines("connection refused", cs);
    Rendering.RenderInOrder("connection refused", [], cs[0], cs[1]);
    assert [] + [cs[0]] + [cs[1]] == cs;
  }

  /** On success the closure is never invoked and the payload is unchanged. */
  method LazyOnSuccess() returns (res: Result<int, Error<string>>, calls: nat)
    ensures res == Ok(42) && calls == 0
  {
    var f := new Thunk("expensive");
    res := WithContext(Ok(42), f);
    calls := f.calls;
  }
}
