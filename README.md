# regardless: error container with attached context, in Dafny

The crate defines one error type, `Error`, that wraps an arbitrary failure
(`inner`) together with an append-only list of context strings (`context`),
and a `Context` extension on `Result<T, E>` whose `context` and
`with_context` turn a failing outcome into an `Error` that carries one
context entry. An `Error` renders as the wrapped failure's message, a line
break, and then every context entry after a line break of its own, oldest
first. `src/lib.rs` holds all of this.

- `rendering.dfy` (module `Rendering`): the `Display` text as pure
  functions. `FoldContext` is the left fold of `src/lib.rs:35-37`. `Trail` is
  an independent reference definition of the trail it builds. `Split` cuts a
  text at its line breaks, so lemmas can state what a reader sees line by line.
- `error.dfy` (module `Errors`): the outcome type `Result` and the class
  `Error<E>`, whose `ExtendContext` updates `context` in place.
- `context.dfy` (module `ContextExt`): `Context` and `WithContext`. The
  closure passed to `with_context` is a `Thunk` object that counts its calls.
  Two client methods show the end-to-end rendering and the laziness.

The wrapped failure is a value of a type parameter `E`. Its own display text
comes from a function `msg: E -> string` that the caller passes in. The
`Display` text of the context argument `C` is already a `string` in the model.

The model follows the code where a reader might expect otherwise:
- One might expect an error without context to render as its bare message,
  and the first entry to follow the message directly. The code instead
  writes `"{}\n{}"` around a fold that starts every entry with `"\n"`. So an
  error without context renders as its message followed by `"\n"`, and an
  empty line separates the message from the first entry.
- One might expect `context` to append to an outcome that already holds an
  `Error`. But `Error` does not implement `std::error::Error`, so the blanket
  `Context` implementation never applies to a `Result<T, Error>`. Callers use
  `extend_context` instead. In the model, the class `Error<E(!new)>` and the
  methods `Context` and `WithContext` take only a failure type that holds no
  references. A container is an object, so it can be neither wrapped by
  `From` nor passed to `Context` or `WithContext`, and the model has no
  re-wrapping or merging path either.
- `src/lib.rs` has no constructor from a plain message string, so the ad-hoc construction path is not part of this model.

## Model

| member | source | states |
|---|---|---|
| `Errors.Error.From` | src/lib.rs:42-52 | the new container holds exactly the given failure as `inner` and has an empty context list |
| `Errors.Error.ExtendContext` | src/lib.rs:54-58 | the new context is the old one with `s` at the end; earlier entries and `inner` are unchanged; there is no failure case |
| `Errors.Error.ToString` | src/lib.rs:29-39 | the rendered text is the message of `inner`, a line break, then the reference trail of `context`; with no context it is the message followed by one line break |
| `Errors.Error.IntoBoxed` | src/lib.rs:104-107 | converting back to a boxed failure yields exactly `inner`; the context is not in the result |
| `Rendering.Render` | src/lib.rs:29-39 | the format string around the fold equals the message, a line break and the reference trail (`"\n" + c` for every entry, in order); with no context it is the message plus `"\n"` |
| `Rendering.FoldContext` | src/lib.rs:35-37 | the left fold from any accumulator is that accumulator followed by the reference trail (`"\n" + c` for every entry, in order) |
| `Rendering.TrailAppend` | src/lib.rs:35-37 | appending one entry to the list appends `"\n"` and that entry to the end of the trail |
| `Rendering.RenderAppend` | src/lib.rs:55-57 | rendering after `extend_context(s)` is the earlier rendering followed by `"\n"` and `s`: nothing already rendered changes |
| `Rendering.RenderInOrder` | src/lib.rs:35-37 | attaching `a` then `b` renders `...\na\nb`: oldest first, never reversed |
| `Rendering.RenderLines` | src/lib.rs:31-38 | for single-line message and entries, the rendered text read line by line is the message, an empty line, then every entry in attachment order |
| `Rendering.RenderInjective` | src/lib.rs:29-39 | rendering loses nothing: equal rendered texts (single-line parts) come from equal messages and equal context lists |
| `ContextExt.Thunk.Call` | src/lib.rs:64-67 | invoking the closure yields its text and adds one to its call count |
| `ContextExt.Context` | src/lib.rs:74-86 | `Ok(v)` passes through as `Ok(v)`; `Err(e)` becomes `Err` of a fresh container whose `inner` is `e` and whose context is exactly `[c]` |
| `ContextExt.WithContext` | src/lib.rs:88-101 | `Ok(v)` passes through and the closure is not invoked; `Err(e)` invokes the closure exactly once and gives the same container as `Context` with the closure's text |
| `ContextExt.EndToEnd` | src/lib.rs:29-39 | "connection refused" with "while opening session" (via `with_context`) and then "while handling request 42" (via `extend_context`) renders exactly as `"connection refused\n\nwhile opening session\nwhile handling request 42"`: those three lines in that order, with the empty line after the first |
| `ContextExt.LazyOnSuccess` | src/lib.rs:93-94 | for `Ok(42)` and a fresh closure, `with_context` returns `Ok(42)` and the closure's call count stays zero |

## Left out

- Trait objects, downcasting and `source()` chaining of `Box<dyn StdError + Send + Sync + 'static>`: they rest on Rust's dynamic typing. The failure is an opaque value of type `E`, and its message is a caller-supplied function.
- `Send`, `Sync` and `'static` bounds: type-level markers with no run-time behaviour.
- `Deref`, `DerefMut` and `AsRef` (src/lib.rs:15-27, 110-114): they only hand out a reference to `inner`. Mutation through `DerefMut` happens inside the foreign failure type, which is not part of this model.
- `#[derive(Debug)]` and the `Formatter` plumbing: the rendered text is a `string` value, and `to_string()` of the context argument is that argument itself.
- `ContextExt.Thunk.Call`: the closure always produces the same text. This does not lose behaviour, because `FnOnce` is called at most once.
- Moves and ownership: `Context` and `WithContext` allocate a fresh object. Exclusive ownership of that object is not modelled beyond `fresh`.
- `Errors.Error.IntoBoxed`: the Rust conversion takes the container by value and consumes it. The model only reads the object, which stays usable, with its context, afterwards.
