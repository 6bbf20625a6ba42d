/** The text an error container renders (its `Display` implementation),
    as pure functions over the wrapped failure's own message and the list
    of context entries, with the properties a reader of that text relies on. */
module Rendering {

  /** True when `s` holds no line break, so that it occupies one line. */
  predicate SingleLine(s: string) {
    '\n' !in s
  }

  /** True when every context entry occupies one line. */
  predicate AllSingleLine(cs: seq<string>) {
    forall i :: 0 <= i < |cs| ==> SingleLine(cs[i])
  }

  /** The left fold over the context entries: starting from `acc`, every
      entry is appended after a line break, oldest entry first. Whatever the
      accumulator, the fold leaves it in front and adds the reference trail. */
  function FoldContext(acc: string, cs: seq<string>): (r: string)
    ensures r == acc + Trail(cs)
    decreases |cs|
  {
    if cs == [] then acc
    else
      assert acc + "\n" + cs[0] + Trail(cs[1..]) == acc + ("\n" + cs[0] + Trail(cs[1..]));
      FoldContext(acc + "\n" + cs[0], cs[1..])
  }

  /** Reference definition of the context trail: each entry preceded by a
      line break, concatenated in attachment order. */
  function Trail(cs: seq<string>): (r: string)
    decreases |cs|
  {
    if cs == [] then "" else "\n" + cs[0] + Trail(cs[1..])
  }

  /** The rendered error: the failure's message, a line break, then the fold
      of the context entries. */
  function Render(message: string, cs: seq<string>): (r: string)
    ensures r == message + "\n" + Trail(cs)
    ensures cs == [] ==> r == message + "\n"
  {
    message + "\n" + FoldContext("", cs)
  }

  /** Attaching one more entry adds it on a new line at the very end. */
  lemma {:induction false} TrailAppend(cs: seq<string>, s: string)
    ensures Trail(cs + [s]) == Trail(cs) + "\n" + s
    decreases |cs|
  {
    if cs == [] {
      assert Trail([s]) == "\n" + s + Trail([]);
    } else {
      assert (cs + [s])[0] == cs[0];
      assert (cs + [s])[1..] == cs[1..] + [s];
      TrailAppend(cs[1..], s);
    }
  }

  /** Rendering after one more entry is attached extends the earlier
      rendering by a line break and that entry: entries appear oldest first
      and nothing already rendered changes. */
  lemma RenderAppend(message: string, cs: seq<string>, s: string)
    ensures Render(message, cs + [s]) == Render(message, cs) + "\n" + s
  {
    TrailAppend(cs, s);
  }

  /** Attaching `a` and then `b` puts `a` on the line before `b`, after
      everything rendered before them. */
  lemma RenderInOrder(message: string, cs: seq<string>, a: string, b: string)
    ensures Render(message, cs + [a] + [b]) == Render(message, cs) + "\n" + a + "\n" + b
  {
    RenderAppend(message, cs, a);
    RenderAppend(message, cs + [a], b);
  }

  /** Splitting a text at every line break, as `str::split('\n')` does. */
  function Split(s: string): (r: seq<string>)
    ensures |r| >= 1
    decreases |s|
  {
    if s == [] then [""]
    else
      var rest := Split(s[1..]);
      if s[0] == '\n' then [""] + rest else [[s[0]] + rest[0]] + rest[1..]
  }

  /** Splitting yields one more piece than the text has line breaks. */
  lemma {:induction false} SplitCount(s: string)
    ensures |Split(s)| == multiset(s)['\n'] + 1
    decreases |s|
  {
    if s != [] {
      assert s == [s[0]] + s[1..];
      SplitCount(s[1..]);
    }
  }

  /** A text without line breaks is one line. */
  lemma {:induction false} SplitSingleLine(a: string)
    requires SingleLine(a)
    ensures Split(a) == [a]
    decreases |a|
  {
    if a != [] {
      SplitSingleLine(a[1..]);
      assert [a[0]] + a[1..] == a;
    }
  }

  /** A line break after a single-line prefix starts a new line. */
  lemma {:induction false} SplitJoin(a: string, b: string)
    requires SingleLine(a)
    ensures Split(a + "\n" + b) == [a] + Split(b)
    decreases |a|
  {
    var s := a + "\n" + b;
    if a == [] {
      assert s[0] == '\n' && s[1..] == b;
    } else {
      assert s[0] == a[0];
      assert s[1..] == a[1..] + "\n" + b;
      SplitJoin(a[1..], b);
      assert [a[0]] + a[1..] == a;
    }
  }

  /** The lines of a non-empty trail, read from its first entry on, are
      exactly the entries. */
  lemma {:induction false} SplitTrail(cs: seq<string>)
    requires cs != [] && AllSingleLine(cs)
    ensures Split(cs[0] + Trail(cs[1..])) == cs
    decreases |cs|
  {
    var tail := cs[1..];
    assert SingleLine(cs[0]);
    if tail == [] {
      assert cs[0] + Trail(tail) == cs[0];
      SplitSingleLine(cs[0]);
      assert cs == [cs[0]];
    } else {
      assert cs[0] + Trail(tail) == cs[0] + "\n" + (tail[0] + Trail(tail[1..]));
      SplitJoin(cs[0], tail[0] + Trail(tail[1..]));
      assert AllSingleLine(tail) by {
        forall i | 0 <= i < |tail| ensures SingleLine(tail[i]) {
          assert tail[i] == cs[i + 1];
        }
      }
      SplitTrail(tail);
      assert [cs[0]] + tail == cs;
    }
  }

  /** Read line by line, the rendered error is the failure's message, one
      empty line, then every context entry on a line of its own in
      attachment order (with no context: the message and an empty line). */
  lemma RenderLines(message: string, cs: seq<string>)
    requires SingleLine(message) && AllSingleLine(cs)
    ensures Split(Render(message, cs)) == [message, ""] + cs
  {
    SplitJoin(message, Trail(cs));
    if cs == [] {
      assert Split("") == [""];
    } else {
      var t := cs[0] + Trail(cs[1..]);
      assert Trail(cs) == "\n" + t;
      SplitJoin("", t);
      assert "" + "\n" + t == "\n" + t;
      SplitTrail(cs);
    }
  }

  /** No information is lost in rendering: two single-line messages with
      single-line context entries render alike only when both the messages
      and the context lists are the same. */
  lemma RenderInjective(m1: string, cs1: seq<string>, m2: string, cs2: seq<string>)
    requires SingleLine(m1) && AllSingleLine(cs1)
    requires SingleLine(m2) && AllSingleLine(cs2)
    requires Render(m1, cs1) == Render(m2, cs2)
    ensures m1 == m2 && cs1 == cs2
  {
    RenderLines(m1, cs1);
    RenderLines(m2, cs2);
    var lines := [m1, ""] + cs1;
    assert lines == [m2, ""] + cs2;
    assert lines[0] == m1 && lines[0] == m2;
    assert lines[2..] == cs1 && lines[2..] == cs2;
  }
}
