/** The render handler (server/src/lib.rs, lines 16-34): every response body
    is a stream of text items made of the shell prefix, then the chunks the
    UI renderer emits for the request, then the shell suffix, each item
    wrapped as `Ok`. */
module Rendering {
  import opened ShellTemplate

  /** Rust's `Infallible` has no values at all; a Dafny datatype cannot be
      empty, so this one-value type stands in for it and the lemmas below
      prove that no `Err` is ever produced. */
  datatype Infallible = Infallible

  datatype Result<T, E> = Ok(value: T) | Err(error: E)

  /** The UI renderer, opaque here: from the request URL and its query
      parameters to the ordered, finite list of markup chunks it emits. */
  type Renderer = (string, map<string, string>) -> seq<string>

  /** The chained stream `once(prefix) ++ chunks ++ once(suffix)`. */
  function Compose(prefix: string, chunks: seq<string>, suffix: string): (r: seq<string>)
    ensures |r| == |chunks| + 2
    ensures r[0] == prefix && r[|r| - 1] == suffix
    ensures forall i :: 0 <= i < |chunks| ==> r[i + 1] == chunks[i]
  {
    [prefix] + chunks + [suffix]
  }

  /** `.map(Result::Ok)` over the stream. */
  function WrapOk(items: seq<string>): (r: seq<Result<string, Infallible>>)
    ensures |r| == |items|
    ensures forall i :: 0 <= i < |r| ==> r[i] == Ok(items[i])
  {
    seq(|items|, i requires 0 <= i < |items| => Ok(items[i]))
  }

  /** The body of the response to one request that falls through to the
      render handler, given the shell shared as handler state. */
  function Render(url: string, queries: map<string, string>, shell: Shell, renderer: Renderer)
    : (r: seq<Result<string, Infallible>>)
    ensures |r| == |renderer(url, queries)| + 2
    ensures r[0] == Ok(shell.before) && r[|r| - 1] == Ok(shell.after)
    ensures forall i :: 0 <= i < |renderer(url, queries)| ==> r[i + 1] == Ok(renderer(url, queries)[i])
    ensures forall i :: 0 <= i < |r| ==> r[i].Ok?
  {
    WrapOk(Compose(shell.before, renderer(url, queries), shell.after))
  }

  /** The text a client reads from a list of chunks, in order. */
  function Concat(chunks: seq<string>): string {
    if chunks == [] then [] else chunks[0] + Concat(chunks[1..])
  }

  /** The text a client reads from a streamed body: the items' text in order,
      up to the first error, which ends the stream. */
  function BodyText(items: seq<Result<string, Infallible>>): string {
    if items == [] then []
    else match items[0]
      case Ok(s) => s + BodyText(items[1..])
      case Err(_) => []
  }

  lemma {:induction false} ConcatAppend(a: seq<string>, b: seq<string>)
    ensures Concat(a + b) == Concat(a) + Concat(b)
  {
    if a == [] {
      assert a + b == b;
    } else {
      assert (a + b)[1..] == a[1..] + b;
      ConcatAppend(a[1..], b);
    }
  }

  /** Reading a body in which every item is `Ok` reads all of their text. */
  lemma {:induction false} BodyTextOfOk(items: seq<string>)
    ensures BodyText(WrapOk(items)) == Concat(items)
  {
    if items != [] {
      assert WrapOk(items)[1..] == WrapOk(items[1..]);
      BodyTextOfOk(items[1..]);
    }
  }

  /** The composed stream carries exactly the prefix, the rendered markup
      and the suffix, in that order, with nothing lost or added. */
  lemma ComposedText(prefix: string, chunks: seq<string>, suffix: string)
    ensures Concat(Compose(prefix, chunks, suffix)) == prefix + Concat(chunks) + suffix
  {
    ConcatAppend([prefix] + chunks, [suffix]);
    ConcatAppend([prefix], chunks);
    assert Concat([suffix]) == suffix + Concat([]);
    assert Concat([prefix]) == prefix + Concat([]);
  }

  /** The text of a rendered response: the shell prefix, the renderer's
      markup for this URL and these query parameters, the shell suffix. */
  lemma ResponseText(url: string, queries: map<string, string>, shell: Shell, renderer: Renderer)
    ensures BodyText(Render(url, queries, shell, renderer))
         == shell.before + Concat(renderer(url, queries)) + shell.after
  {
    var chunks := Compose(shell.before, renderer(url, queries), shell.after);
    BodyTextOfOk(chunks);
    ComposedText(shell.before, renderer(url, queries), shell.after);
  }
}
