/** Startup and request handling of the server (server/src/lib.rs, lines
    58-91): the template is split once, before the router exists, and the
    resulting pair is handed to every request that the static-file service
    does not answer. Reading the file, static-file serving and the network
    are not part of this model; the template text is a parameter. */
module Server {
  import opened Text
  import opened ShellTemplate
  import opened Rendering

  /** A GET or HEAD request that falls through to the render handler: its
      URL and its query parameters (a map, so keys are unique and order is irrelevant). */
  datatype Request = Request(url: string, queries: map<string, string>)

  /** The startup part of `run`: split the template at the first `<body>`,
      rebind the owned prefix with the tag appended, keep the rest as the suffix.
      `None` is the `unwrap` panic: the process stops before the router is
      built or the address is bound. */
  method Run(template: string) returns (state: Option<Shell>)
    ensures state == SplitShell(template)
    ensures state.None? <==> !Contains(template, Marker)
  {
    var parts := SplitOnce(template, Marker);
    if parts.None? {
      return None;
    }
    var before := parts.value.0;
    before := before + Marker;
    var after := parts.value.1;
    state := Some(Shell(before, after));
  }

  /** The bodies of the responses to a series of requests, given the outcome
      of startup. Every request is handed the same shell. */
  function Serve(state: Option<Shell>, requests: seq<Request>, renderer: Renderer)
    : (r: seq<seq<Result<string, Infallible>>>)
    ensures state.None? ==> r == []
    ensures state.Some? ==> |r| == |requests|
    ensures state.Some? ==> forall i :: 0 <= i < |r| ==>
      r[i] == Render(requests[i].url, requests[i].queries, state.value, renderer)
  {
    match state
    case None => []
    case Some(shell) =>
      seq(|requests|, i requires 0 <= i < |requests| =>
        Render(requests[i].url, requests[i].queries, shell, renderer))
  }

  /** A template without `<body>` serves nothing at all. */
  lemma NoMarkerNoService(template: string, requests: seq<Request>, renderer: Renderer)
    requires !Contains(template, Marker)
    ensures Serve(SplitShell(template), requests, renderer) == []
  {
  }

  /** Every response starts with the same prefix and ends with the same
      suffix, and its text is the template with the rendered markup inserted
      right after the template's first `<body>`. */
  lemma InsertedAfterFirstMarker(template: string, requests: seq<Request>, renderer: Renderer, k: nat)
    requires Contains(template, Marker)
    requires k < |requests|
    ensures var shell := SplitShell(template).value;
      var r := Serve(SplitShell(template), requests, renderer)[k];
      r[0] == Ok(shell.before) && r[|r| - 1] == Ok(shell.after)
    ensures var i := Find(template, Marker).value;
      BodyText(Serve(SplitShell(template), requests, renderer)[k])
      == template[..i + |Marker|] + Concat(renderer(requests[k].url, requests[k].queries))
         + template[i + |Marker|..]
  {
    var i := Find(template, Marker).value;
    SplitAtFirstMarker(template, i);
    ResponseText(requests[k].url, requests[k].queries, SplitShell(template).value, renderer);
  }

  /** A request for which the renderer emits nothing gets back the template
      exactly. */
  lemma EmptyRenderGivesTemplate(template: string, request: Request, renderer: Renderer)
    requires Contains(template, Marker)
    requires renderer(request.url, request.queries) == []
    ensures BodyText(Serve(SplitShell(template), [request], renderer)[0]) == template
  {
    var shell := SplitShell(template).value;
    ResponseText(request.url, request.queries, shell, renderer);
    assert Concat([]) == [];
  }

  /** The demo shell: a request for `/` without query parameters gets
      `<html><head></head><body>`, the renderer's markup for `/` with no query
      parameters, then `<main-slot/></body></html>`. */
  lemma DemoResponse(template: string, head: string, tail: string, renderer: Renderer)
    requires IsDemoTemplate(template, head, tail)
    ensures SplitShell(template).Some?
    ensures BodyText(Serve(SplitShell(template), [Request("/", map[])], renderer)[0])
         == head + Marker + Concat(renderer("/", map[])) + tail
  {
    DemoTemplateSplit(template, head, tail);
    ResponseText("/", map[], SplitShell(template).value, renderer);
  }
}
