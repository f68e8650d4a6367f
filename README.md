# olediary SSR shell composition, modelled in Dafny

The olediary server renders a Yew application on the server and streams the
result inside a static `index.html` shell. At startup, `run` reads the
template, splits it at the first `<body>` tag with `str::split_once`, pushes
`<body>` back onto the owned prefix and keeps the rest as the suffix; an
absent tag makes `unwrap` panic before the router is built. Every GET (or
HEAD) request that matches no static file reaches `render`, which streams the prefix, the
renderer's chunks in emission order and the suffix, each item wrapped as
`Ok`, with the prefix/suffix pair shared as handler state.

The model has four modules:

- `Text` (`text.dfy`): the semantics of `str::find` and `str::split_once`
  on strings as character sequences (first occurrence, pattern removed from
  both halves).
- `ShellTemplate` (`shell.dfy`): the `<body>` marker, the `Shell` pair and
  `SplitShell`, with the round-trip, first-occurrence and suffix lemmas.
- `Rendering` (`render.dfy`): the chained response stream (`Compose`,
  `WrapOk`, `Render`) and the text a client reads from it (`Concat`,
  `BodyText`).
- `Server` (`server.dfy`): the startup step of `run` as an imperative method
  that rebinds the owned prefix, and `Serve`, the bodies handed to a series
  of requests given the startup outcome.

The UI renderer (`ServerRenderer::render_stream`) is a parameter of type
`(string, map<string, string>) -> seq<string>`: it receives the request URL
and its query map and emits a finite list of chunks. The template text is a
parameter too, in place of the file read.

A missing `<body>` makes `unwrap` panic at server/src/lib.rs:67; the model
returns `None` from `SplitShell` and `Run`, and `Serve` then yields no
response. The marker stays as the last six characters of the prefix
(server/src/lib.rs:68-69).

## Model

| member | source | states |
|---|---|---|
| `Text.Find` | server/src/lib.rs:67 | the index found is an occurrence of the pattern with none before it; none is found exactly when the pattern does not occur |
| `Text.SplitOnce` | server/src/lib.rs:67 | `None` exactly when the pattern is absent; otherwise before + pattern + after is the input and the cut is at the first occurrence |
| `ShellTemplate.SplitShell` | server/src/lib.rs:67-71 | fails exactly when the template has no `<body>`; otherwise prefix + suffix is the template and the prefix ends with `<body>` |
| `ShellTemplate.SplitAtFirstMarker` | server/src/lib.rs:67-69 | for the first occurrence index i, the prefix is the template through i + 6 and the suffix is the rest; the prefix length is i + 6 |
| `ShellTemplate.PrefixHasNoEarlierMarker` | server/src/lib.rs:67-69 | the prefix with its trailing `<body>` removed contains no `<body>` |
| `ShellTemplate.SuffixKeepsLaterMarkers` | server/src/lib.rs:67-71 | the suffix is the template after the first marker, and a `<body>` occurs in it exactly where one occurs later in the template |
| `ShellTemplate.DemoTemplateSplit` | server/src/lib.rs:67-71 | the template `<html><head></head><body><main-slot/></body></html>` splits into the prefix `<html><head></head><body>` and the suffix `<main-slot/></body></html>` |
| `Rendering.Compose` | server/src/lib.rs:28-31 | the stream is the prefix first, every chunk in emission order, the suffix last, and nothing else |
| `Rendering.WrapOk` | server/src/lib.rs:32 | every item of the stream is wrapped as `Ok`, in the same order |
| `Rendering.Render` | server/src/lib.rs:16-34 | the body is `Ok(prefix)`, the renderer's chunks for this URL and query map as `Ok`, `Ok(suffix)`; no item is an error |
| `Rendering.BodyTextOfOk` | server/src/lib.rs:28-33 | a client reading an all-`Ok` body reads the concatenation of all items |
| `Rendering.ComposedText` | server/src/lib.rs:28-31 | the composed stream's text is prefix + rendered markup + suffix |
| `Rendering.ResponseText` | server/src/lib.rs:16-34 | a response's text is the shell prefix, the markup rendered for this URL and query map, then the shell suffix |
| `Server.Run` | server/src/lib.rs:63-71 | the imperative split-and-push yields exactly `SplitShell` of the template, and fails exactly when `<body>` is absent |
| `Server.Serve` | server/src/lib.rs:73-82 | a failed startup serves nothing; otherwise the k-th request gets `Render` of its own URL and query map with the one shared shell |
| `Server.NoMarkerNoService` | server/src/lib.rs:67-91 | a template without `<body>` yields no responses to any request series |
| `Server.InsertedAfterFirstMarker` | server/src/lib.rs:67-79 | every response begins with `Ok(prefix)` and ends with `Ok(suffix)`, and its text is the template with the rendered markup inserted right after the first `<body>` |
| `Server.EmptyRenderGivesTemplate` | server/src/lib.rs:28-31 | a response whose render emits nothing reproduces the template exactly |
| `Server.DemoResponse` | server/src/lib.rs:28-31 | with the demo template, a request for `/` gets `<html><head></head><body>`, then the renderer's markup for `/` with no query parameters, then `<main-slot/></body></html>` |

## Left out

- `Executor` and its `hyper::rt::Executor` implementation (server/src/lib.rs:42-56): thread-pinned task spawning, pure concurrency.
- Reading `index.html` with `tokio::fs::read_to_string` and its `expect` (server/src/lib.rs:63-65): asynchronous I/O; the template text is a parameter.
- The router, the `ServeDir` static-file service and `axum_server::bind`/`serve` (server/src/lib.rs:73-91): HTTP plumbing in tower-http and axum; `Serve` covers only GET/HEAD requests that fall through to the render handler (other methods get 405 from `get(render)`).
- The contents of `render_stream()` and the `ServerApp` component (server/src/lib.rs:23-30, frontend/src/lib.rs): Yew's renderer is an opaque function from URL and query map to chunks, so the `MemoryHistory::push_with_query(...).unwrap()` failure is not modelled.
- The `Route` enum, `switch` and `App` (frontend/src/lib.rs): derived or constant UI code with no logic of its own.
- `Opt` (server/src/utils/clap.rs): derived argument parsing.
- The fixed listen address and the `println!` (server/src/lib.rs:84-86): configuration and output.
- `Text.Find`: indices count characters, while Rust's `find` returns UTF-8 byte offsets; the split points agree because the marker is ASCII.
- `Rendering.Infallible`: Rust's `Infallible` is uninhabited, Dafny datatypes cannot be empty, so a one-value type stands in and `Render` proves no `Err` item appears.
- The streaming itself (first-byte latency, back-pressure, client disconnects): the body is modelled as the finite list of its items.
