# simple-rust-web: route matching, dispatch and renderers in Dafny

This project models the core of a minimal Rust web-application scaffold built on
Iron and Handlebars. A request's path arrives as a list of segments. It is matched
against an ordered table of route patterns such as `foo/bar/:test/:this`. A segment
that starts with `:` captures the percent-decoded path segment under its name. The
first route that matches renders the response. If none matches, the answer is a
404 page.

Files and modules:

- `wrappers.dfy` (`Wrappers`): `Option` and `Result`.
- `text.dfy` (`Text`): text as UTF-8 bytes, `str::split("/")` as `Split`, and its inverse `Join`.
- `urldecode.dfy` (`UrlDecoding`): `urldecode`, meaning percent-decoding (section 2.1
  of RFC 3986) followed by the UTF-8 check (section 4 of RFC 3629) that the source unwraps.
- `match_path.dfy` (`PathMatching`): `match_path` as a method with a loop, proved
  against the function `Match`, plus the lemmas about `Match`.
- `match_examples.dfy` (`PathMatchingExamples`): the doc-comment example and a
  duplicate-name example on concrete bytes.
- `renderer.dfy` (`Renderers`): `Response`, `TranslatorError`, the renderer variants,
  `render_ok` and `render_error`.
- `server.dfy` (`Routing`): the `Server` class, with its `routes` table, the `add_*`
  methods and `handle`.

Text is a sequence of bytes, because Rust strings are UTF-8 byte strings. Splitting
on `/`, `starts_with(":")` and segment comparison all work byte by byte.

Handlebars and serde_json are foreign code. They enter the model as function values:

- `Templates.layout(title, body)` stands for the `layout` template.
- `Templates.render(name, value)` stands for the other registered templates.
- The `serialize` field of the JSON renderer stands for `serde_json::to_string`.

Every property therefore holds for every layout, template and serialiser. What the
properties pin down is the status, the content type, and which title and body are
passed to the layout.

A `panic` in the source becomes a precondition. Three cases:

- `urldecode` unwraps a UTF-8 check. `MatchPath` requires `!Panics(...)`: no capture
  that the scan actually reaches has a segment that fails to decode. `Handle`
  requires the same for every route it tries (`HandledWithoutPanic`).
- `StaticRenderer::new` expects its content to be UTF-8, so `AddStatic` requires `ValidUtf8(content)`.
- `handle` expects the not-found page to be UTF-8 whenever it serves it.

A capture that does not decode is not treated as a failed match that falls through to
the next route, because the code panics there. The model follows the code.

Matching is a function of its inputs, so matching the same pattern and path always
gives the same result.

## Model

| member | source | states |
|---|---|---|
| `Text.Split` | src/main.rs:115 | `pattern.split("/")` always yields at least one segment; JoinSplit and SplitJoin prove it is the inverse of joining with "/", and SplitHasNoSlash that no segment contains "/" |
| `Text.JoinSplit` | src/main.rs:115 | Splitting the pattern on "/" loses nothing: joining the pieces with "/" gives the pattern back |
| `Text.SplitJoin` | src/main.rs:115 | Splitting undoes joining for slash-free pieces, so the split of a pattern is exactly its list of segments |
| `Text.SplitHasNoSlash` | src/main.rs:115 | No segment of a split pattern contains "/" |
| `UrlDecoding.PercentDecode` | src/main.rs:131-133 | Percent-decoding never lengthens a segment |
| `UrlDecoding.PercentDecodeIdentity` | src/main.rs:131-133 | A segment with no "%" decodes to itself |
| `UrlDecoding.PercentDecodeEncode` | src/main.rs:131-133 | Decoding inverts percent-encoding: every byte string is recovered from its "%HL" escapes |
| `UrlDecoding.AsciiIsValidUtf8` | src/main.rs:132 | ASCII bytes always pass the UTF-8 check that `urldecode` unwraps |
| `UrlDecoding.UrlDecode` | src/main.rs:131-133 | When the decoded bytes are valid UTF-8 (otherwise the source panics), the result is valid UTF-8, and a segment without "%" comes back unchanged |
| `PathMatching.Match` | src/main.rs:113-128 | Matching succeeds exactly when the segment counts are equal and every literal segment equals its path segment |
| `PathMatching.MatchDecodable` | src/main.rs:119-121 | When a pattern matches and the scan does not panic, every capture's path segment decodes |
| `PathMatching.MatchPath` | src/main.rs:113-128 | The loop (split, length check, capture insert or early None on a literal mismatch) returns exactly `Match(pattern, path)` |
| `PathMatching.MatchLengthMismatch` | src/main.rs:115-117 | When the segment counts differ, the result is None whatever the contents, and nothing panics |
| `PathMatching.MatchLiteralMismatch` | src/main.rs:119-124 | With equal counts, one literal segment that differs from its path segment makes the result None |
| `PathMatching.CapturesUpToKeys` | src/main.rs:119-121 | The keys of the capture map are exactly the names (after ":") of the capture segments scanned |
| `PathMatching.CapturesUpToLast` | src/main.rs:119-121 | Each name maps to the decoded path segment at its last capture position, because later inserts overwrite |
| `PathMatching.MatchCaptures` | src/main.rs:119-126 | A successful match is Some, its keys are exactly the capture names, and each name holds the decoded segment at its last capture position |
| `PathMatching.LiteralPatternMatch` | src/main.rs:114-126 | A pattern without captures matches only the path equal to its own segments, and then captures nothing |
| `PathMatchingExamples.DocExample` | src/main.rs:101-111 | "foo/bar/:test/:this" on foo, bar, not, that gives {test: "not", this: "that"} |
| `PathMatchingExamples.DuplicateNameExample` | src/main.rs:119-121 | ":id/:id" on x, y gives {id: "y"}: the later duplicate wins |
| `Renderers.ErrorResponse` | src/renderer.rs:74-83 | A translator error gives a plain-text body equal to its message, with status 400 exactly for ParameterError and 500 exactly for TranslationError |
| `Renderers.RenderStatic` | src/renderer.rs:36-39 | A static page is 200 HTML: the layout on title APP_TITLE + " - " + name and the stored content |
| `Renderers.RenderJson` | src/renderer.rs:58-85 | 200 with JSON content type and the serialised text exactly when translation and serialisation succeed; otherwise plain text; 400 exactly for ParameterError; 500 with the serialiser's description when serialisation fails; on a translator error exactly the ErrorResponse (message as body, 400 or 500) |
| `Renderers.RenderPage` | src/renderer.rs:92-110 | 200 exactly when translation succeeds, and then HTML: the layout on title APP_TITLE + " - " + name and the template rendered on the value; otherwise exactly the ErrorResponse of the translator error (plain text carrying the message, 400 for ParameterError, 500 for TranslationError) |
| `Renderers.RenderOk` | src/renderer.rs:114-122 | Status 200, HTML, and the layout rendered on exactly the given title and body; ErrorPageIsAppTitledPage relates it to `render_error` |
| `Renderers.RenderError` | src/renderer.rs:125-133 | The given status, HTML, and the layout rendered on the title APP_TITLE and the given body; ErrorPageIsAppTitledPage shows it is the `render_ok` page under APP_TITLE with the status replaced |
| `Renderers.Render` | src/renderer.rs:22-24 | The trait's `render`, dispatched on the renderer: a built-in renderer never returns an error, answers 200, 400 or 500, and answers plain text exactly when the status is not 200; an application renderer's result, error included, is passed on; BuiltinIgnoresRequest shows the built-ins ignore params and depth |
| `Renderers.ErrorPageIsAppTitledPage` | src/renderer.rs:114-132 | `render_error` is the layout page of `render_ok` under the bare APP_TITLE, with the given status and HTML |
| `Renderers.BuiltinIgnoresRequest` | src/renderer.rs:35-111 | The built-in renderers ignore the request parameters and the depth, and the static renderer also ignores the captures |
| `Renderers.TranslatorErrorsAgree` | src/renderer.rs:74-108 | On a translator error, the JSON renderer and the page renderer give the same response |
| `Renderers.PageTitleInjective` | src/renderer.rs:37 | A page title (APP_TITLE + " - " + name) never equals the error-page title APP_TITLE, so `render_ok` pages and `render_error` pages get different titles; and the title determines the page name |
| `Routing.FirstMatch` | src/main.rs:79-90 | The position found is the lowest one whose pattern matches; None exactly when no pattern matches |
| `Routing.EarlierRouteWins` | src/main.rs:79-88 | Of two matching routes, the one registered first is chosen |
| `Routing.FirstMatchAppend` | src/main.rs:64-66 | Appending a route never changes which route serves a path that an earlier route already serves |
| `Routing.Server.constructor` | src/main.rs:49-52 | A new server has the given templates and an empty route table |
| `Routing.Server.AddStatic` | src/main.rs:58-60 | Appends exactly one static route at the end; earlier routes are unchanged and keep their order |
| `Routing.Server.AddRenderer` | src/main.rs:64-66 | Appends exactly one route with the given renderer at the end; earlier routes are unchanged and keep their order |
| `Routing.Server.AddTranslator` | src/main.rs:71-74 | Appends exactly one translator-page route at the end; earlier routes are unchanged and keep their order |
| `Routing.Server.Handle` | src/main.rs:78-95 | Returns the result of rendering with the first matching route, its captures, the request parameters and depth = path length (an application renderer's error passed through unchanged); with no match, Ok of the not-found page through `render_error` with status 404 |

## Left out

- `main` (CLI parsing, port default 3000, HTTP binding) and the example `init`/`TestTranslator`: process bootstrap and I/O.
- `Server::new` template registration: the registry is an input of the constructor (`Templates`). The bundled files and `templates.rs` are not part of this model.
- Handlebars rendering failures (`expect` on the layout and on a template): the engine is a total function. The layout's validity is a start-up invariant.
- `req.get_ref::<Params>().unwrap()`: the parameters are an input of `Handle`, so its panic on a request whose parameters cannot be parsed (after a route has matched) is not modelled. They are flattened to a text-to-text map, because `params::Map` holds nested values and no built-in renderer reads them.
- Per-route value types: Rust boxes a translator of any `Serialize` type A behind `Box<Renderer>`. The model uses one value type `V` for the whole table.
- The `percent_encoding` crate: its decoder is restated from section 2.1 of RFC 3986. A "%" not followed by two hex digits is kept as it is, and no other malformed-input behaviour is mirrored.
- `IronError`'s wrapped error object: an application renderer's error is a description and the response Iron sends for it.
- Iron's concrete MIME strings: the content type is one of three tags (`TextHtml`, `ApplicationJson`, `TextPlain`).
- `Send + Sync`, the Iron `Handler` trait, and concurrency: the route table is only read while requests are served.
