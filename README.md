# A verified model of a minimal Go HTTP router

This project models the URL router of a small Go web application (`main.go`).
The router keeps a two-level table from HTTP method and URL pattern to a
handler. `HandleFunc` fills the table. `ServeHTTP` scans the patterns
registered for the request's method. It calls the handler of a pattern that
`match` accepts, giving it a context with the captured URL parameters. When
no pattern matches, the request is answered NotFound.

- `segments.dfy` (module `Segments`): Go's `strings.Split(s, "/")` as a
  function, with its slash count and its inverse `Join`.
- `matcher.dfy` (module `Matcher`): `match(pattern, path)`. It has a
  declarative specification (`Match`, built from `Fits` and `Captures`) and
  the source's loop as methods (`MatchPaths`, `MatchPieces`) proved equal
  to it. Around them are the lemmas that state what `match` promises, and
  concrete routes.
- `router.dfy` (module `Router`): the route table as a class `Router` with
  a `handlers` field, updated in place by `HandleFunc`. `ServeHTTP` is a
  loop that picks patterns in no fixed order. `CopyParams` is the loop that
  copies the parameters into the context. `Outcomes` is the set of
  everything dispatch may do.
- `main_routes.dfy` (module `MainRoutes`): the six routes that `main()`
  registers, used as concrete cases, and an overlapping pair of patterns.

Modelling choices:

- Go strings are byte strings. A Dafny `char` stands for a byte here.
  Only `/` and `:` are ever inspected, so nothing depends on encoding.
- Go's nil map result of `match` is `None`. A non-nil map is
  `Some(m)`. The handler's context receives the empty map for `None`,
  which is what the copy loop at main.go:122-124 does.
- Handlers are opaque identities (`HandlerId`). Calling a handler is the
  outcome `Dispatched(handler, context)`. `http.NotFound` is the outcome
  `NotFound`.
- Go visits a map in no fixed order. `ServeHTTP` therefore picks the next
  pattern with `:|`, which is a nondeterministic choice. Its contract
  says the outcome is one of `Outcomes(handlers, req)`. That set holds one
  dispatch per matching pattern, or only NotFound when none matches.

Where the design description and the code differ, the model follows the
code:

- The description says repeated dispatch of the same request against an
  unchanged table always picks the same handler. The code gives no such
  guarantee when two registered patterns both match, because the order of
  a Go map range is unspecified. `Router.OverlapBothPossible` and
  `MainRoutes.OverlapAmbiguous` show that two different outcomes are then
  possible. `Router.UniqueMatchDetermined` shows that the outcome is fixed
  when exactly one pattern matches.
- The description lists "capture" as the step for a `:`-segment. The code
  tests literal equality first. So a `:x` pattern segment facing the path
  segment `:x` records nothing (`Matcher.LiteralCaptureRecordsNothing`).
- On the fast path (pattern and path identical) the code returns a nil
  map, not an empty one. The handler still sees an empty map.

## Model

| member | source | states |
|---|---|---|
| `Segments.SplitCount` | main.go:82-83 | A string with n slashes splits into n + 1 pieces, so "" gives one piece. |
| `Segments.SplitSegments` | main.go:82-83 | No piece of a split contains a slash. |
| `Segments.JoinSplit` | main.go:82-83 | Joining the pieces of a split with "/" gives back the original string. |
| `Segments.SplitJoin` | main.go:82-83 | Splitting slash-free segments joined by "/" gives back exactly those segments. |
| `Matcher.Name` | main.go:100 | A parameter name is the capture segment with its leading ':' removed. |
| `Matcher.MatchPieces` | main.go:91-108 | The loop succeeds exactly when every pattern segment equals its path segment or is a capture. On success it returns the left-to-right captures. On failure it returns nil. |
| `Matcher.MatchPaths` | main.go:75-109 | match as written (fast path, split, count check, loop) equals the specification `Match` on every input. |
| `Matcher.IdenticalMatches` | main.go:77-79 | Byte-identical pattern and path match, with a nil map. |
| `Matcher.CountMismatchFails` | main.go:86-88 | Different segment counts fail, with a nil map. |
| `Matcher.CountMismatchBySlashes` | main.go:82-88 | Different slash counts fail, with a nil map. |
| `Matcher.NilMeansFastPath` | main.go:77-108 | A failure never carries parameters. A success carries a nil map exactly when pattern and path are identical. |
| `Matcher.MatchIffFits` | main.go:94-108 | For different strings: success iff equal segment counts and every pattern segment equals its path segment or is a non-empty ':' segment. The map is then the captures. |
| `Matcher.LiteralMismatchFails` | main.go:98-103 | A non-capture pattern segment unequal to its path segment makes match fail. This includes an empty segment facing a non-empty one. |
| `Matcher.CapturesKeys` | main.go:96-100 | A name is recorded iff some capture segment of that name differs from its path segment. |
| `Matcher.CapturesValue` | main.go:98-100 | The value under a name comes from the right-most recording position of that name. |
| `Matcher.MatchParams` | main.go:91-108 | On slow-path success, the parameter names are exactly those of the recording capture segments. |
| `Matcher.MatchParamValue` | main.go:98-108 | On slow-path success, each name maps to the path segment at its right-most recording position. |
| `Matcher.UserByIdRoute` | main.go:27 | "/users/:id" matches "/users/42" and gives {id: "42"}. |
| `Matcher.UserByIdAnyId` | main.go:27 | "/users/:id" matches "/users/" + s for every segment s other than ":id" itself, and gives {id: s}. |
| `Matcher.UserAddressRoute` | main.go:31 | The two-parameter route captures both path segments under user_id and address_id. |
| `Matcher.ExtraSegmentFails` | main.go:86-88 | "/users/:id" does not match "/users/42/extra". |
| `Matcher.BareMarkerCapturesEmptyName` | main.go:98-100 | A bare ':' segment captures under the empty name. |
| `Matcher.RepeatedNameKeepsLast` | main.go:100 | A repeated parameter name keeps the right-most value. |
| `Matcher.LiteralCaptureRecordsNothing` | main.go:96 | A ':x' segment facing a literal ':x' passes as a literal and records nothing. |
| `Matcher.EmptySegmentFails` | main.go:98-103 | An empty pattern segment from a doubled slash does not match a non-empty path segment. |
| `Router.CopyParams` | main.go:117-124 | The context's parameters are a copy of the match's map, or empty for a nil map. |
| `Router.Router.constructor` | main.go:13 | A new router has an empty table. |
| `Router.Router.HandleFunc` | main.go:61-72 | The new table is the old one with (method, pattern) set to h. The method's inner map is created on first use. Every other entry is unchanged. |
| `Router.Router.ServeHTTP` | main.go:112-133 | The outcome is one that the table allows. It is NotFound exactly when no pattern registered under the method matches the path. |
| `Router.RegisterLookup` | main.go:61-72 | After registering, looking up (method, pattern) gives h. Every other lookup is as before. |
| `Router.RegisterRoutes` | main.go:63-71 | Registering adds the pattern to its method's patterns and removes none. |
| `Router.RegisterTwice` | main.go:71 | Registering the same (method, pattern) twice equals registering only the second handler. |
| `Router.OutcomesExactly` | main.go:114-131 | An outcome is possible iff it is NotFound with no match, or a dispatch through a registered matching pattern with its handler and parameters. |
| `Router.NotFoundIffUnroutable` | main.go:114-131 | There is always an outcome. NotFound is possible exactly when no registered pattern matches. |
| `Router.DispatchedParams` | main.go:115-126 | A dispatch calls the stored handler with the request. The parameters are empty on the fast path and are the captures otherwise. |
| `Router.UnregisteredMethodNotFound` | main.go:114-131 | A method with no inner map answers every request NotFound. |
| `Router.UniqueMatchDetermined` | main.go:114-127 | When exactly one registered pattern matches, the outcome is fixed. |
| `Router.OverlapBothPossible` | main.go:114-115 | Two matching patterns with different handlers give two different possible outcomes. |
| `Router.ReRegisteredHandlerWins` | main.go:71 | After re-registering a pair, dispatch through it reaches only the second handler. The possible outcomes equal those of registering only the second handler. |
| `MainRoutes.SetUpRoutes` | main.go:13-43 | The six registrations of main() build `MainTable()`. |
| `MainRoutes.MainTableShape` | main.go:15-43 | main() registers GET and POST only, and "/about" holds its handler. |
| `MainRoutes.DeleteNotFound` | main.go:114-131 | Every DELETE request to the main routes is NotFound. |
| `MainRoutes.GetAbout` | main.go:21-25 | GET /about can reach the about handler with no parameters and is never NotFound. |
| `MainRoutes.OverlapAmbiguous` | main.go:114-127 | "/users/admin" and "/users/:id" under GET both fit "/users/admin". Either handler may be called. |

## Left out

- `main()`'s call to `http.ListenAndServe` and the server that runs requests concurrently (main.go:46): server start-up, network I/O and concurrency are outside the router.
- Handler bodies (main.go:16-18, 22-24, 28, 32-34, 38, 42): they write responses, log, and read the clock. A handler is an opaque `HandlerId`.
- `http.ResponseWriter`, `*http.Request` and `http.NotFound` (main.go:131, 144-145): these are foreign net/http values and calls. A request is its method and path. NotFound is an outcome tag. The ResponseWriter, which the router passes through untouched, is not modelled.
- Go's map aliasing in `HandleFunc`: the code mutates the inner map it has just stored (main.go:66-71). The model stores a value map and writes it back. The resulting table is the same.
- Go's iteration order over maps (main.go:114, 122) is not fixed. Both loops pick their next key nondeterministically.
- router.go is not part of this model. It is an earlier draft of the same router that does not compile, and main.go covers its intended behaviour.
- `Matcher.UserAddressRoute`: the pattern and path are written by their segments (`Join([...])`). Long string literals are too costly for the verifier to split.
- `MainRoutes.GetAbout`: it states only that the about handler is a possible outcome. It does not state that it is the only one. Ruling out the longest registered pattern would require splitting long string literals.
