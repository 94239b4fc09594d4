# Fault-injection proxy: route matching, configuration check and dispatch

This project models the logic of a small HTTP proxy for fault injection. A
configuration lists routes, each with an HTTP method, a path pattern, a canned
status and a canned body. A request that matches a route gets the canned
response. Any other request is redirected to the real server: the configured
`fallbackUrl` followed by the request path.

It has four modules:

- `Json` (json.dfy): decoded JSON values and JavaScript's `key in value` on them.
- `Routing` (routing.dfy): `routeMatch`. It includes `String.prototype.split('/')`
  as `Split`, with `Join` as its inverse. The loop is the method `RouteMatch`,
  proved equal to the predicate `PathMatches`.
- `Validation` (validation.dfy): `validateConfig` as the function `ValidateConfig`.
  It also holds the same checks written as one ordered list (`ConfigChecks`,
  `FirstFailure`), and `Startup`, which is the validator followed by the
  `!fallbackUrl` check of `main`.
- `Handler` (handler.dfy): the `app.use` handler. `Response` records each
  `res.status(..).send(..)` and `res.redirect(..)` as an `Action`. `Handle` is
  the handler as written. `Decide` is the first-match-wins decision that the header comment of src/server.js describes.
  `Dispatch` is the handler as intended.

Behaviour of the code worth knowing:

- Validation stops at the first error. It does not collect all errors.
- `validateConfig` accepts an empty `fallbackUrl`. The separate falsiness check in `main` rejects it (`Startup`).
- Pattern segments are split again on every request. They are not pre-parsed into literal and wildcard segments.
- An unmatched request is redirected. It is not proxied.
- The handler writes once per route. It does not stop at the first match (see Findings).

## Model

| member | source | states |
|---|---|---|
| `Routing.Split` | src/server.js:28-29 | `split('/')` returns at least one piece, and no piece contains a separator |
| `Routing.JoinSplit` | src/server.js:28-29 | joining the pieces of a split with '/' gives back the original string |
| `Routing.SplitJoin` | src/server.js:28-29 | splitting the '/'-join of a non-empty list of separator-free pieces, empty pieces included, gives back those pieces |
| `Routing.SplitLength` | src/server.js:28-31 | a string splits into one more piece than it has '/' characters |
| `Routing.RouteMatch` | src/server.js:27-46 | the loop with early returns answers exactly `PathMatches`: equal segment counts, and each pattern segment starts with ':' or equals the request segment |
| `Routing.PathMatchesItself` | src/server.js:35-45 | every path matches itself used as a pattern |
| `Routing.MatchNeedsEqualDepth` | src/server.js:31-33 | a match needs as many separators in the path as in the pattern |
| `Routing.ExtraSegmentNeverMatches` | src/server.js:31-33 | a path that matches a pattern no longer matches once a segment is appended; an empty segment (a trailing slash) counts |
| `Routing.LiteralRouteMatchesOnlyItself` | src/server.js:35-45 | a pattern with no ':' segment matches a path if and only if the path is the identical string |
| `Routing.WildcardAcceptsAnyValue` | src/server.js:36-38 | replacing the segment under a wildcard by any separator-free value keeps the match |
| `Routing.UsersRouteMatchesAnyId` | src/server.js:27-46 | `/users/` followed by any separator-free id, the empty one included, matches `/users/:id` |
| `Routing.UsersRouteRejectsDeeperPaths` | src/server.js:31-33 | `/users/42/extra` and `/users/42/` do not match `/users/:id` |
| `Routing.UsersRouteNeedsExactLiteral` | src/server.js:40-42 | `/X/id` matches `/users/:id` if and only if `X` is exactly `users`; the comparison is case-sensitive |
| `Validation.CheckRoute` | src/server.js:62-94 | one route passes if and only if it is an object with an allowed method, a string path, a numeric status in [100, 600) and a `body` key |
| `Validation.ValidateRoutes` | src/server.js:62-94 | a routes array passes if and only if every element is a well-formed route |
| `Validation.ValidateConfig` | src/server.js:48-96 | a configuration passes if and only if it has a string `fallbackUrl` and `routes` is absent or an array of well-formed routes |
| `Validation.FirstFailureReportsFirstFailingCheck` | src/server.js:48-96 | running checks in order passes if and only if all hold, and otherwise reports the error of the first check that fails |
| `Validation.CheckRouteReportsFirstFailure` | src/server.js:63-93 | within a route the error reported is that of the first failing check, in the order method present, method allowed, path present, path string, status present, status number, status range, body present |
| `Validation.ValidateConfigReportsFirstFailure` | src/server.js:48-96 | the error thrown is that of the first failing check: the configuration's own checks first, then each route's checks, routes in array order |
| `Validation.FirstBadRouteReported` | src/server.js:62-94 | the routes fail with `e` if and only if some route fails with `e` and every route before it is well-formed |
| `Validation.StatusBoundsAndAnyBody` | src/server.js:87-93 | with an allowed method, a route passes if and only if 100 <= status < 600, and any body value passes, `null`, "" and `false` included |
| `Validation.DisallowedMethodReported` | src/server.js:67-69 | a string method outside GET, POST, PUT and DELETE fails with the method error, whatever the other fields hold |
| `Validation.FallbackUrlCheckedFirst` | src/server.js:49-55 | without a string `fallbackUrl` the error is about `fallbackUrl`, whatever `routes` holds |
| `Validation.AbsentRoutesValid` | src/server.js:57 | a configuration with only a string `fallbackUrl` is valid |
| `Validation.ReadRoute` | src/server.js:111-113 | a valid route is read field for field, with no coercion, and its method and status are in range |
| `Validation.ReadRoutes` | src/server.js:110 | the routes the handler reads are those of the configuration, in order and field for field, and absent when the key is absent |
| `Validation.Message` | src/server.js:51-92 | each error carries the source's message, and a message about a field begins with that field's name |
| `Validation.MessagesDistinct` | src/server.js:51-92 | no two errors share a message, so the message tells which check failed |
| `Validation.Startup` | src/server.js:101-106 | startup succeeds if and only if validation passes and `fallbackUrl` is not ""; the handler then gets that non-empty URL and the routes unchanged; a validation failure keeps its error, and a valid configuration whose `fallbackUrl` is "" fails with the separate `NoFallbackUrl` |
| `Validation.EmptyFallbackRefusedAtStartup` | src/server.js:102-106 | an empty `fallbackUrl` passes validation but is refused by the falsiness check |
| `Handler.Response.constructor` | src/server.js:109 | a fresh response has had no writes |
| `Handler.Response.Send` | src/server.js:113 | `res.status(s).send(b)` appends `Send(s, b)` to the writes |
| `Handler.Response.Redirect` | src/server.js:119 | `res.redirect(url)` appends `Redirect(url)` to the writes |
| `Handler.Handle` | src/server.js:109-121 | the handler throws, with no write, exactly when `routes` is absent; otherwise it appends one write per route, in order (`Emitted`) |
| `Handler.OneWritePerRoute` | src/server.js:110-120 | there are as many writes as routes; write `i` is route `i`'s status and body when that route applies, and otherwise a redirect to `fallbackUrl + req.path` |
| `Handler.Decide` | src/server.js:9-10 | the intended decision serves only the status and body of a route that applies, and otherwise forwards to `fallbackUrl + req.path`; `Handler.FirstMatchWins` proves it is the first such route |
| `Handler.FirstMatchWins` | src/server.js:9-10 | the intended decision serves if and only if some route applies, serves the first applying route's status and body, and otherwise forwards to `fallbackUrl + req.path` |
| `Handler.HandlerAgreesWithDecision` | src/server.js:110-120 | the first send the handler writes carries the first matching route's response, and there is no send when no route matches; when nothing matches, every write is the fallback redirect |
| `Handler.ReturnOnlyLeavesCallback` | src/server.js:110-120 | with routes `GET /a` and `GET /b`, the request `GET /b` is redirected first and then sent the second route's response |
| `Handler.RoutelessConfigReachesHandler` | src/server.js:57 | a configuration without `routes` passes startup and reaches the handler with no routes |
| `Handler.Dispatch` | src/server.js:9-10 | the intended handler makes exactly one write: the first matching route's response, or otherwise one redirect; an absent `routes` counts as empty |

## Left out

- Reading the configuration file, `JSON.parse` and `process.exit` (src/server.js:17-25): these are I/O. The model starts from the decoded JSON value.
- Express, `app.listen`, the `PORT` and `PROXY_CONFIG_FILE` environment variables, and all logging (src/server.js:99, 107, 112, 117, 123-126): these are plumbing.
- What a write does on the wire. This includes Express's failure when a second write reaches a response whose headers were already sent: in the running program that error would end the `forEach` at the second write. The model records each write as an abstract `Action` and lets the loop continue.
- How Express derives `req.path` (query stripping, decoding): the path is a given string.
- Validation.CheckRoute: statuses are integers. A JavaScript status is a double, so a fractional status such as 404.5 passes the range check in the source. The model cannot express it.
- Validation.Message: the message for `NotAnObject` stands for the engine's TypeError from `in` on `null`, booleans, numbers and strings. It is not the engine's exact text.
- Prototype-chain lookup of `in`: none of the keys the validator asks about is inherited by plain objects or arrays, so `Field` looks only at own keys.

## Findings

| source | as written | input that shows it | evidently intended | confidence | as-written member | corrected member |
|---|---|---|---|---|---|---|
| src/server.js:110-120 | `return` after the send leaves only the `forEach` callback, so every route writes: each non-matching route redirects, and each matching one sends | routes `GET /a → 500` and `GET /b → 503`, request `GET /b`: a redirect to `fallbackUrl + "/b"`, then a send of 503 | the first matching route's response only, or a single redirect when none matches (src/server.js:9-10) | high; not executed | `Handler.ReturnOnlyLeavesCallback` | `Handler.Dispatch` |
| src/server.js:57, 110 | an absent `routes` passes validation, but the handler calls `config.routes.forEach` on `undefined` and throws on every request | `{"fallbackUrl": "http://x"}` | a configuration without routes forwards every request to the fallback | medium; not executed | `Handler.RoutelessConfigReachesHandler` | `Handler.Dispatch` |
