# Hashbang routing, dispatch and responses in Dafny

Hashbang is a small web toolkit in two halves:

- a browser library, `js/hashbang.js`, with a hash router, event targets, a timer, a template compiler and a few helpers;
- a PHP server side, in an older `lib` variant and a newer `src` variant. Each has a `Route`, a `Router`, an `App` with registration shortcuts, and a `Response` value object.

This project models the sequential core of both halves and proves what they promise.

- **Route declarations and matching** (`pattern.dfy`).
  - A declaration such as `/users/:id(/:page)?` is compiled to a sequence of elements: a literal character, a `:name` group, or an optional `(/:name)?` group.
  - The two textual passes every router applies are modelled as string functions. A lemma shows that the element sequence renders to exactly the text they build.
  - Matching is a backtracking engine, greedy as RegExp and PCRE are. It is proved sound and complete against a declarative acceptance relation.
  - On top of it sit an unanchored leftmost search (the JavaScript router and the `src` routes) and an anchored whole-path match (the `lib` routes, with PCRE's `$` before a final newline).
- **The hash router** (`hash_router.dfy`): route construction, `encode`/`decode`, and one run of `match` over the routes in registration order.
- **Client pieces**:
  - `EventTarget` and `Timer` (`events.dfy`);
  - the `Template` source rewrite (`template.dfy`);
  - `uuid`, `Math.clamp`, `Array.select` and `Array.clear` (`helpers.dfy`).
- **The server**:
  - the two `Route` classes (`src_route.dfy`, `lib_route.dfy`);
  - the `src` `Router` with its first-match scan and its outcome classification (`src_router.dfy`);
  - both `App` classes (`src_app.dfy`, `lib_app.dfy`) and their shortcuts (`shortcuts.dfy`);
  - both `Response` classes (`src_response.dfy`, `lib_response.dfy`);
  - the data, `formatError` and `jsonSerialize` they share (`payload.dfy`).

Things that change state in the source are modelled as classes with `modifies` clauses: routers, route method maps, event targets, the timer, apps and loggers. Route compilation, matching, responses and string rewrites are modelled as functions.

## Model

| member | source | states |
|---|---|---|
| Pattern.CompileRendersRewrite | js/hashbang.js:297-317 | Rendering the compiled element sequence gives exactly the text of the two passes: first `(/:name)?` to `(?:/:name)?`, then every `:name` to the capture group of the dialect. |
| Pattern.HoldsDelimiterIsMembership | src/Hashbang/Route.php:37 | The delimiter test on elements holds exactly when the backtick literal is one of them. |
| Pattern.DelimiterInDeclaration | src/Hashbang/Route.php:34-37 | A declaration holds a backtick iff its elements hold it as a literal, iff the pattern text the two passes build holds it. |
| HashRouter.MakeRoute | js/hashbang.js:296-335 | The route's `handle` is the declaration after the first pass. Its RegExp text is `handle` after the second pass, with the pchar class. Its elements render to that text. `callback` and `last` are kept. |
| Pattern.AcceptedCaptures | js/hashbang.js:317 | An accepted match has one capture per group. Every capture that is present is one or more class characters and contains no `/`. |
| Pattern.MatchFromSound | js/hashbang.js:379 | Whatever the engine reports from position `i` is accepted by the pattern. It ends inside the string, and where `$` holds when the pattern is anchored. |
| Pattern.MatchFromComplete | js/hashbang.js:379 | Whenever the pattern accepts a piece starting at `i` (ending where `$` holds, if anchored), the engine reports a match from `i`. |
| Pattern.SearchCharacterized | js/hashbang.js:379 | The unanchored search reports an accepted piece of the path. Whenever some piece is accepted, the search succeeds and starts no later than that piece. |
| Pattern.SearchLeftmost | src/Hashbang/Route.php:47 | No piece starting before the reported start is accepted. |
| Pattern.MatchWholeCharacterized | lib/Hashbang/Route.php:73 | The anchored match reports a prefix the pattern accepts that ends where `$` holds. Every path the pattern accepts whole is matched. |
| Pattern.PhpParams | src/Hashbang/Route.php:47-52 | `$params` holds one entry per group up to the last group that is set. An unset inner group is `""`. |
| Pattern.PhpParamsAllSet | src/Hashbang/Route.php:47-52 | When every group is set, `$params` is exactly the groups' values, in order. |
| HashRouter.HashPath | js/hashbang.js:373 | The path is `/` followed by the hash without its first three characters. |
| HashRouter.Encode | js/hashbang.js:404-406 | The encoded text has the same length and no space. |
| HashRouter.DecodeEncode | js/hashbang.js:404-415 | Decoding the encoding of a text with no `+` and no `%` gives the text back. |
| HashRouter.DecodeEncodePlus | js/hashbang.js:404-415 | A `+` does not survive the round trip: `a+b` comes back as `a b`. |
| HashRouter.DecodeAll | js/hashbang.js:387 | Mapping `decode` over the groups succeeds iff every group decodes, and then gives each group's decoded value. Otherwise it fails with the error of the first group that fails. |
| HashRouter.AbsentGroupThrows | js/hashbang.js:387 | A matching route with an absent optional group throws before its callback is called. |
| HashRouter.Router.constructor | js/hashbang.js:353-357 | A new router has no routes. |
| HashRouter.Router.Map | js/hashbang.js:365-367 | `map` appends the route built from the declaration and leaves the earlier routes as they were. |
| HashRouter.Router.Match | js/hashbang.js:372-397 | The loop's calls and its ending are exactly `Dispatch` over the routes, for the path of the hash. |
| HashRouter.StepOfMatching | js/hashbang.js:379-395 | A matching route lets the run go on iff it is not `last` and its groups decode. Then it makes exactly one call, with its decoded groups. |
| HashRouter.DispatchAppend | js/hashbang.js:375-396 | A run over `a + b` is the run over `a`, continued over `b` only when it went past the end of `a`. |
| HashRouter.DispatchPrefix | js/hashbang.js:393-395 | Once a run stops at a `last` route or throws, the routes after it are never consulted. |
| HashRouter.DispatchExhausted | js/hashbang.js:375-396 | A run passes the last route iff every matching route goes on. It has then called exactly the matching routes' callbacks, in registration order. |
| HashRouter.DispatchCallsEveryMatch | js/hashbang.js:375-396 | The same, call by call: the k-th call is the k-th matching route's callback with that route's decoded captures. |
| Events.EventTarget.constructor | js/hashbang.js:131-139 | A new target has no listeners. |
| Events.EventTarget.On | js/hashbang.js:159-161 | `on` appends exactly one listener at the end and keeps the others. |
| Events.EventTarget.Dispatch | js/hashbang.js:146-152 | `dispatch(t)` calls exactly the callbacks of the listeners of type `t`, in registration order. |
| Events.ListenersAppend | js/hashbang.js:146-161 | A listener added by `on` is called last, and only by a dispatch of its own type. |
| Events.ListenersOfType | js/hashbang.js:146-152 | A callback is dispatched for `t` iff a listener of type `t` with that callback was added. |
| Events.ListenersIgnoreOthers | js/hashbang.js:146-152 | Adding listeners of other types does not change what a dispatch of `t` calls. |
| Events.Timer.constructor | js/hashbang.js:174-184 | A new timer is idle and has no listeners. |
| Events.Timer.Stop | js/hashbang.js:207-217 | On an idle timer `stop` calls nothing. On a pending timer it dispatches `stopped`. Either way it leaves the timer idle. |
| Events.Timer.Start | js/hashbang.js:192-201 | `start` dispatches `stopped` only if a timeout was pending, then `started`. It leaves the new timeout pending. |
| Events.Timer.Expire | js/hashbang.js:197-200 | When the pending timeout runs out, `ended` is dispatched and the timer is idle. |
| Template.CompactNoDoubleSpace | js/hashbang.js:251 | After deleting the whitespace runs of length two or more, no two whitespace characters are adjacent. |
| Template.CompactFixed | js/hashbang.js:251 | Text without adjacent whitespace is left unchanged. |
| Template.CompactIdempotent | js/hashbang.js:251 | Compacting twice gives what compacting once gives. |
| Template.CompactRun | js/hashbang.js:251 | A maximal run of two or more whitespace characters is deleted entirely. |
| Template.CompactSingle | js/hashbang.js:251 | A single whitespace character between visible characters is kept. |
| Template.CompactAppend | js/hashbang.js:251 | Text is compacted piece by piece: cut after any visible character, the result is the two pieces compacted and joined. |
| Template.CompactKeepsVisible | js/hashbang.js:251 | Compaction deletes only whitespace: the other characters are kept, in order. |
| Template.FindClose | js/hashbang.js:252 | The lazy `.*?` ends at the first `}}` after the opening and never crosses a line terminator. When it finds none, every later `}}` has a line terminator before it. |
| Template.MarkersNone | js/hashbang.js:252 | Markup without `{{` is left as it is. |
| Template.MarkersSplice | js/hashbang.js:252 | A marker `{{expr}}` becomes `',expr,'` for any one-line `expr` that holds no `}}` and does not end in `}`, so a lone `}` inside it is allowed. |
| Template.ReplacePairEliminates | js/hashbang.js:253-254 | After `split(ab).join(rep)`, where `rep` cannot make a new `ab`, no `ab` is left. |
| Template.ReplacePairPreserves | js/hashbang.js:253-254 | A later split/join does not bring back a pair an earlier one removed. |
| Template.Rewritten | js/hashbang.js:251-254 | After the four rewrites, no `{%` and no `%}` remains. |
| Template.Source | js/hashbang.js:255 | The function body starts with `const a=[];a.push('` and ends with `');return a.join('');`, with the rewritten markup in between. |
| Helpers.Variant | js/hashbang.js:735 | `(r & 3) \| 8` is between 8 and 11 and keeps the two low bits of `r`. |
| Helpers.HexDigit | js/hashbang.js:738 | A nibble's `toString(16)` is one lower-case hexadecimal digit. |
| Helpers.UuidTemplateText | js/hashbang.js:729 | The template is `xxxxxxxx-xxxx-4xxx-yxxx-xxxxxxxxxxxx`. |
| Helpers.UuidHoles | js/hashbang.js:729-731 | The template has 31 places to fill, one random nibble each. |
| Helpers.Uuid | js/hashbang.js:728-740 | For any 31 nibbles, the uuid has 36 characters: `-` at 8, 13, 18 and 23, `4` at 14, one of `89ab` at 19, and lower-case hex digits everywhere else. |
| Helpers.Clamp | js/hashbang.js:83-85 | With `a <= b` the result lies in `[a, b]`: `x` itself when inside, `a` below, `b` above. With `a > b` the result is `b`. |
| Helpers.SelectIsFlatMap | js/hashbang.js:76-80 | `select` is flat-map: the callback's results, concatenated in element order. |
| Helpers.FlatMapAppend | js/hashbang.js:76-80 | Flat-map distributes over concatenation. |
| Helpers.JsArray.Clear | js/hashbang.js:69-75 | The shift loop leaves the array empty. |
| SrcRoute.Route.constructor | src/Hashbang/Route.php:32-38 | The pattern text is the two passes in order, with the class `[a-zA-Z0-9\-._]` and no anchors, between backtick delimiters. The route's elements render to it and hold a backtick literal iff that text does. The method map starts empty. |
| SrcRoute.Route.PregMatch | src/Hashbang/Route.php:45-55 | Fails whatever the path when the pattern text holds a backtick, which closes the delimiter early. Otherwise succeeds iff the pattern occurs somewhere in the path. On success, `$params` has at most one entry per group, each `""` or a run of class characters without `/`. |
| SrcRoute.PregMatchSound | src/Hashbang/Route.php:45-55 | A success reports the groups of an accepted piece of the path, and no accepted piece starts earlier. |
| SrcRoute.PregMatchComplete | src/Hashbang/Route.php:45-55 | Wherever in the path the pattern accepts a piece, `preg_match` succeeds iff the pattern holds no backtick. |
| SrcRoute.DelimiterNeverMatches | src/Hashbang/Route.php:37-47 | A route declared with a backtick matches no path. |
| SrcRoute.UnanchoredExample | src/Hashbang/Route.php:37 | The route `/users` matches `/admin/users/1`, with no parameters. |
| SrcRoute.Route.Invoke | src/Hashbang/Route.php:63-71 | A method with a handler calls exactly that handler with `params`. Any other method throws `ResponseException(405, 'invalid method')`. |
| SrcRoute.Route.OffsetExists | src/Hashbang/Route.php:78-81 | True iff the method has a handler. |
| SrcRoute.Route.OffsetGet | src/Hashbang/Route.php:88-91 | The method's handler, or null when it has none. |
| SrcRoute.Route.OffsetSet | src/Hashbang/Route.php:99-107 | A non-callable throws `InvalidArgumentException` and leaves the map unchanged. A callable replaces only that method's handler. |
| SrcRoute.Route.OffsetUnset | src/Hashbang/Route.php:114-117 | Only that method's handler is removed. |
| LibRoute.Route.constructor | lib/Hashbang/Route.php:55-64 | The name is the declaration. The method map is the argument. The pattern is the two passes in order, anchored as `^…$` between backtick delimiters. Its elements hold a backtick literal iff the declaration does. |
| LibRoute.Route.GetName | lib/Hashbang/Route.php:37-40 | `getName` gives back exactly the declaration the route was built with, which compiles to the route's pattern. |
| LibRoute.Route.GetPattern | lib/Hashbang/Route.php:45-48 | `getPattern` is the anchored rendering of the route's elements. |
| LibRoute.Route.Match | lib/Hashbang/Route.php:71-81 | Fails whatever the path when the pattern text holds a backtick. Otherwise succeeds iff the whole path matches. On success, `$params` has at most one entry per group, each `""` or a run of class characters without `/`. |
| LibRoute.MatchAnchored | lib/Hashbang/Route.php:63-81 | A path the pattern accepts whole is matched iff the pattern holds no backtick. A match covers the path up to where `$` holds and reports that match's groups. |
| LibRoute.DelimiterNeverMatches | lib/Hashbang/Route.php:63-73 | A route declared with a backtick matches no path. |
| LibRoute.PostsWithoutPage | lib/Hashbang/Route.php:60-63 | `/posts(/:page)?` matches `/posts` with no parameters. |
| LibRoute.PostsWithPage | lib/Hashbang/Route.php:60-63 | `/posts(/:page)?` matches `/posts/3` with the one parameter `3`. |
| LibRoute.Route.Invoke | lib/Hashbang/Route.php:89-97 | A method with a handler calls exactly that handler with `params`. Any other method throws `ResponseException(405, 'invalid method')`. |
| LibRoute.Route.OffsetExists | lib/Hashbang/Route.php:104-107 | True iff the method has a handler. |
| LibRoute.Route.OffsetGet | lib/Hashbang/Route.php:114-117 | The method's handler, or null when it has none. |
| LibRoute.Route.OffsetSet | lib/Hashbang/Route.php:125-133 | A non-callable throws `InvalidArgumentException` and leaves the map unchanged. A callable replaces only that method's handler. |
| LibRoute.Route.OffsetUnset | lib/Hashbang/Route.php:140-143 | Only that method's handler is removed. |
| SrcRouter.Router.constructor | src/Hashbang/Router.php:18 | A new router has an empty route table. |
| SrcRouter.Router.OffsetExists | src/Hashbang/Router.php:102-105 | True iff the declaration has a route. |
| SrcRouter.Router.OffsetGet | src/Hashbang/Router.php:112-115 | The route stored under the declaration, or null. |
| SrcRouter.Router.OffsetSet | src/Hashbang/Router.php:123-131 | A non-route throws `InvalidArgumentException` and changes nothing. A route replaces an existing entry in place, or is appended under a new key. Keys stay distinct. |
| SrcRouter.Router.OffsetUnset | src/Hashbang/Router.php:138-141 | Only the entry of that declaration is removed; the others keep their order. |
| SrcRouter.SetAll | src/Hashbang/Router.php:30-33 | Every listed method gets the handler. Every other method keeps its handler or stays absent. |
| SrcRouter.Router.Map | src/Hashbang/Router.php:26-36 | A known declaration reuses its route, and the table is unchanged. A new one appends a fresh route compiled from it. The route answers the listed methods with `action`, and every other route keeps its handlers. |
| SrcRouter.FirstMatchFrom | src/Hashbang/Router.php:43-54 | The route found is one whose pattern occurs in the path. |
| SrcRouter.FirstMatchFromSkips | src/Hashbang/Router.php:43-54 | No route before the one found matches the path, so the found route is the first in table order. When none is found, no route matches. |
| SrcRouter.Router.FindRoute | src/Hashbang/Router.php:43-54 | The scan returns the first matching route with its `$params`, or null exactly when no route matches. |
| SrcRouter.FirstMatchIs | src/Hashbang/Router.php:43-54 | A matching route that comes after only non-matching routes is the one found. |
| SrcRouter.Router.Match | src/Hashbang/Router.php:59-95 | The response, or the escaping exception, is exactly the outcome classification `Outcome` of the request over the table. |
| SrcRouter.NoRouteIsBadRequest | src/Hashbang/Router.php:61-66 | A request without a route gets 400 `bad request`, with no data. |
| SrcRouter.NoMatchIsNotFound | src/Hashbang/Router.php:68-74 | A route that no pattern matches gets 404 `not found`, with no data. |
| SrcRouter.UnknownMethodIsNotAllowed | src/Hashbang/Router.php:79-88 | A method the first matching route has no handler for gets 405 `invalid method`, even when a later route has one. |
| SrcRouter.HandlerAnswers | src/Hashbang/Router.php:79-84 | The first matching route's handler for the method is called with the body followed by the captures. Its response is returned, and what it throws is caught. |
| SrcRouter.Caught | src/Hashbang/Router.php:85-92 | A `ResponseException` becomes the constructor's result for its code, message and previous exception. Any other Throwable becomes `error($e)`. |
| SrcRouter.ResponseExceptionAnswers | src/Hashbang/Router.php:85-88 | A caught `ResponseException` gives a response iff its code has a reason phrase: same code and message, `previous` as data. Otherwise `InvalidArgumentException` escapes. |
| SrcRouter.OtherThrowableAnswers | src/Hashbang/Router.php:89-92 | Any other Throwable gives 500 `internal server error` with the `error` payload of that Throwable. |
| Shortcuts.ShortcutMethods | src/Hashbang/App.php:28-98 | A single-method shortcut hands `map` exactly its own method. `any` hands it GET, POST, PUT, PATCH, DELETE and OPTIONS. |
| Shortcuts.AnyCoversSingles | src/Hashbang/App.php:88-98 | `any` covers exactly the methods of the six single shortcuts, each once, and no two single shortcuts share a method. |
| SrcApp.App.constructor | src/Hashbang/App.php:18-21 | A new app has a fresh, empty router. |
| SrcApp.App.Map | src/Hashbang/App.php:106-109 | `map` is the router's `map`, with the same route returned and the same effect on the table. |
| SrcApp.App.Register | src/Hashbang/App.php:28-98 | A shortcut registers its handler for exactly its methods on the declaration's route. The route's other methods, and the other routes, are unchanged. |
| SrcApp.App.Run | src/Hashbang/App.php:114-121 | The response `run` sends is the router's outcome for the request. |
| SrcApp.TwoShortcuts | src/Hashbang/App.php:28-109 | Two shortcuts on one declaration return the same route and add at most one table entry. The route then answers the methods of both, with the later shortcut winning where they overlap. |
| LibApp.App.constructor | lib/Hashbang/App.php:18-34 | A new app has no logger and nothing registered. |
| LibApp.App.SetLogger | lib/Hashbang/App.php:155-158 | `setLogger` installs the logger and changes nothing else. |
| LibApp.App.Map | lib/Hashbang/App.php:119-122 | `map` hands exactly its methods, declaration and handler to the router. |
| LibApp.App.Register | lib/Hashbang/App.php:41-111 | Each shortcut hands the router exactly its methods: its own one, or all six for `any`. |
| LibApp.App.Run | lib/Hashbang/App.php:127-140 | The response is logged once iff a logger is set and its level is at most the response's code. Otherwise the logger's record is unchanged. |
| LibApp.NoLoggerNoLog | lib/Hashbang/App.php:18 | Without a logger (the initial state), `run` logs nothing. |
| LibApp.IsLocalhost | lib/Hashbang/App.php:142-150 | True exactly for the remote addresses `127.0.0.1` and `::1`. |
| SrcResponse.ReasonPhraseCodes | src/Hashbang/Response.php:31-47 | Exactly the fifteen codes 200, 201, 202, 204, 303, 304, 400, 401, 403, 404, 405, 429, 500, 502 and 503 have a reason phrase. All of them have three digits. |
| SrcResponse.New | src/Hashbang/Response.php:94-114 | The constructor succeeds iff the code has a reason phrase, and otherwise throws `InvalidArgumentException`. On success it keeps code and message and stores the data, a Throwable wrapped. |
| SrcResponse.Make | src/Hashbang/Response.php:175-286 | Every factory is the constructor with its fixed code and message, and never throws. |
| SrcResponse.FactoryMessageIsPhrase | src/Hashbang/Response.php:175-286 | Every factory's code is in the table, and its message is that code's reason phrase in lower case. |
| SrcResponse.StatusLineParses | src/Hashbang/Response.php:133-138 | The status line parses back, by the grammar of RFC 7230 section 3.1.2, into the protocol, the code and its reason phrase. |
| Payload.FormatError | src/Hashbang/Response.php:120-128 | The error object has the Throwable's code, message, file and line. |
| Payload.Stored | src/Hashbang/Response.php:104-113 | A Throwable is stored as `['error' => formatError(e)]`. Any other data is stored as given. |
| Payload.Union | src/Hashbang/Response.php:165 | `$l + $r` starts with `$l`. Its keys are those of either operand. |
| Payload.UnionLookup | src/Hashbang/Response.php:165 | When `$r` has no repeated key: in `$l + $r` a key of `$l` keeps its value from `$l`, and any other key gets its value from `$r`. |
| Payload.UnionDistinct | src/Hashbang/Response.php:165 | The union of two arrays has no repeated key. |
| Payload.Serialize | src/Hashbang/Response.php:156-169 | `jsonSerialize` starts with `code` and `message`. With null data it is exactly those two. It fails only for data that is neither null nor an array. |
| Payload.SerializeLookup | src/Hashbang/Response.php:156-169 | For array data without repeated keys, the serialized array has no repeated key either. Its `code` and `message` are always the response's own, and every other key has exactly the value the data gives it. |
| Payload.SerializeThrown | src/Hashbang/Response.php:104-169 | A response built with a Throwable serializes as `code`, `message` and the `error` object, in that order. |
| LibResponse.New | lib/Hashbang/Response.php:82-100 | Any code and message are kept, the data is stored (a Throwable wrapped), and exactly the headers `Cache-Control: no-store` and `Content-Type: application/json` are set. |
| LibResponse.Make | lib/Hashbang/Response.php:161-284 | Each factory uses its fixed code. The message is the caller's, or else the factory's default. |
| LibResponse.DefaultMessages | lib/Hashbang/Response.php:161-284 | The default messages are the `src` messages except two: `notModified` defaults to `bad request` and `error` to `error`. |

## Left out

- Regular-expression metacharacters in declarations other than `.` are read as literal characters. Declarations with `\`, `[`, `*`, `+`, `?` or `|` outside the `(/:name)?` shape fall outside the model. That includes a backslash before a backtick, which PCRE reads as an escaped delimiter. Any other backtick makes the PHP routes fail to match, as modelled.
- SrcRoute.Route.PregMatch, LibRoute.Route.Match and HashRouter.Router.Match take paths as sequences of Unicode characters, so a `.` in a declaration consumes one whole character. PCRE without the `u` modifier consumes one byte, and RegExp without the `u` flag one UTF-16 code unit. A `.` therefore agrees with the PHP routes only where it meets an ASCII character, and with the hash router only where it meets a character of the Basic Multilingual Plane. For example, `/a.b` does not match `/aéb` in PHP, but matches it in the model. Literal characters and the capture classes, which hold only ASCII characters, agree on any path.
- DOM helpers, `Object.prototype.define`, `Client`, `Showable`, and the `Template`'s `new Function`, `createRange` and `render` are not modelled. They are browser DOM, reflection or networking.
- Browser I/O is left out: the `hashchange` listener, the read of `location.hash` (the hash is a parameter), and `console.info`.
- `decodeURIComponent` is a parameter of the hash router. The decode round trip requires it to be the identity on text without `%`.
- Timing is left out. `setTimeout` returns an id given as a parameter, and expiry is an explicit step. The callbacks that event targets and routers call are identities. What they do, including re-entering a dispatch, is not modelled.
- `Math.random` is replaced by the nibbles passed in. `clamp` works on integers, not floating-point numbers.
- Helpers.SelectIsFlatMap: a callback result that is not an array (which `concat` appends as one element) is not modelled; callbacks return sequences.
- The request is a value: its route, its method, and its body or the exception reading the body throws. `Request`, `Session` and `PDOAdapter` are not part of this model.
- A handler is an identity. What calling it gives (a response or a Throwable) comes from a function passed in. A handler that returns something other than a `Response`, and so raises a `TypeError`, is one of the Throwables it may give.
- The `header` calls of the `src` `sendHeaders` are output and are left out. The text of the status line they send is modelled (`SrcResponse.StatusLine`).
- The `lib` `sendHeaders` (`http_response_code` and one `header` per stored header) is output and is left out. The headers it sends are the stored ones, which `LibResponse.New` states.
- The `Cache-Control: no-cache` and `Content-Type: application/json` headers that the `src` `sendHeaders` sends are not modelled. The `lib` headers, which its constructor stores, are.
- `echo`, `__toString` and `json_encode` are output and are left out. `App::run` of `src` returns the response it would send.
- PHP's conversion of numeric-string array keys to integers is not modelled: route and method keys are strings.
- lib/Hashbang/Router.php is not part of this model. The `lib` `App` records the calls to the router's `map`, and its `run` takes the router's response as a parameter. `getRouter` is therefore left out.
- The `lib` `Route` constructor's `methods` argument is taken to hold callables only.
- The file of a Throwable the library throws is recorded as the path relative to the repository root.
- In the `src` router, a `ResponseException` whose code has no reason phrase makes the constructor called in the catch block throw `InvalidArgumentException`, which escapes `match`. The model follows this code path (`SrcRouter.ResponseExceptionAnswers`). A reading in which no failure escapes `match` does not hold for such codes.
- LibApp.IsLocalhost: `in_array`'s loose comparison is modelled as string equality, which it is for two strings that are not numeric.
