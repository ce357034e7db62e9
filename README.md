# Mock server dispatcher and route editor, in Dafny

This project models two parts of a configurable HTTP mock server.

The first part is the request dispatcher the server registers on `/` (`mock-server/main.go`).
For every request except a CORS preflight, it scans the route table in order and commits to the first route
that has the request's method and whose path pattern (with `{name}` placeholders) matches the request path.
It then:

- sleeps for the route's delay;
- checks the bearer token when the route requires auth;
- builds the response file name from the template, the captured path parameters and the match definition
  (a query or body field looked up in `cases`, else `default`);
- answers with that file, or with 404 when the file is missing.

A request that no route accepts gets 404. The `withCORS` wrapper decides which CORS headers are set.

The second part is the route-list editor of the web UI (`web-ui/pages/index.tsx`):

- adding a route, deleting one, and editing a route field or a match member;
- the two text inputs that stand for structured values: the `cases` textarea (`key=file` lines) and the
  comma-separated `fields` input.

Modules:

- `Wrappers` holds `Option`.
- `Text` holds the string functions of Go's `strings` and JavaScript's `String` that the code uses:
  prefix test, split, join, `trim`, and `strings.ReplaceAll`.
- `PathPattern` covers route paths: the compiled pattern, and an anchored matcher with the leftmost-first,
  greedy captures of Go's `regexp` for `([^/]+)`.
- `TemplateName` covers the `params` map and the replacement loop over it.
- `Auth` covers the `Bearer ` prefix of `validateJWT`.
- `Cors` covers `withCORS`.
- `MockServer` holds the dispatcher. It has a functional specification (`Dispatch`) and the handler loop as the
  source runs it (`Handle`), which is proved equal to that specification.
- `RouteEditor` covers the list handlers of the editor.
- `EditorCodecs` covers the cases and fields text codecs.

Notes on the code's behaviour, where it differs from what one might expect of a mock server:

- The method comparison is exact and case-sensitive (main.go:97), not case-insensitive.
- The delay is applied before the auth check (main.go:109-116), so a rejected request still waits.
- A template name that names no file gives 404, "Response file not found" (main.go:146-149), not a 500.
- A match definition's `fields` list has no counterpart in the server's `MatchDefinition` struct
  (main.go:27-32). The server ignores it and uses `field` alone; there is no join of several fields.
- There is no versioned, replaceable route table in the server. `routes` is loaded once at start-up, and saving
  from the editor rewrites the file without reloading it. The dispatcher is modelled over one fixed `seq<Route>`.

## Model

| member | source | states |
|---|---|---|
| MockServer.Dispatch | mock-server/main.go:91-156 | OPTIONS is answered with the bare preflight. Otherwise the answer is `http.NotFound` exactly when no route has the request's method and a matching path (a committed route whose file is missing answers 404 too, but as a different answer). Every answer's status is 200, 401 or 404. |
| MockServer.DispatchCommitsToFirst | mock-server/main.go:96-154 | When route `i` is the first route that accepts the request, the answer is that route's answer for the captures of its path, whatever the later routes say. |
| MockServer.LaterRoutesIgnored | mock-server/main.go:96-154 | Once some route of a table accepts the request, appending routes to the table does not change the answer. |
| MockServer.UnauthorizedReadsNoFile | mock-server/main.go:113-116 | A 401 answer does not depend on the response files: any other file store gives the same answer. |
| MockServer.Respond | mock-server/main.go:109-153 | A committed route sleeps for its delay (only when positive). It rejects with 401 exactly when auth is required and the header fails `validateJWT`. Otherwise it serves the resolved name, as JSON with the file's bytes when the file exists and as 404 when it does not. |
| MockServer.ResolveName | mock-server/main.go:118-143 | Without a match rule the name is the template with its placeholders substituted. With one it is the case for the discriminator when there is one, else the default. |
| MockServer.MatchRuleDiscardsPathName | mock-server/main.go:124-143 | With a match rule, the template and the path captures do not influence the file name. |
| MockServer.QueryGet | mock-server/main.go:136 | `Query().Get` gives the first value of the parameter, or "" when the parameter is missing or has no value. |
| MockServer.BodyField | mock-server/main.go:132-134 | A field of the decoded body, or "" when the field is missing or the body did not decode. |
| MockServer.Discriminator | mock-server/main.go:130-137 | With source exactly `body`, the value is the body field, "" when the body did not decode or lacks the field. With any other source, it is the first query value, "" when the parameter is missing. |
| MockServer.SelectTemplate | mock-server/main.go:138-142 | The case for the value when there is one, else the default. |
| MockServer.RouteMatch | mock-server/main.go:97-107 | A route accepts a request exactly when the methods are equal and the compiled path pattern matches the whole request path. The captures fit the pattern's holes. |
| MockServer.FirstMatchFrom | mock-server/main.go:96-107 | The route found is at or after the start, accepts the request, and no route between the start and it does. None means no route from the start on accepts it. |
| MockServer.Handle | mock-server/main.go:91-156 | The handler's loop over the route table (skip, commit, answer) returns exactly `Dispatch`. |
| MockServer.ServeRoute | mock-server/main.go:109-153 | The loop body after a route is committed (sleep, auth, substitution, match, file read) returns exactly `Respond`. |
| MockServer.SubstituteTemplate | mock-server/main.go:118-127 | The two loops that build and apply `params` give `SubstituteParams` of the template. |
| MockServer.CollectParams | mock-server/main.go:118-122 | The loop `params[key[1]] = matches[i+1]` builds `ParamsOf` of the names and captures. |
| MockServer.ReplaceEach | mock-server/main.go:124-127 | One `strings.ReplaceAll` of `{k}` per name, in the given order, gives `ReplaceInOrder`. |
| MockServer.ServeRoot | mock-server/main.go:199-219 | The `/` handler wrapped in `withCORS` answers `Dispatch`. Its headers are the CORS headers, plus `Content-Type: application/json` on a JSON answer (main.go:151). |
| Auth.BearerToken | mock-server/main.go:223-227 | A token is present exactly when the header starts with `Bearer `, and the prefix followed by the token is the header. |
| Auth.BearerRoundTrip | mock-server/main.go:224-227 | Removing the prefix from `Bearer ` + token gives the token back. |
| Auth.ValidateJwtMeaning | mock-server/main.go:222-235 | A header passes exactly when it is `Bearer ` followed by a token the verifier accepts. |
| Cors.ApplyCors | mock-server/main.go:199-210 | The loop sets `Access-Control-Allow-Origin` exactly when some allow-list entry is the request's origin or `*`, and then to the origin. The methods, headers and credentials headers are always set to their fixed values. |
| PathPattern.Compile | mock-server/main.go:101-102 | Every placeholder of the compiled pattern has a `\w+` name. |
| PathPattern.CompileFindsEveryHole | mock-server/main.go:101-102 | Every `{name}` of the route path becomes a hole: no character compiled as a literal starts a placeholder in the text that follows it. |
| PathPattern.SpellCompile | mock-server/main.go:101-102 | Compiling loses nothing: writing the pattern back gives the route path. |
| PathPattern.HoleNames | mock-server/main.go:119 | There is one name per hole of the pattern. |
| PathPattern.HoleNamesSpell | mock-server/main.go:119 | The names are the holes' own names, in order: filling each hole with `{name}` for its name writes the pattern out. |
| PathPattern.HoleNamesInPlace | mock-server/main.go:119 | The keys are the placeholder names of the route path, in order: putting `{k}` back into each hole gives the route path. |
| PathPattern.Match | mock-server/main.go:103-104 | When the anchored match succeeds, every capture is a non-empty `/`-free segment, and filling the holes with the captures gives the request path. |
| PathPattern.MatchComplete | mock-server/main.go:102-104 | Every path obtained by filling the holes with non-empty `/`-free segments is matched. |
| PathPattern.MatchHoleGreedy | mock-server/main.go:102-104 | The first hole takes the longest capture for which the rest can still match, as Go's leftmost-first greedy `([^/]+)` does. |
| PathPattern.SegmentRun | mock-server/main.go:102 | The longest prefix that `[^/]+` can consume ends at the first `/`. |
| TemplateName.ParamsOf | mock-server/main.go:118-122 | The `params` map has exactly the placeholder names as keys. |
| TemplateName.LaterCaptureWins | mock-server/main.go:120-122 | A repeated name keeps the capture of its last occurrence. |
| TemplateName.Distinct | mock-server/main.go:125 | The order in which names are replaced visits every name of `params` exactly once. |
| TemplateName.ReplaceInOrderIsSubstitution | mock-server/main.go:124-127 | For a template whose every `{` opens a placeholder, and values that contain no `{`, replacing name by name over any duplicate-free order equals one left-to-right substitution of the visited names. |
| TemplateName.ParamOrderIrrelevant | mock-server/main.go:124-127 | Under the same conditions, the unspecified order of Go's map iteration does not affect the file name. |
| TemplateName.SubstituteParamsMeaning | mock-server/main.go:118-127 | When every `{` of the template opens a placeholder and no capture contains `{`, the file name of a route without a match rule is the template with each `{name}` replaced, in one pass, by the capture of the name's last occurrence in the route path. |
| TemplateName.ParamOrderMatters | mock-server/main.go:124-127 | Without those conditions the order matters: `{{a}}` with a→`b`, b→`x` gives `x` when `a` goes first and `{b}` when `b` goes first. |
| TemplateName.SubstituteNothing | mock-server/main.go:124-127 | With no parameters the template is the file name unchanged. |
| Text.Split | web-ui/pages/index.tsx:222 | `split` gives one piece more than there are separators, and no piece contains the separator. |
| Text.JoinSplit | web-ui/pages/index.tsx:217-222 | Joining the pieces of a split with the same separator gives the string back. |
| Text.SplitJoin | web-ui/pages/index.tsx:201-206 | Splitting the join of a non-empty list of separator-free pieces gives the list back. |
| Text.Trim | web-ui/pages/index.tsx:206 | `trim` gives the part of the string between some leading and some trailing JavaScript white space. That part has no white space at either end, and a trimmed string is left as it is. |
| Text.ReplaceAll | mock-server/main.go:126 | Replacing a pattern by itself leaves the string as it is. |
| Text.ReplaceAllSkips | mock-server/main.go:126 | `strings.ReplaceAll` copies text that cannot begin the pattern unchanged. |
| Text.ReplaceAllAbsent | mock-server/main.go:126 | When the pattern's first character does not occur in the string, `strings.ReplaceAll` changes nothing. |
| Text.ReplaceAllNoOccurrence | mock-server/main.go:126 | When no occurrence of the pattern starts anywhere in the string, `strings.ReplaceAll` changes nothing. |
| RouteEditor.Add | web-ui/pages/index.tsx:20-27 | `handleAdd` keeps every route and appends `emptyRoute`: GET `/new-path`, `new_response.json`, no auth, delay 0, an empty query match. |
| RouteEditor.Delete | web-ui/pages/index.tsx:65 | `handleDelete(i)` removes exactly route `i` and keeps the order of the others. An index out of range leaves the list as it is. |
| RouteEditor.DeleteUndoesAdd | web-ui/pages/index.tsx:64-65 | Deleting the route just added gives the list back. |
| RouteEditor.SetField | web-ui/pages/index.tsx:47 | `{ ...route, [key]: value }` sets the edited field and leaves every other field and the match as they were. |
| RouteEditor.Restore | web-ui/pages/index.tsx:41-49 | The edit that puts a field's current value back exists for every field except an absent `delay`. |
| RouteEditor.SetFieldUndo | web-ui/pages/index.tsx:41-49 | Editing a field and then putting its old value back restores the route. |
| RouteEditor.SetFieldIdempotent | web-ui/pages/index.tsx:47 | Setting a field to the value it already holds leaves the route as it is. |
| RouteEditor.Change | web-ui/pages/index.tsx:41-49 | `handleChange` changes only the edited field of route `index` and leaves every other route unchanged. |
| RouteEditor.SetMatchMember | web-ui/pages/index.tsx:59 | `{ ...prev, [key]: val }` sets the edited member of the match definition and keeps the others. |
| RouteEditor.ChangeMatch | web-ui/pages/index.tsx:52-62 | `handleMatchChange` gives route `index` a match definition holding the edit. The other members come from its old match, or from the default query match when it had none. Every other route and every other route field is unchanged. |
| RouteEditor.ChangeMatchFromNothing | web-ui/pages/index.tsx:56 | On a route without a match, the other members are those of `{ source: 'query', cases: {}, default: '' }`. |
| RouteEditor.MatchEditsCommute | web-ui/pages/index.tsx:52-62 | Two `handleMatchChange` edits of different members give the same list in either order. |
| EditorCodecs.ParseLine | web-ui/pages/index.tsx:223-224 | An accepted line gives a trimmed, `=`-free key and value. A line without `=` is dropped. |
| EditorCodecs.Entry | web-ui/pages/index.tsx:223-224 | `[k, v]` is kept exactly when there are two pieces and both are non-empty before trimming, and then it is the trimmed pair. |
| EditorCodecs.ParseLineWellFormed | web-ui/pages/index.tsx:223-224 | The line `k=v` with non-empty `=`-free pieces gives `(trim k, trim v)`. |
| EditorCodecs.ParseLineIgnoresRest | web-ui/pages/index.tsx:223 | Text after a second `=` is ignored. |
| EditorCodecs.ParseLineEmptyPiece | web-ui/pages/index.tsx:224 | A line with an empty key or value is dropped, even when trimming would leave something. |
| EditorCodecs.ParseLines | web-ui/pages/index.tsx:221-225 | The object built from the lines never holds the key `__proto__`. |
| EditorCodecs.ParseCases | web-ui/pages/index.tsx:220-226 | The cases stored from the text never hold `__proto__`, and every key and value is trimmed and free of `=`. |
| EditorCodecs.ParseLinesShape | web-ui/pages/index.tsx:221-225 | Every key and value the lines store is trimmed and free of `=`. |
| EditorCodecs.ParseCasesText | web-ui/pages/index.tsx:220-226 | The change handler's loop over the lines builds exactly `ParseCases` of the text. |
| EditorCodecs.ParseLinesKeys | web-ui/pages/index.tsx:221-225 | A key is in the parsed cases exactly when some line was accepted with that key and it is not `__proto__`. |
| EditorCodecs.ParseLinesLastWins | web-ui/pages/index.tsx:221-225 | When several lines give the same key, the value of the last one is kept. |
| EditorCodecs.CaseLines | web-ui/pages/index.tsx:217-218 | Line `i` is `k=v` for entry `i`. |
| EditorCodecs.RenderCases | web-ui/pages/index.tsx:217-219 | No entries give the empty text. When no key or value holds a newline, the text's lines are exactly the entries' `k=v` lines, one per entry, in order. |
| EditorCodecs.CasesRoundTrip | web-ui/pages/index.tsx:217-226 | Rendering the cases as `k=v` lines and parsing the text back gives the same cases, for trimmed keys and values without `=` or newline and a key other than `__proto__`. |
| EditorCodecs.OneEntry | web-ui/pages/index.tsx:217-226 | For a key and a value that are non-empty, trimmed, and free of `=` and newline, a single entry comes back as itself, except under the key `__proto__`, which comes back as nothing. |
| EditorCodecs.ProtoKeyLost | web-ui/pages/index.tsx:224 | An entry under `__proto__` does not survive the round trip, because assigning a string to `obj['__proto__']` is ignored: the `__proto__` setter accepts only objects and `null`, so no key is set. |
| EditorCodecs.ParseFields | web-ui/pages/index.tsx:206 | The input gives one name per comma-separated piece: name `j` is the `j`-th piece trimmed. Each name is trimmed and comma-free. |
| EditorCodecs.RenderFields | web-ui/pages/index.tsx:201 | A missing fields list shows as the empty input. |
| EditorCodecs.FieldsRoundTrip | web-ui/pages/index.tsx:201-206 | A non-empty list of trimmed, comma-free names survives rendering and parsing. |
| EditorCodecs.EmptyFieldsBecomeOneEmptyName | web-ui/pages/index.tsx:201-206 | The empty list shows as an empty input, which parses back as one empty name. |

## Left out

- File reads: the response directory is a `map<string, Bytes>` from file name to content. `filepath.Join("responses", …)` path cleaning and read errors other than a missing file are not modelled.
- JWT verification: the signature and validity check after the prefix is the parameter `tokenValid`.
- `time.Sleep`: the answer records the requested delay in milliseconds instead of waiting. The `time.Duration` product of main.go:110 is an int64 count of nanoseconds, which wraps for delays above about 9.2 × 10^12 ms (2^63 ns); a wrapped negative duration makes `time.Sleep` return at once. That overflow is not modelled.
- JSON decoding of the request body: the body is given already decoded, as `None` when decoding failed. Go's partial decoding of a malformed body is not modelled.
- URL and query parsing: the request carries its path and a parsed query, and `Query().Get` takes the first value.
- `ALLOWED_ORIGINS` parsing at start-up (main.go:187-195): the allow-list is a parameter.
- The `/token`, `/api/routes` and Swagger handlers, the `http.ServeMux` routing to them, and loading `routes.json` are not modelled.
- Error bodies and headers written by `http.Error` and `http.NotFound`: only the kind of answer and its status are modelled.
- Regular-expression metacharacters in the literal parts of a route path: they are matched literally, whereas Go's `regexp` would interpret them.
- Concurrency between requests is not modelled.
- MockServer.Handle: replaces the names in order of first appearance in the route path, where Go's map iteration order is unspecified. TemplateName.ParamOrderIrrelevant shows the result is the same for every order when each `{` of the template opens a placeholder and no value contains `{`. TemplateName.ParamOrderMatters shows a case where it is not.
- MockServer.SubstituteTemplate: fixes the same first-appearance order as `Handle`.
- RouteEditor.Change: requires an index inside the list. The form only calls it for a rendered route; JavaScript would otherwise spread `undefined` into a new route.
- RouteEditor.ChangeMatch: requires an index inside the list, for the same reason.
- RouteEditor.SetField: the untyped `value` of `handleChange` is modelled as one typed edit per field, so setting a field to a value of the wrong type is not modelled.
- EditorCodecs.RenderCases: takes any listing of the entries, because `Object.entries` order (insertion order, integer-like keys first) is not modelled.
- React rendering, `fetch`, saving and `parseInt` of the delay input are not modelled.
