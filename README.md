# Camoufox session keeper and WebSocket tunnel — a Dafny model

This project models the decision logic of a small fleet of browser instances
that keep Google AI Studio sessions alive, together with the Go WebSocket
tunnel that forwards HTTP requests to those browsers.

- **Cookie conversion.**
  - `convert_cookie_editor_to_playwright` turns a Cookie-Editor export into browser-ready records. It:
    - copies a whitelist of keys;
    - maps the session flag and `expirationDate` to `expires`;
    - maps `sameSite` without regard to case;
    - drops incomplete records, with one warning each.
  - The older `sanitize_cookies` renames and filters keys and never drops a record.
- **Launch settings.** The tri-state `headless` parse and the launch options, in both entry points.
- **Fleet plan.** How `main` in `run_camoufox.py` merges the global settings under each profile, skips profiles without a cookie file or URL, and launches the rest in list order.
- **Outcome classifier.** The post-navigation chain in `browser/instance.py` picks one of five outcomes in a fixed priority order from:
  - the final URL;
  - the expected URL;
  - the login-button probe.

  Each failure outcome writes one screenshot, named `FAIL_<kind>_<cookie_file>.png`.
- **Connection pool.** The Go per-user pool: append on connect, swap-remove on disconnect, and round-robin selection with a `NextIndex` cursor.
- **HTTP side of the tunnel.**
  - the hop-by-hop header filter;
  - `setResponseHeaders`, `writeStatusCode` and `writeBody`;
  - the `processWebSocketResponse` state machine driven by `headersSet`;
  - the token and API-key checks.

Modules, one per file:

| file | module | contents |
|---|---|---|
| `wrappers.dfy` | `Wrappers` | `Option` and `Result` |
| `json.dfy` | `Json` | Decoded JSON/YAML values with Python's `str()`, `.lower()` and truthiness |
| `cookie_handler.dfy` | `CookieHandler` | `convert_cookie_editor_to_playwright` |
| `launch.dfy` | `Launch` | Headless parse and launch options |
| `instance.dfy` | `Instance` | Classifier and screenshot names |
| `run_camoufox.dfy` | `RunCamoufox` | `sanitize_cookies`, config merge and fleet plan |
| `pool.dfy` | `Pool` | `ConnectionPool`, a class over a map of per-user entries |
| `proxy.dfy` | `Proxy` | Header filter, response helpers and the response state machine |
| `auth.dfy` | `Auth` | `validateJWT` and `authenticateHTTPRequest` |

Modelling choices:

- **Python dicts** are association lists (`Dict`) in insertion order. Order matters:
  - `sanitize_cookies` lets a later entry overwrite an earlier one;
  - the conversion walks the records in order.

  A decoded dict never repeats a key. The type does not enforce this, but on distinct keys the first-occurrence lookup `Json.Get` finds the only entry (`Json.GetDistinct`), so it agrees with the last-write-wins reading of `sanitize_cookies`.
- **Output records** are Dafny maps.
- **The Go pool** is a `class` with a `users` map that its methods reassign.
- **Loops** in the source are loops in the model, each proved against a specification:
  - the record loops in both cookie transforms, the profile loop of `main`, the inner loop of `setResponseHeaders` and the response loop are proved equal to a recursive specification function, and the stated properties are proved as lemmas about that function;
  - the hop-by-hop filter is specified by a set difference on header names;
  - the outer loop of `setResponseHeaders` is specified by a map comprehension over the `headers` object.
- **The response loop** reads a list of events in arrival order:
  - a message;
  - the channel closing;
  - `ctx.Done()` firing, which happens when the 600-second deadline (`proxyRequestTimeout`) passes or when the client cancels the request; `DeadlineExceeded` stands for both.

  It produces the trace of calls it makes on the `ResponseWriter`.
- **I/O is passed in as parameters:**
  - the login-button probe is a pair of booleans;
  - whether a logger was passed is a boolean;
  - whether the writer can flush is a boolean;
  - the expected API key (an environment variable) is a string.

### Edge cases of the code that the model keeps

- **No `expires` without a date.** A record with neither `session` nor `expirationDate` gets no `expires` key; a null `expirationDate` gives `-1` (camoufox-py/utils/cookie_handler.py:13-19, `CookieHandler.Expiry`).
- **Completeness is presence.** The filter tests that `name`, `value`, `domain` and `path` are keys, not that they are non-empty, so a record with an empty name is kept (camoufox-py/utils/cookie_handler.py:30, `CookieHandler.CompleteIffExportComplete`).
- **A bad `expirationDate` ends the conversion.** `int()` is called inside the loop; when it raises, no list is returned at all. The model returns `Err(NotAnInteger(..))` for the whole call (camoufox-py/utils/cookie_handler.py:17, `CookieHandler.FailureIsFinal`, `CookieHandler.ConvertCookieEditorToPlaywright`).
- **Identifier, then target, then chooser.** A final URL containing both the target and the chooser marker is a target outcome (camoufox-py/browser/instance.py:74-97, `Instance.ClassifyPriority`).
- **No timeout or network-error outcome.** A failed `goto` reaches the catch-all handler and no outcome is chosen (camoufox-py/browser/instance.py:111-112).

## Model

| member | source | states |
|---|---|---|
| CookieHandler.SameSite | camoufox-py/utils/cookie_handler.py:21-28 | A sameSite value is emitted exactly when its lower-cased text is no_restriction, lax, strict or unspecified. The results are None, Lax, Strict and Lax, so an emitted value is always in {None, Lax, Strict} |
| CookieHandler.SameSiteNoRestriction | camoufox-py/utils/cookie_handler.py:22-24 | The mapping ignores case: `No_Restriction` becomes `None` |
| CookieHandler.SameSiteUpperStrict | camoufox-py/utils/cookie_handler.py:22-26 | `STRICT` becomes `Strict` |
| CookieHandler.SameSiteNoneOmitted | camoufox-py/utils/cookie_handler.py:21-28 | `None` and a null sameSite are omitted, not passed on |
| CookieHandler.Whitelisted | camoufox-py/utils/cookie_handler.py:9-12 | Each of name, value, domain, path, httpOnly and secure is present exactly when the export has it, with the same value. No other key is copied |
| Json.GetDistinct | camoufox-py/utils/cookie_handler.py:11-12 | In a dict with distinct keys, `cookie[key]` is the value of the one entry under that key |
| CookieHandler.Expiry | camoufox-py/utils/cookie_handler.py:13-19 | A truthy session gives -1 even when an expirationDate is present. A null expirationDate gives -1; a numeric one gives its integer value. With neither, there is no expires key. An error exactly when int() fails on a non-null expirationDate |
| CookieHandler.PlaywrightCookieShape | camoufox-py/utils/cookie_handler.py:9-28 | The record's keys lie within the eight allowed keys. Whitelisted keys are copied unchanged. expires is present iff the expiry mapping gives one, and sameSite iff the sameSite mapping gives one, each with that value. An error exactly when the expiry fails |
| CookieHandler.ToPlaywrightCookie | camoufox-py/utils/cookie_handler.py:9-28 | The dict built by the assignments of the loop body equals PlaywrightCookie of the exported record |
| CookieHandler.CompleteIffExportComplete | camoufox-py/utils/cookie_handler.py:30 | A converted record passes the completeness test iff the export has name, value, domain and path as keys |
| CookieHandler.FailureIsFinal | camoufox-py/utils/cookie_handler.py:8-17 | Once int() fails on a record, no later record changes the outcome |
| CookieHandler.KeptOriginsIncrease | camoufox-py/utils/cookie_handler.py:8-31 | The input index each kept record comes from lies within the input, and these indices strictly increase |
| CookieHandler.KeptFromOrigins | camoufox-py/utils/cookie_handler.py:8-31 | There is one origin per kept record; kept record k is the conversion of its origin, which has name, value, domain and path |
| CookieHandler.KeptIsOrderedSubsequence | camoufox-py/utils/cookie_handler.py:8-31 | The output is an order-preserving subsequence of the input. Each output record is the conversion of a distinct input record at a strictly increasing index, and that input has name, value, domain and path |
| CookieHandler.KeptIff | camoufox-py/utils/cookie_handler.py:8-31 | Record i is kept iff no earlier record made int() fail, its conversion succeeds, and it has name, value, domain and path |
| CookieHandler.DroppedOriginsIncrease | camoufox-py/utils/cookie_handler.py:8-34 | The input index of each dropped record lies within the input, and these indices strictly increase |
| CookieHandler.DroppedFromOrigins | camoufox-py/utils/cookie_handler.py:8-34 | There is one origin per dropped record, and dropped record k is the input record at its origin |
| CookieHandler.DroppedIff | camoufox-py/utils/cookie_handler.py:8-34 | Record i is dropped, with its warning, iff no earlier record made int() fail, its conversion succeeds, and it lacks one of name, value, domain and path |
| CookieHandler.ConvertPartitions | camoufox-py/utils/cookie_handler.py:30-34 | Every output record has the four required keys and every dropped record lacks one. Before the first int() failure, record i is kept iff it has all four and dropped iff it lacks one, so a complete record is never dropped. The dropped list is exactly those incomplete inputs, in input order, each once. kept plus dropped is at most the input length, and equals it when nothing failed |
| CookieHandler.ConvertCookieEditorToPlaywright | camoufox-py/utils/cookie_handler.py:1-36 | The loop returns the kept records, or the int() error. With a logger it warns exactly once per dropped record, in order; without one it warns never |
| Launch.ParseHeadless | camoufox-py/browser/instance.py:37-42 | HeadlessOn iff the lower-cased text is "true"; HeadlessOff iff it is "false"; Virtual otherwise. Booleans map to themselves and null to Virtual |
| Launch.HeadlessDefaultsToVirtual | camoufox-py/browser/instance.py:21 | An absent headless setting gives the virtual display |
| Launch.HeadlessIgnoresCase | camoufox-py/run_camoufox.py:102-105 | "TRUE" and "False" are read as booleans |
| Launch.LegacyLaunchOptions | camoufox-py/run_camoufox.py:109-114 | The headless mode is the parse of the setting. A proxy entry with bypass "localhost, 127.0.0.1" is present iff a truthy proxy is configured. block_images is not set |
| Launch.BuildLaunchOptions | camoufox-py/browser/instance.py:44-47 | The same options as run_camoufox.py, with block_images always True |
| Instance.BeforeQuery | camoufox-py/browser/instance.py:80 | `split('?')[0]`: the longest prefix without '?', followed by '?' or by the end of the URL |
| Instance.BeforeQueryUnique | camoufox-py/browser/instance.py:80 | Those three properties determine the prefix |
| Instance.BeforeQueryDropsQuery | camoufox-py/browser/instance.py:80 | For a base without '?', `base?query` has prefix `base` |
| Instance.ClassifyPriority | camoufox-py/browser/instance.py:73-107 | The identifier marker always wins. The target outcomes hold iff there is no identifier marker and the target matches; the probe splits them. The chooser holds iff neither of those matched and the chooser marker is present. Unexpected covers the rest. The outcomes are exclusive and exhaustive |
| Instance.QueryStringIgnored | camoufox-py/browser/instance.py:80 | Expected URLs with the same part before '?' classify every final URL alike |
| Instance.DifferentQueryReachesTarget | camoufox-py/browser/instance.py:80-94 | Expected `base?q1` and final `base?q2` take the target branch, whatever q1 and q2 are |
| Instance.IdentifierBeatsTarget | camoufox-py/browser/instance.py:74-80 | An identifier-page URL that also carries the target still classifies as the identifier page |
| Instance.Screenshots | camoufox-py/browser/instance.py:77-106 | Each failure outcome writes exactly one screenshot, `logs/FAIL_<kind>_<cookie_file>.png`; the confirmed outcome writes none here |
| Instance.ScreenshotPathInjective | camoufox-py/browser/instance.py:77-106 | A screenshot name determines both the outcome and the cookie file |
| RunCamoufox.LegacySameSite | camoufox-py/run_camoufox.py:54-63 | The stored sameSite is always None, Lax or Strict: Lax or Strict for those values in any case, and None otherwise, including null and no_restriction |
| RunCamoufox.Sanitized | camoufox-py/run_camoufox.py:65 | A sanitized record's keys lie within the allowed set |
| RunCamoufox.RenamedKeys | camoufox-py/run_camoufox.py:50-64 | The keys of `new_cookie` are the export's keys, with expirationDate renamed to expires |
| RunCamoufox.LastWriteWins | camoufox-py/run_camoufox.py:50-64 | The last entry written under a key is the value `new_cookie` keeps |
| RunCamoufox.RenamedSameSite | camoufox-py/run_camoufox.py:54-63 | Any stored sameSite is None, Lax or Strict |
| RunCamoufox.SanitizedShape | camoufox-py/run_camoufox.py:47-65 | A key is in the sanitized record iff it is allowed and the export has it, or it is expires and the export has an expirationDate. sameSite is within {None, Lax, Strict} |
| RunCamoufox.SanitizedValue | camoufox-py/run_camoufox.py:50-65 | An allowed entry other than expires is kept. sameSite is mapped; any other value is unchanged |
| RunCamoufox.SanitizedExpiry | camoufox-py/run_camoufox.py:51-53 | An expirationDate value appears as expires unless a later expires entry overwrites it |
| RunCamoufox.SanitizeCookies | camoufox-py/run_camoufox.py:44-67 | One output record per input record, in the same order, each the sanitized form of its input: no record is dropped |
| RunCamoufox.MergeConfig | camoufox-py/run_camoufox.py:190-191 | The merged config has every global and every profile key. Profile values override on shared keys |
| RunCamoufox.LaunchPlanIsFilter | camoufox-py/run_camoufox.py:187-199 | Launched configurations are merged profiles, in list order, each with cookie_file and url. Profile i is launched iff its merge has cookie_file and url. Skipped profiles lack one of them after the merge. Each profile is launched or skipped |
| RunCamoufox.LaunchOriginsIncrease | camoufox-py/run_camoufox.py:187-199 | The profile index of each launch lies within the list, and these indices strictly increase |
| RunCamoufox.LaunchedFromOrigins | camoufox-py/run_camoufox.py:187-199 | Launch k is the merge of the globals with the profile at its origin |
| RunCamoufox.LaunchPlanPartitions | camoufox-py/run_camoufox.py:193-199 | Every launched configuration has cookie_file and url; every skipped profile is in the list and lacks one of them after the merge; launched plus skipped is the number of profiles |
| RunCamoufox.LaunchedIff | camoufox-py/run_camoufox.py:187-199 | Profile i is launched iff its merge with the globals has cookie_file and url |
| RunCamoufox.SkipOriginsIncrease | camoufox-py/run_camoufox.py:187-197 | The profile index of each skip lies within the list, and these indices strictly increase |
| RunCamoufox.SkippedFromOrigins | camoufox-py/run_camoufox.py:187-197 | There is one origin per skipped profile, and skip k is the profile at its origin |
| RunCamoufox.SkippedIff | camoufox-py/run_camoufox.py:187-197 | Profile i is skipped, with its warning, iff its merge lacks cookie_file or url |
| RunCamoufox.StartInstances | camoufox-py/run_camoufox.py:187-199 | The profile loop produces exactly the launch plan |
| Pool.FirstIndexOf | golang/main.go:100-101 | The index of the first connection on `conn`, or none when no connection matches |
| Pool.SwapRemove | golang/main.go:105-106 | Swap-remove shortens the list by one |
| Pool.SwapRemoveMultiset | golang/main.go:105-106 | Moving the last element into slot i and truncating removes exactly element i from the multiset |
| Pool.RemoveFirstMultiset | golang/main.go:100-110 | Removal takes out the first matching connection, and nothing else, from the multiset. Without a match the list is unchanged |
| Pool.Pick | golang/main.go:138-140 | GetConnection returns `Connections[NextIndex mod n]`, keeps the list and leaves `NextIndex < n` |
| Pool.PicksAt | golang/main.go:138-140 | Call j of a run of calls returns connection (NextIndex + j) mod n |
| Pool.RoundRobinRotation | golang/main.go:138-140 | n consecutive calls return the list rotated to start at the cursor |
| Pool.RoundRobinFair | golang/main.go:138-140 | n consecutive calls return each connection exactly once |
| Pool.ConnectionPool.constructor | golang/main.go:56-58 | The global pool starts empty |
| Pool.ConnectionPool.AddConnection | golang/main.go:61-86 | Appends at the end of the user's list. An absent user gets a new entry with cursor 0. Other users are untouched. It keeps the invariant that no entry is empty |
| Pool.ConnectionPool.RemoveConnection | golang/main.go:89-116 | Nothing changes for an absent user. Otherwise the first match is swap-removed and the user is deleted once the list is empty. Every entry stays non-empty |
| Pool.ConnectionPool.GetConnection | golang/main.go:119-143 | Error when the user is absent or has no connections. Otherwise it returns the pick and advances only that user's cursor. It keeps the invariant that no entry is empty, and in a pool that keeps it the error means exactly that the user is absent |
| Proxy.FilterHeaders | golang/main.go:289-295 | The forwarded headers are exactly the request headers minus the eight hop-by-hop names, with values unchanged |
| Proxy.ObjectMapLastWins | golang/main.go:431 | In a decoded `headers` object, a key's value is its last occurrence |
| Proxy.HeaderEntry | golang/main.go:435-445 | A string sets the header to that one value. An array adds its string elements, and sets nothing if it has none. Other values are skipped |
| Proxy.ArrayStrings | golang/main.go:437-441 | The inner loop collects the array's string elements in order |
| Proxy.SetResponseHeaders | golang/main.go:430-447 | The header equals the per-entry result over the payload's headers object. Every set header has a value; a string entry sets exactly that value |
| Proxy.StatusCode | golang/main.go:450-457 | The numeric `status`, or 200 when absent |
| Proxy.BodyData | golang/main.go:460-470 | A string `data` wins over a string `body`; otherwise the result is empty |
| Proxy.WriteBody | golang/main.go:460-475 | One Write of the body data, and none when it is empty |
| Proxy.ErrorMessage | golang/main.go:393-397 | An error reply's message is the payload's string `error`, or "Bad Gateway: Client reported an error" |
| Proxy.ErrorStatus | golang/main.go:398-401 | An error reply's status is the payload's numeric `status`, or 502 |
| Proxy.StatusAtMostOnce | golang/main.go:345-425 | The status line is fixed at most once in a response, and never after headers are out |
| Proxy.WritesFollowStatus | golang/main.go:345-425 | Starting before any headers, every body write comes after the status line |
| Proxy.FinishedIgnoresLater | golang/main.go:332-425 | Once the handler has returned, later events change nothing |
| Proxy.LateMessages | golang/main.go:346-366 | After headers, http_response ends the request with no writes, and stream_start is skipped while the loop continues |
| Proxy.EarlyMessages | golang/main.go:370-403 | Before headers, a chunk first writes an implicit 200. An error replies with its message and status, defaulting to 502. stream_end writes 200 and ends |
| Proxy.AbnormalEnds | golang/main.go:337-422 | A closed channel gives 500 and the deadline gives 504 when nothing was sent yet, and no write otherwise. Both end the request |
| Proxy.UnknownKindIgnored | golang/main.go:409-410 | A message of any other type is skipped |
| Proxy.HandleEvent | golang/main.go:336-422 | One loop iteration makes the calls of the state-machine step, and sets headersSet and the return decision as that step does |
| Proxy.ProcessWebSocketResponse | golang/main.go:321-425 | The loop, starting with headersSet false, makes exactly the calls of the specified run and consumes its events |
| Auth.ValidateJwt | golang/main.go:478-491 | Empty token gives missing_token. Only `valid-token-user-1` succeeds, as `user-1`; anything else is invalid |
| Auth.PresentedKey | golang/main.go:497-502 | The x-goog-api-key header when non-empty, else the `key` query parameter |
| Auth.AuthenticateHttpRequest | golang/main.go:494-517 | An empty expected key rejects everything. Otherwise `user-1` exactly when the presented key equals it; any other key is invalid |
| Auth.HeaderKeyTakesPrecedence | golang/main.go:497-502 | With a header key, the query parameter is never consulted |
| Auth.NoCredentialsRejected | golang/main.go:494-517 | A request presenting no key is never admitted |

## Left out

- **Browser calls** (Camoufox launch, new_context, add_cookies, goto, get_by_role, screenshot): foreign calls. The login probe is a boolean input and a screenshot is its file name.
- **camoufox-py/browser/navigation.py** (dialog handling, the keep-alive loop and its confirmed-success screenshot): browser clicks, sleeps and an endless loop, with no decision logic beyond them.
- **Logging** (setup_logging, utils/logger.py, every log line): I/O. Only the warning per dropped cookie is modelled, as a list.
- **File and YAML/JSON reading, `os.path.exists`, `makedirs`**: I/O. Configurations and exports are given as decoded values.
  - This includes the guard at camoufox-py/browser/instance.py:24, which also tests that the cookie file exists.
  - It also includes the early return for an empty profile list at camoufox-py/run_camoufox.py:183-185; an empty list gives an empty plan anyway.
- **Process start, join and terminate** in `main`: process management. The plan lists the configurations that would be launched.
- **Floating point**:
  - Python's `int()` on a float (truncation);
  - the JSON `float64` status codes in Go.

  Numbers are integers here. `int()` is modelled on integers, on digit strings with an optional sign, and on booleans. It fails on anything else, including strings with spaces or underscores, which Python would accept.
- **Case folding**: `lower()` and `capitalize()` are modelled on ASCII letters. Every keyword the source compares with is ASCII.
- **Go concurrency**: mutexes, the readPump goroutine, `pendingRequests`, buffered channels, `context.WithTimeout` and the server loop. The pool is sequential and the response loop reads an event list; the deadline is an explicit event.
- **Go per-connection state**: LastActive times and the write mutex.
- **Go HTTP details**: header canonicalisation, `WriteHeader` panicking on invalid codes, and the body and content-type that `http.Error` writes. An `HttpError` action stands for the whole `http.Error` call.
- Proxy.SetResponseHeaders: it models a fresh ResponseWriter and distinct header names. Go's random map order does not matter under those conditions, so it is not modelled.
