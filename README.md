# updown client core, modelled in Dafny

A model of the sequential core of the Go client for the updown.io uptime API:

- **`MemoryCache`** (`cache.dfy`, module `Cache`): an alias-to-token cache whose entries never
  expire. It is a class with one `map<string, string>` field. `Put` overwrites one key in place.
  `Has` and `Get` are lookups that change nothing.
- **`CheckService.TokenForAlias`** (`checks.dfy`, module `Checks`): resolves a check's alias to its
  token. It looks in the cache first. On a miss it scans the full listing of checks, stores every
  listed `(alias, token)` pair in the cache and returns the token of the last check whose alias
  equals the name exactly. When no check matches it fails with the sentinel `ErrTokenNotFound`,
  here `TokenNotFound`. The listing call is an input of type `ListOutcome`: either every check or
  the error the call returned. The method is a loop over the listing. It is proved equal to the
  pure function `Resolve`, which is built from `BackFill` (the cache after the scan) and
  `LastToken` (the token of the last match). The lemmas state the promised properties about those
  functions.
- **Path builders**: `pathForToken` (`Checks.PathForToken`); the downtimes page path with its
  `max(1, pageNb)` clamp (`Downtimes.ListPath`); and the metrics path with its optional `from` and
  `to` parameters (`Metrics.BuildListPath`, a method that appends step by step as
  `MetricService.List` does, proved equal to the function `Metrics.ListPath`).
- Helper modules: `Strconv` models `strconv.Itoa` and the `strconv.Atoi` parser. They give the
  round trip of the page number. `Query` models how a resolved URL is read back: a `#` starts the
  fragment, which is never sent; the query is the text between the first `?` and the fragment;
  and the parameters are the pieces of the query between `&` separators. These
  state what the path builders put on the wire.

When several listed checks carry the same alias, the code returns, and leaves cached, the token
of the **last** one; the model follows the code.

## Model

| member | source | states |
|---|---|---|
| `Cache.MemoryCache.constructor` | cache.go:43-46 | a new cache has no entries, so no key is present |
| `Cache.MemoryCache.Has` | cache.go:20-26 | true exactly when a value is stored for the key; changes nothing |
| `Cache.MemoryCache.Put` | cache.go:28-33 | the map afterwards is the old map with the key set to the value: the key is present with that value, and every other key keeps its presence and value |
| `Cache.MemoryCache.Get` | cache.go:35-41 | the found flag agrees with `Has`; the value is the stored one, or "" for an absent key; changes nothing |
| `Cache.FreshPutGet` | cache_test.go:9-19 | a fresh cache lacks "foo"; after storing "bar" under "foo", `Has` and `Get` report it with value "bar" |
| `Cache.PutTwice` | cache.go:29-33 | after two writes to one key, `Get` returns the second value; no other key changes |
| `Checks.CheckService.constructor` | checks.go:65-68 | the service keeps the cache it is given |
| `Checks.CheckService.TokenForAlias` | checks.go:78-105 | the returned token, the error and the cache afterwards are exactly what `Resolve` gives for the cache before the call, the name and the listing |
| `Checks.ResolveHit` | checks.go:80-82 | on a hit, even for a cached "", the cached token is returned with no error, the cache is unchanged and the result does not depend on the listing |
| `Checks.ResolveListingFails` | checks.go:84-88 | on a miss with a failed listing, the result is "" with that listing's transport error passed on, and the cache is unchanged |
| `Checks.BackFillKeys` | checks.go:92-93 | after the scan, the cache's keys are its old keys plus every listed alias |
| `Checks.BackFillLastWins` | checks.go:92-93 | after the scan, each listed alias maps to the token of the last listed check with that alias |
| `Checks.BackFillKeepsOthers` | checks.go:92-93 | a key that no listed check carries keeps its presence and its value |
| `Checks.LastTokenNone` | checks.go:91-97 | the scan finds nothing exactly when no listed alias equals the name (exact equality) |
| `Checks.LastTokenIsLast` | checks.go:91-97 | when some alias equals the name, the token found is that of the last such check |
| `Checks.LastTokenAgreesWithBackFill` | checks.go:92-95 | a token found by the scan is what the back-filled cache holds for the name |
| `Checks.ResolveBackFills` | checks.go:91-97 | on a miss with a listing, found or not: every listed alias is cached with its last token, and every other key keeps its value |
| `Checks.ResolveFound` | checks.go:91-101 | on a miss where some check has the name, the token of the last such check is returned with no error, and the cache maps the name to it |
| `Checks.ResolveNotFound` | checks.go:91-104 | on a miss where no check has the name, the result is "" with `ErrTokenNotFound`, and the name stays absent from the cache |
| `Checks.ResolveNotFoundExactly` | checks.go:78-104 | `ErrTokenNotFound` is returned exactly on a miss whose listing succeeded and holds no check with the name, so the sentinel always means "no match" |
| `Checks.ResolveTwice` | checks.go:78-105 | after a success the name is cached with the returned token, so a second call returns the same token with no error, whatever the listing, and changes nothing |
| `Checks.PathForToken` | checks.go:187-189 | the path is "checks/" followed by the token, 7 characters longer than the token |
| `Checks.TokenOfPathInverse` | checks.go:187-189 | stripping "checks/" gives the token back, and only the path of a token gives that token |
| `Downtimes.Max` | downtimes.go:39-44 | the result is at least each argument and equals one of them |
| `Downtimes.MaxCommutes` | downtimes.go:39-44 | the order of the arguments does not matter |
| `Downtimes.Page` | downtimes.go:24 | the page number is at least 1: 1 for `pageNb <= 0`, `pageNb` itself otherwise |
| `Downtimes.ListPath` | downtimes.go:24 | the path is "checks/<token>/downtimes?page=" followed by nothing but digits |
| `Downtimes.ListPathPage` | downtimes.go:24 | the digits after "page=" parse back to an integer of at least 1: 1 for `pageNb <= 0`, and `pageNb` otherwise |
| `Downtimes.ListPathQuery` | downtimes.go:24 | for a token without `?` or `#`, the URL's query (after the `?`, before any fragment) holds the single parameter `page=<n>` |
| `Strconv.Digits` | downtimes.go:24 | the decimal rendering of a natural number is non-empty, all digits, with no leading zero |
| `Strconv.Itoa` | downtimes.go:24 | non-empty; all digits for a non-negative value; starts with '-' exactly for a negative value |
| `Strconv.ItoaRoundTrip` | downtimes.go:24 | parsing what `Itoa` rendered gives back the same integer |
| `Metrics.FromSegment` | metrics.go:57-59 | the `&from=` segment is empty exactly when `from` is, and otherwise carries `from` verbatim after "&from=" |
| `Metrics.ToSegment` | metrics.go:60-62 | the `&to=` segment is empty exactly when `to` is, and otherwise carries `to` verbatim after "&to=" |
| `Metrics.BuildListPath` | metrics.go:55-62 | building the path step by step gives `ListPath`: the base, then the optional `from` segment, then the optional `to` segment |
| `Metrics.ListPathShape` | metrics.go:55-62 | the path starts with "checks/<token>/metrics?group=<group>"; its length is the base plus `6+|from|` and `4+|to|` for the present parameters; the from segment comes right after the base and the to segment ends the path; with neither, the path is the base |
| `Metrics.ListPathQuery` | metrics.go:55-62 | when the token has no `?`, nothing has `#` and no value has `&`, the URL's query parameters (after the `?`, before any fragment) are `group=<group>`, then `from=<from>` when present, then `to=<to>` when present |
| `Metrics.ListPathOptionalParameters` | metrics.go:57-62 | `from=<from>` is a query parameter exactly when `from` is not empty, and likewise for `to` |

## Left out

- The transport layer: `Client`, `NewRequest` and `Do` (authentication, URL resolution, JSON
  encoding and decoding, status-to-error mapping) are not part of this model. The wrappers that
  only delegate to them are also left out: `List`, `Get`, `Add`, `Update` and `Remove` in
  checks.go, recipients.go, webhooks.go and nodes.go, and the `NewRequest`/`Do` calls of
  `DowntimeService.List` and `MetricService.List`. These are HTTP I/O behind foreign calls.
- The listing call inside `TokenForAlias` is a parameter (`ListOutcome`), not a network call. That
  a hit makes no listing call is stated as `ResolveHit`: the result does not depend on the
  listing.
- The `Cache` interface: the model's `CheckService` holds a `MemoryCache` directly. Other cache
  implementations cannot be substituted.
- The `sync.RWMutex` in `MemoryCache`, and concurrency in general. The model is sequential.
- The resource structs (`Check`, `CheckItem`, `MetricItem`, `Downtime`, ...), JSON tags and the
  `RecipientType` constants are declarative. Some of them hold floating point. A listed check is
  reduced to the two fields the resolver reads (`CheckEntry`).
- The text of the `ErrTokenNotFound` message: the sentinel is the constructor `TokenNotFound`,
  and a listing error is the opaque message of the transport, passed on as a `Transport` error.
- Metrics.ListPath: requires that the token holds no `%`. `MetricService.List` puts the token into
  a `fmt.Sprintf` format string, and Go's format verbs are not modelled.
- Metrics.BuildListPath: requires that the token holds no `%`, for the same reason.
- Strconv.Itoa: Go's `int` is 32 or 64 bits wide depending on the platform. The model uses
  unbounded integers, so that range (and the range check of `strconv.Atoi`) is not modelled. `max(1, pageNb)` cannot
  overflow.
- The live-network tests in client_test.go need an API key and add no behaviour beyond the
  wrappers.
- A zero-value `MemoryCache{}` has a nil map, and `Put` on it panics in Go. The model's class can
  only be built through its constructor (`NewMemoryCache`), so that panic is not modelled.
- Downtimes.ListPathQuery, Metrics.ListPathQuery, Metrics.ListPathOptionalParameters: they say
  nothing about the query when the token holds `?` or `#`, or a parameter value holds `#` or `&`.
  Such characters are sent unescaped and change how the URL is read.
