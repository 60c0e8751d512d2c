# Conditional-fetch cache of the gobstones activity server, in Dafny

This project models the core of the activity server's `GitHubService`. The service fetches
repository contents from GitHub and keeps a response cache keyed by request. When it knows an
entity tag (etag) for a key, it sends a conditional request. On `304 Not Modified` it serves
the payload it stored. Upstream failures are translated into HTTP exceptions or forwarded as
they are. A throttling policy retries a primary rate limit once and never retries an abuse
signal. The project also models the `promiseProps` helper, which zips an object's keys with
the resolved values of its promises.

Modules:

- `Wrappers` (wrappers.dfy): `Option`, used for JavaScript properties that may be `undefined`.
- `JsStrings` (js_strings.dfy): `split` with a one-character separator, and `replace` with a
  string pattern, which replaces only the first occurrence. `split` has round-trip lemmas
  (`JoinSplit`, `SplitJoin`); `replace` has specification lemmas (`ReplaceAbsent`, `ReplaceAtFirst`).
- `CacheStore` (cache_store.dfy): the cache seen as a map from key to `CacheItem(etag, data)`.
  Eviction removes any set of keys. The usage report is also here: used bytes are the sum of
  the stored items' sizes, under an uninterpreted size function.
- `GitHubService` (github_service.dfy): `getContent` and its steps: slug parsing, cache key,
  conditional header, `addToCache`, `fetchFromCache` and `forwardHttpError`. Also `fetchDataFrom`,
  and lemmas for multi-call scenarios, including the service's own test scenario.
- `Throttling` (throttling.dfy): the `onRateLimit` / `onAbuseLimit` retry decision, and an
  abstract resend driver. The driver shows that at most one retry happens.
- `PromiseUtil` (promise_props.dfy): `Promise.all` on settled promises, and `promiseProps`.

The payload type is a type parameter `D`: the cache stores it as-is and returns it as-is.
The upstream call is a parameter `upstream: Request -> Upstream<D>`. The store is passed in
and returned explicitly.

Where the code's behaviour is easy to misread, the model follows the code:

- The etag is normalised with `replace('W/', '')`. This removes the first `W/` anywhere in
  the tag, not only a leading weak marker.
- An etag is stored only when `headers.etag` is truthy, so an empty etag is treated as absent.
- `fetchFromCache` checks only `status === 304`. Any error with that status is answered from
  the cache, whatever its name.
- A 304 with no stored entry fails when it reads `.data` of `undefined`. The resulting
  `TypeError` is not named `HttpError`, so it is forwarded unchanged (`DereferenceError`).
- The cache key is `getContent-<slug>-<path>`. It is not injective: `CacheKeyCollision` shows
  two different requests that share one entry.
- The path defaults to `.` only when it is `undefined`. An empty path stays empty.
- The service's tests call the operation `repositoryContents`. The service defines it as
  `getContent`, and that is what is modelled.

## Model

| member | source | states |
|---|---|---|
| JsStrings.Split | src/github.service.ts:73 | `split('/')` yields at least one piece, no piece contains the separator, and there is a single piece exactly when the string has no separator |
| JsStrings.JoinSplit | src/github.service.ts:73 | joining the pieces of a split with the separator gives back the original string |
| JsStrings.SplitJoin | src/github.service.ts:73 | splitting the join of separator-free pieces gives back the same pieces |
| JsStrings.ReplaceAbsent | src/github.service.ts:122 | `replace` leaves a string without the pattern unchanged |
| JsStrings.ReplaceAtFirst | src/github.service.ts:122 | `replace` substitutes the replacement for the leftmost occurrence of the pattern and leaves everything else in place |
| GitHubService.ParseSlug | src/github.service.ts:73 | owner and repository contain no slash; the repository is undefined exactly when the slug has no slash, and then the owner is the whole slug; otherwise owner and repository are the first two pieces of the slug: `owner/repo` is a prefix that ends at the end of the slug or at the next slash |
| GitHubService.SlugRoundTrip | src/github.service.ts:73 | a slug `owner/repo` is split back into that owner and that repository |
| GitHubService.GobstonesDemoSlug | src/github.service.spec.ts:32-41 | `gobstones/demo` yields owner `gobstones` and repository `demo` |
| GitHubService.GobstonesDemoKey | src/github.service.ts:72-74 | with the default path, `gobstones/demo` is cached under `getContent-gobstones/demo-.` |
| GitHubService.CacheKeyCollision | src/github.service.ts:74 | two different (slug, path) pairs can produce the same cache key |
| GitHubService.MakeCacheHeaders | src/github.service.ts:106-109 | the headers hold `If-None-Match` exactly when an item is stored for the key, carry the stored etag, and hold nothing else |
| GitHubService.StripWeakPrefix | src/github.service.ts:122 | a weak etag `W/t` is stored as `t`; `W/1234` becomes `1234` |
| GitHubService.StripWeakStrong | src/github.service.ts:122 | an etag without `W/` is stored unchanged |
| GitHubService.AddToCache | src/github.service.ts:119-126 | the response body is always returned; with a truthy etag the key maps to the normalised etag and the body and every other key is untouched; without one the store is unchanged |
| GitHubService.FetchFromCache | src/github.service.ts:128-136 | a 304 returns the stored payload, or throws the dereference error when nothing is stored; any other error is rethrown unchanged |
| GitHubService.ForwardHttpError | src/github.service.ts:111-117 | an error becomes an `HttpException` exactly when it is named `HttpError`, keeping its message and status; any other error is rethrown unchanged |
| GitHubService.Settle | src/github.service.ts:83-85 | the result resolves exactly on success or on a 304 with a stored item; failures never change the store; HTTP errors keep status and message; other errors pass through; a 304 never surfaces as an `HttpException` |
| GitHubService.GetContent | src/github.service.ts:72-86 | the request carries the slug's owner and repository and the defaulted path; it is conditional on the stored etag exactly when the key has an entry; the upstream's answer to that request is settled against the key |
| GitHubService.FetchDataFrom | src/github.service.ts:138-147 | resolves with the body exactly on success; otherwise it rejects with the forwarded error |
| GitHubService.FetchDataFromAgreesWithSettle | src/github.service.ts:138-147 | for any response other than a 304, `fetchDataFrom` and the `getContent` chain settle to the same value or the same translated error |
| GitHubService.RevalidatesWithStoredEtag | src/github.service.spec.ts:54-70 | after a success with a truthy etag, the next request for the key carries `If-None-Match` with that etag normalised |
| GitHubService.ChangedThenNotModified | src/github.service.spec.ts:99-127 | after a changed response with a new etag, a later 304 serves the new body and leaves the store alone |
| GitHubService.ChangedEvictedThenNotModified | src/github.service.spec.ts:99-127 | whatever is evicted after a changed response, a later 304 serves the new body or fails with the dereference error, never the body stored before |
| GitHubService.UntaggedThenNotModified | src/github.service.spec.ts:132-142 | a success without an etag stores nothing, so a later 304 for a previously unknown key fails with the dereference error |
| GitHubService.EvictedBeforeNotModified | src/github.service.ts:128-132 | if the key is evicted before a 304 is handled, the call fails with the dereference error |
| GitHubService.ReplacedBeforeNotModified | src/github.service.ts:81-131 | for any store, when another call's tagged success replaces the item under a key between building the conditional request and handling its 304, the request carried the old etag but the 304 is served the other call's body |
| GitHubService.FailureKeepsUsage | src/github.service.ts:96-101 | a failed fetch, a 304 included, leaves the reported usage unchanged |
| GitHubService.SuccessUsage | src/github.service.ts:119-124 | a success with a truthy etag changes the used bytes by exactly the key's share: the old item's size out, the new item's size in; without an etag usage is unchanged |
| GitHubService.GobstonesDemoFirstFetch | src/github.service.spec.ts:44-61 | the first fetch sends no conditional header, returns the body, and stores it under etag `1234` |
| GitHubService.GobstonesDemoNotModified | src/github.service.spec.ts:63-97 | the second fetch is conditional on `1234`, and a 304 returns the stored body unchanged |
| CacheStore.CacheUsage | src/github.service.ts:96-101 | used is the sum of the sizes of the stored items, used plus remaining equals the configured limit, remaining is non-negative while the items fit, and an empty cache has nothing used |
| CacheStore.LengthSubStore | src/github.service.ts:66-69 | a store with some entries evicted never has a larger total length |
| CacheStore.EvictNeverGrowsUsage | src/github.service.ts:96-101 | eviction never increases the used bytes nor decreases what remains |
| CacheStore.UsageExample | src/github.service.spec.ts:72-85 | a store holding one item of 48 bytes against a budget of 5000 reports 48 used and 4952 remaining |
| Throttling.Retries | src/github.service.ts:18-36 | a request is retried exactly when the signal is a primary rate limit and no retry has happened yet; an abuse signal is never retried |
| Throttling.Throttled | src/github.service.ts:18-36 | a throttled call makes at most two attempts; the last attempt is what it reports; a second attempt happens exactly when the first attempt met a primary rate limit |
| Throttling.AbuseNeverRetried | src/github.service.ts:30-36 | an abuse signal ends the call on its first occurrence |
| Throttling.SecondRateLimitSurfaces | src/github.service.ts:23-28 | a rate limit on the retry is surfaced after two attempts, with no third |
| Throttling.AbuseOnRetrySurfaces | src/github.service.ts:18-36 | an abuse signal on the retry ends the call after the second attempt |
| Throttling.RetryAfterRateLimit | src/github.service.ts:23-27 | a first rate limit followed by an answer resolves with that answer after one retry |
| PromiseUtil.All | src/utils/promise.ts:12 | fulfilled exactly when every promise is, with the values in order; otherwise rejected with the reason of one of the rejected promises |
| PromiseUtil.Zip | src/utils/promise.ts:13-17 | the built object has exactly the given keys, and each key holds the value at its own index |
| PromiseUtil.PromiseProps | src/utils/promise.ts:5-19 | the result has exactly the input's keys, each paired with its own promise's value; it exists exactly when every promise is fulfilled, otherwise it fails with one of the rejection reasons; an empty object gives an empty object |

## Left out

- Octokit transport and authentication (`createOAuthAppAuth`, the HTTP call itself). The upstream call is a function parameter.
- Logging in the throttling callbacks (`octokit.log.warn` / `info`) and the `retryAfter` delay. They do not affect the retry decision.
- Throttling.Throttled: the throttling plugin's resend machinery is not part of this model. The driver assumes the plugin re-sends with the retry count one higher whenever the callback returns a truthy value, and surfaces the signal otherwise.
- The LRU library's internals: recency order, the byte budget, eviction order, and dropping an entry larger than the whole budget. The store is a plain map, and `CacheStore.Evict` lets any entries disappear.
- `sizeof`, the size estimator. It is a parameter `size` of `CacheStore.Length` and `CacheStore.CacheUsage`, and nothing is assumed about it, so the 48 bytes of the service's test appear as a hypothesis of `CacheStore.UsageExample`.
- The human-readable half of `cacheUsage` (`xbytes` formatting). It is float and string formatting in a library.
- `rateLimit()`. It is a network call; only the `fetchDataFrom` step it uses is modelled.
- PromiseUtil.All: `Promise.all` rejects with the first rejection in time. The model returns the first in key order, and its contract only promises one of the rejection reasons.
- PromiseUtil.PromiseProps: assigning to a key named `__proto__` changes the result's prototype instead of adding a key. This is not modelled.
- Rejection values that are not objects (`throw undefined`), and errors without a name. A missing name behaves like any name other than `HttpError`, so it is modelled as one.
- The exact text of the `TypeError` message. It depends on the JavaScript engine, so `DereferenceError` uses one representative text.
- Concurrency: races between concurrent `getContent` calls on the same key, and promise scheduling. The cache is read once when the request is built and again when a 304 is handled. Two effects of a change in between are stated as lemmas. `EvictedBeforeNotModified`: an evicted entry makes the 304 fail. `ReplacedBeforeNotModified`: a replaced entry makes the 304 serve the replacement's body.
- The Discord logger, the bug report model, the controller, the module wiring, configuration and bootstrap. They are routing, templating and I/O, with no caching logic.
