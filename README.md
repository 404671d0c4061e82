# Rate-limit decision path of mayckol/rate-limiter, in Dafny

This project models the part of the rate limiter that decides whether a request
gets through:

- **Counter engine** (`repository.dfy`, module `Repository`):
  `RequestRepository.CheckRateLimit` reads the key's count from the store (a
  missing key counts as 0). Below the ceiling it writes `count + 1` with a
  one-second TTL and admits the request. At or above the ceiling it writes
  `count + 1` with the lockout TTL (`TimeoutDuration` seconds) and denies it.
  Store errors are passed up. `SetRateLimit` writes a value with a one-minute
  TTL. The store is a class `Cache.Client` with a `map` field. Only its `Get`
  and `Set` are modelled, because they are the only store operations this path uses.
  The engine is a class whose method is proved against the function
  `Repository.Check`. Lemmas about `Check` state what happens over many calls:
  counting, lockout and the read-then-write race.
- **Key derivation** (`strpkg.dfy`, module `StrPkg`): `ExtractNumbers` is a
  loop, proved equal to the recursive function `Digits`. Lemmas prove that the
  result contains only digits and is an in-order subsequence of the input that
  keeps every digit. They also prove idempotence and concatenation, plus the
  concrete values used by the tests.
- **Middlewares** (`middleware.dfy`, module `MiddlewarePkg`): `SetJWTClaims`
  and `RateLimit` are pure functions returning an `Outcome`:
  `Next(claims)`, `Unauthorized` (401), `TooManyRequests` (429) or
  `InternalError` (500). Two things are parameters: the JWT library's parse
  (a `TokenParser`) and the repository (`Entity.RequestRepositoryInterface`,
  the one-method interface).
- **Route wiring** (`handlers.dfy`, module `Handlers`): the two middlewares in
  the route's order, run against the engine's specification. This shows how
  many requests of one caller are forwarded.

Time is an explicit input: `now`, in Unix milliseconds. A store entry keeps
the absolute instant at which it expires. As with the Redis client, a `Set`
whose TTL is not positive sets no expiry, so a `TimeoutDuration` of 0 or less
locks a key out for good. Store faults are inputs too: `readFault` and
`writeFault` are the replies the store gives.

The configuration is an immutable `ConfPkg.Conf` value, read in place of the
global configuration object.

Behaviour of the code worth knowing:

- **Token identity.** The claims keep the request's own `RemoteAddr` as their
  IP. A valid token contributes only its ceiling and its expiry
  (`SetJWTClaims`).
- **Counter keys.** The key keeps only the digits of the address, so distinct
  addresses can share a counter (`DistinctAddressesShareKey`). A remote
  address carries its port, so one host reaching the server from two ports
  has two counters (`PortIsPartOfKey`).
- **Store operations.** The engine uses plain `Get` and `Set`. It uses no
  atomic increment. The race this allows is stated by `InterleavingOverAdmits`.
- **Zero ceiling.** A ceiling of 0 denies every request only while stored
  counts are non-negative. `SetRateLimit` can store a negative value, and a
  later check then admits requests (`ZeroLimitDeniesAll` assumes
  `NonNegative`).

## Model

| member | source | states |
|---|---|---|
| `Cache.Client.Get` | internal/infra/cache/interface.go:11 | a store fault comes back as a failure; otherwise a value exactly when the key is live at `now`, and "not found" for a missing or expired key |
| `Cache.Client.Set` | internal/infra/cache/interface.go:10 | the store's error is returned unchanged; a successful write replaces only that key, with the TTL turned into an absolute expiry, and a failed one changes nothing |
| `Cache.AfterSet` | internal/infra/cache/interface.go:10 | a failed write leaves the store as it was; a successful one gives the key the new value and expiry; every other key is unchanged |
| `Cache.ExpiryFor` | internal/infra/cache/interface.go:10 | a positive TTL expires exactly that many milliseconds after `now`; a TTL of zero or less sets no expiry |
| `Repository.Check` | internal/infra/repository/request.go:21-39 | admitted only with no error and a count below the ceiling; a read error is returned, the request refused, nothing written; otherwise the error is the write's; with a healthy store: admitted iff below the ceiling, count becomes current+1 with the 1 s TTL or the lockout TTL; no other key changes |
| `Repository.RequestRepository.CheckRateLimit` | internal/infra/repository/request.go:21-39 | `Get`, then `Set` of count+1 with window or lockout TTL; its result and the new store are exactly those of `Check` on the old store |
| `Repository.RequestRepository.SetRateLimit` | internal/infra/repository/request.go:41-47 | returns the store's error unchanged; on success the key holds `limit` for exactly one minute |
| `Repository.Run` | internal/infra/repository/request.go:21-39 | sequential checks of one key admit at most one request per call and never change another key |
| `Repository.StillLiveAfter` | internal/infra/repository/request.go:28-38 | after a healthy check the count reads current+1 at every later instant before the written TTL (1 s, or the lockout) runs out |
| `Repository.RunAdmits` | internal/infra/repository/request.go:21-39 | n calls within one window starting from count c admit exactly min(n, max(limit − c, 0)) and leave the count at c + n |
| `Repository.SequentialCallsAdmitLimit` | internal/infra/repository/request.go:21-39 | from a missing key, n calls within one window admit exactly min(n, limit), store n, and leave every other key unchanged |
| `Repository.LockoutHolds` | internal/infra/repository/request.go:36-38 | once the count has reached the ceiling, every call arriving within the lockout of the previous one is denied and adds exactly one to the count |
| `Repository.CheckKeepsNonNegative` | internal/infra/repository/request.go:28-38 | a healthy check keeps every stored count non-negative |
| `Repository.ZeroLimitDeniesAll` | internal/infra/repository/request.go:28-38 | with a ceiling of 0 or less and non-negative counts, no call at any instants is ever admitted |
| `Repository.LockoutExample` | internal/infra/repository/request.go:28-38 | ceiling 10, lockout 60 s: ten calls admitted, the eleventh denied, a twelfth denied 59.999 s later and admitted at 60 s |
| `Repository.Interleaved` | internal/infra/repository/request.go:23-37 | two checks that both read before either writes change no other key |
| `Repository.InterleavingOverAdmits` | internal/infra/repository/request.go:23-37 | one request below the ceiling: two interleaved checks admit both and raise the count by one, where two sequential checks admit one |
| `StrPkg.Digits` | utils/strpkg.go:8-16 | the result consists of digits only and is no longer than the input |
| `StrPkg.ExtractNumbers` | utils/strpkg.go:8-16 | the builder loop returns exactly `Digits(input)` |
| `StrPkg.DigitsConcat` | utils/strpkg.go:10-14 | extracting from a + b is extracting from a followed by extracting from b |
| `StrPkg.DigitsOfDigitString` | utils/strpkg.go:10-12 | a string made only of digits comes back unchanged |
| `StrPkg.DigitsIdempotent` | utils/strpkg.go:8-16 | extracting twice gives the same as extracting once |
| `StrPkg.DigitsLengthExact` | utils/strpkg.go:9-15 | the output is as long as the input if and only if the input is all digits |
| `StrPkg.DigitsIsSubsequence` | utils/strpkg.go:9-15 | the output is an in-order subsequence of the input |
| `StrPkg.DigitsKeepsDigitCounts` | utils/strpkg.go:10-14 | every digit occurs in the output as often as in the input, and no other character occurs |
| `StrPkg.LoopbackDigits` | internal/infra/httppkg/middlewarepkg/rate_limiter_test.go:143 | "127.0.0.1" yields "127001" |
| `StrPkg.NoDigitsYieldsEmpty` | utils/strpkg.go:8-16 | an input without digits, the empty string included, yields "" |
| `MiddlewarePkg.SetJWTClaims` | internal/infra/httppkg/middlewarepkg/rate_limiter.go:24-57 | only forwards or answers 401; 401 iff a header is present and its token fails to parse or validate; claims always carry the request's RemoteAddr; no header: default ceiling and expiry now + TokenExpiresInSec; a valid token contributes only its ceiling and expiry |
| `MiddlewarePkg.RateLimit` | internal/infra/httppkg/middlewarepkg/rate_limiter.go:61-85 | no claims: 500; otherwise the repository's answer for key "rate_limiter_" + digits(IP) and the claims' ceiling decides: forwarded with the same claims iff allowed with no error, 500 on any error whatever the flag, 429 when denied |
| `MiddlewarePkg.RateLimitedRoute` | internal/infra/httppkg/handlers/root.go:19-24 | forwarded only with the caller's own address and an admission for its key; 401 exactly for a presented token that fails; without a header, the request is rate limited under the default claims; with a valid token, it is rate limited under the caller's address with the token's ceiling and expiry, so 429 and 500 come from the repository's answer for that ceiling |
| `MiddlewarePkg.RateLimiterKeySameIffSameDigits` | internal/infra/httppkg/middlewarepkg/rate_limiter.go:70 | two addresses get the same counter key if and only if they have the same digits |
| `MiddlewarePkg.LoopbackKey` | internal/infra/httppkg/middlewarepkg/rate_limiter_test.go:124-143 | "127.0.0.1" gets key "rate_limiter_127001" and the empty address gets "rate_limiter_" |
| `MiddlewarePkg.DistinctAddressesShareKey` | internal/infra/httppkg/middlewarepkg/rate_limiter.go:70 | "1.23.4.5" and "12.3.4.5" share a counter key |
| `MiddlewarePkg.PortIsPartOfKey` | internal/infra/httppkg/middlewarepkg/rate_limiter.go:29-70 | "127.0.0.1:5000" and "127.0.0.1:5001" get different counter keys |
| `Handlers.Serve` | internal/infra/httppkg/handlers/root.go:19-24 | only the requester's own counter changes; a rejected token never reaches the store; otherwise the request adds one to its key and is forwarded iff its count was below its ceiling, else 429 |
| `Handlers.ServeAllFollowsRun` | internal/infra/httppkg/handlers/root.go:19-24 | repeated requests limited under one ceiling are forwarded exactly as the engine admits them for the requester's key |
| `Handlers.AnonymousRequestsCapped` | internal/infra/httppkg/middlewarepkg/rate_limiter.go:26-40 | n requests without a token from one address within one window, from a fresh counter, are forwarded exactly min(n, DefaultMaxReqPerSec) times |
| `Handlers.ZeroCeilingTokenAlwaysDenied` | internal/infra/httppkg/middlewarepkg/rate_limiter.go:51-72 | under a valid token with ceiling 0 and non-negative counts, no request is ever forwarded |

## Left out

- Token issuance and verification (internal/tokenpkg/jwt.go): HS256 signing, signature and expiry checks. They are done by the JWT library, and the middleware sees only their reply, modelled as the `TokenParser` parameter.
- The Redis client: connection setup, TLS and ping. The store operations this path does not use (`Del`, `RPush`, `HSet`, `Incr`, `Expire`, `Close`) are left out too.
- Configuration loading from `.env` files and the repository-root lookup. The three values used here are fields of an immutable `Conf` value.
- The web server, the router's logger middleware, the token handler, graceful shutdown and the `conf` context middleware: process and HTTP plumbing outside the decision path.
- Concurrency. The model is sequential. The one interleaving of two checks that is stated is `Interleaved` (both read, then both write); other schedules are not modelled.
- Wall-clock time and key expiry run by the store. They are replaced by the `now` input and by reading an entry as absent from its expiry instant on.
- `Cache.Client.Set`: a failed write is modelled as writing nothing. A real store may have applied a write whose reply was lost.
- Stored values that are not integers. The store map holds integers, so the parse error `Get(...).Int()` would give is represented only as a `readFault`.
- `StrPkg.IsDigit` covers the ASCII digits only; Go's `unicode.IsDigit` also accepts other Unicode decimal digits. Strings are sequences of characters: the decoding of invalid UTF-8 to U+FFFD is not modelled.
- Integer widths are not modelled. Go's `int` would wrap at `current + 1` past 2^63 − 1, and `time.Duration` would overflow for a huge `TimeoutDuration`; no reachable count comes near either bound.
- A context that holds a nil claims pointer (the Go code would panic). Only missing or ill-typed claims are modelled, as `None`.
- The response bodies of `http.Error` are not modelled. The outcome keeps only the status.
