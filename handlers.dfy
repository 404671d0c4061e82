/** The rate-limited route wired to the counter engine: each request goes
    through claims resolution and rate limiting, and the engine's check runs
    against a store that answers normally. This is where the middlewares'
    guarantees and the engine's counting guarantees meet. */
module Handlers {
  import opened Wrappers
  import opened ConfPkg
  import opened Entity
  import opened Cache
  import opened Repository
  import opened MiddlewarePkg

  /** The repository backed by store `s` at time `now`. */
  function StoreRepository(s: Store, now: int, timeoutDuration: int): RequestRepositoryInterface
  {
    (key: string, limit: int) => Check(s, key, limit, now, timeoutDuration, None, None).result
  }

  /** The ceiling a request is limited under, or None when it gets a 401. */
  function Ceiling(req: Request, conf: Conf, now: int, parse: TokenParser): Option<int>
  {
    match SetJWTClaims(req, conf, now, parse)
    case Next(claims) => Some(claims.maxReqPerSec)
    case _ => None
  }

  /** One request on the route at time `now`: its outcome, and the store
      after the check the rate limiter made (unchanged after a 401). */
  datatype Served = Served(outcome: Outcome, store: Store)

  function Serve(s: Store, req: Request, conf: Conf, now: int, parse: TokenParser): (r: Served)
    // only the requester's own counter can change
    ensures r.store - {RateLimiterKey(req.remoteAddr)} == s - {RateLimiterKey(req.remoteAddr)}
    // a rejected token never reaches the store
    ensures Ceiling(req, conf, now, parse).None? ==> r.outcome == Unauthorized && r.store == s
    // otherwise the request counts once against its own key and is forwarded iff below its ceiling
    ensures Ceiling(req, conf, now, parse).Some? ==>
      var key := RateLimiterKey(req.remoteAddr);
      Lookup(r.store, key, now) == Some(Current(s, key, now) + 1) &&
      (r.outcome.Next? <==> Current(s, key, now) < Ceiling(req, conf, now, parse).value) &&
      (r.outcome.Next? || r.outcome == TooManyRequests)
  {
    var outcome := RateLimitedRoute(req, conf, now, parse, StoreRepository(s, now, conf.timeoutDuration));
    match SetJWTClaims(req, conf, now, parse)
    case Next(claims) =>
      Served(outcome, Check(s, RateLimiterKey(claims.ip), claims.maxReqPerSec, now, conf.timeoutDuration, None, None).store)
    case _ =>
      Served(outcome, s)
  }

  /** The same request sent at each of the instants `times`: how many were
      forwarded, and the final store. */
  function ServeAll(s: Store, req: Request, conf: Conf, times: seq<int>, parse: TokenParser): (r: RunResult)
    ensures r.admitted <= |times|
    decreases |times|
  {
    if times == [] then
      RunResult(0, s)
    else
      var first := Serve(s, req, conf, times[0], parse);
      var rest := ServeAll(first.store, req, conf, times[1..], parse);
      RunResult((if first.outcome.Next? then 1 else 0) + rest.admitted, rest.store)
  }

  /** When every one of the requests is limited under the same ceiling, the
      route forwards exactly the requests the engine admits for the
      requester's key. */
  lemma {:induction false} ServeAllFollowsRun(s: Store, req: Request, conf: Conf, times: seq<int>,
                                              parse: TokenParser, limit: int)
    requires forall i :: 0 <= i < |times| ==> Ceiling(req, conf, times[i], parse) == Some(limit)
    ensures ServeAll(s, req, conf, times, parse)
            == Run(s, RateLimiterKey(req.remoteAddr), limit, times, conf.timeoutDuration)
    decreases |times|
  {
    if times != [] {
      assert Ceiling(req, conf, times[0], parse) == Some(limit);
      var first := Serve(s, req, conf, times[0], parse);
      assert first.store == Check(s, RateLimiterKey(req.remoteAddr), limit, times[0], conf.timeoutDuration, None, None).store;
      var rest := times[1..];
      assert forall i :: 0 <= i < |rest| ==> rest[i] == times[i + 1];
      ServeAllFollowsRun(first.store, req, conf, rest, parse, limit);
    }
  }

  /** Requests without a token, from one address and within one window,
      starting from a fresh counter: exactly `min(n, DefaultMaxReqPerSec)`
      are forwarded. */
  lemma AnonymousRequestsCapped(s: Store, req: Request, conf: Conf, times: seq<int>, parse: TokenParser)
    requires req.apiKey == ""
    requires conf.defaultMaxReqPerSec >= 0
    requires times != [] && WithinWindow(times)
    requires Lookup(s, RateLimiterKey(req.remoteAddr), times[0]).None?
    ensures ServeAll(s, req, conf, times, parse).admitted == Min(|times|, conf.defaultMaxReqPerSec)
  {
    ServeAllFollowsRun(s, req, conf, times, parse, conf.defaultMaxReqPerSec);
    SequentialCallsAdmitLimit(s, RateLimiterKey(req.remoteAddr), conf.defaultMaxReqPerSec, times, conf.timeoutDuration);
  }

  /** A valid token with a ceiling of zero gets every request answered with
      429, as long as the stored counts are non-negative. */
  lemma ZeroCeilingTokenAlwaysDenied(s: Store, req: Request, conf: Conf, times: seq<int>, parse: TokenParser)
    requires forall i :: 0 <= i < |times| ==> Ceiling(req, conf, times[i], parse) == Some(0)
    requires NonNegative(s)
    ensures ServeAll(s, req, conf, times, parse).admitted == 0
  {
    ServeAllFollowsRun(s, req, conf, times, parse, 0);
    ZeroLimitDeniesAll(s, RateLimiterKey(req.remoteAddr), 0, times, conf.timeoutDuration);
  }
}
