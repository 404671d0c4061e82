/** The two middlewares on the rate-limited route. `SetJWTClaims` resolves
    the claims of a request, from its `API_KEY` token when there is one and
    from the configured defaults otherwise; `RateLimit` derives the counter
    key from the claims' IP and turns the repository's answer into an
    outcome. Token parsing and the repository are parameters. */
module MiddlewarePkg {
  import opened Wrappers
  import opened ConfPkg
  import opened Entity
  import StrPkg

  /** Token claims: caller IP, ceiling, and expiry in whole Unix seconds
      (None when a token carries no expiry). */
  datatype Claims = Claims(ip: string, maxReqPerSec: int, expiresAt: Option<int>)

  /** What the middlewares read of a request. `apiKey` is the `API_KEY`
      header's value, "" when the header is absent. */
  datatype Request = Request(remoteAddr: string, apiKey: string)

  /** Reply of the JWT library's parse-and-validate call on a header value
      at a given time: the decoded claims, the token's validity flag and the
      parse error. The signature and expiry checks happen inside it. */
  datatype ParsedToken = ParsedToken(claims: Claims, valid: bool, err: Option<Error>)

  type TokenParser = (string, int) -> ParsedToken

  /** Per-request outcome: handed on to the next handler with these claims,
      or answered with 401, 429 or 500. */
  datatype Outcome = Next(claims: Claims) | Unauthorized | TooManyRequests | InternalError

  const RateLimiterKeyPrefix: string := "rate_limiter_"

  /** The implicit claims of a request: its own address, the default ceiling,
      and an expiry `TokenExpiresInSec` seconds from now (`now` in ms). */
  function DefaultClaims(req: Request, conf: Conf, now: int): Claims
  {
    Claims(req.remoteAddr, conf.defaultMaxReqPerSec, Some(now / 1000 + conf.tokenExpiresInSec))
  }

  predicate TokenRejected(t: ParsedToken)
  {
    t.err.Some? || !t.valid
  }

  function SetJWTClaims(req: Request, conf: Conf, now: int, parse: TokenParser): (o: Outcome)
    // this stage only forwards or answers 401
    ensures o.Next? || o.Unauthorized?
    // 401 exactly when a header is present and its token does not validate
    ensures o.Unauthorized? <==> req.apiKey != "" && TokenRejected(parse(req.apiKey, now))
    // the claims always carry the request's own address, never the token's
    ensures o.Next? ==> o.claims.ip == req.remoteAddr
    // no header: the default ceiling and a fresh expiry
    ensures req.apiKey == "" ==>
      o.Next? && o.claims.maxReqPerSec == conf.defaultMaxReqPerSec &&
      o.claims.expiresAt == Some(now / 1000 + conf.tokenExpiresInSec)
    // a valid token contributes its ceiling and its expiry, and nothing else
    ensures req.apiKey != "" && o.Next? ==>
      o.claims.maxReqPerSec == parse(req.apiKey, now).claims.maxReqPerSec &&
      o.claims.expiresAt == parse(req.apiKey, now).claims.expiresAt
  {
    var claims := DefaultClaims(req, conf, now);
    if req.apiKey == "" then
      Next(claims)
    else
      var token := parse(req.apiKey, now);
      if TokenRejected(token) then
        Unauthorized
      else
        Next(claims.(maxReqPerSec := token.claims.maxReqPerSec, expiresAt := token.claims.expiresAt))
  }

  /** The counter key of an address: a fixed prefix and the address's digits. */
  function RateLimiterKey(ip: string): string
  {
    RateLimiterKeyPrefix + StrPkg.Digits(ip)
  }

  /** `ctxClaims` is the claims value found in the request context (None
      when it is missing or of another type). */
  function RateLimit(ctxClaims: Option<Claims>, repo: RequestRepositoryInterface): (o: Outcome)
    ensures !o.Unauthorized?
    // no claims: 500, whatever the repository would say
    ensures ctxClaims.None? ==> o == InternalError
    ensures ctxClaims.Some? ==>
      var r := repo(RateLimiterKey(ctxClaims.value.ip), ctxClaims.value.maxReqPerSec);
      // forwarded, with the same claims, exactly when admitted without error
      && (o == Next(ctxClaims.value) <==> r.allowed && r.err.None?)
      && (o.Next? ==> o == Next(ctxClaims.value))
      // a repository error is a 500 whatever the allowed flag says: fail closed
      && (r.err.Some? ==> o == InternalError)
      && (r.err.None? && !r.allowed ==> o == TooManyRequests)
  {
    match ctxClaims
    case None => InternalError
    case Some(claims) =>
      var r := repo(RateLimiterKey(claims.ip), claims.maxReqPerSec);
      if r.err.Some? then InternalError
      else if !r.allowed then TooManyRequests
      else Next(claims)
  }

  /** The rate-limited route: claims resolution, then rate limiting. */
  function RateLimitedRoute(req: Request, conf: Conf, now: int, parse: TokenParser, repo: RequestRepositoryInterface): (o: Outcome)
    // forwarded only with the caller's own address and an admission from the repository
    ensures o.Next? ==>
      o.claims.ip == req.remoteAddr &&
      repo(RateLimiterKey(req.remoteAddr), o.claims.maxReqPerSec) == CheckResult(true, None)
    // 401 only for a presented token that fails validation, before any rate limiting
    ensures o.Unauthorized? <==> req.apiKey != "" && TokenRejected(parse(req.apiKey, now))
    // without a header the request is rate limited under the default ceiling, never refused with 401
    ensures req.apiKey == "" ==>
      o == RateLimit(Some(DefaultClaims(req, conf, now)), repo)
    // with a valid token it is rate limited under the token's ceiling and expiry, at the caller's address
    ensures req.apiKey != "" && !TokenRejected(parse(req.apiKey, now)) ==>
      o == RateLimit(Some(Claims(req.remoteAddr, parse(req.apiKey, now).claims.maxReqPerSec,
                                 parse(req.apiKey, now).claims.expiresAt)), repo)
  {
    match SetJWTClaims(req, conf, now, parse)
    case Next(claims) => RateLimit(Some(claims), repo)
    case rejected => rejected
  }

  /** Two addresses share a counter exactly when they have the same digits. */
  lemma RateLimiterKeySameIffSameDigits(a: string, b: string)
    ensures RateLimiterKey(a) == RateLimiterKey(b) <==> StrPkg.Digits(a) == StrPkg.Digits(b)
  {
    if RateLimiterKey(a) == RateLimiterKey(b) {
      var n := |RateLimiterKeyPrefix|;
      assert RateLimiterKey(a)[n..] == StrPkg.Digits(a);
      assert RateLimiterKey(b)[n..] == StrPkg.Digits(b);
    }
  }

  /** The key the middleware's tests expect for the loopback address. */
  lemma LoopbackKey()
    ensures RateLimiterKey("127.0.0.1") == "rate_limiter_127001"
    ensures RateLimiterKey("") == "rate_limiter_"
  {
    StrPkg.LoopbackDigits();
  }

  /** The key keeps no separators, so distinct addresses can collide. */
  lemma DistinctAddressesShareKey()
    ensures RateLimiterKey("1.23.4.5") == RateLimiterKey("12.3.4.5")
  {
    StrPkg.DigitsConcat("1.23", ".4.5");
    StrPkg.DigitsConcat("12.3", ".4.5");
    assert "1.23.4.5" == "1.23" + ".4.5";
    assert "12.3.4.5" == "12.3" + ".4.5";
    StrPkg.DigitsConcat("1", ".23");
    StrPkg.DigitsConcat("12", ".3");
    assert "1.23" == "1" + ".23";
    assert "12.3" == "12" + ".3";
    StrPkg.DigitsOfDigitString("1");
    StrPkg.DigitsOfDigitString("12");
  }

  /** A remote address of the form "host:port" keeps the port's digits, so
      one host reaching the server from two ports gets two counters. */
  lemma PortIsPartOfKey()
    ensures RateLimiterKey("127.0.0.1:5000") != RateLimiterKey("127.0.0.1:5001")
  {
    StrPkg.DigitsConcat("127.0.0.1", ":5000");
    StrPkg.DigitsConcat("127.0.0.1", ":5001");
    assert "127.0.0.1:5000" == "127.0.0.1" + ":5000";
    assert "127.0.0.1:5001" == "127.0.0.1" + ":5001";
    StrPkg.DigitsConcat(":", "5000");
    StrPkg.DigitsConcat(":", "5001");
    assert ":5000" == ":" + "5000";
    assert ":5001" == ":" + "5001";
    StrPkg.DigitsOfDigitString("5000");
    StrPkg.DigitsOfDigitString("5001");
    RateLimiterKeySameIffSameDigits("127.0.0.1:5000", "127.0.0.1:5001");
    var d0 := StrPkg.Digits("127.0.0.1:5000");
    var d1 := StrPkg.Digits("127.0.0.1:5001");
    assert d0[|d0| - 1] != d1[|d1| - 1];
  }
}
