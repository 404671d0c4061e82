/** The one-method repository interface the middleware depends on. */
module Entity {
  import opened Wrappers

  /** The pair `(allowed, err)` returned by `CheckRateLimit`. */
  datatype CheckResult = CheckResult(allowed: bool, err: Option<Error>)

  /** `RequestRepositoryInterface`: the answer to `CheckRateLimit(key, limit)`. */
  type RequestRepositoryInterface = (string, int) -> CheckResult
}
