/** The process-wide configuration, read once at start-up and passed in as
    an immutable value instead of a global. Only the three values the
    rate-limit path reads are kept. */
module ConfPkg {

  datatype Conf = Conf(
    defaultMaxReqPerSec: int,  // ceiling for requests that present no token
    tokenExpiresInSec: int,    // lifetime of the implicit default claims
    timeoutDuration: int       // lockout TTL, in seconds, once a ceiling is reached
  )
}
