/** The counter engine: `RequestRepository.CheckRateLimit` and
    `SetRateLimit`. A check reads the key's count (a missing key counts as 0),
    then writes the count plus one back, with a one-second TTL while the count
    is below the ceiling and with the lockout TTL once it is not. */
module Repository {
  import opened Wrappers
  import opened Cache
  import opened Entity

  /** TTL of a counter that is still below its ceiling: one second. */
  const WindowMs: int := 1000

  /** TTL that `SetRateLimit` gives the value it writes: one minute. */
  const ProvisionTtlMs: int := 60000

  /** The lockout TTL, `TimeoutDuration` seconds, in milliseconds. */
  function LockoutMs(timeoutDuration: int): int
  {
    timeoutDuration * 1000
  }

  /** The count a check starts from: the live value, or 0 for a missing key. */
  function Current(s: Store, key: string, now: int): int
  {
    match Lookup(s, key, now)
    case Some(n) => n
    case None => 0
  }

  /** The result of one check and the store it leaves behind. */
  datatype Transition = Transition(result: CheckResult, store: Store)

  /** Specification of one `CheckRateLimit(key, limit)` call at time `now`
      whose `Get` replies with `readFault` and whose `Set` replies with
      `writeFault` (None: the store answered normally). */
  function Check(s: Store, key: string, limit: int, now: int, timeoutDuration: int,
                 readFault: Option<Error>, writeFault: Option<Error>): (t: Transition)
    // the request is admitted only when nothing failed and the count was below the ceiling
    ensures t.result.allowed ==> t.result.err.None? && Current(s, key, now) < limit
    // a read failure is passed up, the request is refused and nothing is written
    ensures readFault.Some? ==> t.result == CheckResult(false, readFault) && t.store == s
    // otherwise the error reported is exactly the write's error
    ensures readFault.None? ==> t.result.err == writeFault
    // with a healthy store: admitted iff below the ceiling ...
    ensures readFault.None? && writeFault.None? ==> (t.result.allowed <==> Current(s, key, now) < limit)
    // ... and the count grows by exactly one, with the window or the lockout TTL
    ensures readFault.None? && writeFault.None? ==>
      key in t.store &&
      t.store[key] == Entry(Current(s, key, now) + 1,
                            ExpiryFor(now, if t.result.allowed then WindowMs else LockoutMs(timeoutDuration)))
    ensures readFault.None? && writeFault.None? ==> Lookup(t.store, key, now) == Some(Current(s, key, now) + 1)
    // no other key is touched
    ensures t.store - {key} == s - {key}
  {
    if readFault.Some? then
      Transition(CheckResult(false, readFault), s)
    else
      var current := Current(s, key, now);
      if current < limit then
        var s' := AfterSet(s, key, current + 1, WindowMs, now, writeFault);
        Transition(CheckResult(writeFault.None?, writeFault), s')
      else
        var s' := AfterSet(s, key, current + 1, LockoutMs(timeoutDuration), now, writeFault);
        Transition(CheckResult(false, writeFault), s')
  }

  class RequestRepository {
    const cacheClient: Client
    const timeoutDuration: int

    constructor (cacheClient: Client, timeoutDuration: int)
      ensures this.cacheClient == cacheClient && this.timeoutDuration == timeoutDuration
    {
      this.cacheClient := cacheClient;
      this.timeoutDuration := timeoutDuration;
    }

    /** Read the count, then overwrite it with the count plus one. */
    method CheckRateLimit(key: string, limit: int, now: int, readFault: Option<Error>, writeFault: Option<Error>)
      returns (allowed: bool, err: Option<Error>)
      modifies cacheClient
      ensures var t := Check(old(cacheClient.entries), key, limit, now, timeoutDuration, readFault, writeFault);
              CheckResult(allowed, err) == t.result && cacheClient.entries == t.store
    {
      var reply := cacheClient.Get(key, now, readFault);
      if reply.Failed? {
        return false, Some(reply.err);
      }
      var current := if reply.Value? then reply.n else 0;
      if current < limit {
        var e := cacheClient.Set(key, current + 1, WindowMs, now, writeFault);
        if e.Some? {
          return false, e;
        }
        return true, None;
      }
      var delay := LockoutMs(timeoutDuration);
      err := cacheClient.Set(key, current + 1, delay, now, writeFault);
      allowed := false;
    }

    /** Provision `key` with the value `limit` for one minute. */
    method SetRateLimit(key: string, limit: int, now: int, writeFault: Option<Error>) returns (err: Option<Error>)
      modifies cacheClient
      ensures err == writeFault
      ensures cacheClient.entries == AfterSet(old(cacheClient.entries), key, limit, ProvisionTtlMs, now, writeFault)
      ensures writeFault.None? ==>
        Lookup(cacheClient.entries, key, now + ProvisionTtlMs - 1) == Some(limit) &&
        Lookup(cacheClient.entries, key, now + ProvisionTtlMs).None?
    {
      err := cacheClient.Set(key, limit, ProvisionTtlMs, now, writeFault);
    }
  }

  function Min(a: int, b: int): int { if a <= b then a else b }

  function Max(a: int, b: int): int { if a <= b then b else a }

  /** Admitted requests and the final store after sequential checks of one
      key at the instants `times`, the store answering normally throughout. */
  datatype RunResult = RunResult(admitted: nat, store: Store)

  function Run(s: Store, key: string, limit: int, times: seq<int>, timeoutDuration: int): (r: RunResult)
    ensures r.admitted <= |times|
    ensures r.store - {key} == s - {key}
    decreases |times|
  {
    if times == [] then
      RunResult(0, s)
    else
      var t := Check(s, key, limit, times[0], timeoutDuration, None, None);
      var rest := Run(t.store, key, limit, times[1..], timeoutDuration);
      RunResult((if t.result.allowed then 1 else 0) + rest.admitted, rest.store)
  }

  /** Each call comes no earlier than the previous one and less than one
      window after it, so no counter expires between calls. */
  ghost predicate WithinWindow(times: seq<int>)
  {
    forall i :: 0 <= i < |times| - 1 ==> times[i] <= times[i + 1] < times[i] + WindowMs
  }

  /** Each call comes less than one lockout TTL after the previous one. */
  ghost predicate WithinLockout(times: seq<int>, timeoutDuration: int)
  {
    forall i :: 0 <= i < |times| - 1 ==>
      times[i] <= times[i + 1] && (timeoutDuration > 0 ==> times[i + 1] < times[i] + LockoutMs(timeoutDuration))
  }

  /** Every stored count is non-negative. */
  ghost predicate NonNegative(s: Store)
  {
    forall k :: k in s ==> s[k].value >= 0
  }

  /** A healthy check at `now` leaves the count readable, as `c + 1`, at any
      later instant before the written TTL runs out. */
  lemma StillLiveAfter(s: Store, key: string, limit: int, now: int, later: int, timeoutDuration: int)
    requires now <= later
    requires Current(s, key, now) < limit ==> later < now + WindowMs
    requires limit <= Current(s, key, now) && timeoutDuration > 0 ==> later < now + LockoutMs(timeoutDuration)
    ensures Current(Check(s, key, limit, now, timeoutDuration, None, None).store, key, later)
            == Current(s, key, now) + 1
  {
  }

  /** Sequential checks within one window: starting from count `c`, `n`
      calls admit `min(n, max(limit - c, 0))` requests and leave the count
      at `c + n`. */
  lemma {:induction false} RunAdmits(s: Store, key: string, limit: int, times: seq<int>, timeoutDuration: int)
    requires times != []
    requires WithinWindow(times)
    ensures Run(s, key, limit, times, timeoutDuration).admitted
            == Min(|times|, Max(limit - Current(s, key, times[0]), 0))
    ensures Current(Run(s, key, limit, times, timeoutDuration).store, key, times[|times| - 1])
            == Current(s, key, times[0]) + |times|
    decreases |times|
  {
    var c := Current(s, key, times[0]);
    var t := Check(s, key, limit, times[0], timeoutDuration, None, None);
    if |times| > 1 {
      var rest := times[1..];
      assert times[0] <= times[1] < times[0] + WindowMs;
      if timeoutDuration > 0 {
        assert LockoutMs(timeoutDuration) >= WindowMs;
      }
      StillLiveAfter(s, key, limit, times[0], times[1], timeoutDuration);
      assert WithinWindow(rest) by {
        forall i | 0 <= i < |rest| - 1
          ensures rest[i] <= rest[i + 1] < rest[i] + WindowMs
        {
          assert rest[i] == times[i + 1] && rest[i + 1] == times[i + 2];
        }
      }
      RunAdmits(t.store, key, limit, rest, timeoutDuration);
      assert rest[|rest| - 1] == times[|times| - 1];
    }
  }

  /** From a missing (or expired) key, `n` sequential calls within one window
      admit exactly `min(n, limit)` of them, and only `key` changes. */
  lemma SequentialCallsAdmitLimit(s: Store, key: string, limit: nat, times: seq<int>, timeoutDuration: int)
    requires times != []
    requires WithinWindow(times)
    requires Lookup(s, key, times[0]).None?
    ensures Run(s, key, limit, times, timeoutDuration).admitted == Min(|times|, limit)
    ensures Lookup(Run(s, key, limit, times, timeoutDuration).store, key, times[|times| - 1]) == Some(|times|)
    ensures Run(s, key, limit, times, timeoutDuration).store - {key} == s - {key}
  {
    RunAdmits(s, key, limit, times, timeoutDuration);
    var r := Run(s, key, limit, times, timeoutDuration);
    assert Current(r.store, key, times[|times| - 1]) == |times|;
  }

  /** A denial persists: once the count has reached the ceiling, every later
      call that arrives before the lockout runs out is denied too, and each
      one still adds exactly one to the count. */
  lemma {:induction false} LockoutHolds(s: Store, key: string, limit: int, times: seq<int>, timeoutDuration: int)
    requires times != []
    requires WithinLockout(times, timeoutDuration)
    requires limit <= Current(s, key, times[0])
    ensures Run(s, key, limit, times, timeoutDuration).admitted == 0
    ensures Current(Run(s, key, limit, times, timeoutDuration).store, key, times[|times| - 1])
            == Current(s, key, times[0]) + |times|
    decreases |times|
  {
    var t := Check(s, key, limit, times[0], timeoutDuration, None, None);
    if |times| > 1 {
      var rest := times[1..];
      StillLiveAfter(s, key, limit, times[0], times[1], timeoutDuration);
      assert WithinLockout(rest, timeoutDuration) by {
        forall i | 0 <= i < |rest| - 1
          ensures rest[i] <= rest[i + 1] &&
                  (timeoutDuration > 0 ==> rest[i + 1] < rest[i] + LockoutMs(timeoutDuration))
        {
          assert rest[i] == times[i + 1] && rest[i + 1] == times[i + 2];
        }
      }
      LockoutHolds(t.store, key, limit, rest, timeoutDuration);
      assert rest[|rest| - 1] == times[|times| - 1];
    }
  }

  /** A healthy check keeps every stored count non-negative. */
  lemma CheckKeepsNonNegative(s: Store, key: string, limit: int, now: int, timeoutDuration: int)
    requires NonNegative(s)
    ensures NonNegative(Check(s, key, limit, now, timeoutDuration, None, None).store)
  {
  }

  /** A ceiling of zero (or less) admits nothing, at any instants, as long as
      the stored counts are non-negative. */
  lemma {:induction false} ZeroLimitDeniesAll(s: Store, key: string, limit: int, times: seq<int>, timeoutDuration: int)
    requires limit <= 0
    requires NonNegative(s)
    ensures Run(s, key, limit, times, timeoutDuration).admitted == 0
    decreases |times|
  {
    if times != [] {
      var t := Check(s, key, limit, times[0], timeoutDuration, None, None);
      CheckKeepsNonNegative(s, key, limit, times[0], timeoutDuration);
      ZeroLimitDeniesAll(t.store, key, limit, times[1..], timeoutDuration);
    }
  }

  /** Fast accumulation, slow release, for a ceiling of 10 and a 60-second
      lockout: ten calls in one instant are admitted, the eleventh is denied,
      a twelfth is still denied just before the lockout ends and is admitted
      once it has. */
  lemma LockoutExample(s: Store, key: string, t: int)
    requires Lookup(s, key, t).None?
    ensures var r := Run(s, key, 10, seq(10, _ => t), 60);
            var eleventh := Check(r.store, key, 10, t, 60, None, None);
            r.admitted == 10 && !eleventh.result.allowed &&
            !Check(eleventh.store, key, 10, t + 59999, 60, None, None).result.allowed &&
            Check(eleventh.store, key, 10, t + 60000, 60, None, None).result.allowed
  {
    var times := seq(10, _ => t);
    SequentialCallsAdmitLimit(s, key, 10, times, 60);
    var r := Run(s, key, 10, times, 60);
    assert Current(r.store, key, t) == 10;
    var eleventh := Check(r.store, key, 10, t, 60, None, None);
    assert eleventh.store[key] == Entry(11, Some(t + 60000));
    assert Lookup(eleventh.store, key, t + 60000).None?;
  }

  /** Two checks of one key that both read before either writes, as two
      concurrent requests can: both decide on the same count and the second
      write overwrites the first. */
  function Interleaved(s: Store, key: string, limit: int, now: int, timeoutDuration: int): (r: RunResult)
    ensures r.store - {key} == s - {key}
  {
    var first := Check(s, key, limit, now, timeoutDuration, None, None);
    var second := Check(s, key, limit, now, timeoutDuration, None, None);
    var admitted := (if first.result.allowed then 1 else 0) + (if second.result.allowed then 1 else 0);
    RunResult(admitted, first.store[key := second.store[key]])
  }

  /** The race of the read-then-write update: with one request left under
      the ceiling, two interleaved checks admit both and the count rises by
      one, where the same two checks in sequence admit one. */
  lemma InterleavingOverAdmits(s: Store, key: string, limit: int, now: int, timeoutDuration: int)
    requires Current(s, key, now) == limit - 1
    ensures Interleaved(s, key, limit, now, timeoutDuration).admitted == 2
    ensures Current(Interleaved(s, key, limit, now, timeoutDuration).store, key, now) == limit
    ensures Run(s, key, limit, [now, now], timeoutDuration).admitted == 1
  {
  }
}
