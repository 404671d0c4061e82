/** The counter store as the rate-limit path sees it: the `Get` and `Set`
    operations of the cache client interface over a key/value map in which
    every entry may carry an expiry time. Times are Unix milliseconds and are
    passed in explicitly; a store fault is passed in as the reply the store
    would give. */
module Cache {
  import opened Wrappers

  /** A stored integer and the instant from which it is gone (None: never). */
  datatype Entry = Entry(value: int, expiresAt: Option<int>)

  type Store = map<string, Entry>

  /** Reply of `Get(key).Int()`: a value, the "key not found" reply, or a
      failure of the store itself. */
  datatype GetReply = Value(n: int) | Nil | Failed(err: Error)

  predicate Live(e: Entry, now: int)
  {
    e.expiresAt.None? || now < e.expiresAt.value
  }

  /** What a read of `key` at time `now` observes: expired entries are absent. */
  function Lookup(s: Store, key: string, now: int): (r: Option<int>)
    ensures r.Some? <==> key in s && Live(s[key], now)
    ensures r.Some? ==> r.value == s[key].value
  {
    if key in s && Live(s[key], now) then Some(s[key].value) else None
  }

  /** The expiry a `Set` with a TTL of `ttlMs` milliseconds gives its key. As
      with the client library, a TTL that is not positive sets no expiry. */
  function ExpiryFor(now: int, ttlMs: int): (r: Option<int>)
    ensures r.Some? <==> ttlMs > 0
    ensures r.Some? ==> r.value > now && r.value - now == ttlMs
  {
    if ttlMs > 0 then Some(now + ttlMs) else None
  }

  /** The store after a `Set` whose reply is `fault`: the key is overwritten
      with a fresh value and expiry when the write succeeds, nothing changes
      when it fails. */
  function AfterSet(s: Store, key: string, value: int, ttlMs: int, now: int, fault: Option<Error>): (r: Store)
    ensures fault.Some? ==> r == s
    ensures fault.None? ==> key in r && r[key] == Entry(value, ExpiryFor(now, ttlMs))
    ensures r - {key} == s - {key}
  {
    if fault.None? then s[key := Entry(value, ExpiryFor(now, ttlMs))] else s
  }

  /** The store client; `entries` is the store's whole state. */
  class Client {
    var entries: Store

    constructor ()
      ensures entries == map[]
    {
      entries := map[];
    }

    /** `Get(ctx, key).Int()`: a failure if the store faults, otherwise the
        live value of the key or the "not found" reply. Reads only. */
    method Get(key: string, now: int, fault: Option<Error>) returns (r: GetReply)
      ensures fault.Some? ==> r == Failed(fault.value)
      ensures fault.None? ==> (r.Value? <==> Lookup(entries, key, now).Some?)
      ensures fault.None? && r.Value? ==> r.n == Lookup(entries, key, now).value
      ensures fault.None? ==> !r.Failed?
    {
      if fault.Some? {
        r := Failed(fault.value);
      } else {
        var v := Lookup(entries, key, now);
        r := if v.Some? then Value(v.value) else Nil;
      }
    }

    /** `Set(ctx, key, value, ttl)`: returns the store's error unchanged and
        writes the key only when there is none. */
    method Set(key: string, value: int, ttlMs: int, now: int, fault: Option<Error>) returns (err: Option<Error>)
      modifies this
      ensures err == fault
      ensures entries == AfterSet(old(entries), key, value, ttlMs, now, fault)
    {
      if fault.None? {
        entries := entries[key := Entry(value, ExpiryFor(now, ttlMs))];
      }
      err := fault;
    }
  }
}
