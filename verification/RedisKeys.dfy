/** The few Redis commands the counter scripts use, on one integer key at a time. */
module RedisKeys {
  import opened Prelude

  /** A key that was never written, or the last value written with the instant it dies (None: never). */
  datatype Key = Absent | Key(value: int, expires: Option<int>)

  /** A key is there exactly while the clock has not reached its expiry. */
  predicate Live(k: Key, now: int) {
    k.Key? && (k.expires.Some? ==> now < k.expires.value)
  }

  /** GET, with the scripts' `or '0'`. */
  function Get(k: Key, now: int): int {
    if Live(k, now) then k.value else 0
  }

  function Pttl(k: Key, now: int): int {
    if !Live(k, now) then -2 else if k.expires.None? then -1 else k.expires.value - now
  }

  /** INCRBY keeps the expiry of a live key and starts a dead one at zero, without one. */
  function IncrBy(k: Key, amount: int, now: int): (r: Key)
    ensures r.Key?
  {
    if Live(k, now) then Key(k.value + amount, k.expires) else Key(amount, None)
  }

  function Pexpire(k: Key, ms: int, now: int): (r: Key)
    requires k.Key?
    ensures r.Key?
  {
    Key(k.value, Some(now + ms))
  }

  /** SET ... PX ms. */
  function SetPx(value: int, ms: int, now: int): Key {
    Key(value, Some(now + ms))
  }

  /** SET ... KEEPTTL. */
  function SetKeepTtl(k: Key, value: int, now: int): Key {
    if Live(k, now) then Key(value, k.expires) else Key(value, None)
  }

  /** Math.ceil(ms / 1000) for a time that is not negative. */
  function CeilSeconds(ms: int): int {
    (ms + 999) / 1000
  }
}
