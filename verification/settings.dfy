/** The manager's configuration: expiry defaults, the rate limit, the retry
    budget, and the JSON codec it encodes with. */
module Settings {
  import opened Base
  import Codec

  datatype Config = Config(
    sessionTtl: int,          // seconds
    cacheTtl: int,            // seconds
    rateLimitTtl: int,        // seconds a rate window lives
    rateLimitRequests: int,   // requests allowed per window
    rateLimitWindow: int,     // declared, read by nothing
    maxRetries: nat,
    json: Codec.JsonCodec)

  /** The values the manager is constructed with. */
  function Defaults(json: Codec.JsonCodec): Config {
    Config(3600, 300, 60, 100, 60, 3, json)
  }

  /** `ttl or default`: Python's `or` falls back on `None` and on `0` alike. */
  function EffectiveTtl(ttl: Option<int>, default: int): (r: int)
    ensures ttl.Some? && ttl.value != 0 ==> r == ttl.value
    ensures ttl.None? || ttl.value == 0 ==> r == default
  {
    match ttl
    case Some(t) => if t != 0 then t else default
    case None => default
  }
}
