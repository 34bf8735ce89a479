# RedisManager, modelled in Dafny

This project models the shared-state layer of a chat and video-analysis backend: the
`RedisManager` class in `redis_manager.py`. All of its state lives in one
Redis instance. It provides:

- sessions (`session:` keys) with an expiry;
- a cache (`cache:` keys) that callers fill after a miss, with pattern
  invalidation;
- a fixed-window rate limiter (`rate:<user>:<address>` counters);
- background sweeps that delete keys about to expire.

Sessions, the cache and the sweeps reach the store through a retry helper.
It makes at most `max_retries` attempts, and it retries only connection and
timeout errors. The rate limiter calls its pipeline directly, without the
helper.

The model is functional. Redis becomes an immutable key/value map with a
millisecond clock (`TtlStore`). A key is served up to and including its
expiry instant, and is expired once the clock is past it, as Redis decides.
A store never shows an expired key, and `Advance` lets time pass. `TTL` reads -2 for an absent key, -1 for a key
without expiry, and otherwise the remaining time rounded to the nearest
second, as Redis replies. `SET … EX n` with `n <= 0` is an error reply, and
`INCR` keeps the expiry.

The behaviour of the client and the network becomes a parameter. Each store
call is given the faults it meets before it gets through (`seq<Fault>`), or,
for the sweeps, one such list per call (`plan`). The manager's
exception-swallowing branches appear as explicit results:

- a failed write reports `false` and leaves the store as it was;
- a failed read gives `NoneV`;
- a failing rate check allows the request.

The JSON encoder is abstract (`Codec.JsonCodec`). What the manager relies on
from it is the predicate `Codec.Sound`: `loads(dumps(v)) == v` for JSON
values, and encoded text is never empty.

Python details the code depends on are modelled as Python has them:

- `ttl or default` falls back on `0` as well as on `None`;
- `int()` accepts surrounding whitespace, a sign and `_` digit groups;
- `bool(None)` is `false`;
- when `max_retries` is 0 the retry loop never runs, and the helper returns
  `None`.

Modules, in dependency order:

- `Base`: `Option`, `Fault`, `Outcome`.
- `Text`: decimal printing, Python's `int()`, and Redis's 64-bit integer
  reading.
- `Glob`: the `*`/`?` patterns SCAN's MATCH option uses.
- `TtlStore`: the Redis commands the manager calls.
- `Keys`: the key namespaces.
- `Retry`: `_retry_operation`.
- `Codec`: `_serialize_value` and `_deserialize_value`.
- `Settings`: the constructor's configuration.
- `SessionCache`, `RateLimit`, `Sweeps`: the public operations.

The rate limiter:

- allows the request on every error (it fails open);
- keys its counters by user and address;
- rejects when the stored count is already at the limit, without
  incrementing, so exactly `rate_limit_requests` calls are allowed per window
  (`ExactlyLimitAllowed`).

## Model

| member | source | states |
|---|---|---|
| Keys.BuildKey | redis_manager.py:49-51 | the key starts with the prefix and what follows the prefix is exactly the caller's key |
| Keys.RateKey | redis_manager.py:109 | a rate counter's key lies in the `rate:` namespace |
| Keys.NamespacesIncomparable | redis_manager.py:30-33 | none of the four prefixes is a prefix of another |
| Keys.NamespacesDisjoint | redis_manager.py:30-33 | no key lies under two of the prefixes |
| Keys.BuildKeyInjective | redis_manager.py:30-51 | two built keys are equal if and only if they have the same prefix and the same caller key |
| Keys.RateKeyInjectiveInAddress | redis_manager.py:109 | for one user, two addresses share a counter only if they are equal |
| Keys.RateKeyCollision | redis_manager.py:109 | `user:address` is ambiguous: user `a:b` at address `c` shares the counter of user `a` at address `b:c` |
| Keys.NamespacesAreLiteral | redis_manager.py:30-33 | the prefixes contain no glob special character, so in a MATCH pattern they match only themselves |
| Retry.RetryFrom | redis_manager.py:55-61 | from a given attempt on, the loop stops at the first success, at a non-retryable fault or after the last attempt; every invocation before the last one failed retryably; nothing is returned only when no attempts remain |
| Retry.Retry | redis_manager.py:53-61 | at most `max_retries` invocations; `None` exactly when `max_retries` is 0; a value comes back if and only if fewer faults than attempts occur, all of them retryable, and the operation then succeeds, and then after exactly one more invocation than there were faults; a re-raised fault is the last invocation's, and it is non-retryable or the attempts ran out |
| Retry.ClosedForm | redis_manager.py:55-61 | the loop returns if and only if the faults are recoverable and the operation then succeeds, after faults-plus-one calls |
| Retry.RetryMasksTransientFaults | redis_manager.py:55-58 | recoverable faults are invisible: the caller gets what a fault-free store gives |
| Retry.RetryGivesUp | redis_manager.py:59-61 | when every attempt fails retryably, the helper gives up after exactly `max_retries` calls and re-raises the last fault |
| Text.PyInt | redis_manager.py:125 | text that `int()` accepts contains a decimal digit (the same `int()` reads stored ints at line 93); read against `Text.PyIntOfIntToString` below, it recovers every integer written in decimal |
| Text.PyIntOfIntToString | redis_manager.py:125 | `int()` reads back the decimal text of every integer of at most 4300 digits, and refuses longer text (CPython's default limit on integer string conversion) |
| Text.PyIntOfInt64 | redis_manager.py:125 | `int()` reads back the decimal text of every 64-bit integer |
| Text.StoreInt | redis_manager.py:131 | INCR accepts only the canonical decimal text of a 64-bit integer |
| Text.StoreIntOfIntToString | redis_manager.py:131 | INCR accepts the decimal text of every 64-bit integer and reads back its value |
| Codec.Serialize | redis_manager.py:68-80 | serialisation fails (`ValueError`) exactly for a list or dict JSON cannot encode, for an integer over the 4300-digit limit that `str()` refuses, and for bytes that are not UTF-8; JSON dicts and lists become `json.dumps` text |
| Codec.Deserialize | redis_manager.py:82-104 | `None` in gives `None`; text that `int()` or `json.loads` rejects gives `None`, never an exception; the bool kind always yields a bool; with a sound codec the dict and list kinds yield JSON values |
| Codec.JsonRoundTrip | redis_manager.py:68-97 | a JSON dict or list deserialises back to itself |
| Codec.IntRoundTrip | redis_manager.py:73-93 | `int(str(i)) == i` for every integer of at most 4300 digits; a longer one fails to serialise, and the absent value reads back as `None` |
| Codec.BoolRoundTrip | redis_manager.py:73-91 | `str(b).lower() == "true"` recovers every bool |
| Codec.StrRoundTrip | redis_manager.py:77-98 | a string comes back unchanged |
| TtlStore.Get | redis_manager.py:172 | GET returns a value if and only if the key is present |
| TtlStore.Set | redis_manager.py:158-163 | SET with EX succeeds if and only if the expire time is positive, at most `Int64Max / 1000` seconds, and added to the clock in milliseconds still fits a signed 64-bit integer; anything else is an error reply; on success the key reads back the value and every other key keeps its entry |
| TtlStore.SetExpiresAfter | redis_manager.py:158-163 | after a SET EX `n` the server takes, TTL reads `n`; the value stays readable until `n` seconds have passed, that instant included, and is gone after it |
| TtlStore.Delete | redis_manager.py:148 | DEL removes exactly the named keys, keeps every other key, and counts 0 if and only if none of them was present |
| TtlStore.Ttl | redis_manager.py:237 | TTL reads -2 if and only if the key is absent, -1 if and only if it has no expiry, and 0 if and only if less than half a second remains |
| TtlStore.Incr | redis_manager.py:131 | INCR on a present key succeeds if and only if it holds a canonical 64-bit integer below the maximum; the result is one more, and the expiry is kept |
| TtlStore.ScanPrefix | redis_manager.py:230-235 | SCAN MATCH `prefix*` for a prefix without glob characters yields exactly the present keys that start with the prefix |
| Glob.LiteralMatchesItself | redis_manager.py:215 | a pattern without special characters matches only itself |
| Glob.LiteralHead | redis_manager.py:210-215 | a pattern with a literal head matches exactly the keys that start with that head and whose rest the rest of the pattern matches |
| Glob.StarMatchesAll | redis_manager.py:230 | `*` matches every key |
| Glob.PrefixStar | redis_manager.py:230 | `prefix*` matches exactly the keys that start with the prefix |
| RateLimit.DefaultsValid | redis_manager.py:36-42 | the constructor's limits (window of 60 s, 100 requests) form a working limiter |
| RateLimit.CheckRateLimit | redis_manager.py:106-142 | a connection error allows the request and changes nothing; a request is rejected if and only if the stored count is already at or over the limit, and a rejection changes nothing; no other key is touched |
| RateLimit.FirstRequest | redis_manager.py:118-123 | with no counter, the request is allowed; the counter is created at 1, expiring `rate_limit_ttl` seconds later, if SET takes that expire time, and otherwise the error is caught and nothing is created |
| RateLimit.UnderLimit | redis_manager.py:129-133 | under the limit, the request is allowed and the count goes up by exactly one, with the window's expiry unchanged |
| RateLimit.IncrementsReadCount | redis_manager.py:125-133 | a count that both `int()` and INCR read, below the limit, is allowed and goes up by one with its expiry kept |
| RateLimit.AtLimit | redis_manager.py:125-127 | at or over the limit, the request is rejected and the store is unchanged; a count too long for `int()` raises instead, and the request is allowed |
| RateLimit.CounterAnswers | redis_manager.py:118-133 | any step that allows and increments under the limit, and rejects without change once the limit is reached, gives the fixed-window answers |
| RateLimit.OpenedAnswers | redis_manager.py:118-133 | such a step that opens the counter at 1 allows exactly the first `limit` calls |
| RateLimit.CallCounts | redis_manager.py:118-133 | a healthy check increments a count under the limit and rejects without change at the limit |
| RateLimit.BurstFromCount | redis_manager.py:118-133 | from a stored count `c`, consecutive checks give the answers of a fixed-window counter, an independent reference sequence |
| RateLimit.ExactlyLimitAllowed | redis_manager.py:106-133 | in a fresh window, check number `i` (from 0) is allowed if and only if `i < rate_limit_requests`, or SET refuses the window's expire time and no counter ever exists |
| RateLimit.IdleAnswers | redis_manager.py:118-123 | a step that allows and leaves the store unchanged answers `True` to every later call |
| RateLimit.LimitPlusOne | redis_manager.py:125-127 | `rate_limit_requests + 1` checks give that many `True`s, then `False`; all `True` when SET refuses the window's expire time |
| RateLimit.CountStaysWithinLimit | redis_manager.py:118-133 | a stored count within the limit stays within it after any check |
| RateLimit.HealthyCountStaysWithinLimit | redis_manager.py:118-133 | the same for a check without a connection error |
| RateLimit.UnreadableCountUnchanged | redis_manager.py:125-133 | a counter INCR cannot read is never changed by a check |
| RateLimit.FirstCountIsOne | redis_manager.py:118-123 | with no counter, the check leaves a count that `int()` reads as 1, or no count when SET refuses the window's expire time |
| RateLimit.StoredCountWithinLimit | redis_manager.py:125-133 | from a readable count within the limit, the check leaves a count within the limit |
| RateLimit.IncrementedCount | redis_manager.py:125-133 | from a readable count below the limit, the check leaves a count one higher |
| RateLimit.WindowRollsOver | redis_manager.py:118-123 | once the clock is past the window's expiry, the next check is allowed and opens a new window at 1, or leaves no counter when SET refuses the expire time at the new clock |
| SessionCache.SetEntry | redis_manager.py:153-166 | a write succeeds if and only if the value serialises, SET takes the effective TTL as an expire time and the store call gets through; a failed write changes nothing; after success the key reads back the serialised value with that TTL; no other key is touched |
| SessionCache.GetEntry | redis_manager.py:168-178 | a missing key, a failed store call or undecodable text reads as `None`; otherwise the value is the JSON-decoded text, with empty text read as `None` |
| SessionCache.SetSession | redis_manager.py:153-166 | the same as for a session: true if and only if serialisable, an expire time SET takes and a reachable store; TTL reads `ttl or session_ttl`; keys outside `session:` are untouched |
| SessionCache.GetSession | redis_manager.py:168-178 | a missing session, an unreachable store or undecodable data reads as `None`; with a sound codec the result is a JSON value |
| SessionCache.SetCache | redis_manager.py:180-193 | the same for a cache entry, with `cache_ttl`; keys outside `cache:` are untouched |
| SessionCache.GetCache | redis_manager.py:195-205 | the same for a cache entry |
| SessionCache.DeleteSession | redis_manager.py:144-151 | reports `True` if and only if the store call gets through and the session existed; afterwards the session is gone; on failure nothing changes; no other key is touched |
| SessionCache.DeleteSessionIdempotent | redis_manager.py:144-151 | a second delete reports `False` and changes nothing |
| SessionCache.SessionRoundTrip | redis_manager.py:153-178 | with an effective TTL SET takes, a stored dict or list reads back unchanged up to and including the instant its effective TTL runs out, and as `None` after it |
| SessionCache.CacheRoundTrip | redis_manager.py:180-205 | the same for cache entries and the cache default |
| Settings.EffectiveTtl | redis_manager.py:162 | `ttl or default`, here and at line 189: a given non-zero TTL is used as it is, and an absent or zero TTL falls back to the default (`SessionCache.ZeroTtlMeansDefault` below carries this to the writes) |
| SessionCache.ZeroTtlMeansDefault | redis_manager.py:158-190 | `ttl=0` behaves exactly as `ttl=None` for sessions and cache entries |
| SessionCache.SessionAndCacheIsolated | redis_manager.py:153-193 | writing a session never changes a cache key, and writing a cache entry never changes a session key |
| Sweeps.InvalidateBatches | redis_manager.py:214-225 | the cursor loop only deletes; a key in no SCAN reply survives; on `True` every key of every reply is gone; a failing call ends it with `False`, keeping the deletions of earlier replies; when every store call gets through, the result is `True` |
| Sweeps.InvalidateCache | redis_manager.py:207-225 | only deletions; given SCAN replies that carry only and all matching keys, a key the pattern `cache:<pattern>` does not match survives and on `True` no matching key remains; when the first SCAN fails, the result is `False` and nothing changed; when every store call gets through, the result is `True` |
| Sweeps.InvalidateStaysInCache | redis_manager.py:207-215 | invalidation never removes or changes a key outside `cache:`, whatever the pattern |
| Sweeps.InvalidateLiteral | redis_manager.py:207-222 | with a pattern free of glob characters and a reachable store, exactly the one cache key goes |
| Sweeps.CleanupExpired | redis_manager.py:234-245 | a sweep only deletes, and only keys under the prefix whose TTL reads 0; when every store call gets through, it deletes all of them |
| Sweeps.CleanupExpiredSessions | redis_manager.py:227-245 | only session keys whose TTL reads 0 are deleted, and with a reachable store all of them are |
| Sweeps.CleanupExpiredCache | redis_manager.py:247-265 | the same over cache keys |

## Left out

- The WATCH/MULTI/EXEC transaction in `check_rate_limit` (redis_manager.py:112-137) is one atomic step. The retry on `WatchError` is not modelled, because no other client writes concurrently in this model.
- RateLimit.CheckRateLimit: a fault is modelled as occurring before the step has any effect. A fault after `EXEC` has committed, which would change the store and still allow the request, is not modelled.
- The exponential backoff, jitter and `time.sleep` in `_retry_operation` take no part in any result, so they are not modelled.
- Retry.Retry: a failed attempt is assumed to leave no trace on the server. The operation's outcome after the faults is the same on every attempt.
- The connection pool, its settings and `get_pool_stats` are configuration and introspection with no logic.
- Logging is not modelled.
- Floats are not modelled: no float `Value` and no `float` branch of `_deserialize_value`.
- `json.dumps`/`json.loads` are abstract functions constrained by `Codec.Sound`, not a JSON implementation.
- Codec.Serialize: dict keys are strings only. `json.dumps` also accepts int, float, bool and `None` keys and writes them as strings, so such a dict serialises in the code but would not read back equal; it is not represented here.
- Codec.Serialize: a tuple inside a list or dict, which `json.dumps` writes as a JSON array, is not represented. `ObjectV` stands only for objects JSON has no encoding for; inside a list or dict it makes serialisation fail.
- Text.PyInt: the 4300-digit limit is CPython's default for integer string conversion (3.11 on, and 3.7.14, 3.8.14, 3.9.14 and 3.10.7 on their branches). An interpreter with another limit, or with the limit switched off, is not modelled.
- Codec.Deserialize: `_deserialize_value` calls `int()` on a `str`, and there `int()` also accepts non-ASCII Unicode digits and whitespace. The model rejects them. In `check_rate_limit`, `int()` is applied to the bytes Redis returns, and there the model is exact.
- The UTF-8 decode of bytes read back from Redis is not modelled. Stored values are text.
- SessionCache.GetEntry: a decode failure on read raises `UnicodeDecodeError`, a subclass of `ValueError`, caught at redis_manager.py:99 and read as `None`. That path is not modelled.
- Sweeps.InvalidateCache: a `False` result does not promise an unchanged store. The loop deletes each SCAN reply's keys before asking for the next, so a failure after the first reply leaves earlier deletions in place. The replies are a parameter; only SCAN's guarantee constrains them (only matching keys, and every matching key present throughout in some reply). Cursor values are not modelled.
- TtlStore.Set: the expire-time checks are those of Redis 7.0 and later, which refuse an EX over `Int64Max / 1000` seconds or one whose expiry in milliseconds overflows a signed 64-bit integer. Older servers took such values and let the expiry overflow; that is not modelled.
- Glob.Match: `?` matches one character of the key. Redis matches one byte of the key's UTF-8 encoding, so for keys with non-ASCII characters the two can differ.
- Sweeps.CleanupExpired: the SCAN cursor is one pass over the keys present when the scan starts. Redis may return keys in several batches, or return a key twice.
- Glob bracket classes `[...]` and `\` escapes are not modelled. The prefixes contain neither, and patterns that use them fall outside the model.
- A value of the wrong Redis type (a `WRONGTYPE` reply) does not arise, because every key holds a string.
- `async` on the sweeps is not modelled. Each sweep is a sequential method.
- `app.py` and `session_config.py` are not part of this model.
- The unused `rate_limit_window` setting is carried in `Settings.Config`, and nothing reads it.
- The `video:` prefix is declared and used by no operation. It takes part only in the namespace lemmas.
