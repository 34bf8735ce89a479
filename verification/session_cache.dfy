/** Session and cache entries: `set_session`/`get_session`/`delete_session`
    and `set_cache`/`get_cache`. Every store call goes through the retry
    helper; `faults` is what the client raises before a call gets through. */
module SessionCache {
  import opened Base
  import opened TtlStore
  import opened Codec
  import opened Settings
  import Keys
  import Retry

  /** The shared body of `set_session` and `set_cache`: store the encoded
      value under the prefixed key for `ttl or defaultTtl` seconds. Any
      exception, including the error reply to an expire time SET does not
      take, is caught and reported as `false`. */
  function SetEntry(cfg: Config, s: Store, prefix: string, defaultTtl: int, id: string, data: Value,
                    ttl: Option<int>, faults: seq<Fault>): (r: (Store, bool))
    ensures r.1 <==>
      && Serialize(cfg.json, data).Some?
      && ExpireAccepted(s.now, EffectiveTtl(ttl, defaultTtl))
      && Retry.Recovers(cfg.maxRetries, faults)
    ensures !r.1 ==> r.0 == s
    ensures r.1 ==> Get(r.0, Keys.BuildKey(prefix, id)) == Serialize(cfg.json, data)
    ensures r.1 ==> Ttl(r.0, Keys.BuildKey(prefix, id)) == EffectiveTtl(ttl, defaultTtl)
    ensures r.0.now == s.now
    ensures forall k :: k != Keys.BuildKey(prefix, id) ==> SameAt(s, r.0, k)
  {
    var key := Keys.BuildKey(prefix, id);
    match Serialize(cfg.json, data)
    case None => (s, false)                       // ValueError from serialisation
    case Some(text) =>
      var ex := EffectiveTtl(ttl, defaultTtl);
      var run := Retry.Retry(cfg.maxRetries, faults, Set(s, key, text, ex));
      match run.result
      case Returned(s') =>
        SetExpiresAfter(s, key, text, ex, 0);
        (s', true)
      case Reraised(_) => (s, false)              // caught and logged
      case NothingReturned => (s, false)          // bool(None)
  }

  /** The shared body of `get_session` and `get_cache`: read the prefixed key
      and decode it as JSON. A miss, empty data, a store error or text that
      does not decode all read as `NoneV`; nothing is raised. */
  function GetEntry(cfg: Config, s: Store, prefix: string, id: string, faults: seq<Fault>): (r: Value)
    ensures Keys.BuildKey(prefix, id) !in s.entries ==> r == NoneV
    ensures !Retry.Recovers(cfg.maxRetries, faults) ==> r == NoneV
    ensures Keys.BuildKey(prefix, id) in s.entries && cfg.json.loads(s.entries[Keys.BuildKey(prefix, id)].data).None? ==> r == NoneV
    ensures Retry.Recovers(cfg.maxRetries, faults) && Keys.BuildKey(prefix, id) in s.entries ==>
      var data := s.entries[Keys.BuildKey(prefix, id)].data;
      r == (if data == "" then NoneV else Deserialize(cfg.json, Some(data), DictKind))
  {
    var key := Keys.BuildKey(prefix, id);
    var run: Retry.Run<Option<string>> := Retry.Retry(cfg.maxRetries, faults, Ok(Get(s, key)));
    match run.result
    case Returned(Some(data)) =>
      if data != "" then Deserialize(cfg.json, Some(data), DictKind) else NoneV
    case Returned(None) => NoneV                  // miss
    case Reraised(_) => NoneV                     // caught and logged
    case NothingReturned => NoneV                 // `if None:`
  }

  function SetSession(cfg: Config, s: Store, sessionId: string, data: Value, ttl: Option<int>,
                      faults: seq<Fault>): (r: (Store, bool))
    ensures r.1 <==>
      && Serialize(cfg.json, data).Some?
      && ExpireAccepted(s.now, EffectiveTtl(ttl, cfg.sessionTtl))
      && Retry.Recovers(cfg.maxRetries, faults)
    ensures !r.1 ==> r.0 == s
    ensures r.1 ==> Ttl(r.0, Keys.BuildKey(Keys.SessionPrefix, sessionId)) == EffectiveTtl(ttl, cfg.sessionTtl)
    ensures forall k :: !(Keys.SessionPrefix <= k) ==> SameAt(s, r.0, k)
  {
    SetEntry(cfg, s, Keys.SessionPrefix, cfg.sessionTtl, sessionId, data, ttl, faults)
  }

  function GetSession(cfg: Config, s: Store, sessionId: string, faults: seq<Fault>): (r: Value)
    ensures Keys.BuildKey(Keys.SessionPrefix, sessionId) !in s.entries ==> r == NoneV
    ensures !Retry.Recovers(cfg.maxRetries, faults) ==> r == NoneV
    ensures Keys.BuildKey(Keys.SessionPrefix, sessionId) in s.entries && cfg.json.loads(s.entries[Keys.BuildKey(Keys.SessionPrefix, sessionId)].data).None? ==> r == NoneV
    ensures Sound(cfg.json) ==> IsJson(r)
  {
    GetEntry(cfg, s, Keys.SessionPrefix, sessionId, faults)
  }

  function SetCache(cfg: Config, s: Store, cacheKey: string, data: Value, ttl: Option<int>,
                    faults: seq<Fault>): (r: (Store, bool))
    ensures r.1 <==>
      && Serialize(cfg.json, data).Some?
      && ExpireAccepted(s.now, EffectiveTtl(ttl, cfg.cacheTtl))
      && Retry.Recovers(cfg.maxRetries, faults)
    ensures !r.1 ==> r.0 == s
    ensures r.1 ==> Ttl(r.0, Keys.BuildKey(Keys.CachePrefix, cacheKey)) == EffectiveTtl(ttl, cfg.cacheTtl)
    ensures forall k :: !(Keys.CachePrefix <= k) ==> SameAt(s, r.0, k)
  {
    SetEntry(cfg, s, Keys.CachePrefix, cfg.cacheTtl, cacheKey, data, ttl, faults)
  }

  function GetCache(cfg: Config, s: Store, cacheKey: string, faults: seq<Fault>): (r: Value)
    ensures Keys.BuildKey(Keys.CachePrefix, cacheKey) !in s.entries ==> r == NoneV
    ensures !Retry.Recovers(cfg.maxRetries, faults) ==> r == NoneV
    ensures Keys.BuildKey(Keys.CachePrefix, cacheKey) in s.entries && cfg.json.loads(s.entries[Keys.BuildKey(Keys.CachePrefix, cacheKey)].data).None? ==> r == NoneV
    ensures Sound(cfg.json) ==> IsJson(r)
  {
    GetEntry(cfg, s, Keys.CachePrefix, cacheKey, faults)
  }

  /** `delete_session`: remove the prefixed key; `true` iff a key was
      removed. */
  function DeleteSession(cfg: Config, s: Store, sessionId: string, faults: seq<Fault>): (r: (Store, bool))
    ensures r.1 <==> Retry.Recovers(cfg.maxRetries, faults) && Keys.BuildKey(Keys.SessionPrefix, sessionId) in s.entries
    ensures Retry.Recovers(cfg.maxRetries, faults) ==> Keys.BuildKey(Keys.SessionPrefix, sessionId) !in r.0.entries
    ensures !Retry.Recovers(cfg.maxRetries, faults) ==> r.0 == s
    ensures r.0.now == s.now
    ensures forall k :: k != Keys.BuildKey(Keys.SessionPrefix, sessionId) ==> SameAt(s, r.0, k)
  {
    var key := Keys.BuildKey(Keys.SessionPrefix, sessionId);
    var run := Retry.Retry(cfg.maxRetries, faults, Ok(Delete(s, {key})));
    match run.result
    case Returned(deleted) => (deleted.0, deleted.1 > 0)
    case Reraised(_) => (s, false)                // caught and logged
    case NothingReturned => (s, false)            // bool(None)
  }

  /** Deleting an absent session reports `false` and changes nothing, so a
      second delete is harmless. */
  lemma DeleteSessionIdempotent(cfg: Config, s: Store, sessionId: string, faults: seq<Fault>, faults': seq<Fault>)
    ensures var (s1, _) := DeleteSession(cfg, s, sessionId, faults);
      Retry.Recovers(cfg.maxRetries, faults) ==> DeleteSession(cfg, s1, sessionId, faults') == (s1, false)
  {
    var s1 := DeleteSession(cfg, s, sessionId, faults).0;
    if Retry.Recovers(cfg.maxRetries, faults) {
      var key := Keys.BuildKey(Keys.SessionPrefix, sessionId);
      var s2 := DeleteSession(cfg, s1, sessionId, faults').0;
      assert SameAt(s1, s2, key);
      SameEverywhere(s1, s2);
    }
  }

  /** A stored session reads back as the same dict (or list) up to and
      including its expiry, `ttl` seconds or, when `ttl` is `None` or `0`,
      the session default, and reads as `NoneV` after it. */
  lemma SessionRoundTrip(cfg: Config, s: Store, sessionId: string, data: Value, ttl: Option<int>,
                         faults: seq<Fault>, faults': seq<Fault>, ms: nat)
    requires Sound(cfg.json) && IsJson(data) && (data.DictV? || data.ListV?)
    requires ExpireAccepted(s.now, EffectiveTtl(ttl, cfg.sessionTtl))
    requires Retry.Recovers(cfg.maxRetries, faults) && Retry.Recovers(cfg.maxRetries, faults')
    ensures var (s1, ok) := SetSession(cfg, s, sessionId, data, ttl, faults);
      && ok
      && GetSession(cfg, Advance(s1, ms), sessionId, faults') ==
           (if ms <= EffectiveTtl(ttl, cfg.sessionTtl) * 1000 then data else NoneV)
  {
    var key := Keys.BuildKey(Keys.SessionPrefix, sessionId);
    var text := cfg.json.dumps(data);
    var ex := EffectiveTtl(ttl, cfg.sessionTtl);
    var (s1, ok) := SetSession(cfg, s, sessionId, data, ttl, faults);
    assert s1 == Set(s, key, text, ex).value;
    SetExpiresAfter(s, key, text, ex, ms);
    JsonRoundTrip(cfg.json, data, DictKind);
  }

  /** The same for the cache, with the cache default. */
  lemma CacheRoundTrip(cfg: Config, s: Store, cacheKey: string, data: Value, ttl: Option<int>,
                       faults: seq<Fault>, faults': seq<Fault>, ms: nat)
    requires Sound(cfg.json) && IsJson(data) && (data.DictV? || data.ListV?)
    requires ExpireAccepted(s.now, EffectiveTtl(ttl, cfg.cacheTtl))
    requires Retry.Recovers(cfg.maxRetries, faults) && Retry.Recovers(cfg.maxRetries, faults')
    ensures var (s1, ok) := SetCache(cfg, s, cacheKey, data, ttl, faults);
      && ok
      && GetCache(cfg, Advance(s1, ms), cacheKey, faults') ==
           (if ms <= EffectiveTtl(ttl, cfg.cacheTtl) * 1000 then data else NoneV)
  {
    var key := Keys.BuildKey(Keys.CachePrefix, cacheKey);
    var text := cfg.json.dumps(data);
    var ex := EffectiveTtl(ttl, cfg.cacheTtl);
    var (s1, ok) := SetCache(cfg, s, cacheKey, data, ttl, faults);
    assert s1 == Set(s, key, text, ex).value;
    SetExpiresAfter(s, key, text, ex, ms);
    JsonRoundTrip(cfg.json, data, DictKind);
  }

  /** `ttl=0` is no expire time at all: it means the default, as `None`
      does, for sessions and cache entries alike. */
  lemma ZeroTtlMeansDefault(cfg: Config, s: Store, id: string, data: Value, faults: seq<Fault>)
    ensures SetSession(cfg, s, id, data, Some(0), faults) == SetSession(cfg, s, id, data, None, faults)
    ensures SetCache(cfg, s, id, data, Some(0), faults) == SetCache(cfg, s, id, data, None, faults)
  {
  }

  /** Writing a session leaves every cache entry alone, and writing a cache
      entry leaves every session alone. */
  lemma SessionAndCacheIsolated(cfg: Config, s: Store, id: string, data: Value, ttl: Option<int>,
                                faults: seq<Fault>, k: string)
    ensures Keys.CachePrefix <= k ==> SameAt(s, SetSession(cfg, s, id, data, ttl, faults).0, k)
    ensures Keys.SessionPrefix <= k ==> SameAt(s, SetCache(cfg, s, id, data, ttl, faults).0, k)
  {
    Keys.NamespacesDisjoint(Keys.SessionPrefix, Keys.CachePrefix, k);
  }
}
