/** `check_rate_limit`: a fixed-window counter per (user, address). The
    WATCH/MULTI/EXEC transaction is taken as one atomic step. */
module RateLimit {
  import opened Base
  import opened TtlStore
  import opened Settings
  import Keys
  import Text

  /** Limits under which the counter behaves as a limiter: a positive window
      and a positive request budget the store can count to. */
  predicate ValidLimits(cfg: Config) {
    cfg.rateLimitTtl > 0 && 1 <= cfg.rateLimitRequests <= Text.Int64Max
  }

  lemma DefaultsValid(json: Codec.JsonCodec)
    ensures ValidLimits(Defaults(json))
  {
  }

  /** The count stored for a key, read as Python's `int()` reads it. */
  function StoredCount(s: Store, key: string): Option<int> {
    if key in s.entries then Text.PyInt(s.entries[key].data) else None
  }

  /** One call. `link` is the exception the connection raises during the
      step, if any. An absent counter is created at 1 with the window's
      expiry; a count at or over the limit rejects; any other count is
      incremented. Every error allows the request. */
  function CheckRateLimit(cfg: Config, s: Store, userId: string, ipAddress: string, link: Option<Fault>): (r: (Store, bool))
    ensures link.Some? ==> r == (s, true)
    ensures !r.1 <==>
      link.None? && StoredCount(s, Keys.RateKey(userId, ipAddress)).Some? &&
      StoredCount(s, Keys.RateKey(userId, ipAddress)).value >= cfg.rateLimitRequests
    ensures !r.1 ==> r.0 == s
    ensures r.0.now == s.now
    ensures forall k :: k != Keys.RateKey(userId, ipAddress) ==> SameAt(s, r.0, k)
  {
    if link.Some? then (s, true)                  // caught, logged, allowed
    else
      var key := Keys.RateKey(userId, ipAddress);
      match Get(s, key)
      case None =>
        (match Set(s, key, "1", cfg.rateLimitTtl)
         case Ok(s') => (s', true)
         case Raised(_) => (s, true))
      case Some(current) =>
        match Text.PyInt(current)
        case None => (s, true)                    // ValueError from int(): allowed
        case Some(count) =>
          if count >= cfg.rateLimitRequests then (s, false)
          else
            match Incr(s, key)
            case Ok(s') => (s', true)
            case Raised(_) => (s, true)
  }

  /** The first request of a window is allowed and creates the counter at
      1, expiring `rateLimitTtl` seconds from now; when SET refuses that
      expire time the error is caught and no counter is created. */
  lemma FirstRequest(cfg: Config, s: Store, userId: string, ipAddress: string)
    requires ValidLimits(cfg)
    requires Keys.RateKey(userId, ipAddress) !in s.entries
    ensures var (s', ok) := CheckRateLimit(cfg, s, userId, ipAddress, None);
      && ok
      && if ExpireAccepted(s.now, cfg.rateLimitTtl) then
           && Keys.RateKey(userId, ipAddress) in s'.entries
           && s'.entries[Keys.RateKey(userId, ipAddress)] == Entry("1", Some(s.now + cfg.rateLimitTtl * 1000))
         else s' == s
  {
  }

  /** Under the limit the count goes up by exactly one and the window's
      expiry is not moved. */
  lemma UnderLimit(cfg: Config, s: Store, userId: string, ipAddress: string, count: int)
    requires ValidLimits(cfg)
    requires Keys.RateKey(userId, ipAddress) in s.entries
    requires s.entries[Keys.RateKey(userId, ipAddress)].data == Text.IntToString(count)
    requires Text.Int64Min <= count < cfg.rateLimitRequests
    ensures var key := Keys.RateKey(userId, ipAddress);
      var (s', ok) := CheckRateLimit(cfg, s, userId, ipAddress, None);
      && ok
      && key in s'.entries
      && s'.entries[key] == s.entries[key].(data := Text.IntToString(count + 1))
  {
    var key := Keys.RateKey(userId, ipAddress);
    assert StoredCount(s, key) == Some(count) by {
      Text.PyIntOfInt64(count);
    }
    assert Counter(s, key) == Some(count) by {
      Text.StoreIntOfIntToString(count);
    }
    IncrementsReadCount(cfg, s, userId, ipAddress, count);
  }

  /** The step under the limit, from the count as both readers see it. */
  lemma IncrementsReadCount(cfg: Config, s: Store, userId: string, ipAddress: string, count: int)
    requires ValidLimits(cfg)
    requires Keys.RateKey(userId, ipAddress) in s.entries
    requires StoredCount(s, Keys.RateKey(userId, ipAddress)) == Some(count)
    requires Counter(s, Keys.RateKey(userId, ipAddress)) == Some(count)
    requires count < cfg.rateLimitRequests
    ensures var key := Keys.RateKey(userId, ipAddress);
      var (s', ok) := CheckRateLimit(cfg, s, userId, ipAddress, None);
      && ok
      && key in s'.entries
      && s'.entries[key] == s.entries[key].(data := Text.IntToString(count + 1))
  {
    var key := Keys.RateKey(userId, ipAddress);
    var inc := Incr(s, key);
    assert inc.Ok? && inc.value.entries[key] == Entry(Text.IntToString(count + 1), s.entries[key].expiresAt);
    assert CheckRateLimit(cfg, s, userId, ipAddress, None) == (inc.value, true);
  }

  /** At or over the limit the call is rejected and nothing changes; a
      count too long for `int()` to read raises instead, and the request is
      allowed. */
  lemma AtLimit(cfg: Config, s: Store, userId: string, ipAddress: string, count: int)
    requires Keys.RateKey(userId, ipAddress) in s.entries
    requires s.entries[Keys.RateKey(userId, ipAddress)].data == Text.IntToString(count)
    requires count >= cfg.rateLimitRequests
    ensures CheckRateLimit(cfg, s, userId, ipAddress, None) == (s, !Text.FitsStrDigits(count))
  {
    Text.PyIntOfIntToString(count);
  }

  /** One healthy call, as a step from store to store and answer. */
  function Call(cfg: Config, userId: string, ipAddress: string): Store -> (Store, bool) {
    t => CheckRateLimit(cfg, t, userId, ipAddress, None)
  }

  /** The answers `n` consecutive steps give, each from the store the last
      one left. */
  function Answers(step: Store -> (Store, bool), s: Store, n: nat): (r: seq<bool>)
    ensures |r| == n
    decreases n
  {
    if n == 0 then []
    else
      var (s', ok) := step(s);
      [ok] + Answers(step, s', n - 1)
  }

  /** The answers to `n` consecutive calls with a healthy connection and no
      time passing. */
  function Burst(cfg: Config, s: Store, userId: string, ipAddress: string, n: nat): (r: seq<bool>)
    ensures |r| == n
  {
    Answers(Call(cfg, userId, ipAddress), s, n)
  }

  /** The answers a fixed-window counter gives to `n` calls starting from
      count `c`, as a reference independent of the store. */
  function Allowed(c: int, limit: int, n: nat): (r: seq<bool>)
    ensures |r| == n
    decreases n
  {
    if n == 0 then [] else [c < limit] + Allowed(if c < limit then c + 1 else c, limit, n - 1)
  }

  /** The `i`-th answer is `true` exactly when `c + i` is under the limit. */
  lemma {:induction false} AllowedAt(c: int, limit: int, n: nat, i: nat)
    requires c <= limit && i < n
    ensures Allowed(c, limit, n)[i] == (c + i < limit)
    decreases n
  {
    if i > 0 {
      var c' := if c < limit then c + 1 else c;
      AllowedAt(c', limit, n - 1, i - 1);
    }
  }

  /** The counter at `key` holds `c`, written as the store writes integers. */
  predicate CounterAt(s: Store, key: string, c: int) {
    key in s.entries && s.entries[key].data == Text.IntToString(c)
  }

  /** Any step that allows and increments under the limit and rejects
      without change once the limit is reached answers as the reference
      does. */
  lemma {:induction false} CounterAnswers(step: Store -> (Store, bool), key: string, limit: int, s: Store, c: int, n: nat)
    requires forall t: Store, d: int :: CounterAt(t, key, d) && 1 <= d < limit ==>
      step(t).1 && CounterAt(step(t).0, key, d + 1)
    requires forall t: Store, d: int :: CounterAt(t, key, d) && d == limit ==> step(t) == (t, false)
    requires CounterAt(s, key, c) && 1 <= c <= limit
    ensures Answers(step, s, n) == Allowed(c, limit, n)
    decreases n
  {
    if n > 0 {
      if c < limit {
        CounterAnswers(step, key, limit, step(s).0, c + 1, n - 1);
      } else {
        CounterAnswers(step, key, limit, s, c, n - 1);
      }
    }
  }

  /** Such a step that opens the counter at 1 allows exactly the first
      `limit` calls. */
  lemma {:induction false} OpenedAnswers(step: Store -> (Store, bool), key: string, limit: int, s: Store, n: nat)
    requires forall t: Store, d: int :: CounterAt(t, key, d) && 1 <= d < limit ==>
      step(t).1 && CounterAt(step(t).0, key, d + 1)
    requires forall t: Store, d: int :: CounterAt(t, key, d) && d == limit ==> step(t) == (t, false)
    requires 1 <= limit && step(s).1 && CounterAt(step(s).0, key, 1)
    ensures forall i :: 0 <= i < n ==> Answers(step, s, n)[i] == (i < limit)
  {
    if n > 0 {
      var b := Answers(step, s, n);
      var rest := Answers(step, step(s).0, n - 1);
      CounterAnswers(step, key, limit, step(s).0, 1, n - 1);
      assert b == [true] + rest;
      forall i | 0 <= i < n ensures b[i] == (i < limit) {
        if i > 0 {
          assert b[i] == rest[i - 1];
          AllowedAt(1, limit, n - 1, i - 1);
        }
      }
    }
  }

  /** A healthy call increments under the limit and rejects at it. */
  lemma CallCounts(cfg: Config, userId: string, ipAddress: string)
    requires ValidLimits(cfg)
    ensures var step := Call(cfg, userId, ipAddress);
      var key := Keys.RateKey(userId, ipAddress);
      && (forall t: Store, d: int :: CounterAt(t, key, d) && 1 <= d < cfg.rateLimitRequests ==>
            step(t).1 && CounterAt(step(t).0, key, d + 1))
      && (forall t: Store, d: int :: CounterAt(t, key, d) && d == cfg.rateLimitRequests ==> step(t) == (t, false))
  {
    var key := Keys.RateKey(userId, ipAddress);
    var limit := cfg.rateLimitRequests;
    var step := Call(cfg, userId, ipAddress);
    forall t: Store, d: int | CounterAt(t, key, d) && 1 <= d < limit
      ensures step(t).1 && CounterAt(step(t).0, key, d + 1)
    {
      UnderLimit(cfg, t, userId, ipAddress, d);
    }
    forall t: Store, d: int | CounterAt(t, key, d) && d == limit
      ensures step(t) == (t, false)
    {
      AtLimit(cfg, t, userId, ipAddress, d);
      Text.Int64FitsStrDigits(d);
    }
  }

  /** The store-backed limiter answers as the reference does. */
  lemma BurstFromCount(cfg: Config, s: Store, userId: string, ipAddress: string, c: int, n: nat)
    requires ValidLimits(cfg)
    requires CounterAt(s, Keys.RateKey(userId, ipAddress), c)
    requires 1 <= c <= cfg.rateLimitRequests
    ensures Burst(cfg, s, userId, ipAddress, n) == Allowed(c, cfg.rateLimitRequests, n)
  {
    CallCounts(cfg, userId, ipAddress);
    CounterAnswers(Call(cfg, userId, ipAddress), Keys.RateKey(userId, ipAddress), cfg.rateLimitRequests, s, c, n);
  }

  /** A step that allows and leaves the store as it was answers `true`
      forever. */
  lemma {:induction false} IdleAnswers(step: Store -> (Store, bool), s: Store, n: nat)
    requires step(s) == (s, true)
    ensures Answers(step, s, n) == seq(n, _ => true)
    decreases n
  {
    if n > 0 {
      IdleAnswers(step, s, n - 1);
      assert Answers(step, s, n) == [true] + seq(n - 1, _ => true);
    }
  }

  /** Starting from no counter, the first `rateLimitRequests` calls are
      allowed and every later one in the window is rejected. When SET
      refuses the window's expire time no counter ever exists and every
      call is allowed. */
  lemma ExactlyLimitAllowed(cfg: Config, s: Store, userId: string, ipAddress: string, n: nat)
    requires ValidLimits(cfg)
    requires Keys.RateKey(userId, ipAddress) !in s.entries
    ensures forall i :: 0 <= i < n ==>
      Burst(cfg, s, userId, ipAddress, n)[i] == (i < cfg.rateLimitRequests || !ExpireAccepted(s.now, cfg.rateLimitTtl))
  {
    var key := Keys.RateKey(userId, ipAddress);
    var step := Call(cfg, userId, ipAddress);
    if ExpireAccepted(s.now, cfg.rateLimitTtl) {
      assert step(s).1 && CounterAt(step(s).0, key, 1) by {
        FirstRequest(cfg, s, userId, ipAddress);
        assert Text.IntToString(1) == "1";
      }
      CallCounts(cfg, userId, ipAddress);
      OpenedAnswers(step, key, cfg.rateLimitRequests, s, n);
    } else {
      assert step(s) == (s, true) by {
        FirstRequest(cfg, s, userId, ipAddress);
      }
      IdleAnswers(step, s, n);
    }
  }

  /** In particular `rateLimitRequests + 1` calls give that many `true`s and
      then one `false` (all `true` when SET refuses the window). */
  lemma LimitPlusOne(cfg: Config, s: Store, userId: string, ipAddress: string)
    requires ValidLimits(cfg)
    requires Keys.RateKey(userId, ipAddress) !in s.entries
    ensures Burst(cfg, s, userId, ipAddress, cfg.rateLimitRequests + 1) ==
      if ExpireAccepted(s.now, cfg.rateLimitTtl) then seq(cfg.rateLimitRequests, _ => true) + [false]
      else seq(cfg.rateLimitRequests + 1, _ => true)
  {
    var n := cfg.rateLimitRequests;
    var b := Burst(cfg, s, userId, ipAddress, n + 1);
    ExactlyLimitAllowed(cfg, s, userId, ipAddress, n + 1);
    if ExpireAccepted(s.now, cfg.rateLimitTtl) {
      var expected := seq(n, _ => true) + [false];
      forall i | 0 <= i < n + 1 ensures b[i] == expected[i] {
        if i < n {
          assert expected[i] == seq(n, _ => true)[i];
        }
      }
      assert b == expected;
    } else {
      assert b == seq(n + 1, _ => true);
    }
  }

  /** A count within the limit stays within it. */
  lemma CountStaysWithinLimit(cfg: Config, s: Store, userId: string, ipAddress: string, link: Option<Fault>)
    requires ValidLimits(cfg)
    requires var c := StoredCount(s, Keys.RateKey(userId, ipAddress)); c.Some? ==> c.value <= cfg.rateLimitRequests
    ensures var c := StoredCount(CheckRateLimit(cfg, s, userId, ipAddress, link).0, Keys.RateKey(userId, ipAddress));
      c.Some? ==> c.value <= cfg.rateLimitRequests
  {
    if link.None? {
      HealthyCountStaysWithinLimit(cfg, s, userId, ipAddress);
    }
  }

  lemma HealthyCountStaysWithinLimit(cfg: Config, s: Store, userId: string, ipAddress: string)
    requires ValidLimits(cfg)
    requires var c := StoredCount(s, Keys.RateKey(userId, ipAddress)); c.Some? ==> c.value <= cfg.rateLimitRequests
    ensures var c := StoredCount(CheckRateLimit(cfg, s, userId, ipAddress, None).0, Keys.RateKey(userId, ipAddress));
      c.Some? ==> c.value <= cfg.rateLimitRequests
  {
    var key := Keys.RateKey(userId, ipAddress);
    if key !in s.entries {
      FirstCountIsOne(cfg, s, userId, ipAddress);
    } else if Text.StoreInt(s.entries[key].data).Some? {
      StoredCountWithinLimit(cfg, s, userId, ipAddress, Text.StoreInt(s.entries[key].data).value);
    } else {
      UnreadableCountUnchanged(cfg, s, userId, ipAddress);
    }
  }

  /** A counter INCR cannot read is never changed. */
  lemma UnreadableCountUnchanged(cfg: Config, s: Store, userId: string, ipAddress: string)
    requires Keys.RateKey(userId, ipAddress) in s.entries
    requires Text.StoreInt(s.entries[Keys.RateKey(userId, ipAddress)].data).None?
    ensures CheckRateLimit(cfg, s, userId, ipAddress, None).0 == s
  {
    assert Counter(s, Keys.RateKey(userId, ipAddress)).None?;
  }

  lemma FirstCountIsOne(cfg: Config, s: Store, userId: string, ipAddress: string)
    requires ValidLimits(cfg)
    requires Keys.RateKey(userId, ipAddress) !in s.entries
    ensures StoredCount(CheckRateLimit(cfg, s, userId, ipAddress, None).0, Keys.RateKey(userId, ipAddress)) ==
      if ExpireAccepted(s.now, cfg.rateLimitTtl) then Some(1) else None
  {
    FirstRequest(cfg, s, userId, ipAddress);
    assert Text.IntToString(1) == "1";
    Text.PyIntOfInt64(1);
  }

  lemma StoredCountWithinLimit(cfg: Config, s: Store, userId: string, ipAddress: string, v: int)
    requires ValidLimits(cfg)
    requires Keys.RateKey(userId, ipAddress) in s.entries
    requires s.entries[Keys.RateKey(userId, ipAddress)].data == Text.IntToString(v) && Text.InInt64(v)
    requires v <= cfg.rateLimitRequests
    ensures var c := StoredCount(CheckRateLimit(cfg, s, userId, ipAddress, None).0, Keys.RateKey(userId, ipAddress));
      c.Some? ==> c.value <= cfg.rateLimitRequests
  {
    if v < cfg.rateLimitRequests {
      IncrementedCount(cfg, s, userId, ipAddress, v);
    } else {
      assert CheckRateLimit(cfg, s, userId, ipAddress, None).0 == s by {
        AtLimit(cfg, s, userId, ipAddress, v);
        Text.Int64FitsStrDigits(v);
      }
      assert StoredCount(s, Keys.RateKey(userId, ipAddress)) == Some(v) by {
        Text.PyIntOfInt64(v);
      }
    }
  }

  lemma IncrementedCount(cfg: Config, s: Store, userId: string, ipAddress: string, v: int)
    requires ValidLimits(cfg)
    requires Keys.RateKey(userId, ipAddress) in s.entries
    requires s.entries[Keys.RateKey(userId, ipAddress)].data == Text.IntToString(v) && Text.InInt64(v)
    requires v < cfg.rateLimitRequests
    ensures StoredCount(CheckRateLimit(cfg, s, userId, ipAddress, None).0, Keys.RateKey(userId, ipAddress)) == Some(v + 1)
  {
    var key := Keys.RateKey(userId, ipAddress);
    var r := CheckRateLimit(cfg, s, userId, ipAddress, None);
    var next := Text.IntToString(v + 1);
    assert key in r.0.entries && r.0.entries[key].data == next by {
      UnderLimit(cfg, s, userId, ipAddress, v);
    }
    assert Text.PyInt(next) == Some(v + 1) by {
      Text.PyIntOfInt64(v + 1);
    }
    assert StoredCount(r.0, key) == Text.PyInt(next);
  }

  /** Once the clock is past the window's expiry the counter is gone, and
      the next call is allowed and opens a fresh window (none when SET
      refuses its expire time at the new clock). */
  lemma WindowRollsOver(cfg: Config, s: Store, userId: string, ipAddress: string, ms: nat)
    requires ValidLimits(cfg)
    requires Keys.RateKey(userId, ipAddress) in s.entries
    requires s.entries[Keys.RateKey(userId, ipAddress)].expiresAt.Some?
    requires s.entries[Keys.RateKey(userId, ipAddress)].expiresAt.value < s.now + ms
    ensures var (s', ok) := CheckRateLimit(cfg, Advance(s, ms), userId, ipAddress, None);
      && ok
      && if ExpireAccepted(s.now + ms, cfg.rateLimitTtl) then
           Keys.RateKey(userId, ipAddress) in s'.entries && s'.entries[Keys.RateKey(userId, ipAddress)].data == "1"
         else Keys.RateKey(userId, ipAddress) !in s'.entries
  {
    FirstRequest(cfg, Advance(s, ms), userId, ipAddress);
  }
}
