/** Bulk deletions over one namespace: `invalidate_cache` and the expiry
    sweeps `cleanup_expired_sessions` / `cleanup_expired_cache`.
    Invalidation follows the SCAN cursor reply by reply, deleting each
    reply's keys before asking for the next; the sweeps are taken as one
    pass over the keys present when they start. Each store call goes
    through the retry helper; the `i`-th call of a run meets the faults
    `plan[i]` before it gets through. */
module Sweeps {
  import opened Base
  import opened TtlStore
  import opened Settings
  import Keys
  import Retry
  import Glob

  /** Faults met by the `i`-th store call; calls past the plan meet none. */
  function FaultsAt(plan: seq<seq<Fault>>, i: nat): seq<Fault> {
    if i < |plan| then plan[i] else []
  }

  /** Every call of the run gets through within the retry budget. */
  predicate PlanRecovers(maxRetries: nat, plan: seq<seq<Fault>>) {
    maxRetries >= 1 && forall i :: 0 <= i < |plan| ==> Retry.Recovers(maxRetries, plan[i])
  }

  /** Only deletions: every key still present holds the entry it held. */
  predicate OnlyDeletes(s: Store, s': Store) {
    s'.now == s.now && forall k :: k in s'.entries ==> k in s.entries && s'.entries[k] == s.entries[k]
  }

  /** A key some reply of the scan carried. */
  predicate InSomeBatch(batches: seq<set<string>>, k: string) {
    exists i :: 0 <= i < |batches| && k in batches[i]
  }

  /** `batches` are the key lists SCAN replies with, in order, until the
      cursor comes back 0: at least one reply, only keys the pattern
      matches, and every matching key in some reply. */
  predicate ScanReplies(s: Store, glob: string, batches: seq<set<string>>) {
    && |batches| >= 1
    && (forall i :: 0 <= i < |batches| ==> batches[i] <= Scan(s, glob))
    && (forall k :: k in Scan(s, glob) ==> InSomeBatch(batches, k))
  }

  lemma InSomeBatchSplit(batches: seq<set<string>>)
    requires |batches| > 0
    ensures forall k :: InSomeBatch(batches, k) <==> k in batches[0] || InSomeBatch(batches[1..], k)
  {
    forall k | InSomeBatch(batches, k) && k !in batches[0] ensures InSomeBatch(batches[1..], k) {
      var i :| 0 <= i < |batches| && k in batches[i];
      assert batches[1..][i - 1] == batches[i];
    }
    forall k | InSomeBatch(batches[1..], k) ensures InSomeBatch(batches, k) {
      var i :| 0 <= i < |batches[1..]| && k in batches[1..][i];
      assert batches[i + 1] == batches[1..][i];
    }
  }

  /** The cursor loop of `invalidate_cache` from the reply `batches[0]`
      on, whose SCAN is the `call`-th store call of the run. A failing call
      ends the loop with `false`, keeping what earlier replies deleted. */
  function InvalidateBatches(maxRetries: nat, s: Store, batches: seq<set<string>>, plan: seq<seq<Fault>>, call: nat): (r: (Store, bool))
    ensures OnlyDeletes(s, r.0)
    ensures forall k :: k in s.entries && !InSomeBatch(batches, k) ==> k in r.0.entries
    ensures r.1 ==> forall k :: InSomeBatch(batches, k) ==> k !in r.0.entries
    ensures PlanRecovers(maxRetries, plan) ==> r.1
    ensures batches != [] && !Retry.Recovers(maxRetries, FaultsAt(plan, call)) ==> r == (s, false)
    ensures
      && batches != [] && batches[0] != {}
      && Retry.Recovers(maxRetries, FaultsAt(plan, call))
      && !Retry.Recovers(maxRetries, FaultsAt(plan, call + 1))
      ==> r == (s, false)
    decreases |batches|
  {
    if batches == [] then (s, true)
    else
      InSomeBatchSplit(batches);
      var scan := Retry.Retry(maxRetries, FaultsAt(plan, call), Ok(batches[0]));
      match scan.result
      case Returned(keys) =>
        if keys == {} then InvalidateBatches(maxRetries, s, batches[1..], plan, call + 1)
        else
          var del := Retry.Retry(maxRetries, FaultsAt(plan, call + 1), Ok(Delete(s, keys)));
          if del.result.Reraised? then (s, false)   // caught and logged
          else
            // a `None` from the helper deletes nothing and the loop goes on
            var s' := if del.result.Returned? then del.result.value.0 else s;
            InvalidateBatches(maxRetries, s', batches[1..], plan, call + 2)
      case Reraised(_) => (s, false)              // caught and logged
      case NothingReturned => (s, false)          // unpacking None raises, caught
  }

  /** `invalidate_cache`: delete every key the pattern `cache:<pattern>`
      matches, SCAN reply by SCAN reply. `false` when a store call fails;
      the replies before it stay deleted. */
  function InvalidateCache(cfg: Config, s: Store, pattern: string, batches: seq<set<string>>, plan: seq<seq<Fault>>): (r: (Store, bool))
    requires |batches| >= 1
    ensures OnlyDeletes(s, r.0)
    ensures ScanReplies(s, Keys.BuildKey(Keys.CachePrefix, pattern), batches) ==>
      forall k :: k in s.entries && !Glob.Match(Keys.BuildKey(Keys.CachePrefix, pattern), k) ==> k in r.0.entries
    ensures ScanReplies(s, Keys.BuildKey(Keys.CachePrefix, pattern), batches) && r.1 ==>
      forall k :: k in r.0.entries ==> !Glob.Match(Keys.BuildKey(Keys.CachePrefix, pattern), k)
    ensures !Retry.Recovers(cfg.maxRetries, FaultsAt(plan, 0)) ==> r == (s, false)
    ensures PlanRecovers(cfg.maxRetries, plan) ==> r.1
  {
    InvalidateBatches(cfg.maxRetries, s, batches, plan, 0)
  }

  /** Invalidation never reaches outside the cache namespace. */
  lemma InvalidateStaysInCache(cfg: Config, s: Store, pattern: string, batches: seq<set<string>>, plan: seq<seq<Fault>>, k: string)
    requires ScanReplies(s, Keys.BuildKey(Keys.CachePrefix, pattern), batches)
    requires k in s.entries && !(Keys.CachePrefix <= k)
    ensures var r := InvalidateCache(cfg, s, pattern, batches, plan); k in r.0.entries && r.0.entries[k] == s.entries[k]
  {
    Keys.NamespacesAreLiteral(Keys.CachePrefix);
    Glob.LiteralHead(Keys.CachePrefix, pattern, k);
  }

  /** With a pattern free of glob characters exactly one cache key goes. */
  lemma InvalidateLiteral(cfg: Config, s: Store, key: string, batches: seq<set<string>>, plan: seq<seq<Fault>>)
    requires Glob.Literal(key)
    requires ScanReplies(s, Keys.BuildKey(Keys.CachePrefix, key), batches)
    requires PlanRecovers(cfg.maxRetries, plan)
    ensures var r := InvalidateCache(cfg, s, key, batches, plan);
      r.1 && forall k :: k in r.0.entries <==> k in s.entries && k != Keys.BuildKey(Keys.CachePrefix, key)
  {
    var glob := Keys.BuildKey(Keys.CachePrefix, key);
    assert Glob.Literal(glob) by {
      Keys.NamespacesAreLiteral(Keys.CachePrefix);
      assert forall i :: 0 <= i < |glob| ==> glob[i] == if i < |Keys.CachePrefix| then Keys.CachePrefix[i] else key[i - |Keys.CachePrefix|];
    }
    forall k ensures Glob.Match(glob, k) <==> k == glob {
      Glob.LiteralMatchesItself(glob, k);
    }
  }

  /** The keys an expiry sweep over `prefix` selects: those the pattern
      `prefix*` matches whose TTL reading is 0. Keys without an expiry read
      -1 and are never selected. */
  function SweepTargets(s: Store, prefix: string): set<string> {
    set k | k in s.entries && Glob.Match(prefix + "*", k) && Ttl(s, k) == 0
  }

  /** The shared body of the two sweeps: scan `prefix*`, then for each key
      read its TTL and delete it when the reading is 0. The first store call
      that fails ends the sweep; what it deleted so far stays deleted. */
  method CleanupExpired(cfg: Config, s: Store, prefix: string, plan: seq<seq<Fault>>) returns (s': Store)
    ensures OnlyDeletes(s, s')
    ensures forall k :: k in s.entries && k !in s'.entries ==> k in SweepTargets(s, prefix)
    ensures PlanRecovers(cfg.maxRetries, plan) ==>
      forall k :: k in s'.entries <==> k in s.entries && k !in SweepTargets(s, prefix)
  {
    var targets := SweepTargets(s, prefix);
    s' := s;
    var call := 0;
    var scan := Retry.Retry(cfg.maxRetries, FaultsAt(plan, call), Ok(Scan(s, prefix + "*")));
    call := call + 1;
    if !scan.result.Returned? {
      return;                                     // caught and logged
    }
    var remaining := scan.result.value;
    while remaining != {}
      invariant remaining <= Scan(s, prefix + "*")
      invariant OnlyDeletes(s, s')
      invariant forall k :: k in s.entries && k !in s'.entries ==> k in targets
      invariant forall k :: k in remaining ==> k in s'.entries
      invariant PlanRecovers(cfg.maxRetries, plan) ==>
        forall k :: k in s.entries && k !in remaining ==> (k in s'.entries <==> k !in targets)
      decreases remaining
    {
      var k :| k in remaining;
      var ttl := Retry.Retry(cfg.maxRetries, FaultsAt(plan, call), Ok(Ttl(s', k)));
      call := call + 1;
      if ttl.result.Reraised? {
        return;                                   // caught and logged
      }
      // `not ttl`: a reading of 0, or None when the helper never ran
      if ttl.result.NothingReturned? || ttl.result.value == 0 {
        var del := Retry.Retry(cfg.maxRetries, FaultsAt(plan, call), Ok(Delete(s', {k})));
        call := call + 1;
        match del.result {
          case Returned(deleted) =>
            s' := deleted.0;
          case Reraised(_) =>
            return;                               // caught and logged
          case NothingReturned =>
        }
      }
      remaining := remaining - {k};
    }
  }

  /** `cleanup_expired_sessions`: only session keys reading a TTL of 0 are
      deleted; every other key is left as it was. Errors are swallowed. */
  method CleanupExpiredSessions(cfg: Config, s: Store, plan: seq<seq<Fault>>) returns (s': Store)
    ensures OnlyDeletes(s, s')
    ensures forall k :: k in s.entries && k !in s'.entries ==> Keys.SessionPrefix <= k && Ttl(s, k) == 0
    ensures PlanRecovers(cfg.maxRetries, plan) ==>
      forall k :: k in s.entries && Keys.SessionPrefix <= k && Ttl(s, k) == 0 ==> k !in s'.entries
  {
    s' := CleanupExpired(cfg, s, Keys.SessionPrefix, plan);
    Keys.NamespacesAreLiteral(Keys.SessionPrefix);
    forall k ensures Glob.Match(Keys.SessionPrefix + "*", k) <==> Keys.SessionPrefix <= k {
      Glob.PrefixStar(Keys.SessionPrefix, k);
    }
  }

  /** `cleanup_expired_cache`: the same over the cache namespace. */
  method CleanupExpiredCache(cfg: Config, s: Store, plan: seq<seq<Fault>>) returns (s': Store)
    ensures OnlyDeletes(s, s')
    ensures forall k :: k in s.entries && k !in s'.entries ==> Keys.CachePrefix <= k && Ttl(s, k) == 0
    ensures PlanRecovers(cfg.maxRetries, plan) ==>
      forall k :: k in s.entries && Keys.CachePrefix <= k && Ttl(s, k) == 0 ==> k !in s'.entries
  {
    s' := CleanupExpired(cfg, s, Keys.CachePrefix, plan);
    Keys.NamespacesAreLiteral(Keys.CachePrefix);
    forall k ensures Glob.Match(Keys.CachePrefix + "*", k) <==> Keys.CachePrefix <= k {
      Glob.PrefixStar(Keys.CachePrefix, k);
    }
  }
}
