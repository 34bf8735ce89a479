/** The backing key-value store, abstractly: string keys mapped to a string
    value and an optional expiry instant, with a logical clock in
    milliseconds. Only the commands the manager issues are modelled: GET,
    SET with EX, DEL, TTL, INCR and SCAN with MATCH. */
module TtlStore {
  import opened Base
  import Text
  import Glob

  /** A stored value and its expiry instant (ms). */
  datatype Entry = Entry(data: string, expiresAt: Option<int>)

  /** The store serves a key up to and including its expiry instant and
      treats it as expired only once the clock is past it. */
  predicate LiveAt(e: Entry, now: int) {
    e.expiresAt.None? || now <= e.expiresAt.value
  }

  datatype State = State(entries: map<string, Entry>, now: int)

  /** An expired key is gone: the store never shows one. */
  predicate Clean(s: State) {
    forall k :: k in s.entries ==> LiveAt(s.entries[k], s.now)
  }

  type Store = s: State | Clean(s) witness State(map[], 0)

  /** `k` holds the same entry in both stores, or is absent from both. */
  predicate SameAt(s: Store, t: Store, k: string) {
    (k in s.entries <==> k in t.entries) && (k in s.entries ==> s.entries[k] == t.entries[k])
  }

  /** The store with `k` bound to the live entry `e`. */
  function Put(s: Store, k: string, e: Entry): (r: Store)
    requires LiveAt(e, s.now)
    ensures r.now == s.now && k in r.entries && r.entries[k] == e
    ensures forall k' :: k' != k ==> SameAt(s, r, k')
  {
    State(s.entries[k := e], s.now)
  }

  /** GET */
  function Get(s: Store, k: string): (r: Option<string>)
    ensures r.Some? <==> k in s.entries
  {
    if k in s.entries then Some(s.entries[k].data) else None
  }

  /** Whether SET takes `EX ex` at clock `now`: a positive number of
      seconds which, in milliseconds and added to the clock, stays within a
      signed 64-bit integer (Redis 7's "invalid expire time" check). */
  predicate ExpireAccepted(now: int, ex: int) {
    0 < ex <= Text.Int64Max / 1000 && now + ex * 1000 <= Text.Int64Max
  }

  /** SET k v EX ex: an expire time the server does not take is an error
      reply. */
  function Set(s: Store, k: string, v: string, ex: int): (r: Outcome<Store>)
    ensures r.Ok? <==> ExpireAccepted(s.now, ex)
    ensures r.Ok? ==> r.value.now == s.now && Get(r.value, k) == Some(v)
    ensures r.Ok? ==> forall k' :: k' != k ==> SameAt(s, r.value, k')
  {
    if !ExpireAccepted(s.now, ex) then Raised(ResponseError)
    else Ok(Put(s, k, Entry(v, Some(s.now + ex * 1000))))
  }

  /** DEL k1 k2 ...: removes the keys and replies how many existed. */
  function Delete(s: Store, ks: set<string>): (r: (Store, nat))
    ensures r.0.now == s.now
    ensures forall k :: k in r.0.entries <==> k in s.entries && k !in ks
    ensures forall k :: k !in ks ==> SameAt(s, r.0, k)
    ensures r.1 == 0 <==> forall k :: k in ks ==> k !in s.entries
  {
    var found := ks * s.entries.Keys;
    assert |found| == 0 <==> forall k :: k in ks ==> k !in s.entries by {
      if found == {} {
        forall k | k in ks ensures k !in s.entries {
          assert k !in found;
        }
      } else {
        var k :| k in found;
        assert k in ks && k in s.entries;
      }
    }
    (State(s.entries - ks, s.now), |found|)
  }

  /** TTL k: -2 when absent, -1 when the key never expires, otherwise the
      remaining time rounded to the nearest second. */
  function Ttl(s: Store, k: string): (r: int)
    ensures r == -2 <==> k !in s.entries
    ensures r == -1 <==> k in s.entries && s.entries[k].expiresAt.None?
    ensures r >= 0 <==> k in s.entries && s.entries[k].expiresAt.Some?
    ensures r == 0 <==> k in s.entries && s.entries[k].expiresAt.Some? && s.entries[k].expiresAt.value - s.now < 500
  {
    if k !in s.entries then -2
    else match s.entries[k].expiresAt
      case None => -1
      case Some(e) => (e - s.now + 500) / 1000
  }

  /** INCR k: an absent key starts at 0; a value that is not a canonical
      64-bit integer, or one already at the maximum, is an error reply. The
      expiry is kept. */
  function Incr(s: Store, k: string): (r: Outcome<Store>)
    ensures r.Ok? ==> r.value.now == s.now
    ensures r.Ok? ==> forall k' :: k' != k ==> SameAt(s, r.value, k')
    ensures k in s.entries ==> (r.Ok? <==> Counter(s, k).Some? && Counter(s, k).value < Text.Int64Max)
    ensures r.Ok? && k in s.entries ==>
      && k in r.value.entries
      && r.value.entries[k].expiresAt == s.entries[k].expiresAt
      && r.value.entries[k].data == Text.IntToString(Counter(s, k).value + 1)
  {
    if k !in s.entries then
      Ok(Put(s, k, Entry("1", None)))
    else
      var e := s.entries[k];
      match Text.StoreInt(e.data)
      case None => Raised(ResponseError)
      case Some(n) =>
        if n == Text.Int64Max then Raised(ResponseError)
        else
          Ok(Put(s, k, e.(data := Text.IntToString(n + 1))))
  }

  /** The value at `k` as the store reads an integer. */
  function Counter(s: Store, k: string): Option<int>
    requires k in s.entries
  {
    Text.StoreInt(s.entries[k].data)
  }

  /** SCAN with MATCH, taken as one pass: every key the pattern matches. */
  function Scan(s: Store, pattern: string): set<string> {
    set k | k in s.entries && Glob.Match(pattern, k)
  }

  /** SCAN with MATCH `prefix*` for a glob-free prefix yields exactly the
      present keys that start with the prefix. */
  lemma ScanPrefix(s: Store, prefix: string)
    requires Glob.Literal(prefix)
    ensures Scan(s, prefix + "*") == set k | k in s.entries && prefix <= k
  {
    forall k ensures Glob.Match(prefix + "*", k) <==> prefix <= k {
      Glob.PrefixStar(prefix, k);
    }
  }

  /** Let `ms` milliseconds pass: every key whose expiry falls due is gone. */
  function Advance(s: Store, ms: nat): (r: Store)
    ensures r.now == s.now + ms
    ensures forall k :: k in r.entries <==> k in s.entries && LiveAt(s.entries[k], s.now + ms)
    ensures forall k :: k in r.entries ==> r.entries[k] == s.entries[k]
  {
    State(map k | k in s.entries && LiveAt(s.entries[k], s.now + ms) :: s.entries[k], s.now + ms)
  }

  /** SET with EX then TTL reads back the expire time, and the value is
      served until `ex` seconds have passed, that instant included. */
  lemma SetExpiresAfter(s: Store, k: string, v: string, ex: int, ms: nat)
    requires ExpireAccepted(s.now, ex)
    ensures Ttl(Set(s, k, v, ex).value, k) == ex
    ensures Get(Advance(Set(s, k, v, ex).value, ms), k) == (if ms <= ex * 1000 then Some(v) else None)
  {
  }

  /** Two stores that agree on every key at the same instant are equal. */
  lemma SameEverywhere(s: Store, t: Store)
    requires s.now == t.now
    requires forall k :: SameAt(s, t, k)
    ensures s == t
  {
    forall k | k in s.entries || k in t.entries
      ensures k in s.entries && k in t.entries && s.entries[k] == t.entries[k]
    {
      assert SameAt(s, t, k);
    }
    assert s.entries == t.entries;
  }
}
