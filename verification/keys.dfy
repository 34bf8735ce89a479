/** Key namespaces: every entry kind lives under its own prefix. */
module Keys {
  import Glob

  const SessionPrefix: string := "session:"
  const CachePrefix: string := "cache:"
  const RatePrefix: string := "rate:"
  const VideoPrefix: string := "video:"

  predicate IsNamespace(p: string) {
    p == SessionPrefix || p == CachePrefix || p == RatePrefix || p == VideoPrefix
  }

  /** `_build_key`: the prefix followed by the caller's key. */
  function BuildKey(prefix: string, key: string): (r: string)
    ensures prefix <= r && r[|prefix|..] == key
    ensures |r| == |prefix| + |key|
  {
    prefix + key
  }

  /** The rate-limit counter's key for one user and address. */
  function RateKey(userId: string, ipAddress: string): (r: string)
    ensures RatePrefix <= r
  {
    BuildKey(RatePrefix, userId + ":" + ipAddress)
  }

  /** Two prefixes of one string: the shorter is a prefix of the longer. */
  lemma PrefixesOfOneString(p: string, q: string, k: string)
    requires p <= k && q <= k && |p| <= |q|
    ensures p <= q
  {
    assert p == k[..|p|] && q[..|p|] == k[..|p|];
  }

  /** No namespace prefix is a prefix of another one. */
  lemma NamespacesIncomparable(p: string, q: string)
    requires IsNamespace(p) && IsNamespace(q) && p != q
    ensures !(p <= q)
  {
    assert SessionPrefix[0] == 's' && CachePrefix[0] == 'c' && RatePrefix[0] == 'r' && VideoPrefix[0] == 'v';
    assert p[0] != q[0];
  }

  /** A key lies in at most one namespace. */
  lemma NamespacesDisjoint(p: string, q: string, k: string)
    requires IsNamespace(p) && IsNamespace(q) && p != q
    ensures !(p <= k && q <= k)
  {
    if p <= k && q <= k {
      if |p| <= |q| {
        PrefixesOfOneString(p, q, k);
        NamespacesIncomparable(p, q);
      } else {
        PrefixesOfOneString(q, p, k);
        NamespacesIncomparable(q, p);
      }
    }
  }

  /** Keys built under different namespaces never collide, and within one
      namespace the built key determines the caller's key. */
  lemma BuildKeyInjective(p: string, q: string, a: string, b: string)
    requires IsNamespace(p) && IsNamespace(q)
    ensures BuildKey(p, a) == BuildKey(q, b) <==> p == q && a == b
  {
    if p != q {
      NamespacesDisjoint(p, q, BuildKey(p, a));
    } else if BuildKey(p, a) == BuildKey(q, b) {
      assert a == BuildKey(p, a)[|p|..];
    }
  }

  /** For one user, the counter key determines the address. */
  lemma RateKeyInjectiveInAddress(userId: string, ip1: string, ip2: string)
    ensures RateKey(userId, ip1) == RateKey(userId, ip2) <==> ip1 == ip2
  {
    var n := |RatePrefix| + |userId| + 1;
    if RateKey(userId, ip1) == RateKey(userId, ip2) {
      assert ip1 == RateKey(userId, ip1)[n..];
      assert ip2 == RateKey(userId, ip2)[n..];
    }
  }

  /** The counter key does not separate its two parts: a user id that
      contains ':' can share a counter with another user. */
  lemma RateKeyCollision()
    ensures RateKey("a:b", "c") == RateKey("a", "b:c")
  {
  }

  lemma NamespacesAreLiteral(p: string)
    requires IsNamespace(p)
    ensures Glob.Literal(p)
  {
  }
}
