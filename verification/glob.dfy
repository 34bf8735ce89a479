/** The store's glob patterns, as SCAN's MATCH option reads them: `*` matches
    any run of characters, `?` any one character, every other character
    itself. */
module Glob {

  function Match(pattern: string, s: string): bool
    decreases |pattern| + |s|
  {
    if |pattern| == 0 then |s| == 0
    else if pattern[0] == '*' then Match(pattern[1..], s) || (|s| > 0 && Match(pattern, s[1..]))
    else if pattern[0] == '?' then |s| > 0 && Match(pattern[1..], s[1..])
    else |s| > 0 && s[0] == pattern[0] && Match(pattern[1..], s[1..])
  }

  /** A pattern with no special character: it can only match itself. */
  predicate Literal(p: string) {
    forall i :: 0 <= i < |p| ==> p[i] != '*' && p[i] != '?' && p[i] != '[' && p[i] != '\\'
  }

  lemma {:induction false} LiteralMatchesItself(p: string, s: string)
    requires Literal(p)
    ensures Match(p, s) <==> s == p
  {
    if |p| > 0 {
      assert Literal(p[1..]) by {
        forall i | 0 <= i < |p[1..]| ensures p[1..][i] != '*' && p[1..][i] != '?' && p[1..][i] != '[' && p[1..][i] != '\\' {
          assert p[1..][i] == p[i + 1];
        }
      }
      if |s| > 0 {
        LiteralMatchesItself(p[1..], s[1..]);
        if s == p {
          assert s[1..] == p[1..];
        } else if s[0] == p[0] {
          assert s == [s[0]] + s[1..] && p == [p[0]] + p[1..];
        }
      }
    }
  }

  /** A literal head of a pattern matches exactly a literal head of the
      string, and the rest of the pattern the rest of the string. */
  lemma {:induction false} LiteralHead(p: string, q: string, s: string)
    requires Literal(p)
    ensures Match(p + q, s) <==> p <= s && Match(q, s[|p|..])
  {
    if |p| > 0 {
      assert Literal(p[1..]) by {
        forall i | 0 <= i < |p[1..]| ensures p[1..][i] != '*' && p[1..][i] != '?' && p[1..][i] != '[' && p[1..][i] != '\\' {
          assert p[1..][i] == p[i + 1];
        }
      }
      assert (p + q)[0] == p[0] && (p + q)[1..] == p[1..] + q;
      if |s| > 0 {
        LiteralHead(p[1..], q, s[1..]);
        if |p| <= |s| {
          assert s[1..][|p| - 1..] == s[|p|..];
        }
        if p <= s {
          assert p[1..] <= s[1..];
        }
      }
    } else {
      assert p + q == q;
    }
  }

  lemma {:induction false} StarMatchesAll(s: string)
    ensures Match("*", s)
  {
    if |s| > 0 {
      StarMatchesAll(s[1..]);
    }
  }

  /** `prefix*` with a literal prefix selects exactly the strings that start
      with the prefix. */
  lemma PrefixStar(prefix: string, s: string)
    requires Literal(prefix)
    ensures Match(prefix + "*", s) <==> prefix <= s
  {
    LiteralHead(prefix, "*", s);
    if prefix <= s {
      StarMatchesAll(s[|prefix|..]);
    }
  }
}
