/** Decimal text for integers: Python's `str(int)` and `int(str)`, the
    store's strict integer reading, and the case-insensitive "true" test. */
module Text {
  import opened Base

  predicate IsDigit(c: char) {
    '0' <= c <= '9'
  }

  predicate AllDigits(s: string) {
    forall i :: 0 <= i < |s| ==> IsDigit(s[i])
  }

  function DigitChar(d: nat): (c: char)
    requires d < 10
    ensures IsDigit(c)
  {
    (48 + d) as char
  }

  function DigitValue(c: char): (d: nat)
    requires IsDigit(c)
    ensures d < 10
  {
    c as int - 48
  }

  /** Decimal digits of `n`, most significant first. */
  function NatDigits(n: nat): (r: string)
    ensures |r| >= 1 && AllDigits(r)
    ensures r[0] == '0' ==> n == 0 && r == "0"
  {
    if n < 10 then [DigitChar(n)] else NatDigits(n / 10) + [DigitChar(n % 10)]
  }

  /** The number a string of digits denotes. */
  function DigitsValue(s: string): nat
    requires AllDigits(s)
  {
    if |s| == 0 then 0 else 10 * DigitsValue(s[..|s| - 1]) + DigitValue(s[|s| - 1])
  }

  lemma {:induction false} DigitsValueOfNatDigits(n: nat)
    ensures DigitsValue(NatDigits(n)) == n
  {
    if n >= 10 {
      var r := NatDigits(n);
      assert r[..|r| - 1] == NatDigits(n / 10);
      DigitsValueOfNatDigits(n / 10);
    }
  }

  /** Python's `str(i)`. */
  function IntToString(i: int): (r: string)
    ensures |r| >= 1 && IsDigit(r[|r| - 1])
    ensures IsDigit(r[0]) || r[0] == '-'
  {
    if i < 0 then "-" + NatDigits(-i) else NatDigits(i)
  }

  /** The ASCII whitespace Python's `int()` skips around its digits: space
      and `\t\n\v\f\r`. (`str.strip()` removes more; `int()` does not use
      it.) */
  predicate IsSpace(c: char) {
    c == ' ' || 9 <= c as int <= 13
  }

  function TrimStart(s: string): (r: string)
    ensures |r| <= |s| && r == s[|s| - |r|..]
    ensures |r| > 0 ==> !IsSpace(r[0])
  {
    if |s| > 0 && IsSpace(s[0]) then TrimStart(s[1..]) else s
  }

  function TrimEnd(s: string): (r: string)
    ensures |r| <= |s| && r == s[..|r|]
    ensures |r| > 0 ==> !IsSpace(r[|r| - 1])
  {
    if |s| > 0 && IsSpace(s[|s| - 1]) then TrimEnd(s[..|s| - 1]) else s
  }

  function Strip(s: string): string {
    TrimEnd(TrimStart(s))
  }

  /** Digits, possibly split into groups by single underscores, as Python's
      `int()` accepts them: "1_000" but not "_1", "1_" or "1__0". */
  predicate IsDigitGroups(s: string) {
    && |s| > 0
    && IsDigit(s[0])
    && IsDigit(s[|s| - 1])
    && (forall i :: 0 <= i < |s| ==> IsDigit(s[i]) || s[i] == '_')
    && (forall i :: 0 <= i < |s| - 1 ==> s[i] == '_' ==> s[i + 1] != '_')
  }

  function DropUnderscores(s: string): (r: string)
    requires forall i :: 0 <= i < |s| ==> IsDigit(s[i]) || s[i] == '_'
    ensures AllDigits(r)
    ensures AllDigits(s) ==> r == s
  {
    if |s| == 0 then []
    else (if s[0] == '_' then [] else [s[0]]) + DropUnderscores(s[1..])
  }

  /** CPython's default limit on the decimal digits `str(i)` writes and
      `int(s)` reads (`sys.get_int_max_str_digits()`); beyond it both raise
      `ValueError`. */
  const MaxStrDigits: nat := 4300

  /** `str(i)` stays within the digit limit. */
  predicate FitsStrDigits(i: int) {
    |NatDigits(if i < 0 then -i else i)| <= MaxStrDigits
  }

  /** Python's `int(s)` in base 10 over ASCII text: surrounding whitespace,
      an optional sign and underscore-separated digit groups, at most
      `MaxStrDigits` digits. `None` is the `ValueError` it raises on anything
      else. */
  function PyInt(s: string): (r: Option<int>)
    ensures r.Some? ==> exists i :: 0 <= i < |s| && IsDigit(s[i])
  {
    StripKeepsDigits(s);
    ParseStripped(Strip(s))
  }

  /** `int()` after the whitespace is gone: an optional sign, then the
      digits. */
  function ParseStripped(t: string): (r: Option<int>)
    ensures r.Some? ==> exists i :: 0 <= i < |t| && IsDigit(t[i])
  {
    if |t| > 0 && (t[0] == '-' || t[0] == '+') then
      match ParseUnsigned(t[1..])
      case Some(n) =>
        assert IsDigit(t[1..][0]) && t[1..][0] == t[1];
        Some(if t[0] == '-' then 0 - n else n)
      case None => None
    else
      match ParseUnsigned(t)
      case Some(n) => Some(n)
      case None => None
  }

  /** Digit groups of at most `MaxStrDigits` digits, read as a number. */
  function ParseUnsigned(body: string): (r: Option<nat>)
    ensures r.Some? ==> |body| > 0 && IsDigit(body[0])
  {
    if IsDigitGroups(body) then
      var digits := DropUnderscores(body);
      if |digits| > MaxStrDigits then None else Some(DigitsValue(digits))
    else None
  }

  /** A digit of the stripped text is a digit of the text. */
  lemma StripKeepsDigits(s: string)
    ensures (exists j :: 0 <= j < |Strip(s)| && IsDigit(Strip(s)[j])) ==>
      exists i :: 0 <= i < |s| && IsDigit(s[i])
  {
    if exists j :: 0 <= j < |Strip(s)| && IsDigit(Strip(s)[j]) {
      var j :| 0 <= j < |Strip(s)| && IsDigit(Strip(s)[j]);
      var start := |s| - |TrimStart(s)|;
      assert Strip(s) == TrimStart(s)[..|Strip(s)|] && TrimStart(s) == s[start..];
      assert 0 <= start + j < |s| && IsDigit(s[start + j]) by {
        assert Strip(s)[j] == TrimStart(s)[j] == s[start + j];
      }
    }
  }

  lemma TrimKeepsEdgeDigits(s: string)
    requires |s| > 0 && !IsSpace(s[0]) && !IsSpace(s[|s| - 1])
    ensures Strip(s) == s
  {
  }

  lemma PyIntOfDigits(n: nat)
    ensures IsDigitGroups(NatDigits(n))
    ensures DigitsValue(DropUnderscores(NatDigits(n))) == n
  {
    DigitsValueOfNatDigits(n);
  }

  /** Plain digits within the limit read as their value. */
  lemma ParseDigits(body: string)
    requires |body| > 0 && AllDigits(body)
    ensures ParseUnsigned(body) == if |body| > MaxStrDigits then None else Some(DigitsValue(body))
  {
    assert IsDigit(body[0]) && IsDigitGroups(body);
    assert DropUnderscores(body) == body;
  }

  /** `int(str(i)) == i` within the digit limit; beyond it `str(i)`'s text
      is rejected. */
  lemma PyIntOfIntToString(i: int)
    ensures PyInt(IntToString(i)) == if FitsStrDigits(i) then Some(i) else None
  {
    var s := IntToString(i);
    TrimKeepsEdgeDigits(s);
    var n: nat := if i < 0 then -i else i;
    DigitsValueOfNatDigits(n);
    assert PyInt(s) == ParseStripped(s);
    ParseDigits(NatDigits(n));
    if i < 0 {
      assert s[0] == '-' && s[1..] == NatDigits(n);
    } else {
      assert IsDigit(s[0]);
    }
  }

  function Pow10(k: nat): nat {
    if k == 0 then 1 else 10 * Pow10(k - 1)
  }

  lemma {:induction false} Pow10Add(a: nat, b: nat)
    ensures Pow10(a + b) == Pow10(a) * Pow10(b)
  {
    if a > 0 {
      Pow10Add(a - 1, b);
    }
  }

  /** A number below `10^k` has at most `k` digits. */
  lemma {:induction false} NatDigitsBelow(n: nat, k: nat)
    requires 1 <= k && n < Pow10(k)
    ensures |NatDigits(n)| <= k
  {
    if n >= 10 {
      assert n / 10 < Pow10(k - 1) by {
        assert n < 10 * Pow10(k - 1);
      }
      NatDigitsBelow(n / 10, k - 1);
    }
  }

  const Int64Min: int := -0x8000_0000_0000_0000
  const Int64Max: int := 0x7fff_ffff_ffff_ffff

  predicate InInt64(n: int) {
    Int64Min <= n <= Int64Max
  }

  /** How the store reads a value as an integer (for INCR): exactly the
      canonical decimal form of a signed 64-bit integer, so no sign "+", no
      whitespace, no leading zeros, no "-0". */
  function StoreInt(s: string): (r: Option<int>)
    ensures r.Some? ==> InInt64(r.value) && IntToString(r.value) == s
  {
    match PyInt(s)
    case Some(n) => if InInt64(n) && IntToString(n) == s then Some(n) else None
    case None => None
  }

  /** Every 64-bit integer is within the digit limit: at most 19 digits. */
  lemma Int64FitsStrDigits(i: int)
    requires InInt64(i)
    ensures FitsStrDigits(i)
  {
    assert Pow10(19) == 10_000_000_000_000_000_000 by {
      Pow10Add(10, 9);
      assert Pow10(10) == 10_000_000_000 && Pow10(9) == 1_000_000_000;
    }
    NatDigitsBelow(if i < 0 then -i else i, 19);
  }

  /** `int()` reads back the decimal text of every 64-bit integer. */
  lemma PyIntOfInt64(i: int)
    requires InInt64(i)
    ensures PyInt(IntToString(i)) == Some(i)
  {
    Int64FitsStrDigits(i);
    PyIntOfIntToString(i);
  }

  lemma StoreIntOfIntToString(i: int)
    requires InInt64(i)
    ensures StoreInt(IntToString(i)) == Some(i)
  {
    PyIntOfInt64(i);
  }

  function AsciiLower(c: char): char {
    if 'A' <= c <= 'Z' then (c as int + 32) as char else c
  }

  /** `s.lower() == "true"`. No character outside ASCII lower-cases to one of
      the letters of "true", so lowering ASCII letters only decides the same
      comparison. */
  predicate IsTrueText(s: string) {
    |s| == 4 && forall i :: 0 <= i < 4 ==> AsciiLower(s[i]) == "true"[i]
  }
}
