/** Character classes and string operations of Python that the core relies on,
    written out over `seq<char>`. */
module Strings {

  /** Python's `str.isspace()` (and the `\s` class of `re` on `str` patterns). */
  predicate IsSpace(c: char) {
    c == ' ' || ('\t' <= c <= '\r') || ('\U{1c}' <= c <= '\U{1f}') || c == '\U{85}' || c == '\U{a0}'
    || c == '\U{1680}' || ('\U{2000}' <= c <= '\U{200a}') || c == '\U{2028}' || c == '\U{2029}'
    || c == '\U{202f}' || c == '\U{205f}' || c == '\U{3000}'
  }

  /** `\d`, restricted to the ASCII digits. */
  predicate IsDigit(c: char) {
    '0' <= c <= '9'
  }

  /** `\w`, restricted to ASCII letters, ASCII digits and `_`. */
  predicate IsWordChar(c: char) {
    ('a' <= c <= 'z') || ('A' <= c <= 'Z') || IsDigit(c) || c == '_'
  }

  predicate IsDigits(s: string) {
    forall i :: 0 <= i < |s| ==> IsDigit(s[i])
  }

  /** Python's `s.startswith(prefix)`, compared character by character. */
  predicate StartsWith(s: string, prefix: string) {
    |prefix| <= |s| && (prefix == [] || (s[0] == prefix[0] && StartsWith(s[1..], prefix[1..])))
  }

  /** `s` starts with `prefix` exactly when its first `|prefix|` characters are `prefix`. */
  lemma {:induction false} StartsWithSlice(s: string, prefix: string)
    ensures StartsWith(s, prefix) <==> |prefix| <= |s| && s[..|prefix|] == prefix
  {
    if prefix != [] && |prefix| <= |s| {
      StartsWithSlice(s[1..], prefix[1..]);
      assert s[..|prefix|] == [s[0]] + s[1..][..|prefix| - 1];
      assert prefix == [prefix[0]] + prefix[1..];
    }
  }

  /** Python's `pat in s` for a string `pat`. */
  predicate HasSubstring(s: string, pat: string) {
    exists i :: 0 <= i <= |s| && StartsWith(s[i..], pat)
  }

  function DigitValue(c: char): (d: nat)
    requires IsDigit(c)
    ensures d < 10
  {
    (c as int) - ('0' as int)
  }

  function DigitChar(d: nat): char
    requires d < 10
  {
    (('0' as int) + d) as char
  }

  /** The character of a digit is a digit, and has that value. */
  lemma DigitCharValue(d: nat)
    requires d < 10
    ensures IsDigit(DigitChar(d)) && DigitValue(DigitChar(d)) == d
  {
  }

  /** The value of a string of decimal digits, as Python's `int()` reads it. */
  function DigitsValue(s: string): nat
    requires IsDigits(s)
  {
    if s == [] then 0 else DigitsValue(s[..|s| - 1]) * 10 + DigitValue(s[|s| - 1])
  }

  /** Python's `str(n)` for a natural number. */
  function NatToString(n: nat): (s: string)
  {
    if n < 10 then [DigitChar(n)] else NatToString(n / 10) + [DigitChar(n % 10)]
  }

  /** `str(n)` is the decimal numeral of `n`: digits only, with value `n`. */
  lemma {:induction false} NatToStringDigits(n: nat)
    ensures IsDigits(NatToString(n)) && DigitsValue(NatToString(n)) == n
  {
    if n < 10 {
      DigitCharValue(n);
    } else {
      DigitCharValue(n % 10);
      NatToStringDigits(n / 10);
      var s := NatToString(n);
      assert s[..|s| - 1] == NatToString(n / 10);
    }
  }

  /** Python's `str(i)` for an integer. */
  function IntToString(i: int): (s: string)
  {
    (if i < 0 then "-" else "") + NatToString(if i < 0 then -i else i)
  }

  /** Python's `s.replace(pat, "")` for a non-empty `pat`: occurrences are
      removed left to right, without overlapping. */
  function RemoveAll(s: string, pat: string): (r: string)
    requires pat != []
    ensures |r| <= |s|
    decreases |s|
  {
    if |s| < |pat| then s
    else if s[..|pat|] == pat then RemoveAll(s[|pat|..], pat)
    else [s[0]] + RemoveAll(s[1..], pat)
  }

  /** An occurrence at the front is removed: `(pat + s).replace(pat, "")` is
      `s.replace(pat, "")`. */
  lemma RemoveAllLeading(s: string, pat: string)
    requires pat != []
    ensures RemoveAll(pat + s, pat) == RemoveAll(s, pat)
  {
    assert (pat + s)[..|pat|] == pat;
    assert (pat + s)[|pat|..] == s;
  }

  /** A string without an occurrence of `pat` comes back unchanged. */
  lemma {:induction false} RemoveAllAbsent(s: string, pat: string)
    requires pat != []
    ensures !HasSubstring(s, pat) ==> RemoveAll(s, pat) == s
    decreases |s|
  {
    if !HasSubstring(s, pat) && |s| >= |pat| {
      assert !StartsWith(s[0..], pat);
      assert s[0..] == s;
      StartsWithSlice(s, pat);
      assert !HasSubstring(s[1..], pat) by {
        forall i | 0 <= i <= |s[1..]|
          ensures !StartsWith(s[1..][i..], pat)
        {
          assert s[1..][i..] == s[i + 1..];
          assert !StartsWith(s[i + 1..], pat);
        }
      }
      RemoveAllAbsent(s[1..], pat);
      assert s == [s[0]] + s[1..];
    }
  }

  /** Python's `' '.join(ts)`. */
  function JoinSpaced(ts: seq<string>): string {
    if ts == [] then ""
    else if |ts| == 1 then ts[0]
    else JoinSpaced(ts[..|ts| - 1]) + " " + ts[|ts| - 1]
  }

  /** The list comprehension `[t for t in ts if t]`. */
  function NonEmpty(ts: seq<string>): (r: seq<string>)
    ensures |r| <= |ts|
  {
    if ts == [] then []
    else if ts[|ts| - 1] == "" then NonEmpty(ts[..|ts| - 1])
    else NonEmpty(ts[..|ts| - 1]) + [ts[|ts| - 1]]
  }

  /** The filter keeps exactly the non-empty strings: none it keeps is empty,
      and each non-empty one is kept. */
  lemma {:induction false} NonEmptyKeeps(ts: seq<string>)
    ensures forall k :: 0 <= k < |NonEmpty(ts)| ==> NonEmpty(ts)[k] != ""
    ensures forall t :: t in ts && t != "" ==> t in NonEmpty(ts)
    ensures forall t :: t in NonEmpty(ts) ==> t in ts
  {
    if ts != [] {
      var init := ts[..|ts| - 1];
      NonEmptyKeeps(init);
      assert forall t :: t in ts ==> t in init || t == ts[|ts| - 1];
    }
  }

  /** `n` copies of `x`: Python's `[x] * n`, and `c * n` for a character. */
  function Repeat<T>(x: T, n: nat): (r: seq<T>)
    ensures |r| == n
  {
    if n == 0 then [] else Repeat(x, n - 1) + [x]
  }

  lemma {:induction false} RepeatAll<T>(x: T, n: nat)
    ensures forall k :: 0 <= k < n ==> Repeat(x, n)[k] == x
  {
    if n > 0 {
      RepeatAll(x, n - 1);
    }
  }
}
