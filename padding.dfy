/** Indentation of a row, read from the CSS of its first cell
    (`extract_left_padding` and `calculate_indent_level`). */
module Padding {
  import opened Wrappers
  import opened Strings

  /** The character classes the two regular expressions use. */
  datatype CharClass = Spaces | Digits | WordChars

  predicate InClass(c: char, k: CharClass) {
    match k
    case Spaces => IsSpace(c)
    case Digits => IsDigit(c)
    case WordChars => IsWordChar(c)
  }

  /** What is left of `t` after its longest prefix of characters of class `k`. */
  function SkipRun(t: string, k: CharClass): (r: string)
    ensures |r| <= |t|
  {
    if t == [] || !InClass(t[0], k) then t else SkipRun(t[1..], k)
  }

  /** Skipping a run drops a prefix of `t` made of characters of the class. */
  lemma {:induction false} SkipRunShape(t: string, k: CharClass)
    ensures SkipRun(t, k) == t[|t| - |SkipRun(t, k)|..]
    ensures forall j :: 0 <= j < |t| - |SkipRun(t, k)| ==> InClass(t[j], k)
  {
    if t != [] && InClass(t[0], k) {
      SkipRunShape(t[1..], k);
      var r := SkipRun(t, k);
      assert t[1..][|t[1..]| - |r|..] == t[|t| - |r|..];
      assert forall j :: 1 <= j < |t| - |r| ==> t[j] == t[1..][j - 1];
    }
  }

  /** One `\d+\w+\s+` value of the shorthand at the start of `t`: a run of
      word characters of length two or more that begins with a digit, then
      whitespace. The classes `\w` and `\s` are disjoint, so the match must take
      the whole run of each and involves no backtracking. Returns what follows. */
  function ValueAndGap(t: string): (r: Option<string>)
  {
    if t != [] && IsDigit(t[0]) then
      var afterWord := SkipRun(t[1..], WordChars);
      var afterGap := SkipRun(afterWord, Spaces);
      if |afterWord| < |t| - 1 && |afterGap| < |afterWord| then Some(afterGap) else None
    else None
  }

  /** `(\d+)pt` at the start of `t`: the value of the digits, which must be
      followed by `pt`. */
  function PointsAt(t: string): Option<nat> {
    var rest := SkipRun(t, Digits);
    SkipRunShape(t, Digits);
    if |rest| < |t| && StartsWith(rest, "pt") then Some(DigitsValue(t[..|t| - |rest|])) else None
  }

  /** `\s*\d+\w+\s+\d+\w+\s+\d+\w+\s+(\d+)pt` at the start of `t`. */
  function ShorthandTail(t: string): Option<nat> {
    var v1 := ValueAndGap(SkipRun(t, Spaces));
    if v1.None? then None else
    var v2 := ValueAndGap(v1.value);
    if v2.None? then None else
    var v3 := ValueAndGap(v2.value);
    if v3.None? then None else
    PointsAt(v3.value)
  }

  /** The two patterns `extract_left_padding` searches for. */
  datatype Pattern = Shorthand | PaddingLeft

  /** `padding:\s*\d+\w+\s+\d+\w+\s+\d+\w+\s+(\d+)pt` or
      `padding-left:\s*(\d+)pt` tried at position `p`: the value of the group. */
  function MatchAt(s: string, p: nat, pat: Pattern): Option<nat> {
    if p > |s| then None
    else match pat
      case Shorthand =>
        if StartsWith(s[p..], "padding:") then ShorthandTail(s[p + 8..]) else None
      case PaddingLeft =>
        if StartsWith(s[p..], "padding-left:") then PointsAt(SkipRun(s[p + 13..], Spaces)) else None
  }

  /** `re.search`: the match of `pat` at the leftmost position `p >= i` where it matches. */
  function Leftmost(s: string, i: nat, pat: Pattern): Option<nat>
    decreases |s| + 1 - i
  {
    if i > |s| then None
    else if MatchAt(s, i, pat).Some? then MatchAt(s, i, pat)
    else Leftmost(s, i + 1, pat)
  }

  /** The search returns the match at the first position where there is one. */
  lemma {:induction false} LeftmostAt(s: string, i: nat, p: nat, pat: Pattern)
    requires i <= p <= |s| && MatchAt(s, p, pat).Some?
    requires forall q :: i <= q < p ==> MatchAt(s, q, pat).None?
    ensures Leftmost(s, i, pat) == MatchAt(s, p, pat)
    decreases p - i
  {
    if i < p {
      LeftmostAt(s, i + 1, p, pat);
    }
  }

  /** Whatever the search returns is the match at some position from `i` on. */
  lemma {:induction false} LeftmostFound(s: string, i: nat, pat: Pattern)
    ensures Leftmost(s, i, pat).Some? ==>
              exists p :: i <= p <= |s| && MatchAt(s, p, pat) == Leftmost(s, i, pat)
    decreases |s| + 1 - i
  {
    if i <= |s| && MatchAt(s, i, pat).None? {
      LeftmostFound(s, i + 1, pat);
    }
  }

  /** The search finds nothing when the pattern matches nowhere. */
  lemma {:induction false} LeftmostNone(s: string, i: nat, pat: Pattern)
    requires forall p :: i <= p <= |s| ==> MatchAt(s, p, pat).None?
    ensures Leftmost(s, i, pat).None?
    decreases |s| + 1 - i
  {
    if i <= |s| {
      LeftmostNone(s, i + 1, pat);
    }
  }

  /** Some position of the style holds a shorthand or a `padding-left`
      declaration whose value is `v`. */
  predicate Declares(style: string, v: nat) {
    exists p :: 0 <= p <= |style| && (MatchAt(style, p, Shorthand) == Some(v) || MatchAt(style, p, PaddingLeft) == Some(v))
  }

  /** `extract_left_padding`: the fourth value of a four-value `padding`
      shorthand in points if there is one anywhere in the style, otherwise a
      `padding-left` in points, otherwise 0. */
  function ExtractLeftPadding(style: string): (r: nat)
    ensures r != 0 ==> Declares(style, r)
  {
    if style == [] then 0
    else
      LeftmostFound(style, 0, Shorthand);
      LeftmostFound(style, 0, PaddingLeft);
      var shorthand := Leftmost(style, 0, Shorthand);
      if shorthand.Some? then shorthand.value
      else Leftmost(style, 0, PaddingLeft).GetOr(0)
  }

  /** The first four-value shorthand in the style decides, wherever it is. */
  lemma ExtractShorthand(style: string, p: nat)
    requires p <= |style| && MatchAt(style, p, Shorthand).Some?
    requires forall q :: 0 <= q < p ==> MatchAt(style, q, Shorthand).None?
    ensures ExtractLeftPadding(style) == MatchAt(style, p, Shorthand).value
  {
    LeftmostAt(style, 0, p, Shorthand);
  }

  /** Without a shorthand, the first `padding-left` in points decides. */
  lemma ExtractPaddingLeft(style: string, p: nat)
    requires forall q :: 0 <= q <= |style| ==> MatchAt(style, q, Shorthand).None?
    requires p <= |style| && MatchAt(style, p, PaddingLeft).Some?
    requires forall q :: 0 <= q < p ==> MatchAt(style, q, PaddingLeft).None?
    ensures ExtractLeftPadding(style) == MatchAt(style, p, PaddingLeft).value
  {
    LeftmostNone(style, 0, Shorthand);
    LeftmostAt(style, 0, p, PaddingLeft);
  }

  /** A style with neither declaration gives no padding. */
  lemma ExtractNoPadding(style: string)
    requires forall q :: 0 <= q <= |style| ==> MatchAt(style, q, Shorthand).None? && MatchAt(style, q, PaddingLeft).None?
    ensures ExtractLeftPadding(style) == 0
  {
    if style != [] {
      LeftmostNone(style, 0, Shorthand);
      LeftmostNone(style, 0, PaddingLeft);
    }
  }

  const BASE_PADDING := 10
  const INDENT_STEP := 9

  /** `calculate_indent_level(left_padding, base_padding, indent_step)`. */
  function IndentLevel(leftPadding: int, base: int, step: int): (r: int)
    requires step > 0
    ensures r >= 0
    ensures leftPadding <= base ==> r == 0
  {
    if leftPadding <= base then 0 else (leftPadding - base + step / 2) / step
  }

  /** The level is the nearest number of steps beyond the base padding. */
  lemma IndentLevelIsNearest(leftPadding: int, base: int, step: int, n: int)
    requires step > 0 && leftPadding > base
    ensures var extra := leftPadding - base;
            var r := IndentLevel(leftPadding, base, step);
            Abs(extra - step * r) <= step / 2 && Abs(extra - step * r) <= Abs(extra - step * n)
  {
    var extra := leftPadding - base;
    var h := step / 2;
    var r := (extra + h) / step;
    var m := (extra + h) % step;
    assert extra + h == step * r + m && 0 <= m < step;
    assert extra - step * r == m - h;
    assert step - 1 - h <= h;
    if n > r {
      assert step * n >= step * r + step by { MulMono(step, r + 1, n); }
    } else if n < r {
      assert step * n <= step * r - step by { MulMono(step, n, r - 1); }
    }
  }

  lemma MulMono(k: int, a: int, b: int)
    requires k > 0 && a <= b
    ensures k * a <= k * b
  {
  }

  function Abs(x: int): nat {
    if x < 0 then -x else x
  }

  /** A larger padding never gives a smaller level. */
  lemma IndentLevelMonotonic(p: int, q: int, base: int, step: int)
    requires step > 0 && p <= q
    ensures IndentLevel(p, base, step) <= IndentLevel(q, base, step)
  {
    if p > base {
      DivMono(p - base + step / 2, q - base + step / 2, step);
    }
  }

  lemma DivMono(a: int, b: int, d: int)
    requires 0 <= a <= b && d > 0
    ensures a / d <= b / d
  {
    if a / d > b / d {
      assert d * (a / d) >= d * (b / d + 1) by { MulMono(d, b / d + 1, a / d); }
      assert false;
    }
  }

  /** The default base of 10pt and step of 9pt at work. */
  lemma IndentLevelExamples()
    ensures IndentLevel(10, BASE_PADDING, INDENT_STEP) == 0
    ensures IndentLevel(14, BASE_PADDING, INDENT_STEP) == 0
    ensures IndentLevel(15, BASE_PADDING, INDENT_STEP) == 1
    ensures IndentLevel(19, BASE_PADDING, INDENT_STEP) == 1
    ensures IndentLevel(28, BASE_PADDING, INDENT_STEP) == 2
    ensures IndentLevel(2310, BASE_PADDING, INDENT_STEP) == 256
  {
  }

  /** Skipping a run lands exactly where the run stops. */
  lemma {:induction false} SkipRunOf(run: string, rest: string, k: CharClass)
    requires forall j :: 0 <= j < |run| ==> InClass(run[j], k)
    requires rest != [] ==> !InClass(rest[0], k)
    ensures SkipRun(run + rest, k) == rest
  {
    if run != [] {
      assert (run + rest)[1..] == run[1..] + rest;
      SkipRunOf(run[1..], rest, k);
    }
  }

  predicate IsSpaces(s: string) {
    forall i :: 0 <= i < |s| ==> IsSpace(s[i])
  }

  /** A value of the shorthand such as `0pt` or `12px`. */
  predicate IsLength(v: string) {
    |v| >= 2 && IsDigit(v[0]) && forall i :: 0 <= i < |v| ==> IsWordChar(v[i])
  }

  lemma ValueAndGapOf(v: string, gap: string, tail: string)
    requires IsLength(v) && IsSpaces(gap) && gap != []
    requires tail != [] ==> !IsSpace(tail[0])
    ensures ValueAndGap(v + gap + tail) == Some(tail)
  {
    var t := v + gap + tail;
    assert t[1..] == v[1..] + (gap + tail);
    SkipRunOf(v[1..], gap + tail, WordChars);
    SkipRunOf(gap, tail, Spaces);
  }

  lemma PointsAtOf(digits: string, rest: string)
    requires digits != [] && IsDigits(digits)
    ensures PointsAt(digits + "pt" + rest) == Some(DigitsValue(digits))
  {
    var t := digits + "pt" + rest;
    assert t == digits + ("pt" + rest);
    SkipRunOf(digits, "pt" + rest, Digits);
    assert t[..|digits|] == digits;
    StartsWithSlice("pt" + rest, "pt");
  }
  /** The part after `padding:`: optional blanks, three values with the
      whitespace after each, then the fourth value in points. */
  lemma ShorthandTailOf(ws: string, v1: string, g1: string, v2: string, g2: string,
                        v3: string, g3: string, digits: string, rest: string)
    requires IsSpaces(ws) && IsSpaces(g1) && IsSpaces(g2) && IsSpaces(g3)
    requires g1 != [] && g2 != [] && g3 != []
    requires IsLength(v1) && IsLength(v2) && IsLength(v3)
    requires digits != [] && IsDigits(digits)
    ensures ShorthandTail(ws + v1 + g1 + v2 + g2 + v3 + g3 + digits + "pt" + rest) == Some(DigitsValue(digits))
  {
    var t3 := digits + "pt" + rest;
    var t2 := v3 + g3 + t3;
    var t1 := v2 + g2 + t2;
    var t0 := v1 + g1 + t1;
    assert ws + t0 == ws + v1 + g1 + v2 + g2 + v3 + g3 + digits + "pt" + rest;
    SkipRunOf(ws, t0, Spaces);
    ValueAndGapOf(v1, g1, t1);
    ValueAndGapOf(v2, g2, t2);
    ValueAndGapOf(v3, g3, t3);
    PointsAtOf(digits, rest);
  }

  /** A style that begins with a four-value `padding` shorthand yields its
      fourth value, whatever follows it. */
  lemma ShorthandDeclaration(ws: string, v1: string, g1: string, v2: string, g2: string,
                             v3: string, g3: string, digits: string, rest: string)
    requires IsSpaces(ws) && IsSpaces(g1) && IsSpaces(g2) && IsSpaces(g3)
    requires g1 != [] && g2 != [] && g3 != []
    requires IsLength(v1) && IsLength(v2) && IsLength(v3)
    requires digits != [] && IsDigits(digits)
    ensures ExtractLeftPadding("padding:" + (ws + v1 + g1 + v2 + g2 + v3 + g3 + digits + "pt" + rest))
            == DigitsValue(digits)
  {
    var x := ws + v1 + g1 + v2 + g2 + v3 + g3 + digits + "pt" + rest;
    ShorthandTailOf(ws, v1, g1, v2, g2, v3, g3, digits, rest);
    var s := "padding:" + x;
    assert s[0..][..8] == "padding:" && s[8..] == x;
    StartsWithSlice(s[0..], "padding:");
    assert MatchAt(s, 0, Shorthand) == Some(DigitsValue(digits));
  }

  /** A style that begins with `padding-left` in points, and has no
      `padding:` shorthand anywhere, yields that padding. */
  lemma PaddingLeftDeclaration(ws: string, digits: string, rest: string)
    requires IsSpaces(ws) && digits != [] && IsDigits(digits)
    requires !HasSubstring(rest, "padding:")
    ensures ExtractLeftPadding("padding-left:" + ws + digits + "pt" + rest) == DigitsValue(digits)
  {
    var t := digits + "pt" + rest;
    var s := "padding-left:" + ws + t;
    assert s == "padding-left:" + ws + digits + "pt" + rest;
    forall p | 0 <= p <= |s|
      ensures MatchAt(s, p, Shorthand).None?
    {
      NoShorthandAt(ws, digits, rest, p);
    }
    LeftmostNone(s, 0, Shorthand);
    assert s[0..][..13] == "padding-left:" && s[13..] == ws + t;
    StartsWithSlice(s[0..], "padding-left:");
    SkipRunOf(ws, t, Spaces);
    PointsAtOf(digits, rest);
    assert MatchAt(s, 0, PaddingLeft) == Some(DigitsValue(digits));
  }

  lemma NoShorthandAt(ws: string, digits: string, rest: string, p: nat)
    requires IsSpaces(ws) && IsDigits(digits)
    requires !HasSubstring(rest, "padding:")
    ensures MatchAt("padding-left:" + ws + digits + "pt" + rest, p, Shorthand).None?
  {
    var s := "padding-left:" + ws + digits + "pt" + rest;
    var k := 13 + |ws| + |digits| + 2;
    if p > |s| {
    } else if p >= k {
      StartsWithSlice(s[p..], "padding:");
      StartsWithSlice(rest[p - k..], "padding:");
      assert s[p..] == rest[p - k..];
      assert !StartsWith(rest[p - k..], "padding:");
    } else if p == k - 1 {
      Mismatch(s, p, "padding:", 0);
    } else if p == k - 2 {
      Mismatch(s, p, "padding:", 1);
    } else if p >= 13 + |ws| {
      assert s[p] == digits[p - 13 - |ws|];
      Mismatch(s, p, "padding:", 0);
    } else if p >= 13 {
      assert s[p] == ws[p - 13];
      Mismatch(s, p, "padding:", 0);
    } else if p == 0 {
      Mismatch(s, p, "padding:", 7);
    } else {
      assert s[p] == "padding-left:"[p];
      Mismatch(s, p, "padding:", 0);
    }
  }

  /** A string whose character `p + j` differs from character `j` of `lit`
      does not continue with `lit` at `p`. */
  lemma Mismatch(s: string, p: nat, lit: string, j: nat)
    requires j < |lit| && p + j < |s| && s[p + j] != lit[j]
    ensures !StartsWith(s[p..], lit)
  {
    StartsWithSlice(s[p..], lit);
    if |lit| <= |s[p..]| {
      assert s[p..][..|lit|][j] == s[p + j];
    }
  }
}
