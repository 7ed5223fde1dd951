/** The directory name derived from a source URL, and the three shapes of
    configuration reduced to one list of sources (table_finder.py, lines
    47-93). */
module TableFinder {
  import opened Wrappers
  import opened Strings

  // ---------------------------------------------------------- the URL match

  const SCHEME_MARK := "://"

  /** A place where `://([^/]+)` can start: the mark, then a character
      other than `/`. */
  predicate MatchesAt(url: string, i: nat) {
    i + 3 < |url| && url[i..i + 3] == SCHEME_MARK && url[i + 3] != '/'
  }

  /** The leftmost match position at or after `i`, as `re.search` tries them. */
  function FindMatch(url: string, i: nat): (r: Option<nat>)
    requires i <= |url|
    ensures r.Some? ==> i <= r.value && MatchesAt(url, r.value)
                        && forall j :: i <= j < r.value ==> !MatchesAt(url, j)
    ensures r.None? ==> forall j :: i <= j ==> !MatchesAt(url, j)
    decreases |url| - i
  {
    if i + 3 >= |url| then None
    else if MatchesAt(url, i) then Some(i)
    else FindMatch(url, i + 1)
  }

  /** The end of the longest run of characters other than `stop` from `i`:
      a greedy `[^stop]*`. */
  function RunEnd(s: string, i: nat, stop: char): (j: nat)
    requires i <= |s|
    ensures i <= j <= |s|
    decreases |s| - i
  {
    if i == |s| || s[i] == stop then i else RunEnd(s, i + 1, stop)
  }

  /** A position that holds `stop` (or is the end) with no `stop` before it
      from `i` on is where the run ends. */
  lemma {:induction false} RunEndAt(s: string, i: nat, stop: char, j: nat)
    requires i <= j <= |s| && (j < |s| ==> s[j] == stop)
    requires forall k :: i <= k < j ==> s[k] != stop
    ensures RunEnd(s, i, stop) == j
    decreases j - i
  {
    if i < j {
      RunEndAt(s, i + 1, stop, j);
    }
  }

  /** The run stops at the first `stop` from `i`, or at the end. */
  lemma {:induction false} RunEndStops(s: string, i: nat, stop: char)
    requires i <= |s|
    ensures RunEnd(s, i, stop) < |s| ==> s[RunEnd(s, i, stop)] == stop
    ensures forall k :: i <= k < RunEnd(s, i, stop) ==> s[k] != stop
    decreases |s| - i
  {
    if i < |s| && s[i] != stop {
      RunEndStops(s, i + 1, stop);
    }
  }

  /** The groups of `re.search(r'://([^/]+)(/[^?]*)?', url)`: the domain,
      and the path (`''` when group 2 did not take part). */
  datatype UrlMatch = UrlMatch(at: nat, domain: string, path: string)

  /** The two groups of a match at `i`. */
  function GroupsAt(url: string, i: nat): UrlMatch
    requires MatchesAt(url, i)
  {
    var e := RunEnd(url, i + 3, '/');
    var p := if e < |url| then RunEnd(url, e + 1, '?') else e;
    UrlMatch(i, url[i + 3..e], url[e..p])
  }

  /** The domain runs from after `://` up to the next `/`; the path, when a
      `/` follows, runs from it up to the next `?`, and is empty exactly at
      the end of the URL. */
  lemma GroupsAtShape(url: string, i: nat)
    requires MatchesAt(url, i)
    ensures var m := GroupsAt(url, i);
            var e := i + 3 + |m.domain|;
            && m.at == i
            && e <= |url| && url[i + 3..e] == m.domain
            && |m.domain| >= 1 && (forall k :: 0 <= k < |m.domain| ==> m.domain[k] != '/')
            && (e < |url| ==> url[e] == '/')
            && e + |m.path| <= |url| && url[e..e + |m.path|] == m.path
            && (m.path == "" <==> e == |url|)
            && (m.path != "" ==> m.path[0] == '/')
            && (forall k :: 1 <= k < |m.path| ==> m.path[k] != '?')
            && (e + |m.path| < |url| ==> url[e + |m.path|] == '?')
  {
    var m := GroupsAt(url, i);
    var e := RunEnd(url, i + 3, '/');
    RunEndStops(url, i + 3, '/');
    assert RunEnd(url, i + 3, '/') == RunEnd(url, i + 4, '/');
    assert m.domain == url[i + 3..e] && i + 3 + |m.domain| == e;
    forall k | 0 <= k < |m.domain|
      ensures m.domain[k] != '/'
    {
      assert m.domain[k] == url[i + 3 + k];
    }
    if e < |url| {
      var p := RunEnd(url, e + 1, '?');
      RunEndStops(url, e + 1, '?');
      assert m.path == url[e..p];
      assert m.path[0] == url[e];
      forall k | 1 <= k < |m.path|
        ensures m.path[k] != '?'
      {
        assert m.path[k] == url[e + k];
      }
    } else {
      assert m.path == [];
    }
  }

  /** `re.search` for the pattern: the groups of the leftmost match, if any. */
  function MatchUrl(url: string): (m: Option<UrlMatch>)
    ensures m.None? <==> forall j :: 0 <= j ==> !MatchesAt(url, j)
    ensures m.Some? ==>
              && MatchesAt(url, m.value.at)
              && (forall j :: 0 <= j < m.value.at ==> !MatchesAt(url, j))
              && m.value == GroupsAt(url, m.value.at)
  {
    match FindMatch(url, 0)
    case None => None
    case Some(i) => Some(GroupsAt(url, i))
  }

  // ------------------------------------------------------------- cleaning

  /** `re.sub(r'[^\w\-_]', '_', name)`. */
  function Sanitize(s: string): (r: string)
    ensures |r| == |s|
    ensures forall k :: 0 <= k < |s| ==> r[k] == if IsWordChar(s[k]) || s[k] == '-' then s[k] else '_'
  {
    seq(|s|, k requires 0 <= k < |s| => if IsWordChar(s[k]) || s[k] == '-' then s[k] else '_')
  }

  /** A name made only of word characters and `-`. */
  predicate SafeChars(s: string) {
    forall k :: 0 <= k < |s| ==> IsWordChar(s[k]) || s[k] == '-'
  }

  /** No two `_` in a row. */
  predicate NoDoubleUnderscore(s: string) {
    forall k :: 0 <= k < |s| - 1 ==> !(s[k] == '_' && s[k + 1] == '_')
  }

  /** `re.sub(r'_+', '_', s)`: each run of `_` becomes one. */
  function Collapse(s: string): (r: string)
    ensures |r| <= |s|
    ensures s == [] <==> r == []
    ensures s != [] ==> r[|r| - 1] == s[|s| - 1]
  {
    if s == [] then []
    else
      var p := Collapse(s[..|s| - 1]);
      if s[|s| - 1] == '_' && p != [] && p[|p| - 1] == '_' then p else p + [s[|s| - 1]]
  }

  /** `s.strip('_')`. */
  function StripUnderscores(s: string): (r: string)
    ensures |r| <= |s|
    decreases |s|
  {
    if s == [] then []
    else if s[0] == '_' then StripUnderscores(s[1..])
    else if s[|s| - 1] == '_' then StripUnderscores(s[..|s| - 1])
    else s
  }

  const MAX_NAME := 50

  /** The cleaned name of lines 56-59, before it is cut to 50 characters. */
  function CleanName(name: string): string {
    StripUnderscores(Collapse(Sanitize(name)))
  }

  /** The name made from a match's groups: `www.` removed from the domain,
      the path appended, cleaned and cut to 50 characters (lines 52-61). */
  function MatchDirname(m: UrlMatch): string {
    var n := CleanName(RemoveAll(m.domain, "www.") + m.path);
    if |n| <= MAX_NAME then n else n[..MAX_NAME]
  }

  /** `url_to_dirname` (lines 47-62). */
  function UrlToDirname(url: string): (r: string)
    ensures |r| <= MAX_NAME && SafeChars(r)
  {
    match MatchUrl(url)
    case None => assert SafeChars("unknown"); "unknown"
    case Some(m) => MatchDirnameSafe(m); MatchDirname(m)
  }

  /** A name made from a match is a safe name of at most 50 characters. */
  lemma MatchDirnameSafe(m: UrlMatch)
    ensures |MatchDirname(m)| <= MAX_NAME && SafeChars(MatchDirname(m))
  {
    var n := CleanName(RemoveAll(m.domain, "www.") + m.path);
    CleanNameShape(RemoveAll(m.domain, "www.") + m.path);
    if |n| > MAX_NAME {
      SliceKeepsShape(n, 0, MAX_NAME);
    }
  }

  // ----------------------------------------------------------- properties

  lemma {:induction false} CollapseShape(s: string)
    requires SafeChars(s)
    ensures SafeChars(Collapse(s)) && NoDoubleUnderscore(Collapse(s))
  {
    if s != [] {
      var init := s[..|s| - 1];
      assert SafeChars(init) by {
        assert forall k :: 0 <= k < |init| ==> init[k] == s[k];
      }
      CollapseShape(init);
    }
  }

  /** A name without `__` is left as it is. */
  lemma {:induction false} CollapseKeepsSingle(s: string)
    requires NoDoubleUnderscore(s)
    ensures Collapse(s) == s
  {
    if s != [] {
      var init := s[..|s| - 1];
      assert NoDoubleUnderscore(init) by {
        assert forall k :: 0 <= k < |init| ==> init[k] == s[k];
      }
      CollapseKeepsSingle(init);
    }
  }

  /** One `_` of a pair is dropped: `__` and `_` collapse alike, whatever
      surrounds them. */
  lemma {:induction false} CollapsePair(a: string, b: string)
    ensures Collapse(a + "__" + b) == Collapse(a + "_" + b)
    decreases |b|
  {
    if b == [] {
      assert (a + "__" + b)[..|a + "__" + b| - 1] == a + "_" + b;
    } else {
      var b0 := b[..|b| - 1];
      assert (a + "__" + b)[..|a + "__" + b| - 1] == a + "__" + b0;
      assert (a + "_" + b)[..|a + "_" + b| - 1] == a + "_" + b0;
      CollapsePair(a, b0);
    }
  }

  /** The characters other than `_`, in order. */
  function NonUnderscores(s: string): (r: string)
    ensures forall k :: 0 <= k < |r| ==> r[k] != '_'
  {
    if s == [] then []
    else NonUnderscores(s[..|s| - 1]) + (if s[|s| - 1] == '_' then [] else [s[|s| - 1]])
  }

  /** Collapsing drops only `_`s: the other characters stay, in order. */
  lemma {:induction false} CollapseKeepsOthers(s: string)
    ensures NonUnderscores(Collapse(s)) == NonUnderscores(s)
  {
    if s != [] {
      var init := s[..|s| - 1];
      var p := Collapse(init);
      CollapseKeepsOthers(init);
      if !(s[|s| - 1] == '_' && p != [] && p[|p| - 1] == '_') {
        assert (p + [s[|s| - 1]])[..|p + [s[|s| - 1]]| - 1] == p;
      }
    }
  }

  /** `r` is `s[a..b]`, and everything of `s` before `a` and from `b` on is `_`. */
  predicate TrimmedTo(s: string, r: string, a: nat, b: nat) {
    && a <= b <= |s| && r == s[a..b]
    && (forall j :: 0 <= j < a ==> s[j] == '_')
    && (forall j :: b <= j < |s| ==> s[j] == '_')
  }

  lemma TrimFront(s: string, r: string, a: nat, b: nat)
    requires s != [] && s[0] == '_' && TrimmedTo(s[1..], r, a, b)
    ensures TrimmedTo(s, r, a + 1, b + 1)
  {
    assert s[1..][a..b] == s[a + 1..b + 1];
    assert forall j :: 1 <= j < |s| ==> s[j] == s[1..][j - 1];
  }

  lemma TrimBack(s: string, r: string, a: nat, b: nat)
    requires s != [] && s[|s| - 1] == '_' && TrimmedTo(s[..|s| - 1], r, a, b)
    ensures TrimmedTo(s, r, a, b)
  {
    assert s[..|s| - 1][a..b] == s[a..b];
    assert forall j :: 0 <= j < |s| - 1 ==> s[j] == s[..|s| - 1][j];
  }

  /** Stripping keeps a contiguous piece of its input that neither starts nor
      ends with `_`; everything it removes before and after is `_`. */
  lemma {:induction false} StripShape(s: string)
    ensures StripUnderscores(s) != [] ==> StripUnderscores(s)[0] != '_'
    ensures StripUnderscores(s) != [] ==> StripUnderscores(s)[|StripUnderscores(s)| - 1] != '_'
    ensures exists a, b :: TrimmedTo(s, StripUnderscores(s), a, b)
    decreases |s|
  {
    if s == [] {
      assert TrimmedTo(s, StripUnderscores(s), 0, 0);
    } else if s[0] == '_' {
      StripShape(s[1..]);
      var a, b :| TrimmedTo(s[1..], StripUnderscores(s[1..]), a, b);
      TrimFront(s, StripUnderscores(s), a, b);
    } else if s[|s| - 1] == '_' {
      StripShape(s[..|s| - 1]);
      var a, b :| TrimmedTo(s[..|s| - 1], StripUnderscores(s[..|s| - 1]), a, b);
      TrimBack(s, StripUnderscores(s), a, b);
    } else {
      assert TrimmedTo(s, s, 0, |s|);
    }
  }

  lemma SliceKeepsShape(s: string, a: nat, b: nat)
    requires a <= b <= |s| && SafeChars(s) && NoDoubleUnderscore(s)
    ensures SafeChars(s[a..b]) && NoDoubleUnderscore(s[a..b])
  {
    assert forall k :: 0 <= k < b - a ==> s[a..b][k] == s[a + k];
  }

  /** The cleaned name has only word characters and `-`, no `__`, and no
      `_` at either end (lines 57-59). */
  lemma CleanNameShape(name: string)
    ensures SafeChars(CleanName(name))
    ensures NoDoubleUnderscore(CleanName(name))
    ensures CleanName(name) != [] ==> CleanName(name)[0] != '_' && CleanName(name)[|CleanName(name)| - 1] != '_'
  {
    var c := Collapse(Sanitize(name));
    CollapseShape(Sanitize(name));
    StripShape(c);
    var a, b :| TrimmedTo(c, StripUnderscores(c), a, b);
    SliceKeepsShape(c, a, b);
  }

  /** The returned name is the first 50 characters of the cleaned name: at
      most 50 characters, only word characters and `-`, no `__`, and never
      a leading `_` (line 61). */
  lemma DirnameShape(url: string)
    ensures |UrlToDirname(url)| <= MAX_NAME
    ensures SafeChars(UrlToDirname(url)) && NoDoubleUnderscore(UrlToDirname(url))
    ensures UrlToDirname(url) != [] ==> UrlToDirname(url)[0] != '_'
    ensures MatchUrl(url).Some? ==>
              var n := CleanName(RemoveAll(MatchUrl(url).value.domain, "www.") + MatchUrl(url).value.path);
              UrlToDirname(url) == n[..if |n| <= MAX_NAME then |n| else MAX_NAME]
  {
    match MatchUrl(url)
    case None =>
      assert SafeChars("unknown");
    case Some(m) =>
      var n := CleanName(RemoveAll(m.domain, "www.") + m.path);
      CleanNameShape(RemoveAll(m.domain, "www.") + m.path);
      if |n| > MAX_NAME {
        SliceKeepsShape(n, 0, MAX_NAME);
      } else {
        assert n[..|n|] == n;
      }
  }

  /** Without `://` followed by a character other than `/`, the name is
      "unknown" (lines 50 and 62); `://` missing altogether is one such URL. */
  lemma UnknownWithoutScheme(url: string)
    ensures (forall j :: 0 <= j ==> !MatchesAt(url, j)) ==> UrlToDirname(url) == "unknown"
    ensures !HasSubstring(url, SCHEME_MARK) ==> UrlToDirname(url) == "unknown"
  {
    if !HasSubstring(url, SCHEME_MARK) {
      forall j | 0 <= j
        ensures !MatchesAt(url, j)
      {
        if j + 3 <= |url| {
          StartsWithSlice(url[j..], SCHEME_MARK);
          assert url[j..][..3] == url[j..j + 3];
        }
      }
    }
  }

  /** A run scanned inside the second part of `p + s` ends where it ends in `s`. */
  lemma {:induction false} RunEndShift(p: string, s: string, i: nat, stop: char)
    requires i <= |s|
    ensures RunEnd(p + s, |p| + i, stop) == |p| + RunEnd(s, i, stop)
    decreases |s| - i
  {
    if i < |s| {
      assert (p + s)[|p| + i] == s[i];
      RunEndShift(p, s, i + 1, stop);
    }
  }

  /** A match right after `head`, which ends with `://` and has no `:`
      before it, is the leftmost one. */
  lemma MatchAfter(head: string, rest: string)
    requires |head| >= 3 && head[|head| - 3..] == SCHEME_MARK && rest != [] && rest[0] != '/'
    requires forall j :: 0 <= j < |head| - 3 ==> head[j] != ':'
    ensures MatchesAt(head + rest, |head| - 3)
    ensures MatchUrl(head + rest) == Some(GroupsAt(head + rest, |head| - 3))
  {
    var u := head + rest;
    var i := |head| - 3;
    assert u[i..i + 3] == head[|head| - 3..];
    forall j | 0 <= j < i
      ensures !MatchesAt(u, j)
    {
      assert u[j..j + 3][0] == head[j];
    }
    assert u[i + 3] == rest[0];
    assert MatchesAt(u, i);
    var f := FindMatch(u, 0);
    assert f.Some?;
  }

  lemma SliceOfSecond(p: string, s: string, a: nat, b: nat)
    requires a <= b <= |s|
    ensures (p + s)[|p| + a..|p| + b] == s[a..b]
  {
  }

  /** The runs `rest` gives after `https://`: the domain up to the first
      `/`, and the path from there up to the next `?`. */
  function RestGroups(rest: string): UrlMatch {
    var e := RunEnd(rest, 0, '/');
    var q := if e < |rest| then RunEnd(rest, e + 1, '?') else e;
    UrlMatch(5, rest[..e], rest[e..q])
  }

  /** The runs of a match right after `head`: the domain and path are those
      `rest`'s runs give. */
  lemma GroupsAfter(head: string, rest: string)
    requires |head| == 8 && MatchesAt(head + rest, 5)
    ensures GroupsAt(head + rest, 5) == RestGroups(rest)
  {
    var e := RunEnd(rest, 0, '/');
    var q := if e < |rest| then RunEnd(rest, e + 1, '?') else e;
    RunEndShift(head, rest, 0, '/');
    if e < |rest| {
      RunEndShift(head, rest, e + 1, '?');
    }
    SliceOfSecond(head, rest, 0, e);
    SliceOfSecond(head, rest, e, q);
    assert rest[0..e] == rest[..e];
  }

  /** The groups of `https://` followed by `rest` are those `rest`'s runs give. */
  lemma HttpsGroups(rest: string)
    requires rest != [] && rest[0] != '/'
    ensures MatchUrl("https://" + rest) == Some(RestGroups(rest))
  {
    var head := "https://";
    assert head[|head| - 3..] == SCHEME_MARK;
    MatchAfter(head, rest);
    GroupsAfter(head, rest);
  }

  /** `www.` in front of `rest` only lengthens the domain. */
  lemma RestGroupsWww(rest: string)
    ensures RestGroups("www." + rest) == RestGroups(rest).(domain := "www." + RestGroups(rest).domain)
  {
    var longer := "www." + rest;
    var e := RunEnd(rest, 0, '/');
    RunEndShift("www.", rest, 0, '/');
    assert RunEnd(longer, 0, '/') == 4 + e by {
      assert longer[0] == 'w' && longer[1] == 'w' && longer[2] == 'w' && longer[3] == '.';
      assert RunEnd(longer, 0, '/') == RunEnd(longer, 1, '/') == RunEnd(longer, 2, '/')
          == RunEnd(longer, 3, '/') == RunEnd(longer, 4, '/');
    }
    var q := if e < |rest| then RunEnd(rest, e + 1, '?') else e;
    if e < |rest| {
      RunEndShift("www.", rest, e + 1, '?');
    }
    SliceOfSecond("www.", rest, e, q);
    assert longer[..4 + e] == "www." + rest[..e];
  }

  /** A domain's leading `www.` is removed before the name is built. */
  lemma MatchDirnameWww(m: UrlMatch)
    ensures MatchDirname(m.(domain := "www." + m.domain)) == MatchDirname(m)
  {
    RemoveAllLeading(m.domain, "www.");
  }

  /** A leading `www.` of the domain plays no part in the name (line 52):
      `https://www.X` and `https://X` map to the same directory. */
  lemma WwwIgnored(rest: string)
    requires rest != [] && rest[0] != '/'
    ensures UrlToDirname("https://www." + rest) == UrlToDirname("https://" + rest)
  {
    var longer := "www." + rest;
    assert "https://www." + rest == "https://" + longer;
    HttpsGroups(rest);
    HttpsGroups(longer);
    RestGroupsWww(rest);
    MatchDirnameWww(RestGroups(rest));
  }

  /** `sec.gov` holds no `www.`. */
  lemma SecGovPlain()
    ensures RemoveAll("sec.gov", "www.") == "sec.gov"
  {
    forall i | 0 <= i <= 7
      ensures !StartsWith("sec.gov"[i..], "www.")
    {
      StartsWithSlice("sec.gov"[i..], "www.");
    }
    RemoveAllAbsent("sec.gov", "www.");
  }

  /** The cleaned SEC browse path keeps its word characters and `-` and turns
      `.` and `/` into single `_`s. */
  lemma SecBrowseClean()
    ensures CleanName("sec.gov" + "/cgi-bin/browse") == "sec_gov_cgi-bin_browse"
  {
    var clean := "sec_gov_cgi-bin_browse";
    assert Sanitize("sec.gov" + "/cgi-bin/browse") == clean;
    CollapseKeepsSingle(clean);
  }

  lemma SecBrowseGroups()
    ensures RestGroups("sec.gov/cgi-bin/browse?x=1") == UrlMatch(5, "sec.gov", "/cgi-bin/browse")
  {
    var d, path, query := "sec.gov", "/cgi-bin/browse", "?x=1";
    var rest := d + path + query;
    assert rest == "sec.gov/cgi-bin/browse?x=1";
    assert rest[7] == path[0] == '/';
    forall k | 0 <= k < 7
      ensures rest[k] != '/'
    {
      assert rest[k] == d[k];
    }
    RunEndAt(rest, 0, '/', 7);
    assert rest[22] == query[0] == '?';
    forall k | 8 <= k < 22
      ensures rest[k] != '?'
    {
      assert rest[k] == path[k - 7];
    }
    RunEndAt(rest, 8, '?', 22);
    assert rest[..7] == d && rest[7..22] == path;
  }

  lemma SecBrowseName()
    ensures MatchDirname(UrlMatch(5, "sec.gov", "/cgi-bin/browse")) == "sec_gov_cgi-bin_browse"
  {
    var m := UrlMatch(5, "sec.gov", "/cgi-bin/browse");
    var n := CleanName(RemoveAll(m.domain, "www.") + m.path);
    SecGovPlain();
    SecBrowseClean();
    assert n == "sec_gov_cgi-bin_browse";
    assert |n| == 22;
  }

  /** The directory for an SEC browse URL (lines 50-61). */
  lemma SecBrowseDirname()
    ensures UrlToDirname("https://www.sec.gov/cgi-bin/browse?x=1") == "sec_gov_cgi-bin_browse"
  {
    var rest := "sec.gov/cgi-bin/browse?x=1";
    assert "https://www.sec.gov/cgi-bin/browse?x=1" == "https://www." + rest;
    WwwIgnored(rest);
    HttpsGroups(rest);
    SecBrowseGroups();
    SecBrowseName();
  }

  // ------------------------------------------------------- configuration

  /** One entry of the normalised source list. An entry of `sources` in the
      configuration may be any JSON value and is passed through unchanged;
      the model gives every entry this shape. */
  datatype Source = Source(name: string, url: string, outputDir: string)

  /** `default_settings`, any JSON value in the configuration and passed
      through unchanged; the model takes it to be a map of strings. */
  type Settings = map<string, string>

  /** The keys of the configuration file the normaliser reads; `None` for a
      key that is absent. */
  datatype Config = Config(
    urls: Option<seq<string>>,
    sources: Option<seq<Source>>,
    inputUrl: Option<string>,
    outputBaseDir: Option<string>,
    outputDir: Option<string>,
    defaultSettings: Option<Settings>)

  const DEFAULT_BASE_DIR := "tables"
  const DEFAULT_OUTPUT_DIR := "tables/output"
  const SINGLE_SOURCE := "Single Source"

  /** `os.path.join(a, b)` on POSIX, for two parts. */
  function JoinPath(a: string, b: string): (r: string)
    ensures b != [] && b[0] != '/' && a != [] && a[|a| - 1] != '/' ==> r == a + "/" + b
  {
    if b != [] && b[0] == '/' then b
    else if a == [] || a[|a| - 1] == '/' then a + b
    else a + "/" + b
  }

  /** The source for the `k`-th URL (counting from 0) of the `urls` format. */
  function UrlSource(baseDir: string, k: nat, url: string): Source {
    Source("Source " + NatToString(k + 1), url, JoinPath(baseDir, UrlToDirname(url)))
  }

  /** `normalize_config` (lines 64-93): `urls` wins over `sources`, which wins
      over `input_url`; with none of them the list is empty. */
  method NormalizeConfig(config: Config) returns (sources: seq<Source>, defaults: Settings)
    ensures defaults == config.defaultSettings.GetOr(map[])
    ensures config.urls.Some? ==>
              |sources| == |config.urls.value| &&
              forall k :: 0 <= k < |sources| ==>
                sources[k] == UrlSource(config.outputBaseDir.GetOr(DEFAULT_BASE_DIR), k, config.urls.value[k])
    ensures config.urls.None? && config.sources.Some? ==> sources == config.sources.value
    ensures config.urls.None? && config.sources.None? && config.inputUrl.Some? ==>
              sources == [Source(SINGLE_SOURCE, config.inputUrl.value, config.outputDir.GetOr(DEFAULT_OUTPUT_DIR))]
    ensures config.urls.None? && config.sources.None? && config.inputUrl.None? ==> sources == []
  {
    sources := [];
    defaults := config.defaultSettings.GetOr(map[]);
    if config.urls.Some? {
      var baseDir := config.outputBaseDir.GetOr(DEFAULT_BASE_DIR);
      var urls := config.urls.value;
      ghost var goal := seq(|urls|, k requires 0 <= k < |urls| => UrlSource(baseDir, k, urls[k]));
      var i := 0;
      while i < |urls|
        invariant 0 <= i <= |urls| && sources == goal[..i]
      {
        var dirname := UrlToDirname(urls[i]);
        var source := Source("Source " + NatToString(i + 1), urls[i], JoinPath(baseDir, dirname));
        assert source == goal[i];
        assert goal[..i + 1] == goal[..i] + [goal[i]];
        sources := sources + [source];
        i := i + 1;
      }
      assert goal[..i] == goal;
    } else if config.sources.Some? {
      sources := config.sources.value;
    } else if config.inputUrl.Some? {
      sources := [Source(SINGLE_SOURCE, config.inputUrl.value, config.outputDir.GetOr(DEFAULT_OUTPUT_DIR))];
    }
  }

  /** A directory for a URL source lies under the base directory, in a
      sub-directory named after the URL, when the base is a plain
      non-empty name. */
  lemma UrlSourceDirectory(baseDir: string, k: nat, url: string)
    requires baseDir != [] && baseDir[|baseDir| - 1] != '/' && UrlToDirname(url) != []
    ensures UrlSource(baseDir, k, url).outputDir == baseDir + "/" + UrlToDirname(url)
  {
    DirnameShape(url);
    assert UrlToDirname(url)[0] != '/';
  }
}
