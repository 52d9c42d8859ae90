/**
 * `ani_sort/metadata.py` without its network calls: the release group of a folder name, the
 * search query and season read from the folder name, and the year and title taken from the
 * chosen search result.
 */
module Metadata {
  import opened Results
  import opened Strings

  // ---------------------------------------------------------------------------------------------
  // extract_groups: re.findall(r"(?:\[|\()(.*?)(?:\]|\))", stem)

  predicate IsOpen(c: char) {
    c == '[' || c == '('
  }

  predicate IsClose(c: char) {
    c == ']' || c == ')'
  }

  /**
   * `e` is where the lazy `.*?` started at `j` stops: the first closing bracket at or after `j`,
   * with no newline before it (`.` does not match a newline).
   */
  predicate Reaches(s: string, j: nat, e: nat) {
    && j <= e < |s| && IsClose(s[e])
    && forall m :: j <= m < e ==> !IsClose(s[m]) && s[m] != '\n'
  }

  function CloseAt(s: string, j: nat): (r: Option<nat>)
    ensures r.Some? ==> Reaches(s, j, r.value)
    ensures r.None? ==> forall e :: !Reaches(s, j, e)
    decreases |s| - j
  {
    if j >= |s| then None
    else if IsClose(s[j]) then Some(j)
    else if s[j] == '\n' then None
    else
      var r := CloseAt(s, j + 1);
      assert forall e :: Reaches(s, j, e) ==> e == j || Reaches(s, j + 1, e);
      r
  }

  /** An opening bracket at `i` that a closing bracket on the same line answers. */
  predicate Opens(s: string, i: nat) {
    i < |s| && IsOpen(s[i]) && CloseAt(s, i + 1).Some?
  }

  /** The texts between brackets that `findall` returns, scanning from index `k`. */
  function CandidatesFrom(s: string, k: nat): seq<string>
    decreases |s| - k
  {
    if k >= |s| then []
    else if Opens(s, k) then
      var e := CloseAt(s, k + 1).value;
      [s[k + 1..e]] + CandidatesFrom(s, e + 1)
    else CandidatesFrom(s, k + 1)
  }

  /** The patterns that drop a candidate from `others`; the list is empty in the source. */
  const IgnorePatterns: seq<string -> bool> := []

  /** The candidates no pattern of `ignore` finds, in order. */
  function Kept(cs: seq<string>, ignore: seq<string -> bool>): seq<string> {
    if cs == [] then []
    else
      var head := if exists i :: 0 <= i < |ignore| && ignore[i](cs[0]) then [] else [cs[0]];
      head + Kept(cs[1..], ignore)
  }

  datatype Groups = Groups(group: Option<string>, others: seq<string>)

  /** `extract_groups(stem)`: the first bracketed text is the group, the others follow in order. */
  function ExtractGroups(stem: string): (r: Groups)
    ensures r.group.None? <==> CandidatesFrom(stem, 0) == []
    ensures r.group.None? ==> r.others == []
    ensures r.group.Some? ==> [r.group.value] + r.others == CandidatesFrom(stem, 0)
  {
    var candidates := CandidatesFrom(stem, 0);
    var group := if candidates != [] then Some(candidates[0]) else None;
    var others := if candidates != [] then Kept(candidates[1..], IgnorePatterns) else [];
    KeepsAll(others);
    KeepsAll(if candidates != [] then candidates[1..] else []);
    Groups(group, others)
  }

  /** With no ignore pattern every candidate is kept. */
  lemma {:induction false} KeepsAll(cs: seq<string>)
    ensures Kept(cs, []) == cs
  {
    if cs != [] {
      KeepsAll(cs[1..]);
    }
  }

  /** The first bracket, from `k` on, that is answered on its line. */
  predicate FirstOpening(s: string, k: nat, i: nat) {
    && k <= i && Opens(s, i)
    && forall i' :: k <= i' < i ==> !Opens(s, i')
  }

  lemma {:induction false} CandidatesFromFirst(s: string, k: nat)
    requires k <= |s|
    ensures CandidatesFrom(s, k) != [] <==> exists i :: k <= i && Opens(s, i)
    ensures forall i: nat :: FirstOpening(s, k, i) ==>
      CandidatesFrom(s, k)[0] == s[i + 1..CloseAt(s, i + 1).value]
    decreases |s| - k
  {
    if k == |s| {
      assert forall i :: k <= i ==> !Opens(s, i);
    } else if Opens(s, k) {
      forall i: nat | FirstOpening(s, k, i) ensures i == k {
      }
    } else {
      CandidatesFromFirst(s, k + 1);
      assert forall i :: k <= i && Opens(s, i) ==> k + 1 <= i;
      forall i: nat | FirstOpening(s, k, i) ensures FirstOpening(s, k + 1, i) {
      }
    }
  }

  /**
   * The group is the text inside the first opening bracket that a closing bracket answers on
   * the same line, up to the nearest closing bracket; there is no group exactly when no
   * bracket is answered.
   */
  lemma GroupIsFirstBracketed(stem: string)
    ensures ExtractGroups(stem).group.None? <==> forall i :: !Opens(stem, i)
    ensures forall i: nat :: FirstOpening(stem, 0, i) ==>
      ExtractGroups(stem).group == Some(stem[i + 1..CloseAt(stem, i + 1).value])
  {
    CandidatesFromFirst(stem, 0);
  }

  // ---------------------------------------------------------------------------------------------
  // re.sub(r"\s*(\[|\().*?(\]|\))\s*", "", name)

  /** The first index at or after `j` that is not whitespace. */
  function SkipSpaces(s: string, j: nat): (r: nat)
    requires j <= |s|
    ensures j <= r <= |s|
    ensures forall m :: j <= m < r ==> IsSpace(s[m])
    ensures r == |s| || !IsSpace(s[r])
    decreases |s| - j
  {
    if j == |s| || !IsSpace(s[j]) then j else SkipSpaces(s, j + 1)
  }

  /** Where a bracketed tag with the whitespace around it, matched at `p`, ends; `None` if none is. */
  function TagEnd(s: string, p: nat): (r: Option<nat>)
    requires p <= |s|
    ensures r.Some? ==> p < r.value <= |s|
  {
    var q := SkipSpaces(s, p);
    if q < |s| && Opens(s, q) then Some(SkipSpaces(s, CloseAt(s, q + 1).value + 1)) else None
  }

  function StripFrom(s: string, p: nat): string
    requires p <= |s|
    decreases |s| - p
  {
    if p == |s| then []
    else match TagEnd(s, p)
      case Some(e) => StripFrom(s, e)
      case None => [s[p]] + StripFrom(s, p + 1)
  }

  /** The folder name with every bracketed tag and the whitespace around it removed. */
  function StripTags(s: string): string {
    StripFrom(s, 0)
  }

  lemma {:induction false} StripFromKeepsUnbracketed(s: string, p: nat)
    requires p <= |s|
    requires forall m :: p <= m < |s| ==> !IsOpen(s[m])
    ensures StripFrom(s, p) == s[p..]
    decreases |s| - p
  {
    if p < |s| {
      StripFromKeepsUnbracketed(s, p + 1);
      assert s[p..] == [s[p]] + s[p + 1..];
    }
  }

  /** A name without opening brackets is left as it is. */
  lemma StripTagsKeepsUnbracketed(s: string)
    requires forall m :: 0 <= m < |s| ==> !IsOpen(s[m])
    ensures StripTags(s) == s
  {
    StripFromKeepsUnbracketed(s, 0);
  }

  /**
   * At a tag, the substitution drops everything up to the tag's end; elsewhere it keeps the
   * character and moves on.
   */
  lemma StripFromStep(s: string, p: nat)
    requires p < |s|
    ensures TagEnd(s, p).Some? ==> StripFrom(s, p) == StripFrom(s, TagEnd(s, p).value)
    ensures TagEnd(s, p).None? ==> StripFrom(s, p) == [s[p]] + StripFrom(s, p + 1)
  {
  }

  /** `SkipSpaces` stops at the first character that is not whitespace. */
  lemma {:induction false} SkipSpacesTo(s: string, j: nat, r: nat)
    requires j <= r <= |s|
    requires forall m :: j <= m < r ==> IsSpace(s[m])
    requires r == |s| || !IsSpace(s[r])
    ensures SkipSpaces(s, j) == r
    decreases r - j
  {
    if j < r {
      SkipSpacesTo(s, j + 1, r);
    }
  }

  /** A tag opening at `i` after the spaces from `p`, closing at `close`, ends where the spaces after it do. */
  lemma TagEndAt(s: string, p: nat, i: nat, close: nat, e: nat)
    requires p <= i < |s| && SkipSpaces(s, p) == i && IsOpen(s[i])
    requires close < |s| && CloseAt(s, i + 1) == Some(close) && SkipSpaces(s, close + 1) == e
    ensures TagEnd(s, p) == Some(e)
  {
  }

  /** The lazy `.*?` stops at the first closing bracket, when no newline comes before it. */
  lemma CloseAtFirst(s: string, j: nat, e: nat)
    requires Reaches(s, j, e)
    ensures CloseAt(s, j) == Some(e)
  {
    var r := CloseAt(s, j).value;
    assert IsClose(s[r]) && IsClose(s[e]);
  }

  /**
   * A name with a tag from `i` to `close`, whitespace before it and up to `e` after it, and no
   * opening bracket from `e` on, comes out as what follows `e`.
   */
  lemma StripFromTag(s: string, i: nat, close: nat, e: nat)
    requires i < close < e <= |s|
    requires forall m :: 0 <= m < i ==> IsSpace(s[m])
    requires IsOpen(s[i]) && Reaches(s, i + 1, close)
    requires forall m :: close < m < e ==> IsSpace(s[m])
    requires e == |s| || !IsSpace(s[e])
    requires forall m :: e <= m < |s| ==> !IsOpen(s[m])
    ensures StripTags(s) == s[e..]
  {
    SkipSpacesTo(s, 0, i);
    CloseAtFirst(s, i + 1, close);
    SkipSpacesTo(s, close + 1, e);
    TagEndAt(s, 0, i, close, e);
    StripFromStep(s, 0);
    StripFromKeepsUnbracketed(s, e);
  }

  /**
   * A name made of one tag (an opening bracket, text with no closing bracket or newline, a
   * closing bracket), whitespace on either side of it, and then a rest with no opening
   * bracket that does not start with whitespace, comes out as that rest.
   */
  lemma StripTagsRemovesTag(w1: string, o: char, x: string, c: char, w2: string, rest: string)
    requires forall m :: 0 <= m < |w1| ==> IsSpace(w1[m])
    requires IsOpen(o) && IsClose(c)
    requires forall m :: 0 <= m < |x| ==> !IsClose(x[m]) && x[m] != '\n'
    requires forall m :: 0 <= m < |w2| ==> IsSpace(w2[m])
    requires forall m :: 0 <= m < |rest| ==> !IsOpen(rest[m])
    requires rest == [] || !IsSpace(rest[0])
    ensures StripTags(w1 + [o] + x + [c] + w2 + rest) == rest
  {
    var s := w1 + [o] + x + [c] + w2 + rest;
    var i := |w1|;
    var close := i + 1 + |x|;
    var e := close + 1 + |w2|;
    assert s[i] == o && s[close] == c;
    assert forall m :: 0 <= m < i ==> s[m] == w1[m];
    assert forall m :: i + 1 <= m < close ==> s[m] == x[m - i - 1];
    assert forall m :: close + 1 <= m < e ==> s[m] == w2[m - close - 1];
    assert s[e..] == rest;
    StripFromTag(s, i, close, e);
  }

  /** Removal only: the stripped name is never longer than the name. */
  lemma {:induction false} StripFromShorter(s: string, p: nat)
    requires p <= |s|
    ensures |StripFrom(s, p)| <= |s| - p
    decreases |s| - p
  {
    if p < |s| {
      match TagEnd(s, p)
      case Some(e) => StripFromShorter(s, e);
      case None => StripFromShorter(s, p + 1);
    }
  }

  // ---------------------------------------------------------------------------------------------
  // re.match(r"(?i)(.+?)(?:[_\s-]*(?:s|season)\s*(\d+))?$", stripped)

  /** `$`: the end of the string, or just before a newline that ends it. */
  predicate AtEnd(r: string) {
    r == "" || r == "\n"
  }

  /** The text that `$` may still follow once a pattern ending in a digit has matched. */
  function BeforeEnd(r: string): string {
    if |r| > 0 && r[|r| - 1] == '\n' then r[..|r| - 1] else r
  }

  /** A letter `s` under `(?i)`, which also matches the long s. */
  predicate IsS(c: char) {
    c == 's' || c == 'S' || c == 'ſ'
  }

  /** `season` under `(?i)`. */
  predicate IsSeasonWord(w: string) {
    && |w| == 6 && IsS(w[0]) && (w[1] == 'e' || w[1] == 'E') && (w[2] == 'a' || w[2] == 'A')
    && IsS(w[3]) && (w[4] == 'o' || w[4] == 'O') && (w[5] == 'n' || w[5] == 'N')
  }

  /** `(?:s|season)`. */
  predicate IsSeasonKey(k: string) {
    IsSeasonWord(k) || (|k| == 1 && IsS(k[0]))
  }

  /** `[_\s-]*`. */
  predicate Separators(x: string) {
    forall i :: 0 <= i < |x| ==> x[i] == '_' || x[i] == '-' || IsSpace(x[i])
  }

  predicate AllSpaces(w: string) {
    forall i :: 0 <= i < |w| ==> IsSpace(w[i])
  }

  /** `r`, up to `$`, is separators, `s` or `season`, whitespace and the digits `d`. */
  ghost predicate IsSeasonMarker(r: string, d: string) {
    exists x, k, w :: Separators(x) && IsSeasonKey(k) && AllSpaces(w)
      && IsDigits(d) && BeforeEnd(r) == x + k + w + d
  }

  /** The `s` or `season` the marker needs right before the whitespace and digits. */
  predicate EndsInSeasonKey(rest: string) {
    || (|rest| >= 6 && IsSeasonWord(rest[|rest| - 6..]) && Separators(rest[..|rest| - 6]))
    || (|rest| >= 1 && IsS(rest[|rest| - 1]) && Separators(rest[..|rest| - 1]))
  }

  /**
   * The digits the season marker captures when it matches all of `r` up to `$`. The digits
   * run to the end, and what precedes them is fixed by the fact that `s` and `season` end in a
   * letter that is neither a digit nor whitespace.
   */
  function SeasonMarker(r: string): (m: Option<string>)
    ensures m.Some? ==> IsDigits(m.value)
  {
    var body := BeforeEnd(r);
    var d := TrailingDigits(body);
    if |d| > 0 && EndsInSeasonKey(TrimEnd(body[..|body| - |d|], IsSpace)) then Some(d) else None
  }

  lemma MarkerOf(r: string, x: string, k: string, w: string, d: string)
    requires Separators(x) && IsSeasonKey(k) && AllSpaces(w)
    requires IsDigits(d) && BeforeEnd(r) == x + k + w + d
    ensures IsSeasonMarker(r, d)
  {
  }

  /** Text that `EndsInSeasonKey` accepts splits into separators and a key. */
  lemma SplitSeasonKey(rest: string) returns (x: string, k: string)
    requires EndsInSeasonKey(rest)
    ensures Separators(x) && IsSeasonKey(k) && rest == x + k
  {
    if |rest| >= 6 && IsSeasonWord(rest[|rest| - 6..]) && Separators(rest[..|rest| - 6]) {
      x, k := rest[..|rest| - 6], rest[|rest| - 6..];
    } else {
      x, k := rest[..|rest| - 1], rest[|rest| - 1..];
    }
    assert rest == x + k;
  }

  /** What `SeasonMarker` captures is a way of matching the marker. */
  lemma SeasonMarkerSound(r: string)
    requires SeasonMarker(r).Some?
    ensures IsSeasonMarker(r, SeasonMarker(r).value)
  {
    var body := BeforeEnd(r);
    var d := TrailingDigits(body);
    var pre := body[..|body| - |d|];
    var rest := TrimEnd(pre, IsSpace);
    var w := pre[|rest|..];
    assert pre == rest + w;
    assert body == pre + d;
    assert AllSpaces(w);
    var x, k := SplitSeasonKey(rest);
    MarkerOf(r, x, k, w, d);
  }

  lemma {:induction false} TrailingDigitsFrom(s: string, k: nat)
    requires k <= |s| && AllDigits(s[k..]) && (k == 0 || !IsDigit(s[k - 1]))
    ensures TrailingDigits(s) == s[k..]
    decreases |s|
  {
    if k < |s| {
      var init := s[..|s| - 1];
      assert init[k..] == s[k..|s| - 1];
      assert AllDigits(init[k..]) by {
        forall i | 0 <= i < |init[k..]| ensures IsDigit(init[k..][i]) {
          assert init[k..][i] == s[k..][i];
        }
      }
      TrailingDigitsFrom(init, k);
      assert s[k..] == init[k..] + [s[|s| - 1]];
    }
  }

  lemma TrailingDigitsAfter(pre: string, d: string)
    requires AllDigits(d) && (pre == [] || !IsDigit(pre[|pre| - 1]))
    ensures TrailingDigits(pre + d) == d
  {
    var s := pre + d;
    assert s[|pre|..] == d;
    TrailingDigitsFrom(s, |pre|);
  }

  lemma {:induction false} TrimEndAfter(u: string, w: string)
    requires AllSpaces(w) && u != [] && !IsSpace(u[|u| - 1])
    ensures TrimEnd(u + w, IsSpace) == u
    decreases |w|
  {
    if w == [] {
      assert u + w == u;
    } else {
      var init := w[..|w| - 1];
      TrimEndAfter(u, init);
      assert (u + w)[..|u + w| - 1] == u + init;
    }
  }

  /** A key ends in a letter, which is neither a digit nor whitespace. */
  lemma KeyEndsInLetter(x: string, k: string, w: string)
    requires IsSeasonKey(k) && AllSpaces(w)
    ensures var u := x + k; u != [] && !IsSpace(u[|u| - 1]) && !IsDigit((u + w)[|u + w| - 1])
  {
    var u := x + k;
    assert u[|u| - 1] == k[|k| - 1];
    if |w| > 0 {
      assert (u + w)[|u + w| - 1] == w[|w| - 1];
    }
  }

  /** Separators followed by a key end in that key. */
  lemma KeyAtEnd(x: string, k: string)
    requires Separators(x) && IsSeasonKey(k)
    ensures EndsInSeasonKey(x + k)
  {
    var u := x + k;
    if IsSeasonWord(k) {
      assert u[|u| - 6..] == k && u[..|u| - 6] == x;
    } else {
      assert u[|u| - 1] == k[0] && u[..|u| - 1] == x;
    }
  }

  /** Whatever way `r` is a season marker, `SeasonMarker` finds it and captures the same digits. */
  lemma SeasonMarkerComplete(r: string, d: string)
    requires IsSeasonMarker(r, d)
    ensures SeasonMarker(r) == Some(d)
  {
    var x, k, w :| Separators(x) && IsSeasonKey(k) && AllSpaces(w)
      && IsDigits(d) && BeforeEnd(r) == x + k + w + d;
    var body := BeforeEnd(r);
    var u := x + k;
    var pre := u + w;
    KeyEndsInLetter(x, k, w);
    TrailingDigitsAfter(pre, d);
    assert body[..|body| - |d|] == pre;
    TrimEndAfter(u, w);
    KeyAtEnd(x, k);
  }

  /** The marker matches exactly where `SeasonMarker` says it does, and captures what it says. */
  lemma SeasonMarkerExact(r: string, d: string)
    ensures SeasonMarker(r) == Some(d) <==> IsSeasonMarker(r, d)
  {
    if SeasonMarker(r) == Some(d) {
      SeasonMarkerSound(r);
    }
    if IsSeasonMarker(r, d) {
      SeasonMarkerComplete(r, d);
    }
  }

  /** The two groups of the folder-name regex: the query and the season digits, if any. */
  datatype QueryMatch = QueryMatch(query: string, digits: Option<string>)

  /** The lazy `(.+?)` tries the optional marker, then `$`, after `n` characters. */
  predicate Fits(t: string, n: nat, marker: string -> Option<string>)
    requires n <= |t|
  {
    marker(t[n..]).Some? || AtEnd(t[n..])
  }

  function LazyFrom(t: string, n: nat, marker: string -> Option<string>): Option<QueryMatch>
    requires 1 <= n <= |t|
    decreases |t| - n
  {
    if t[n - 1] == '\n' then None
    else match marker(t[n..])
      case Some(d) => Some(QueryMatch(t[..n], Some(d)))
      case None =>
        if AtEnd(t[n..]) then Some(QueryMatch(t[..n], None))
        else if n < |t| then LazyFrom(t, n + 1, marker)
        else None
  }

  /** `re.match` of `(.+?)(?:marker)?$` on `t`, with the marker given by `marker`. */
  function MatchQuery(t: string, marker: string -> Option<string>): Option<QueryMatch> {
    if t == [] then None else LazyFrom(t, 1, marker)
  }

  lemma {:induction false} LazyFromShortest(t: string, n: nat, marker: string -> Option<string>)
    requires 1 <= n <= |t| && '\n' !in t[..n - 1]
    ensures var r := LazyFrom(t, n, marker);
      r.Some? ==>
        && n <= |r.value.query| <= |t| && r.value.query == t[..|r.value.query|]
        && '\n' !in r.value.query
        && (r.value.digits.Some? ==> marker(t[|r.value.query|..]) == r.value.digits)
        && (r.value.digits.None? ==> marker(t[|r.value.query|..]).None? && AtEnd(t[|r.value.query|..]))
        && forall m :: n <= m < |r.value.query| ==> !Fits(t, m, marker)
    ensures LazyFrom(t, n, marker).None? ==>
      forall m :: n <= m <= |t| && '\n' !in t[..m] ==> !Fits(t, m, marker)
    decreases |t| - n
  {
    if t[n - 1] != '\n' {
      assert t[..n] == t[..n - 1] + [t[n - 1]];
      if marker(t[n..]).None? && !AtEnd(t[n..]) && n < |t| {
        LazyFromShortest(t, n + 1, marker);
        forall m | n <= m <= |t| && '\n' !in t[..m] && m != n ensures m >= n + 1 { }
        var r := LazyFrom(t, n + 1, marker);
        if r.Some? {
          forall m | n <= m < |r.value.query| ensures !Fits(t, m, marker) {
          }
        }
      }
    }
  }

  /**
   * The query is the shortest non-empty prefix, without a newline, after which the rest of the
   * name is a season marker or the end; the digits are those of that marker. No match means
   * no prefix qualifies.
   */
  lemma MatchQueryShortest(t: string, marker: string -> Option<string>)
    ensures var r := MatchQuery(t, marker);
      r.Some? ==>
        && 1 <= |r.value.query| <= |t| && r.value.query == t[..|r.value.query|]
        && '\n' !in r.value.query
        && (r.value.digits.Some? ==> marker(t[|r.value.query|..]) == r.value.digits)
        && (r.value.digits.None? ==> marker(t[|r.value.query|..]).None? && AtEnd(t[|r.value.query|..]))
        && forall m :: 1 <= m < |r.value.query| ==> !Fits(t, m, marker)
    ensures MatchQuery(t, marker).None? ==>
      forall m :: 1 <= m <= |t| && '\n' !in t[..m] ==> !Fits(t, m, marker)
  {
    if t != [] {
      LazyFromShortest(t, 1, marker);
    }
  }

  /** The query and season `get_ani_info` reads from a folder name when no AI is called. */
  datatype FolderQuery = FolderQuery(query: string, season: int)

  /**
   * Query and season from the folder stem; `TypeError` where the regex does not match, since
   * `None[1]` raises: an empty stripped name, or one whose first newline past the first
   * character neither ends it nor starts a season marker that runs to its end.
   */
  function ReadFolderName(stem: string): (r: Result<FolderQuery, PyError>)
    ensures r.Ok? <==> MatchQuery(StripTags(stem), SeasonMarker).Some?
    ensures r.Ok? ==>
      var m := MatchQuery(StripTags(stem), SeasonMarker).value;
      && r.value.query == m.query
      && (m.digits.None? ==> r.value.season == 1)
      && (m.digits.Some? ==> IsDigits(m.digits.value) && r.value.season == DecimalValue(m.digits.value))
  {
    match MatchQuery(StripTags(stem), SeasonMarker)
    case None => Err(TypeError)
    case Some(m) =>
      var season := if m.digits.Some? then SeasonDigits(StripTags(stem), m) else 1;
      Ok(FolderQuery(m.query, season))
  }

  function SeasonDigits(t: string, m: QueryMatch): (v: nat)
    requires MatchQuery(t, SeasonMarker) == Some(m) && m.digits.Some?
    ensures IsDigits(m.digits.value) && v == DecimalValue(m.digits.value)
  {
    MatchQueryShortest(t, SeasonMarker);
    DecimalValue(m.digits.value)
  }

  // ---------------------------------------------------------------------------------------------
  // the chosen search result

  /** The fields of a search result the sorter reads; `None` is a missing key or a null. */
  datatype Listing = Listing(
    name: Option<string>, title: Option<string>,
    firstAirDate: Option<string>, releaseDate: Option<string>)

  /** Python truthiness of an optional string. */
  predicate Truthy(o: Option<string>) {
    o.Some? && o.value != ""
  }

  /** Python's `a or b`. */
  function Or(a: Option<string>, b: Option<string>): Option<string> {
    if Truthy(a) then a else b
  }

  const UnknownYear: string := "年份未知"

  /**
   * `(first_air_date or release_date or "年份未知").split("-")[0]`: the text before the first
   * dash of the first non-empty date, or the unknown-year marker.
   */
  function Year(l: Listing): (r: string)
    ensures '-' !in r
    ensures Truthy(l.firstAirDate) ==>
      (|r| <= |l.firstAirDate.value| && r == l.firstAirDate.value[..|r|]
       && (|r| == |l.firstAirDate.value| || l.firstAirDate.value[|r|] == '-'))
    ensures !Truthy(l.firstAirDate) && Truthy(l.releaseDate) ==>
      (|r| <= |l.releaseDate.value| && r == l.releaseDate.value[..|r|]
       && (|r| == |l.releaseDate.value| || l.releaseDate.value[|r|] == '-'))
    ensures !Truthy(l.firstAirDate) && !Truthy(l.releaseDate) ==> r == UnknownYear
  {
    Before(Or(Or(l.firstAirDate, l.releaseDate), Some(UnknownYear)).value, '-')
  }

  /** `info.get("name") or info.get("title")`: the title stands in for a missing or empty name. */
  function SeriesName(l: Listing): (r: Option<string>)
    ensures Truthy(l.name) ==> r == l.name
    ensures !Truthy(l.name) ==> r == l.title
  {
    Or(l.name, l.title)
  }
}
