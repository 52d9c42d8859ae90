/**
 * `AniSort.normalize` and the values `AniSort.__init__` prepares for it in `ani_sort/core.py`:
 * the series folder name, the output folder, the release group and the source-to-destination
 * table.
 */
module Composer {
  import opened Results
  import opened Strings
  import opened Paths
  import opened Utils
  import opened Metadata
  import opened Parser
  import opened Templates
  import opened Tables

  /** Subtitle language aliases and the tag each one puts before `.ass`. */
  function SuffixMap(): map<string, string> {
    map[
      "chs" := ".zh-CN", "sc" := ".zh-CN", "jpsc" := ".zh-CN", "scjp" := ".zh-CN",
      "cht" := ".zh-TW", "tc" := ".zh-TW", "jptc" := ".zh-TW", "tcjp" := ".zh-TW"]
  }

  /** `str(x)` of an optional string: `None` prints as `None`. */
  function Show(o: Option<string>): string {
    if o.Some? then o.value else "None"
  }

  /** `dict.get(k, default)`. */
  function Get(m: map<string, string>, k: string, default: string): string {
    if k in m then m[k] else default
  }

  /** The language tag of a subtitle: that of the alias after the stem's last dot, if known. */
  function Language(stem: string): (lang: string)
    ensures lang == "" || lang == ".zh-CN" || lang == ".zh-TW"
  {
    var alias := Lower(AfterLast(stem, '.'));
    SuffixMapTags(alias);
    Get(SuffixMap(), alias, "")
  }

  /** The aliases `SUFFIX_MAP` gives the simplified-Chinese tag. */
  predicate SimplifiedAlias(a: string) {
    a == "chs" || a == "sc" || a == "jpsc" || a == "scjp"
  }

  /** The aliases `SUFFIX_MAP` gives the traditional-Chinese tag. */
  predicate TraditionalAlias(a: string) {
    a == "cht" || a == "tc" || a == "jptc" || a == "tcjp"
  }

  /** `SUFFIX_MAP.get(a, "")`: the simplified aliases, the traditional ones, and nothing else. */
  lemma SuffixMapTags(a: string)
    ensures Get(SuffixMap(), a, "") == ".zh-CN" <==> SimplifiedAlias(a)
    ensures Get(SuffixMap(), a, "") == ".zh-TW" <==> TraditionalAlias(a)
    ensures Get(SuffixMap(), a, "") == "" <==> !SimplifiedAlias(a) && !TraditionalAlias(a)
  {
  }

  /**
   * The language of `show.alias`, for an alias without a dot: the alias is lower-cased and
   * looked up, so its case does not matter.
   */
  lemma AliasTag(show: string, alias: string)
    requires '.' !in alias
    ensures Language(show + "." + alias) == ".zh-CN" <==> SimplifiedAlias(Lower(alias))
    ensures Language(show + "." + alias) == ".zh-TW" <==> TraditionalAlias(Lower(alias))
    ensures Language(show + "." + alias) == "" <==> !SimplifiedAlias(Lower(alias)) && !TraditionalAlias(Lower(alias))
  {
    AfterLastOfJoined(show, '.', alias);
    assert show + "." + alias == show + ['.'] + alias;
    SuffixMapTags(Lower(alias));
  }

  /**
   * The language of a stem with no dot at all: `split(".")[-1]` is then the whole stem, so a
   * subtitle named `chs.ass` is tagged too.
   */
  lemma BareAliasTag(alias: string)
    requires '.' !in alias
    ensures Language(alias) == ".zh-CN" <==> SimplifiedAlias(Lower(alias))
    ensures Language(alias) == ".zh-TW" <==> TraditionalAlias(Lower(alias))
    ensures Language(alias) == "" <==> !SimplifiedAlias(Lower(alias)) && !TraditionalAlias(Lower(alias))
  {
    assert AfterLast(alias, '.') == alias;
    SuffixMapTags(Lower(alias));
  }

  predicate Forced(t: string) {
    |t| >= 7 && t[|t| - 7..] == ".forced"
  }

  /**
   * The tag a subtitle gets: its language, followed by `.forced` exactly when that language is
   * the preferred script (traditional when `trad` holds).
   */
  function SubtitleTag(stem: string, trad: bool): (t: string)
    ensures t == Language(stem) || t == Language(stem) + ".forced"
    ensures Forced(t) <==> (Language(stem) == ".zh-TW" && trad) || (Language(stem) == ".zh-CN" && !trad)
  {
    var lang := Language(stem);
    if (lang == ".zh-TW" && trad) || (lang == ".zh-CN" && !trad) then
      assert (lang + ".forced")[|lang|..] == ".forced";
      lang + ".forced"
    else
      assert !Forced(lang) by {
        assert |lang| < 7;
      }
      lang
  }

  /** The series name, `{name} ({date})`, with full-width `：` and `？` for `:` and `?`. */
  function AniName(name: Option<string>, year: string): (r: string)
    ensures |r| == |Show(name)| + |year| + 3
    ensures ':' !in r && '?' !in r
    ensures forall i :: 0 <= i < |r| ==> r[i] == FullWidth((Show(name) + " (" + year + ")")[i])
  {
    Replace(Replace(Show(name) + " (" + year + ")", ':', '：'), '?', '？')
  }

  function FullWidth(c: char): char {
    if c == ':' then '：' else if c == '?' then '？' else c
  }

  /** The character `rstrip('/')` removes. */
  predicate IsSlash(c: char) {
    c == '/'
  }

  /**
   * The output folder as `__init__` builds it: `str(parent_dir).rstrip('/')`, then the
   * sanitized series name. With no output folder given, `str(None)` puts the series under a
   * relative folder named `None`.
   */
  function ParentDirAsWritten(outputDir: Option<string>, aniName: string): string {
    TrimEnd(Show(outputDir), IsSlash) + "/" + SanitizeFilename(aniName)
  }

  /** The output folder with the configured default standing in for a missing or empty one. */
  function ParentDir(outputDir: Option<string>, defaultOutput: string, aniName: string): (r: string)
    ensures var b := TrimEnd(if Truthy(outputDir) then outputDir.value else defaultOutput, IsSlash);
      && |r| == |b| + 1 + |aniName| && r[..|b| + 1] == b + "/"
      && r[|b| + 1..] == SanitizeFilename(aniName)
      && var tail := r[|b| + 1..]; forall i :: 0 <= i < |tail| ==> !Unsafe(tail[i])
  {
    var base := if Truthy(outputDir) then outputDir.value else defaultOutput;
    SanitizeSafe(aniName);
    TrimEnd(base, IsSlash) + "/" + SanitizeFilename(aniName)
  }

  /** `str(parent_dir)` of a missing or empty output folder: `None`, or the empty string. */
  function AbsentBase(outputDir: Option<string>): string {
    if outputDir.None? then "None" else ""
  }

  /** `None` does not end in `/`, so `rstrip('/')` keeps it. */
  lemma NoTrailingSlash()
    ensures TrimEnd("None", IsSlash) == "None"
  {
    assert !IsSlash("None"[3]);
  }

  /** Two folders with different bases never coincide, whatever follows the `/`. */
  lemma DistinctBases(a: string, b: string, name: string)
    requires a != b
    ensures a + "/" + name != b + "/" + name
  {
    if |a| == |b| {
      var i :| 0 <= i < |a| && a[i] != b[i];
      assert (a + "/" + name)[i] == a[i] && (b + "/" + name)[i] == b[i];
    }
  }

  /**
   * With no output folder the code as written files everything under `None/`, and with an
   * empty one under `/`; the corrected folder is under the default one, so the two differ
   * whenever the default is neither of those.
   */
  lemma ParentDirWithoutOutput(outputDir: Option<string>, defaultOutput: string, aniName: string)
    requires !Truthy(outputDir)
    ensures ParentDirAsWritten(outputDir, aniName) == AbsentBase(outputDir) + "/" + SanitizeFilename(aniName)
    ensures ParentDir(outputDir, defaultOutput, aniName) == TrimEnd(defaultOutput, IsSlash) + "/" + SanitizeFilename(aniName)
    ensures TrimEnd(defaultOutput, IsSlash) != AbsentBase(outputDir) ==>
      ParentDirAsWritten(outputDir, aniName) != ParentDir(outputDir, defaultOutput, aniName)
  {
    NoTrailingSlash();
    var name := SanitizeFilename(aniName);
    if TrimEnd(defaultOutput, IsSlash) != AbsentBase(outputDir) {
      DistinctBases(TrimEnd(defaultOutput, IsSlash), AbsentBase(outputDir), name);
    }
  }

  /** Everything a run fixes before any file is named. */
  datatype Run = Run(
    rules: seq<Rule>, season: int, aniName: string, group: Option<string>, parentDir: string,
    ignoreExts: set<string>, trad: bool)

  /** The quote characters `__init__` strips from both ends of a path given as a string. */
  predicate IsQuote(c: char) {
    c == '"' || c == '\''
  }

  /** A path pasted between quotes is read as the path itself. */
  lemma StripQuotes(q: char, folder: string)
    requires IsQuote(q)
    requires folder == [] || (!IsQuote(folder[0]) && !IsQuote(folder[|folder| - 1]))
    ensures Strip([q] + (folder + [q]), IsQuote) == folder
  {
    TrimStartSkips(q, folder + [q], IsQuote);
    if folder == [] {
      TrimStartSkips(q, [], IsQuote);
      assert [q] + [] == folder + [q];
    } else {
      assert TrimStart(folder + [q], IsQuote) == folder + [q];
      TrimEndSkips(folder, q, IsQuote);
    }
  }

  /**
   * The run `__init__` sets up for a folder path given as a string, given what the metadata
   * lookup resolved for it: its name and year, and the season.
   */
  function NewRun(
    path: string, name: Option<string>, year: string, season: int, outputDir: Option<string>,
    defaultOutput: string, rules: seq<Rule>, ignoreExts: set<string>, trad: bool): (r: Run)
    ensures r.rules == rules && r.season == season && r.ignoreExts == ignoreExts && r.trad == trad
    ensures var stem := Stem(Name(Strip(path, IsQuote)));
      && (r.group.None? <==> CandidatesFrom(stem, 0) == [])
      && (r.group.Some? ==> r.group.value == CandidatesFrom(stem, 0)[0])
    ensures r.aniName == AniName(name, year) && ':' !in r.aniName && '?' !in r.aniName
    ensures r.parentDir == ParentDir(outputDir, defaultOutput, r.aniName)
  {
    var folder := Strip(path, IsQuote);
    var aniName := AniName(name, year);
    Run(rules, season, aniName, ExtractGroups(Stem(Name(folder))).group,
        ParentDir(outputDir, defaultOutput, aniName), ignoreExts, trad)
  }

  /** A template is truthy when it is present and its text is not empty. */
  predicate TemplateTruthy(t: Option<seq<Piece>>) {
    t.Some? && exists i :: 0 <= i < |t.value| && (t.value[i].Field? || t.value[i].text != "")
  }

  predicate StripChar(c: char) {
    c == ' ' || c == '[' || c == ']'
  }

  /** The fields `normalize` supplies to a template. */
  function Fields(run: Run, p: Parsed): (m: map<string, string>)
    ensures m.Keys == {"ani_name", "raw_match", "season", "episode", "group"}
    ensures m["raw_match"] == if p.rule.kind == Label then Strip(p.rawMatch, StripChar) else p.rawMatch
    ensures m["ani_name"] == run.aniName && m["group"] == Show(run.group)
    ensures m["season"] == p.season && m["episode"] == p.episode
  {
    map["ani_name" := run.aniName,
        "raw_match" := if p.rule.kind == Label then Strip(p.rawMatch, StripChar) else p.rawMatch,
        "season" := p.season, "episode" := p.episode, "group" := Show(run.group)]
  }

  /** The extension a matched file keeps, with the subtitle tag in front of `.ass`. */
  function DestSuffix(name: string, trad: bool): (s: string)
    ensures Lower(Suffix(name)) != ".ass" ==> s == Lower(Suffix(name))
    ensures Lower(Suffix(name)) == ".ass" ==> s == SubtitleTag(Stem(name), trad) + ".ass"
  {
    var suffix := Lower(Suffix(name));
    if suffix == ".ass" then SubtitleTag(Stem(name), trad) + suffix else suffix
  }

  /** Where a file goes once parsing has decided whether and by which rule it matched. */
  function Compose(run: Run, name: string, parsed: Option<Parsed>): Result<string, PyError> {
    if parsed.Some? && TemplateTruthy(parsed.value.rule.template) then
      var suffix := DestSuffix(name, run.trad);
      if suffix in run.ignoreExts then Ok(Ignore)
      else
        var body :- Render(parsed.value.rule.template.value, Fields(run, parsed.value));
        Ok(run.parentDir + "/" + body + suffix)
    else if Lower(Suffix(name)) in run.ignoreExts then Ok(Ignore)
    else Ok(run.parentDir + "/Unknown_Files/" + name)
  }

  /** `normalize(path)`: the destination of a file, `"ignore"`, or the exception raised. */
  function Normalize(run: Run, path: string): Result<string, PyError> {
    var parsed :- Parse(run.rules, run.season, Name(path));
    Compose(run, Name(path), parsed)
  }

  /**
   * A file that no rule names, or whose rule has no template, goes by its extension alone:
   * to `"ignore"` when its lower-cased extension is ignored, else to `Unknown_Files` under
   * the output folder, keeping its name.
   */
  lemma NormalizeUnmatched(run: Run, path: string)
    requires var p := Parse(run.rules, run.season, Name(path));
      p.Ok? && (p.value.None? || !TemplateTruthy(p.value.value.rule.template))
    ensures Lower(Suffix(Name(path))) in run.ignoreExts ==> Normalize(run, path) == Ok(Ignore)
    ensures Lower(Suffix(Name(path))) !in run.ignoreExts ==>
      Normalize(run, path) == Ok(run.parentDir + "/Unknown_Files/" + Name(path))
  {
  }

  /**
   * A matched file with a template goes to `"ignore"` when its final extension is ignored, and
   * otherwise under the output folder as the rendered template followed by that extension.
   */
  lemma NormalizeMatched(run: Run, path: string)
    requires var p := Parse(run.rules, run.season, Name(path));
      p.Ok? && p.value.Some? && TemplateTruthy(p.value.value.rule.template)
    ensures var p := Parse(run.rules, run.season, Name(path)).value.value;
      var suffix := DestSuffix(Name(path), run.trad);
      var body := Render(p.rule.template.value, Fields(run, p));
      && (suffix in run.ignoreExts ==> Normalize(run, path) == Ok(Ignore))
      && (suffix !in run.ignoreExts && body.Ok? ==>
            Normalize(run, path) == Ok(run.parentDir + "/" + body.value + suffix))
      && (suffix !in run.ignoreExts && body.Err? ==> Normalize(run, path) == Err(KeyError))
  {
    var p := Parse(run.rules, run.season, Name(path)).value.value;
    var body := Render(p.rule.template.value, Fields(run, p));
    if body.Err? {
      RenderError(p.rule.template.value, Fields(run, p));
    }
  }

  /** Every destination `Compose` gives, other than the sentinel, lies under the output folder. */
  lemma ComposeUnderParent(run: Run, name: string, parsed: Option<Parsed>)
    requires Compose(run, name, parsed).Ok?
    ensures var d := Compose(run, name, parsed).value; d == Ignore || Under(run.parentDir, d)
  {
    if parsed.Some? && TemplateTruthy(parsed.value.rule.template) {
      var suffix := DestSuffix(name, run.trad);
      if suffix !in run.ignoreExts {
        var body := ComposeMatched(run, name, parsed.value);
        UnderJoin(run.parentDir, "/", body);
        UnderExtend(run.parentDir, run.parentDir + "/" + body, suffix);
      }
    } else if Lower(Suffix(name)) !in run.ignoreExts {
      UnderJoin(run.parentDir, "/Unknown_Files/", name);
    }
  }

  /** A file its rule renders goes to the output folder, `/`, the rendering and the extension. */
  lemma ComposeMatched(run: Run, name: string, p: Parsed) returns (body: string)
    requires TemplateTruthy(p.rule.template) && DestSuffix(name, run.trad) !in run.ignoreExts
    requires Compose(run, name, Some(p)).Ok?
    ensures Compose(run, name, Some(p)).value == run.parentDir + "/" + body + DestSuffix(name, run.trad)
  {
    var rendered := Render(p.rule.template.value, Fields(run, p));
    assert rendered.Ok?;
    body := rendered.value;
  }

  /** Every destination other than the sentinel lies under the output folder. */
  lemma NormalizeUnderParent(run: Run, path: string)
    requires Normalize(run, path).Ok?
    ensures var d := Normalize(run, path).value; d == Ignore || Under(run.parentDir, d)
  {
    ComposeUnderParent(run, Name(path), Parse(run.rules, run.season, Name(path)).value);
  }

  /** The last `c` of `s + [c] + e` is the one after `s` when `e` has none. */
  lemma {:induction false} LastIndexOfJoined(s: string, c: char, e: string)
    requires c !in e
    ensures LastIndex(s + [c] + e, c) == |s|
    decreases |e|
  {
    if e != [] {
      var init := e[..|e| - 1];
      LastIndexOfJoined(s, c, init);
      assert (s + [c] + e)[..|s + [c] + e| - 1] == s + [c] + init;
    }
  }

  /** The text after the last `c` of `s + [c] + e` is `e` when `e` has no `c`. */
  lemma {:induction false} AfterLastOfJoined(s: string, c: char, e: string)
    requires c !in e
    ensures AfterLast(s + [c] + e, c) == e
    decreases |e|
  {
    if e != [] {
      var init := e[..|e| - 1];
      AfterLastOfJoined(s, c, init);
      assert (s + [c] + e)[..|s + [c] + e| - 1] == s + [c] + init;
      assert e == init + [e[|e| - 1]];
    }
  }

  /** An extension `e` (a dot, then no dot) appended to `s`: its dot is the last one. */
  predicate Extension(e: string) {
    |e| >= 2 && e[0] == '.' && '.' !in e[1..]
  }

  lemma Appended(s: string, e: string)
    requires |e| >= 1 && e[0] == '.' && '.' !in e[1..]
    ensures LastIndex(s + e, '.') == |s| && AfterLast(s + e, '.') == e[1..]
  {
    var t := e[1..];
    assert e == ['.'] + t;
    assert s + e == s + ['.'] + t;
    LastIndexOfJoined(s, '.', e[1..]);
    AfterLastOfJoined(s, '.', e[1..]);
  }

  /** `s + e` has the suffix `e` and the stem `s` when `e` is an extension. */
  lemma SuffixOfDotted(s: string, e: string)
    requires |s| > 0 && Extension(e)
    ensures Suffix(s + e) == e && Stem(s + e) == s
  {
    Appended(s, e);
    assert (s + e)[|s|..] == e && (s + e)[..|s|] == s;
  }

  /** The alias of `show.alias` is `alias`, lower-cased. */
  lemma AliasOf(show: string, alias: string)
    requires |alias| >= 1 && alias[0] == '.' && '.' !in alias[1..]
    ensures Lower(AfterLast(show + alias, '.')) == Lower(alias[1..])
  {
    Appended(show, alias);
  }

  lemma ExampleAliases()
    ensures Lower(".chs"[1..]) == "chs" && Lower(".CHT"[1..]) == "cht"
  {
    var a, b := Lower(".chs"[1..]), Lower(".CHT"[1..]);
    assert a[0] == 'c' && a[1] == 'h' && a[2] == 's';
    assert b[0] == 'c' && b[1] == 'h' && b[2] == 't';
  }

  lemma AliasLanguages(show: string)
    ensures Language(show + ".chs") == ".zh-CN" && Language(show + ".CHT") == ".zh-TW"
  {
    AliasOf(show, ".chs");
    AliasOf(show, ".CHT");
    ExampleAliases();
    SuffixMapTags("chs");
    SuffixMapTags("cht");
  }

  lemma ExampleExtensions()
    ensures Extension(".ASS") && Extension(".ass")
    ensures Lower(".ASS") == ".ass" && Lower(".ass") == ".ass"
    ensures ".ASS" != ".ass"
  {
    var a, b := Lower(".ASS"), Lower(".ass");
    assert a[0] == '.' && a[1] == 'a' && a[2] == 's' && a[3] == 's';
    assert b[0] == '.' && b[1] == 'a' && b[2] == 's' && b[3] == 's';
    assert ".ASS"[1] != ".ass"[1];
  }

  /** A file named `stem` plus an extension that lower-cases to `.ass` keeps `.ass` behind the tag of its stem. */
  lemma TaggedSuffix(stem: string, ext: string, trad: bool)
    requires |stem| > 0 && Extension(ext) && Lower(ext) == ".ass"
    ensures DestSuffix(stem + ext, trad) == SubtitleTag(stem, trad) + ".ass"
  {
    SuffixOfDotted(stem, ext);
  }

  /** The tag of a subtitle whose language is known, for either preference. */
  lemma TagOfLanguage(stem: string, trad: bool)
    requires Language(stem) != ""
    ensures Language(stem) == ".zh-CN" ==> SubtitleTag(stem, trad) == if trad then ".zh-CN" else ".zh-CN" + ".forced"
    ensures Language(stem) == ".zh-TW" ==> SubtitleTag(stem, trad) == if trad then ".zh-TW" + ".forced" else ".zh-TW"
  {
    var lang := Language(stem);
    assert ".zh-CN" != ".zh-TW" by {
      assert ".zh-CN"[4] != ".zh-TW"[4];
    }
    if lang == ".zh-CN" {
      assert SubtitleTag(stem, trad) == if trad then lang else lang + ".forced";
    } else {
      assert SubtitleTag(stem, trad) == if trad then lang + ".forced" else lang;
    }
  }

  /**
   * Whatever the episode's name, a simplified-Chinese subtitle is forced unless traditional
   * is preferred.
   */
  lemma SimplifiedSubtitle(show: string)
    ensures DestSuffix(show + ".chs" + ".ass", false) == ".zh-CN" + ".forced" + ".ass"
    ensures DestSuffix(show + ".chs" + ".ass", true) == ".zh-CN" + ".ass"
  {
    AliasLanguages(show);
    ExampleExtensions();
    var s1 := show + ".chs";
    TaggedSuffix(s1, ".ass", false);
    TaggedSuffix(s1, ".ass", true);
    TagOfLanguage(s1, false);
    TagOfLanguage(s1, true);
  }

  /**
   * A traditional-Chinese subtitle is forced when traditional is preferred, whatever the case
   * of its alias and extension.
   */
  lemma TraditionalSubtitle(show: string)
    ensures DestSuffix(show + ".CHT" + ".ASS", true) == ".zh-TW" + ".forced" + ".ass"
  {
    AliasLanguages(show);
    ExampleExtensions();
    var s2 := show + ".CHT";
    TaggedSuffix(s2, ".ASS", true);
    TagOfLanguage(s2, true);
  }

  /** The table `__init__` builds: each file found, mapped by `normalize`. */
  function RunTable(run: Run, files: seq<string>): (r: Result<Table, PyError>)
    ensures r.Ok? <==> forall i :: 0 <= i < |files| ==> Normalize(run, files[i]).Ok?
    ensures r.Ok? ==> WellFormed(r.value) && forall f :: f in r.value.dest <==> f in files
    ensures r.Ok? ==> forall f :: f in r.value.dest ==> Normalize(run, f) == Ok(r.value.dest[f])
  {
    BuildTable(files, f => Normalize(run, f))
  }
}
