/**
 * The single-file `ani_sort.py`, the older copy of the sorter: its `parse`, `normalize`,
 * `move_files`, its output folder and the non-network part of its `get_ani_info`.
 *
 * It differs from the package in these places:
 * - the parse result names the episode `match_2`, and the template gets `match_1` and
 *   `match_2` where the package's gets `episode` and `group`;
 * - `normalize` tests `.ass` without lower-casing the extension and has no `"ignore"` sentinel;
 * - the output folder falls back to the default one;
 * - the season marker of a folder name is only `_s` and digits;
 * - the year is read from the first-air date alone, and an empty year becomes the
 *   unknown-year marker (the package falls back to the release date first);
 * - the series name is `info["name"]`, with no fallback to the title.
 * Its `get_all_files` is the same code as that of `ani_sort/utils.py`, and its
 * `sanitize_filename` comes from a top-level `utils` module that is not part of this model;
 * the package's `SanitizeFilename` stands in for it.
 */
module Legacy {
  import opened Results
  import opened Strings
  import opened Paths
  import opened Utils
  import opened Metadata
  import opened Parser
  import opened Templates
  import opened Tables
  import opened Composer
  import opened Linker

  // ---------------------------------------------------------------------------------------------
  // get_ani_info without AI: re.match(r"(?i)(.+?)(?:_s(\d+)){0,1}$", stripped)

  /** The legacy season marker `_s` and digits, `s` in either case, up to `$`. */
  function LegacySeasonMarker(r: string): (m: Option<string>)
    ensures m.Some? ==>
      && IsDigits(m.value) && |BeforeEnd(r)| == |m.value| + 2
      && BeforeEnd(r) == ['_', BeforeEnd(r)[1]] + m.value && IsS(BeforeEnd(r)[1])
  {
    var body := BeforeEnd(r);
    var d := TrailingDigits(body);
    if |d| > 0 && |body| == |d| + 2 && body[0] == '_' && IsS(body[1]) then
      assert body == ['_', body[1]] + d;
      Some(d)
    else None
  }

  /** Every text of the marker's shape is recognised, with its digits. */
  lemma LegacySeasonMarkerComplete(r: string, c: char, d: string)
    requires IsS(c) && IsDigits(d) && BeforeEnd(r) == ['_', c] + d
    ensures LegacySeasonMarker(r) == Some(d)
  {
    TrailingDigitsAfter(['_', c], d);
  }

  /**
   * Query and season from the folder stem, the season being that of a trailing `_s<N>` or 1;
   * `TypeError` where the regex does not match.
   */
  function LegacyReadFolderName(stem: string): (r: Result<FolderQuery, PyError>)
    ensures r.Ok? <==> MatchQuery(StripTags(stem), LegacySeasonMarker).Some?
    ensures r.Ok? ==>
      var m := MatchQuery(StripTags(stem), LegacySeasonMarker).value;
      && r.value.query == m.query
      && (m.digits.None? ==> r.value.season == 1)
      && (m.digits.Some? ==> IsDigits(m.digits.value) && r.value.season == DecimalValue(m.digits.value))
  {
    match MatchQuery(StripTags(stem), LegacySeasonMarker)
    case None => Err(TypeError)
    case Some(m) =>
      var season := if m.digits.Some? then LegacySeasonDigits(StripTags(stem), m) else 1;
      Ok(FolderQuery(m.query, season))
  }

  function LegacySeasonDigits(t: string, m: QueryMatch): (v: nat)
    requires MatchQuery(t, LegacySeasonMarker) == Some(m) && m.digits.Some?
    ensures IsDigits(m.digits.value) && v == DecimalValue(m.digits.value)
  {
    MatchQueryShortest(t, LegacySeasonMarker);
    DecimalValue(m.digits.value)
  }

  /**
   * `info["first_air_date"].split('-')[0] or "年份未知"`: the text before the first dash, or the
   * unknown-year marker when that text is empty; a null date raises `AttributeError`.
   */
  function LegacyYear(firstAirDate: Option<string>): (r: Result<string, PyError>)
    ensures r.Ok? <==> firstAirDate.Some?
    ensures r.Ok? ==> '-' !in r.value || r.value == UnknownYear
    ensures r.Ok? && r.value != UnknownYear ==>
      var s := firstAirDate.value;
      && 0 < |r.value| <= |s| && r.value == s[..|r.value|]
      && (|r.value| == |s| || s[|r.value|] == '-')
  {
    match firstAirDate
    case None => Err(AttributeError)
    case Some(s) => var head := Before(s, '-'); Ok(if head == "" then UnknownYear else head)
  }

  /**
   * The legacy year agrees with the package's `Year` whenever the first-air date is non-empty
   * and does not begin with a dash; a date that begins with one gives the unknown-year marker
   * here and an empty year there.
   */
  lemma LegacyYearAgrees(l: Listing)
    requires Truthy(l.firstAirDate)
    ensures l.firstAirDate.value[0] != '-' ==> LegacyYear(l.firstAirDate) == Ok(Year(l))
    ensures l.firstAirDate.value[0] == '-' ==>
      LegacyYear(l.firstAirDate) == Ok(UnknownYear) && Year(l) == ""
  {
  }

  // ---------------------------------------------------------------------------------------------
  // __init__: the output folder

  /**
   * `f"{str(parent_dir).rstrip('/') if parent_dir else general.default_output}/{name}"`: the
   * default output folder replaces a missing or empty one, and is used as it is.
   */
  function LegacyParentDir(outputDir: Option<string>, defaultOutput: string, aniName: string): (r: string)
    ensures Truthy(outputDir) ==> r == ParentDir(outputDir, defaultOutput, aniName)
    ensures !Truthy(outputDir) ==> r == defaultOutput + "/" + SanitizeFilename(aniName)
  {
    (if Truthy(outputDir) then TrimEnd(outputDir.value, IsSlash) else defaultOutput)
      + "/" + SanitizeFilename(aniName)
  }

  /**
   * The legacy output folder is that of the corrected package whenever the default output
   * folder does not end in `/`: in particular, no output folder never gives `None/`.
   */
  lemma LegacyParentDirAgrees(outputDir: Option<string>, defaultOutput: string, aniName: string)
    requires defaultOutput == [] || defaultOutput[|defaultOutput| - 1] != '/'
    ensures LegacyParentDir(outputDir, defaultOutput, aniName) == ParentDir(outputDir, defaultOutput, aniName)
  {
    if !Truthy(outputDir) {
      assert TrimEnd(defaultOutput, IsSlash) == defaultOutput;
    }
  }

  // ---------------------------------------------------------------------------------------------
  // parse

  /** The legacy parse result: the episode is stored as `match_2`. */
  datatype LegacyParsed = LegacyParsed(rule: Rule, season: string, match1: Option<string>,
                                       match2: string, rawMatch: string)

  /** What a rule that matched gives: a result, `None` for episode 0, or the exception raised. */
  function LegacyBuild(r: Rule, f: Found, runSeason: int): Result<Option<LegacyParsed>, PyError> {
    var (season, token) :- Tokens(r.kind, f, runSeason);
    if IsZeroEpisode(token) then Ok(None)
    else
      var m1 :- Group(f, 1);
      Ok(Some(LegacyParsed(r, Pad2(season), m1, Episode(token), f.whole)))
  }

  /** The legacy `parse(name)`: the first rule whose search succeeds decides. */
  function LegacyParse(rules: seq<Rule>, runSeason: int, name: string): Result<Option<LegacyParsed>, PyError> {
    if rules == [] then Ok(None)
    else match rules[0].search(name)
      case Some(f) => LegacyBuild(rules[0], f, runSeason)
      case None => LegacyParse(rules[1..], runSeason, name)
  }

  /** A package parse result under the legacy key names. */
  function Renamed(r: Result<Option<Parsed>, PyError>): Result<Option<LegacyParsed>, PyError> {
    match r
    case Err(e) => Err(e)
    case Ok(None) => Ok(None)
    case Ok(Some(p)) => Ok(Some(LegacyParsed(p.rule, p.season, p.match1, p.episode, p.rawMatch)))
  }

  /**
   * The legacy parse decides exactly as the package's does: the same first-match order, the
   * same season and episode per rule kind, the same episode-0 suppression and the same
   * exceptions; only the key of the episode differs.
   */
  lemma {:induction false} LegacyParseAgrees(rules: seq<Rule>, runSeason: int, name: string)
    ensures LegacyParse(rules, runSeason, name) == Renamed(Parse(rules, runSeason, name))
  {
    if rules != [] && rules[0].search(name).None? {
      LegacyParseAgrees(rules[1..], runSeason, name);
    }
  }

  /** The first matching rule alone decides the legacy result. */
  lemma LegacyParseFirstMatch(rules: seq<Rule>, runSeason: int, name: string, i: nat)
    requires FirstMatch(rules, name, i)
    ensures LegacyParse(rules, runSeason, name) == LegacyBuild(rules[i], rules[i].search(name).value, runSeason)
  {
    LegacyParseAgrees(rules, runSeason, name);
    ParseFirstMatch(rules, runSeason, name, i);
  }

  // ---------------------------------------------------------------------------------------------
  // normalize

  /** Everything a legacy run fixes before any file is named. */
  datatype LegacyRun = LegacyRun(rules: seq<Rule>, season: int, aniName: string, parentDir: string, trad: bool)

  /** The fields the legacy `normalize` supplies to a template. */
  function LegacyFields(run: LegacyRun, p: LegacyParsed): (m: map<string, string>)
    ensures m.Keys == {"ani_name", "raw_match", "season", "match_1", "match_2"}
    ensures m["raw_match"] == if p.rule.kind == Label then Strip(p.rawMatch, StripChar) else p.rawMatch
    ensures m["match_1"] == Show(p.match1) && m["match_2"] == p.match2
    ensures m["ani_name"] == run.aniName && m["season"] == p.season
  {
    map["ani_name" := run.aniName,
        "raw_match" := if p.rule.kind == Label then Strip(p.rawMatch, StripChar) else p.rawMatch,
        "season" := p.season, "match_1" := Show(p.match1), "match_2" := p.match2]
  }

  /** The extension a matched file keeps: the subtitle tag goes before a `.ass` in lower case only. */
  function LegacySuffix(name: string, trad: bool): (s: string)
    ensures Suffix(name) != ".ass" ==> s == Suffix(name)
    ensures Suffix(name) == ".ass" ==> s == SubtitleTag(Stem(name), trad) + ".ass"
  {
    var suffix := Suffix(name);
    if suffix == ".ass" then SubtitleTag(Stem(name), trad) + suffix else suffix
  }

  /**
   * The legacy and the package extension agree on a lower-case `.ass`; an upper- or mixed-case
   * one keeps its case and gets no tag here.
   */
  lemma LegacySuffixCase(name: string, trad: bool)
    ensures Suffix(name) == ".ass" ==> LegacySuffix(name, trad) == DestSuffix(name, trad)
    ensures Lower(Suffix(name)) == ".ass" && Suffix(name) != ".ass" ==>
      LegacySuffix(name, trad) == Suffix(name) && DestSuffix(name, trad) == SubtitleTag(Stem(name), trad) + ".ass"
  {
    ExampleExtensions();
  }

  /** A simplified-Chinese subtitle named in upper case is tagged by the package only. */
  lemma UpperCaseSubtitle(show: string)
    ensures LegacySuffix(show + ".chs" + ".ASS", false) == ".ASS"
    ensures DestSuffix(show + ".chs" + ".ASS", false) == ".zh-CN" + ".forced" + ".ass"
  {
    var s := show + ".chs";
    ExampleExtensions();
    SuffixOfDotted(s, ".ASS");
    AliasLanguages(show);
    TaggedSuffix(s, ".ASS", false);
    TagOfLanguage(s, false);
  }

  /** The legacy `normalize(path)`: a destination under the output folder, or the exception. */
  function LegacyNormalize(run: LegacyRun, path: string): Result<string, PyError> {
    var parsed :- LegacyParse(run.rules, run.season, Name(path));
    if parsed.Some? && TemplateTruthy(parsed.value.rule.template) then
      var body :- Render(parsed.value.rule.template.value, LegacyFields(run, parsed.value));
      Ok(run.parentDir + "/" + body + LegacySuffix(Name(path), run.trad))
    else Ok(run.parentDir + "/Unknown_Files/" + Name(path))
  }

  /** A file that no rule names, or whose rule has no template, goes to `Unknown_Files`, whatever its extension. */
  lemma LegacyNormalizeUnmatched(run: LegacyRun, path: string)
    requires var p := LegacyParse(run.rules, run.season, Name(path));
      p.Ok? && (p.value.None? || !TemplateTruthy(p.value.value.rule.template))
    ensures LegacyNormalize(run, path) == Ok(run.parentDir + "/Unknown_Files/" + Name(path))
  {
  }

  /** Every legacy destination lies under the output folder; none is the `"ignore"` sentinel. */
  lemma LegacyNormalizeUnderParent(run: LegacyRun, path: string)
    requires LegacyNormalize(run, path).Ok?
    ensures var d := LegacyNormalize(run, path).value; Under(run.parentDir, d) && d != Ignore
  {
    var parsed := LegacyParse(run.rules, run.season, Name(path)).value;
    var d := LegacyNormalize(run, path).value;
    if parsed.Some? && TemplateTruthy(parsed.value.rule.template) {
      var body := LegacyMatched(run, path, parsed.value);
      UnderJoin(run.parentDir, "/", body);
      UnderExtend(run.parentDir, run.parentDir + "/" + body, LegacySuffix(Name(path), run.trad));
    } else {
      UnderJoin(run.parentDir, "/Unknown_Files/", Name(path));
    }
    assert d[|run.parentDir|] == '/';
    assert '/' !in Ignore;
  }

  /** A file its rule renders goes to the output folder, `/`, the rendering and the extension. */
  lemma LegacyMatched(run: LegacyRun, path: string, p: LegacyParsed) returns (body: string)
    requires LegacyParse(run.rules, run.season, Name(path)) == Ok(Some(p))
    requires TemplateTruthy(p.rule.template) && LegacyNormalize(run, path).Ok?
    ensures LegacyNormalize(run, path).value == run.parentDir + "/" + body + LegacySuffix(Name(path), run.trad)
  {
    var rendered := Render(p.rule.template.value, LegacyFields(run, p));
    assert rendered.Ok?;
    body := rendered.value;
  }

  /** The legacy table: each file found, mapped by the legacy `normalize`; no entry is `"ignore"`. */
  function LegacyTable(run: LegacyRun, files: seq<string>): (r: Result<Table, PyError>)
    ensures r.Ok? <==> forall i :: 0 <= i < |files| ==> LegacyNormalize(run, files[i]).Ok?
    ensures r.Ok? ==> WellFormed(r.value) && forall f :: f in r.value.dest <==> f in files
    ensures r.Ok? ==> forall f :: f in r.value.dest ==>
      LegacyNormalize(run, f) == Ok(r.value.dest[f]) && r.value.dest[f] != Ignore
  {
    var r := BuildTable(files, f => LegacyNormalize(run, f));
    if r.Ok? then
      assert forall f :: f in r.value.dest ==> r.value.dest[f] != Ignore by {
        forall f | f in r.value.dest ensures r.value.dest[f] != Ignore {
          LegacyNormalizeUnderParent(run, f);
        }
      }
      r
    else r
  }

  // ---------------------------------------------------------------------------------------------
  // move_files

  /** A legacy sorter's table and the file system it works on. */
  class LegacySorter {
    var order: seq<string>
    var dest: map<string, string>
    var fs: set<string>

    ghost predicate Valid()
      reads this
    {
      WellFormed(Table(order, dest))
    }

    constructor (t: Table, existing: set<string>)
      requires WellFormed(t)
      ensures Valid() && order == t.order && dest == t.dest && fs == existing
    {
      order, dest, fs := t.order, t.dest, existing;
    }

    /**
     * `move_files(dryrun)`: make the destination folders, then link each missing destination or
     * flatten an entry whose destination exists; nothing is passed over.
     */
    method MoveFiles(dryRun: bool, failing: set<string>)
      requires Valid()
      modifies this
      ensures Valid() && order == old(order)
      ensures Outcome(dest, fs) == Materialize(Table(old(order), old(dest)), old(fs), dryRun, failing, false)
    {
      var keys, table, made := order, dest, fs;
      if !dryRun {
        made := MakeAll(DestDirs(table), made);
      }
      ghost var o := Outcome(table, made);
      ghost var want := Materialize(Table(keys, table), fs, dryRun, failing, false);
      assert want == Resolve(keys, o, dryRun, failing, false);
      table, made := LinkEach(keys, table, made, dryRun, failing);
      SameKeys(keys, o.dest, table);
      dest, fs := table, made;
      assert Outcome(dest, fs) == want;
    }
  }

  /** The second loop of `move_files`: each entry in table order, none passed over. */
  method LinkEach(order: seq<string>, dest: map<string, string>, fs: set<string>, dryRun: bool, failing: set<string>)
    returns (table: map<string, string>, made: set<string>)
    requires forall k :: k in order ==> k in dest
    ensures Outcome(table, made) == Resolve(order, Outcome(dest, fs), dryRun, failing, false)
  {
    table, made := dest, fs;
    var i := 0;
    while i < |order|
      invariant 0 <= i <= |order|
      invariant Outcome(table, made) == Resolve(order[..i], Outcome(dest, fs), dryRun, failing, false)
    {
      var src := order[i];
      ResolveSnoc(order, i, Outcome(dest, fs), dryRun, failing, false);
      var d := table[src];
      if d !in made {
        if !dryRun && src !in failing {
          made := made + {d};
        }
      } else {
        table := table[src := Name(src)];
      }
      i := i + 1;
    }
    assert order[..|order|] == order;
  }

  /**
   * On a table without `"ignore"` entries, which every legacy table is, `move_files` does what
   * the package's `process` does.
   */
  lemma MoveFilesAsProcess(t: Table, fs: set<string>, dryRun: bool, failing: set<string>)
    requires WellFormed(t) && forall k :: k in t.dest ==> t.dest[k] != Ignore
    ensures Materialize(t, fs, dryRun, failing, false) == Materialize(t, fs, dryRun, failing, true)
  {
    var o := Outcome(t.dest, if dryRun then fs else fs + Made(DestDirs(t.dest)));
    IgnoreIrrelevant(t.order, o, dryRun, failing);
  }

  /** The `"ignore"` sentinel is linked by the legacy loop like any other destination. */
  lemma LegacyLinksIgnore(src: string, dest: map<string, string>, fs: set<string>)
    requires src in dest && dest[src] == Ignore && Ignore !in fs
    ensures Resolve([src], Outcome(dest, fs), false, {}, false).fs == fs + {Ignore}
    ensures Resolve([src], Outcome(dest, fs), false, {}, true).fs == fs
  {
    ResolveSnoc([src], 0, Outcome(dest, fs), false, {}, false);
    ResolveSnoc([src], 0, Outcome(dest, fs), false, {}, true);
    assert [src][..1] == [src] && [src][..0] == [];
  }
}
