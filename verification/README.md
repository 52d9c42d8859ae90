# AniSort, modelled in Dafny

AniSort sorts a downloaded anime folder into a library. It reads the series name and season
from the folder name and looks the series up. It then lists the files of the folder, shallow
levels first and each level by similarity to the folder's path. Each file gets a destination
from the configured pattern rules: a rendered template under the series folder, `Unknown_Files`,
or the sentinel `"ignore"`. Finally it makes the destination folders and hard-links every file
that is not already there. A file whose destination already exists has its table entry replaced
by its own name.

The model covers the package in `ani_sort/` and the older single-file script `ani_sort.py`:

- `results.dfy`: `Option`, `Result` and the Python exceptions the core can raise.
- `strings.dfy`: the `str` operations the core uses. These are `isdigit`, `isspace`, `int()`,
  `f"{n:02d}"`, `lower`, `replace`, `split(c)[0]`, `split(c)[-1]` and `strip`.
- `paths.dfy`: the `pathlib` accessors `name`, `suffix`, `stem` and `parent`, and the folders
  `mkdir(parents=True)` creates.
- `utils.dfy`: `sanitize_filename` and `get_all_files`.
- `metadata.dfy`: `extract_groups`, and the non-network part of `get_ani_info`. That part is
  the tag-stripping `re.sub`, the lazy query/season regex, the season, the name and the year.
- `parser.dfy`: `AniSort.parse`.
- `tables.dfy`: the insertion-ordered source-to-destination dictionary.
- `templates.dfy`: `str.format` as the rule templates use it, with literal text and `{name}`
  replacement fields.
- `composer.dfy`: `SUFFIX_MAP`, the series name, the output folder and `AniSort.normalize`.
- `linker.dfy`: `AniSort.process`. The `Sorter` class holds the table and the file system and
  updates them in place.
- `legacy.dfy`: `ani_sort.py`. It holds its `parse`, `normalize`, `move_files`, output folder,
  year and folder-name regex. Lemmas relate its `parse`, extension, year, output folder and
  `move_files` to the package's versions. Its folder-name regex and its template fields are
  modelled on their own and only stated to differ.

The network, the AI service and the user's input are parameters. The search result is a
`Listing` of the fields the sorter reads. Each pattern rule's compiled regex is an abstract
search function that returns the whole match and its groups. The similarity ratio that orders a
level is an abstract score function. The file system is the set of paths that exist. The
sources whose `os.link` raises are a parameter.

## Model

| member | source | states |
|---|---|---|
| Utils.SanitizeCharwise | ani_sort/utils.py:6-21 | the ten replacements act on each character alone: every character of the result is the look-alike of the character at the same place (`？ ： 《 》`, `_` for the other unsafe ones), or that character itself when it is safe |
| Utils.SanitizeSafe | ani_sort/utils.py:6-21 | the sanitised name has the same length, contains none of `\ / \| ? : * " < > .`, and keeps every safe character in place |
| Utils.SanitizeIdempotent | ani_sort/utils.py:6-21 | sanitising a sanitised name changes nothing |
| Utils.GroupedSnoc | ani_sort/utils.py:30-32 | scanning one more entry appends it to the list of its level when it is a file (opening the level if new) and leaves the dictionary alone otherwise |
| Utils.SortByScore | ani_sort/utils.py:37-41 | `sorted(..., key=score, reverse=True)` gives a permutation, ordered by non-increasing score, in which entries of equal depth and score keep their order (stability) |
| Utils.InsertDescending | ani_sort/utils.py:37-41 | inserting into a list ordered by non-increasing score keeps it ordered |
| Utils.InsertTier | ani_sort/utils.py:37-41 | insertion places an entry before the entries of its own depth and score that follow, so each run of equal score keeps its order |
| Utils.SortedKeys | ani_sort/utils.py:36 | `sorted(keys)` lists each level exactly once, in strictly increasing order |
| Utils.ChainOrdered | ani_sort/utils.py:34-42 | the comprehension over sorted levels is ordered by depth, and by non-increasing score within a depth |
| Utils.ArrangeGrouped | ani_sort/utils.py:29-42 | the listing holds every file found exactly as often as found and nothing else, shallow levels first, each level by non-increasing score, and files of one depth and score in scan order |
| Utils.GetAllFiles | ani_sort/utils.py:24-42 | a file path gives `[path]`; for a folder the loop builds `files_by_level` and the result is a permutation of the files found, shallow first, most similar first, stable among equals |
| Metadata.CloseAt | ani_sort/metadata.py:7 | the lazy `.*?` stops at the first `]` or `)` of the line, and finds none exactly when no closing bracket precedes a newline |
| Metadata.ExtractGroups | ani_sort/metadata.py:5-22 | the group is the first `findall` candidate and the others are the remaining candidates in order; no candidate gives no group and no others |
| Metadata.KeepsAll | ani_sort/metadata.py:8-21 | with the empty ignore-pattern list no candidate is dropped from `others` |
| Metadata.GroupIsFirstBracketed | ani_sort/metadata.py:7-16 | there is a group exactly when some opening bracket is closed on its line; it starts after the first such bracket |
| Metadata.StripTagsKeepsUnbracketed | ani_sort/metadata.py:36 | a name without an opening bracket is left as it is by the tag-stripping `re.sub` |
| Metadata.StripFromStep | ani_sort/metadata.py:36 | at a tag the substitution drops everything up to the tag's end, surrounding whitespace included; elsewhere it keeps the character |
| Metadata.StripTagsRemovesTag | ani_sort/metadata.py:36 | a name made of whitespace, one bracketed tag, whitespace and a rest with no opening bracket comes out as that rest |
| Metadata.StripFromShorter | ani_sort/metadata.py:36 | the tag-stripping `re.sub` never makes the name longer |
| Metadata.SeasonMarker | ani_sort/metadata.py:35 | what the optional `[_\s-]*(?:s\|season)\s*(\d+)` captures is always a run of digits |
| Metadata.SeasonMarkerSound | ani_sort/metadata.py:35 | each capture of `SeasonMarker` is a way of matching separators, `s` or `season` in any case, whitespace and digits up to `$` |
| Metadata.SeasonMarkerComplete | ani_sort/metadata.py:35 | every way of matching the marker up to `$` is found, with the same digits |
| Metadata.SeasonMarkerExact | ani_sort/metadata.py:35 | `SeasonMarker` captures `d` if and only if the rest of the name is a season marker with digits `d` |
| Metadata.MatchQueryShortest | ani_sort/metadata.py:34-38 | the lazy `(.+?)` yields the shortest non-empty newline-free prefix after which a marker or `$` follows, with that marker's digits; no match means no prefix qualifies |
| Metadata.ReadFolderName | ani_sort/metadata.py:34-38 | the query is group 1 of the match on the tag-stripped stem; the season is the marker's digits as a number, or 1 without them (line 85); no match raises `TypeError` |
| Metadata.Year | ani_sort/metadata.py:90 | the text before the first dash of the first non-empty of first-air date and release date, or `年份未知` when both are empty; it never contains a dash |
| Metadata.SeriesName | ani_sort/metadata.py:88 | the name when it is non-empty, else the title |
| Parser.Group | ani_sort/core.py:81-83 | `match[k]` succeeds exactly for a group the pattern has and raises `IndexError` otherwise |
| Parser.Episode | ani_sort/core.py:95-99 | an all-digit token becomes its value padded to two digits; any other token keeps what precedes its first `v` |
| Parser.ParseFirstMatch | ani_sort/core.py:78-102 | the first rule whose search succeeds alone decides the result |
| Parser.ParseNoMatch | ani_sort/core.py:78-104 | when no rule matches, `parse` returns `None` |
| Parser.ParseIgnoresLater | ani_sort/core.py:78-79 | rules after one that matches are never consulted |
| Parser.BuildFields | ani_sort/core.py:80-102 | `SE_EP` reads season and episode from groups 1 and 2; `EP` reads the episode from group 1, other kinds from group 2 or `"1"`, with the run's season; the season is `02d`-padded, and the raw match and group 1 are kept |
| Parser.ZeroEpisodeShape | ani_sort/core.py:86-90 | the episode-0 test holds exactly for tokens whose leading digit run is non-empty and all zeros |
| Parser.BuildSuppressed | ani_sort/core.py:86-90 | a matching rule yields `None` exactly when its episode token passes the episode-0 test and its season and episode were read without error |
| Parser.EpisodeOfTwoDigits | ani_sort/core.py:96-97 | a two-digit numeric episode is already normal |
| Parser.EpisodeIdempotent | ani_sort/core.py:95-99 | normalising a numeric episode twice gives what normalising it once gives |
| Strings.Pad2 | ani_sort/core.py:94 | `f"{n:02d}"` of a non-negative number is its decimal form, at least two digits, without extra leading zeros; a negative number is `-` and its digits without padding (`-5` gives `-5`), since the sign counts towards the width |
| Strings.PyIntOfDigits | ani_sort/core.py:81 | `int()` of a digit string is its decimal value |
| Strings.NatToStringOfValue | ani_sort/core.py:96 | a digit string without a leading zero is the decimal form of its own value |
| Tables.Assign | ani_sort/core.py:57-59 | assigning a key keeps the table well formed, appends a new key at the end and leaves the order of an existing key alone |
| Tables.BuildTable | ani_sort/core.py:57-59 | the comprehension succeeds exactly when every file's destination does; every file becomes a key mapped to its own destination |
| Tables.BuildTableOrder | ani_sort/core.py:57-59 | distinct files keep their order as the table's keys |
| Composer.Language | ani_sort/core.py:112 | the language tag of a subtitle is `.zh-CN`, `.zh-TW` or empty |
| Composer.SuffixMapTags | ani_sort/core.py:13-22 | `SUFFIX_MAP` gives `.zh-CN` exactly for `chs`, `sc`, `jpsc`, `scjp`, `.zh-TW` exactly for `cht`, `tc`, `jptc`, `tcjp`, and nothing for any other key |
| Composer.BareAliasTag | ani_sort/core.py:112 | a stem with no dot is itself the alias: its language is `.zh-CN`, `.zh-TW` or empty exactly as its lower-cased form is a simplified alias, a traditional one or neither |
| Composer.AliasTag | ani_sort/core.py:112 | for any stem and any dot-free alias, the language of `stem.alias` is `.zh-CN` exactly when the lower-cased alias is a simplified one, `.zh-TW` exactly when it is a traditional one, and empty otherwise |
| Composer.SubtitleTag | ani_sort/core.py:112-120 | the tag is the language, with `.forced` added exactly when it is traditional and traditional is preferred, or simplified and it is not |
| Composer.AliasLanguages | ani_sort/core.py:13-22 | `show.chs` is simplified and `show.CHT` traditional: the alias is lower-cased before lookup |
| Composer.TaggedSuffix | ani_sort/core.py:111-121 | a subtitle with an extension that lower-cases to `.ass` keeps `.ass` behind the tag of its stem |
| Composer.TagOfLanguage | ani_sort/core.py:114-120 | the tag of a subtitle with a known language, for either preference |
| Composer.SimplifiedSubtitle | ani_sort/core.py:110-121 | `show.chs.ass` becomes `.zh-CN.forced.ass` unless traditional is preferred, then `.zh-CN.ass` |
| Composer.TraditionalSubtitle | ani_sort/core.py:110-121 | `show.CHT.ASS` becomes `.zh-TW.forced.ass` when traditional is preferred |
| Composer.AniName | ani_sort/core.py:41-45 | the series name is `{name} ({date})`, `None` for a missing name, with every `:` and `?` made full-width and nothing else changed |
| Composer.ParentDir | ani_sort/core.py:49-51 | the output folder is the given folder (the default when none or an empty one is given) without trailing `/`, then `/`, then exactly `sanitize_filename` of the series name, which has no unsafe character |
| Composer.ParentDirWithoutOutput | ani_sort/core.py:49-51 | as written, no output folder files the series under `None/` and an empty one under `/`; the corrected folder is the default without trailing `/`, and the two differ whenever that trimmed default is not `None` (no folder) or empty (an empty folder) |
| Composer.NewRun | ani_sort/core.py:35-51 | the run has the path with its quotes stripped, then its stem's first bracketed text as its group (none when there is none); its series name is `AniName` of the looked-up name and year, so has no `:` or `?`; its output folder is `ParentDir`'s |
| Composer.StripQuotes | ani_sort/core.py:35 | a folder path given between `"` or `'` quotes is read as the path inside them |
| Templates.Render | ani_sort/core.py:127-137 | `format` succeeds exactly when every replacement field is supplied |
| Templates.RenderField | ani_sort/core.py:127-137 | a replacement field renders as the value supplied under its name |
| Templates.RenderLiteral | ani_sort/core.py:127-137 | literal text renders as itself |
| Templates.RenderConcat | ani_sort/core.py:127-137 | a template renders piece by piece: two templates in a row render as the first's text followed by the second's, and fail exactly when either fails |
| Templates.RenderLiterals | ani_sort/core.py:127-137 | a template of literals alone renders as its text, whatever the fields |
| Templates.RenderError | ani_sort/core.py:127-137 | the only exception `format` raises here is `KeyError` |
| Composer.Fields | ani_sort/core.py:128-136 | the template gets exactly `ani_name` (the series name), `raw_match`, `season` and `episode` (as parsed) and `group` (`str` of the run's group); the raw match of a `Label` rule is stripped of spaces and brackets |
| Composer.DestSuffix | ani_sort/core.py:111-121 | the lower-cased extension, with the subtitle tag in front when it is `.ass` |
| Composer.NormalizeUnmatched | ani_sort/core.py:141-145 | an unmatched file, or one whose rule has no template, goes to `"ignore"` when its lower-cased extension is ignored, else to `Unknown_Files` under the output folder |
| Composer.NormalizeMatched | ani_sort/core.py:110-139 | a matched file goes to `"ignore"` when its final extension is ignored, else under the output folder as the rendered template plus that extension, or raises `KeyError` |
| Composer.ComposeUnderParent | ani_sort/core.py:110-145 | every destination `normalize` composes other than `"ignore"` starts with the output folder and `/` |
| Composer.NormalizeUnderParent | ani_sort/core.py:106-145 | every destination other than `"ignore"` lies under the output folder: it starts with the folder and `/` |
| Composer.RunTable | ani_sort/core.py:57-59 | building the table succeeds exactly when `normalize` succeeds on every file; then its keys are exactly the files found, each mapped to its `normalize` result |
| Linker.Step | ani_sort/core.py:217-233 | one turn of the loop: a skipped `"ignore"` entry changes nothing; an entry whose destination exists becomes its source's name and nothing else changes; otherwise the entry stays and the destination is added, unless the run is dry or the link fails |
| Linker.Resolve | ani_sort/core.py:217-233 | the loop keeps the table's keys, only adds paths, and leaves entries it has not reached alone |
| Linker.DestDirs | ani_sort/core.py:210 | the folders made are exactly the parents of the destinations, `"ignore"` included |
| Linker.MadeMembers | ani_sort/core.py:211-215 | a path is created exactly when it is one of the folders or an ancestor of one |
| Linker.MakeAll | ani_sort/core.py:211-215 | the folder loop leaves the file system as it was plus every folder and its ancestors, in any iteration order |
| Linker.LinkAll | ani_sort/core.py:217-233 | the link loop over the entries in table order does what `Resolve` specifies |
| Linker.Sorter.Process | ani_sort/core.py:208-233 | `process` keeps the table's keys and order and leaves the table and file system as `Materialize` specifies |
| Linker.DryRunCreatesNothing | ani_sort/core.py:212-213 | a dry run creates no path |
| Linker.ResolveEntries | ani_sort/core.py:222-232 | each entry is kept or becomes its source's name, and it changes only when its destination exists after the run and is not a skipped `"ignore"` |
| Linker.EntryAtItsTurn | ani_sort/core.py:217-233 | the final entry of each source is its source's name exactly when its destination existed after the turns before it (and it is not a skipped `"ignore"`), and its original destination otherwise |
| Linker.IgnoreNeverLinked | ani_sort/core.py:222-223 | when `"ignore"` entries are passed over, `"ignore"` exists after the run exactly when it existed before |
| Linker.StepCreates | ani_sort/core.py:224-233 | one turn creates at most its entry's destination, and only in a real run, with a link that does not fail, on an entry that is not a skipped `"ignore"` |
| Linker.LinkedPaths | ani_sort/core.py:224-233 | a path the run creates comes from a real run, is not a skipped `"ignore"`, and is the destination of a source whose link did not fail |
| Linker.DryRunFlattensExisting | ani_sort/core.py:222-232 | a dry run rewrites exactly the entries whose destination already exists, `"ignore"` entries aside |
| Linker.RealRunLinksAll | ani_sort/core.py:222-232 | after a real run every original destination exists, flattened entries' included, unless its link failed or it is a skipped `"ignore"` |
| Linker.StableRun | ani_sort/core.py:217-233 | a loop in which every destination exists, unless its link fails or it is a skipped `"ignore"`, creates nothing and flattens exactly the entries whose destination exists |
| Linker.RerunWritesNothing | ani_sort/core.py:208-233 | running `process` again after a real run, with the same links failing, creates nothing and flattens every entry that is not `"ignore"` and whose link does not fail |
| Linker.SecondOfTwoFlattened | ani_sort/core.py:224-232 | of two sources with the same missing destination, a real run links the first and flattens the second; a dry run changes neither |
| Linker.IgnoreIrrelevant | ani_sort/core.py:222-223 | a table with no `"ignore"` entry is handled the same whether or not such entries are passed over |
| Legacy.LegacySeasonMarker | ani_sort.py:121 | the legacy marker `(?:_s(\d+)){0,1}$` captures digits only when the rest is `_`, an `s` in any case, and those digits |
| Legacy.LegacySeasonMarkerComplete | ani_sort.py:121 | every `_s<digits>` ending is recognised with its digits |
| Legacy.LegacyReadFolderName | ani_sort.py:120-121 | the query is group 1 of the legacy regex; the season is the digits of `_s<N>` or 1 (line 151); no match raises `TypeError` |
| Legacy.LegacyYear | ani_sort.py:155 | a null date raises; otherwise the text before the first dash, or `年份未知` when that is empty |
| Legacy.LegacyYearAgrees | ani_sort.py:155 | for a non-empty first-air date the legacy year equals the package's, unless the date begins with a dash: then it is `年份未知` here and empty there |
| Legacy.LegacyParentDir | ani_sort.py:43-45 | a given output folder is used as the package uses it; none uses the default folder as it is |
| Legacy.LegacyParentDirAgrees | ani_sort.py:43-45 | when the default does not end in `/`, the legacy output folder is the corrected package's |
| Legacy.LegacyParseAgrees | ani_sort.py:158-189 | the legacy `parse` decides exactly as the package's, only naming the episode `match_2` |
| Legacy.LegacyParseFirstMatch | ani_sort.py:162-187 | the first matching rule alone decides the legacy result |
| Legacy.LegacyFields | ani_sort.py:206-212 | the legacy template gets exactly `ani_name` (the series name), `raw_match`, `season` (as parsed), `match_1` (`str` of group 1) and `match_2` (the episode) |
| Legacy.LegacySuffix | ani_sort.py:196-204 | only an extension that is exactly `.ass` gets the subtitle tag; the case of any extension is kept |
| Legacy.LegacySuffixCase | ani_sort.py:196-204 | the legacy and the package extension agree on `.ass`; an upper- or mixed-case one is kept and untagged by the legacy script only |
| Legacy.UpperCaseSubtitle | ani_sort.py:196-204 | `show.chs.ASS` keeps `.ASS` in the legacy script and becomes `.zh-CN.forced.ass` in the package |
| Legacy.LegacyNormalizeUnmatched | ani_sort.py:214 | an unmatched file goes to `Unknown_Files` whatever its extension |
| Legacy.LegacyNormalizeUnderParent | ani_sort.py:191-214 | every legacy destination lies under the output folder (starts with it and `/`) and none is `"ignore"` |
| Legacy.LegacyTable | ani_sort.py:51-54 | the legacy table succeeds exactly when every file's destination does; its keys are then exactly the files found, each mapped to its destination, none of them `"ignore"` |
| Legacy.LinkEach | ani_sort.py:224-243 | the legacy link loop, with no `"ignore"` test, does what `Resolve` specifies without passing anything over |
| Legacy.LegacySorter.MoveFiles | ani_sort.py:216-243 | `move_files` keeps the table's keys and order and leaves the table and file system as `Materialize` specifies, nothing passed over |
| Legacy.MoveFilesAsProcess | ani_sort.py:216-243 | on a table without `"ignore"` entries, which every legacy table is, `move_files` does what `process` does |
| Legacy.LegacyLinksIgnore | ani_sort.py:224-236 | the legacy loop links an `"ignore"` destination like any other, where `process` skips it |

## Left out

- The AI branches of `get_ani_info` (`config.ai.call`), the TMDB request, the `.json()` decoding and the manual pick by `input()`: network and user input. The listing the sorter reads is a parameter, and the season is a parameter of the run.
- `get_ani_info`'s other returned fields (`tmdb_id`, `original_name`, poster paths, `media_type`): the sorting core does not read them.
- Logging, the task log (`_write_task_log`), the task id, timestamps and `move_original_folder`: I/O outside the core.
- The `Comparison_Table.txt` that `process` appends to under the output folder when `comparison_table` is set (ani_sort/core.py:243-260): a report written from the final table, which it does not change.
- The top-level `utils` module from which `ani_sort.py` imports `sanitize_filename` is not part of this model; the package's `sanitize_filename` stands in for it.
- The `.ignore` marker files `process` writes under `Interviews`, `Other` and `Unknown_Files` when `ignore_file` is set: a directory walk of the output tree that does not affect the table.
- The `move` argument of `process`: the code never reads it.
- `ani_sort/subset.py`, `db.py`, `watcher.py`, `api.py`, `task.py`, the web routes, `main.py` and `config/config_manager.py`: not part of this model.
- `Utils.GetAllFiles`: the recursive scan `path.rglob("*")` is a parameter (the entries in scan order with their depth and kind), and `difflib.SequenceMatcher(...).ratio()` is an abstract score function.
- Each pattern rule's regex is abstract (a search function returning the whole match and its groups). A rule missing its `type` or `normalize` key, which raises `KeyError` in the source, is not modelled.
- `Templates.Render`: only plain `{name}` replacement fields are modelled. Format specs, conversions, attribute or index access, and `{{`/`}}` escapes are not.
- `Strings.Lower`, `IsDigit`: `lower()` is modelled for ASCII letters and `isdigit()` and `\d` for ASCII digits. Other Unicode letters and digits are not.
- `Paths.Name`, `Parent`: path strings are taken as written. `pathlib`'s normalisation of repeated or trailing slashes is not modelled.
- `Linker.MakeAll`: `mkdir` is modelled as adding paths. Its failure on an existing file, or for lack of permission, is not.
- `Linker.Step`: which `os.link` calls fail is a parameter (a set of sources). Why a link fails, and links that fail part way, are not modelled.
- The iteration order of the set of destination folders is arbitrary. `MakeAll` picks folders in any order and is proved for all of them.
- `Metadata.Listing`: a missing key and a `null` value are one case (`None`). The legacy `info["name"]` raising `KeyError` on a missing name is not distinguished from a null name.

## Findings

| source | as written | input that shows it | evidently intended | confidence | as-written member | corrected member |
|---|---|---|---|---|---|---|
| ani_sort/core.py:49-51 | `str(parent_dir).rstrip('/')` with the default `parent_dir=None` gives the folder `None/<series>`, and with `parent_dir=""` the folder `/<series>` at the file-system root | `parent_dir=None`, series `Frieren (2023)`: the output folder is `None/Frieren (2023)`; `parent_dir=""` gives `/Frieren (2023)` | a missing output folder falls back to the configured default folder, as `ani_sort.py:44` does | high, not executed | Composer.ParentDirWithoutOutput | Composer.ParentDir |
