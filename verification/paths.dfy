/**
 * The parts of `pathlib.PurePosixPath` the sorter reads: `name`, `suffix`, `stem` and `parent`,
 * for paths that are already in normal form (no repeated, trailing or `.` components).
 */
module Paths {
  import opened Strings

  /** `s.rfind(c)`: the index of the last `c` in `s`, or -1. */
  function LastIndex(s: string, c: char): (i: int)
    ensures -1 <= i < |s|
    ensures i >= 0 ==> s[i] == c
    ensures forall j :: i < j < |s| ==> s[j] != c
  {
    if s == [] then -1
    else if s[|s| - 1] == c then |s| - 1
    else LastIndex(s[..|s| - 1], c)
  }

  /** `path.name`: the last component. */
  function Name(p: string): (r: string)
    ensures |r| <= |p| && r == p[|p| - |r|..] && '/' !in r
    ensures |r| < |p| ==> p[|p| - |r| - 1] == '/'
  {
    p[LastIndex(p, '/') + 1..]
  }

  /** `path.suffix`: from the last `.` on, unless that dot opens the name or ends it. */
  function Suffix(name: string): (r: string)
    ensures r == [] || (|r| >= 2 && r[0] == '.' && '.' !in r[1..])
  {
    var i := LastIndex(name, '.');
    if 0 < i < |name| - 1 then name[i..] else ""
  }

  /** `path.stem`: the name without its suffix. */
  function Stem(name: string): string {
    var i := LastIndex(name, '.');
    if 0 < i < |name| - 1 then name[..i] else name
  }

  lemma StemAndSuffix(name: string)
    ensures Stem(name) + Suffix(name) == name
  {
  }

  /** `str(path.parent)`: everything before the last `/`; `.` for a bare name, `/` at the root. */
  function Parent(p: string): (r: string)
    ensures '/' !in p ==> r == "."
  {
    var i := LastIndex(p, '/');
    if i < 0 then "." else if i == 0 then "/" else p[..i]
  }

  /** `d` lies under the folder `dir`: it continues `dir` with a `/`. */
  predicate Under(dir: string, d: string) {
    |d| > |dir| && d[..|dir| + 1] == dir + "/"
  }

  /** A path that continues `dir` with something starting with `/`, then anything, is under `dir`. */
  lemma UnderJoin(dir: string, x: string, y: string)
    requires |x| > 0 && x[0] == '/'
    ensures Under(dir, dir + x + y)
  {
    assert (dir + x + y)[..|dir| + 1] == dir + [x[0]];
  }

  /** Whatever follows a path under `dir` stays under `dir`. */
  lemma UnderExtend(dir: string, d: string, y: string)
    requires Under(dir, d)
    ensures Under(dir, d + y)
  {
    assert (d + y)[..|dir| + 1] == d[..|dir| + 1];
  }

  /** What `Path(d).mkdir(parents=True, exist_ok=True)` makes sure exists: `d` and each ancestor. */
  function Ancestry(d: string): (r: set<string>)
    ensures d in r
  {
    {d} + set i | 0 < i < |d| && d[i] == '/' :: d[..i]
  }
}
