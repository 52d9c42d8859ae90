/**
 * `ani_sort/utils.py`: making a series title safe as a folder name, and listing the files of an
 * input folder shallow levels first, each level by descending similarity to the folder's path.
 */
module Utils {
  import opened Strings

  // ---------------------------------------------------------------------------------------------
  // sanitize_filename

  /** The characters `sanitize_filename` replaces. */
  predicate Unsafe(c: char) {
    || c == '\\' || c == '/' || c == '|' || c == '?' || c == ':'
    || c == '*' || c == '"' || c == '<' || c == '>' || c == '.'
  }

  /** What one unsafe character is replaced by: `_`, or the full-width or CJK look-alike. */
  function SafeChar(c: char): char {
    match c
    case '?' => '？'
    case ':' => '：'
    case '<' => '《'
    case '>' => '》'
    case _ => if Unsafe(c) then '_' else c
  }

  /** `sanitize_filename`: ten replacements, each of one character by one character, in order. */
  function SanitizeFilename(name: string): (r: string)
    ensures |r| == |name|
  {
    var s1 := Replace(name, '\\', '_');
    var s2 := Replace(s1, '/', '_');
    var s3 := Replace(s2, '|', '_');
    var s4 := Replace(s3, '?', '？');
    var s5 := Replace(s4, ':', '：');
    var s6 := Replace(s5, '*', '_');
    var s7 := Replace(s6, '"', '_');
    var s8 := Replace(s7, '<', '《');
    var s9 := Replace(s8, '>', '》');
    Replace(s9, '.', '_')
  }

  /**
   * No replacement produces a character that a later one replaces, so the chain acts on each
   * character alone: an unsafe character becomes its look-alike, every other one stays.
   */
  lemma SanitizeCharwise(name: string)
    ensures forall i :: 0 <= i < |name| ==> SanitizeFilename(name)[i] == SafeChar(name[i])
  {
    forall i | 0 <= i < |name| ensures SanitizeFilename(name)[i] == SafeChar(name[i]) {
      SanitizeAt(name, i);
    }
  }

  lemma SanitizeAt(name: string, i: nat)
    requires i < |name|
    ensures SanitizeFilename(name)[i] == SafeChar(name[i])
  {
    var s1 := Replace(name, '\\', '_');
    var s2 := Replace(s1, '/', '_');
    var s3 := Replace(s2, '|', '_');
    var s4 := Replace(s3, '?', '？');
    var s5 := Replace(s4, ':', '：');
    var s6 := Replace(s5, '*', '_');
    var s7 := Replace(s6, '"', '_');
    var s8 := Replace(s7, '<', '《');
    var s9 := Replace(s8, '>', '》');
    var r := Replace(s9, '.', '_');
    assert r == SanitizeFilename(name);
    var c := name[i];
    assert s1[i] == if c == '\\' then '_' else c;
    assert s2[i] == if s1[i] == '/' then '_' else s1[i];
    assert s3[i] == if s2[i] == '|' then '_' else s2[i];
    assert s4[i] == if s3[i] == '?' then '？' else s3[i];
    assert s5[i] == if s4[i] == ':' then '：' else s4[i];
    assert s6[i] == if s5[i] == '*' then '_' else s5[i];
    assert s7[i] == if s6[i] == '"' then '_' else s6[i];
    assert s8[i] == if s7[i] == '<' then '《' else s7[i];
    assert s9[i] == if s8[i] == '>' then '》' else s8[i];
    assert r[i] == if s9[i] == '.' then '_' else s9[i];
  }

  /**
   * The sanitised name has the same length, contains no unsafe character, and keeps every
   * safe character where it was.
   */
  lemma SanitizeSafe(name: string)
    ensures var r := SanitizeFilename(name);
      && |r| == |name|
      && (forall i :: 0 <= i < |r| ==> !Unsafe(r[i]))
      && (forall i :: 0 <= i < |name| && !Unsafe(name[i]) ==> r[i] == name[i])
  {
    SanitizeCharwise(name);
  }

  /** The replacement characters are all safe, so sanitising twice changes nothing more. */
  lemma SanitizeIdempotent(name: string)
    ensures SanitizeFilename(SanitizeFilename(name)) == SanitizeFilename(name)
  {
    var once := SanitizeFilename(name);
    SanitizeSafe(name);
    SanitizeSafe(once);
    assert forall i :: 0 <= i < |once| ==> SanitizeFilename(once)[i] == once[i];
  }

  // ---------------------------------------------------------------------------------------------
  // get_all_files

  /**
   * One entry yielded by `path.rglob("*")`: its path, the number of parts of the path relative
   * to the input folder, and whether it is a file.
   */
  datatype Node = Node(path: string, depth: nat, isFile: bool)

  /** The files of `s` at depth `d`: `files_by_level[d]` once `s` has been scanned. */
  function AtDepth(s: seq<Node>, d: nat): seq<Node> {
    if s == [] then []
    else
      var head := if s[0].isFile && s[0].depth == d then [s[0]] else [];
      head + AtDepth(s[1..], d)
  }

  /** The depths at which `s` holds a file: the keys of `files_by_level`. */
  function Depths(s: seq<Node>): set<nat> {
    set n | n in s && n.isFile :: n.depth
  }

  /** The dictionary the scanning loop builds. */
  function Grouped(s: seq<Node>): map<nat, seq<Node>> {
    map d | d in Depths(s) :: AtDepth(s, d)
  }

  /**
   * The files of `s` at depth `d` whose similarity score is `v`, in the order of `s`: a stable
   * ordering by depth and score keeps each of these runs as it was discovered.
   */
  function Tier(s: seq<Node>, d: nat, v: real, score: string -> real): seq<Node> {
    if s == [] then []
    else
      var head := if s[0].isFile && s[0].depth == d && score(s[0].path) == v then [s[0]] else [];
      head + Tier(s[1..], d, v, score)
  }

  lemma {:induction false} AtDepthConcat(a: seq<Node>, b: seq<Node>, d: nat)
    ensures AtDepth(a + b, d) == AtDepth(a, d) + AtDepth(b, d)
  {
    if a == [] {
      assert a + b == b;
    } else {
      var head := if a[0].isFile && a[0].depth == d then [a[0]] else [];
      assert (a + b)[0] == a[0];
      assert (a + b)[1..] == a[1..] + b;
      AtDepthConcat(a[1..], b, d);
      calc {
        AtDepth(a + b, d);
        head + AtDepth(a[1..] + b, d);
        head + (AtDepth(a[1..], d) + AtDepth(b, d));
        (head + AtDepth(a[1..], d)) + AtDepth(b, d);
      }
    }
  }

  lemma {:induction false} TierConcat(a: seq<Node>, b: seq<Node>, d: nat, v: real, score: string -> real)
    ensures Tier(a + b, d, v, score) == Tier(a, d, v, score) + Tier(b, d, v, score)
  {
    if a == [] {
      assert a + b == b;
    } else {
      var head := if a[0].isFile && a[0].depth == d && score(a[0].path) == v then [a[0]] else [];
      assert (a + b)[0] == a[0];
      assert (a + b)[1..] == a[1..] + b;
      TierConcat(a[1..], b, d, v, score);
      calc {
        Tier(a + b, d, v, score);
        head + Tier(a[1..] + b, d, v, score);
        head + (Tier(a[1..], d, v, score) + Tier(b, d, v, score));
        (head + Tier(a[1..], d, v, score)) + Tier(b, d, v, score);
      }
    }
  }

  lemma {:induction false} AtDepthAbsent(s: seq<Node>, d: nat)
    requires d !in Depths(s)
    ensures AtDepth(s, d) == []
  {
    if s != [] {
      assert Depths(s[1..]) <= Depths(s);
      AtDepthAbsent(s[1..], d);
    }
  }

  /** Scanning one more entry extends the list of its level, or opens that level. */
  lemma GroupedSnoc(p: seq<Node>, x: Node)
    ensures Grouped(p + [x]) ==
      if x.isFile then
        Grouped(p)[x.depth := (if x.depth in Grouped(p) then Grouped(p)[x.depth] else []) + [x]]
      else Grouped(p)
  {
    var g, g' := Grouped(p), Grouped(p + [x]);
    var want := if x.isFile then g[x.depth := (if x.depth in g then g[x.depth] else []) + [x]] else g;
    assert Depths(p + [x]) == Depths(p) + (if x.isFile then {x.depth} else {}) by {
      forall n | n in p + [x] ensures n in p || n == x { }
    }
    assert g'.Keys == want.Keys;
    forall d | d in g'
      ensures g'[d] == want[d]
    {
      AtDepthConcat(p, [x], d);
      assert AtDepth([x], d) == (if x.isFile && x.depth == d then [x] else []);
      if d !in g {
        AtDepthAbsent(p, d);
      }
    }
  }

  /** `files_by_level` holds at each depth only files of that depth. */
  predicate Layered(levels: map<nat, seq<Node>>) {
    forall k, n :: k in levels && n in levels[k] ==> n.isFile && n.depth == k
  }

  lemma {:induction false} AtDepthLayered(s: seq<Node>, d: nat)
    ensures forall n :: n in AtDepth(s, d) ==> n.isFile && n.depth == d
  {
    if s != [] {
      AtDepthLayered(s[1..], d);
    }
  }

  lemma GroupedLayered(s: seq<Node>)
    ensures Layered(Grouped(s))
  {
    forall d | d in Grouped(s) {
      AtDepthLayered(s, d);
    }
  }

  /** Selecting a depth first does not change the runs of that depth. */
  lemma {:induction false} TierOfAtDepth(s: seq<Node>, d: nat, v: real, score: string -> real)
    ensures Tier(AtDepth(s, d), d, v, score) == Tier(s, d, v, score)
  {
    if s != [] {
      var head := if s[0].isFile && s[0].depth == d then [s[0]] else [];
      TierConcat(head, AtDepth(s[1..], d), d, v, score);
      TierOfAtDepth(s[1..], d, v, score);
    }
  }

  lemma {:induction false} TierAbsent(s: seq<Node>, d: nat, v: real, score: string -> real)
    requires forall n :: n in s ==> n.depth != d
    ensures Tier(s, d, v, score) == []
  {
    if s != [] {
      TierAbsent(s[1..], d, v, score);
    }
  }

  /** A file occurs in `s` as often as in its own run. */
  lemma {:induction false} CountInTier(s: seq<Node>, x: Node, score: string -> real)
    requires x.isFile
    ensures multiset(s)[x] == multiset(Tier(s, x.depth, score(x.path), score))[x]
  {
    if s != [] {
      assert s == [s[0]] + s[1..];
      CountInTier(s[1..], x, score);
    }
  }

  // ---- the stable descending sort of one level ----

  predicate Descending(s: seq<Node>, score: string -> real) {
    forall i, j :: 0 <= i < j < |s| ==> score(s[i].path) >= score(s[j].path)
  }

  /** Inserting `x` in front of the first entry that does not score higher keeps ties in order. */
  function Insert(x: Node, s: seq<Node>, score: string -> real): (r: seq<Node>)
    ensures multiset(r) == multiset(s) + multiset{x}
  {
    if s == [] || score(x.path) >= score(s[0].path) then [x] + s
    else
      assert s == [s[0]] + s[1..];
      [s[0]] + Insert(x, s[1..], score)
  }

  /** Every entry of `s` scores at most `b`. */
  predicate Bounded(s: seq<Node>, b: real, score: string -> real) {
    forall i :: 0 <= i < |s| ==> score(s[i].path) <= b
  }

  lemma ConsDescending(h: Node, s: seq<Node>, score: string -> real)
    requires Bounded(s, score(h.path), score) && Descending(s, score)
    ensures Descending([h] + s, score)
  {
    var r := [h] + s;
    forall i, j | 0 <= i < j < |r| ensures score(r[i].path) >= score(r[j].path) {
      assert r[j] == s[j - 1];
      if i > 0 {
        assert r[i] == s[i - 1];
      }
    }
  }

  lemma {:induction false} InsertBounded(x: Node, s: seq<Node>, b: real, score: string -> real)
    requires Bounded(s, b, score) && score(x.path) <= b
    ensures Bounded(Insert(x, s, score), b, score)
  {
    if s != [] && score(x.path) < score(s[0].path) {
      InsertBounded(x, s[1..], b, score);
      var rest := Insert(x, s[1..], score);
      assert forall i :: 1 <= i < |rest| + 1 ==> ([s[0]] + rest)[i] == rest[i - 1];
    } else {
      assert forall i :: 1 <= i < |s| + 1 ==> ([x] + s)[i] == s[i - 1];
    }
  }

  lemma {:induction false} InsertDescending(x: Node, s: seq<Node>, score: string -> real)
    requires Descending(s, score)
    ensures Descending(Insert(x, s, score), score)
  {
    if s == [] {
    } else if score(x.path) >= score(s[0].path) {
      ConsDescending(x, s, score);
    } else {
      assert Descending(s[1..], score) by {
        forall i, j | 0 <= i < j < |s[1..]| ensures score(s[1..][i].path) >= score(s[1..][j].path) {
          assert s[1..][i] == s[i + 1] && s[1..][j] == s[j + 1];
        }
      }
      assert Bounded(s[1..], score(s[0].path), score) by {
        forall i | 0 <= i < |s[1..]| ensures score(s[1..][i].path) <= score(s[0].path) {
          assert s[1..][i] == s[i + 1];
        }
      }
      InsertDescending(x, s[1..], score);
      InsertBounded(x, s[1..], score(s[0].path), score);
      ConsDescending(s[0], Insert(x, s[1..], score), score);
    }
  }

  lemma TierSingle(x: Node, d: nat, v: real, score: string -> real)
    ensures Tier([x], d, v, score) == if x.isFile && x.depth == d && score(x.path) == v then [x] else []
  {
    assert [x][1..] == [];
  }

  /** At most one of two single files has a given depth and score, so their tiers commute. */
  lemma TierSwap(x: Node, y: Node, t: seq<Node>, d: nat, v: real, score: string -> real)
    requires score(x.path) != score(y.path)
    ensures Tier([y], d, v, score) + (Tier([x], d, v, score) + t)
         == Tier([x], d, v, score) + (Tier([y], d, v, score) + t)
  {
    TierSingle(x, d, v, score);
    TierSingle(y, d, v, score);
  }

  lemma {:induction false} InsertTier(x: Node, s: seq<Node>, d: nat, v: real, score: string -> real)
    ensures Tier(Insert(x, s, score), d, v, score) == Tier([x], d, v, score) + Tier(s, d, v, score)
  {
    if s == [] || score(x.path) >= score(s[0].path) {
      TierConcat([x], s, d, v, score);
    } else {
      var rest := Insert(x, s[1..], score);
      assert Insert(x, s, score) == [s[0]] + rest;
      assert s == [s[0]] + s[1..];
      InsertTier(x, s[1..], d, v, score);
      TierConcat([s[0]], rest, d, v, score);
      TierConcat([s[0]], s[1..], d, v, score);
      TierSwap(x, s[0], Tier(s[1..], d, v, score), d, v, score);
    }
  }

  /** Inserting the head into the sorted tail keeps every tier of the whole sequence. */
  lemma InsertKeepsTiers(s: seq<Node>, rest: seq<Node>, score: string -> real)
    requires s != []
    requires forall d, v :: Tier(rest, d, v, score) == Tier(s[1..], d, v, score)
    ensures forall d, v :: Tier(Insert(s[0], rest, score), d, v, score) == Tier(s, d, v, score)
  {
    assert s == [s[0]] + s[1..];
    forall d, v ensures Tier(Insert(s[0], rest, score), d, v, score) == Tier(s, d, v, score) {
      InsertTier(s[0], rest, d, v, score);
      TierConcat([s[0]], s[1..], d, v, score);
    }
  }

  /**
   * `sorted(level, key=score, reverse=True)`: a permutation, by non-increasing score, in which
   * entries of equal score keep their order (Python's sort is stable, also in reverse).
   */
  function SortByScore(s: seq<Node>, score: string -> real): (r: seq<Node>)
    ensures multiset(r) == multiset(s)
    ensures Descending(r, score)
    ensures forall d, v :: Tier(r, d, v, score) == Tier(s, d, v, score)
  {
    if s == [] then []
    else
      var rest := SortByScore(s[1..], score);
      InsertDescending(s[0], rest, score);
      InsertKeepsTiers(s, rest, score);
      assert s == [s[0]] + s[1..];
      Insert(s[0], rest, score)
  }

  // ---- the levels, shallow first ----

  /** The least key of a non-empty set of levels, found by picking keys one at a time. */
  ghost function MinOf(ks: set<nat>): (m: nat)
    requires ks != {}
    ensures m in ks && forall k :: k in ks ==> m <= k
    decreases ks
  {
    var x :| x in ks;
    assert forall k :: k in ks ==> k == x || k in ks - {x};
    if ks - {x} == {} then x
    else
      var m := MinOf(ks - {x});
      if x < m then x else m
  }

  /** `min(ks)`: the one key that no other key undercuts. */
  function Least(ks: set<nat>): (m: nat)
    requires ks != {}
    ensures m in ks && forall k :: k in ks ==> m <= k
  {
    assert MinOf(ks) in ks;
    var m :| m in ks && forall k :: k in ks ==> m <= k;
    m
  }

  /** `sorted(files_by_level.keys())`. */
  function SortedKeys(ks: set<nat>): (r: seq<nat>)
    ensures forall i, j :: 0 <= i < j < |r| ==> r[i] < r[j]
    ensures forall k :: k in r <==> k in ks
    decreases ks
  {
    if ks == {} then []
    else
      var m := Least(ks);
      [m] + SortedKeys(ks - {m})
  }

  /** The comprehension: the sorted files of each level, levels taken in the order of `keys`. */
  function Chain(keys: seq<nat>, levels: map<nat, seq<Node>>, score: string -> real): seq<Node>
    requires forall k :: k in keys ==> k in levels
  {
    if keys == [] then [] else SortByScore(levels[keys[0]], score) + Chain(keys[1..], levels, score)
  }

  lemma {:induction false} ChainMembers(keys: seq<nat>, levels: map<nat, seq<Node>>, score: string -> real)
    requires forall k :: k in keys ==> k in levels
    requires Layered(levels)
    ensures forall n :: n in Chain(keys, levels, score) ==> n.isFile && n.depth in keys
  {
    if keys != [] {
      ChainMembers(keys[1..], levels, score);
      var head := SortByScore(levels[keys[0]], score);
      assert forall n :: n in head ==> n in multiset(levels[keys[0]]);
    }
  }

  /** Depths never decrease along `c`. */
  predicate ShallowFirst(c: seq<Node>) {
    forall i, j :: 0 <= i < j < |c| ==> c[i].depth <= c[j].depth
  }

  /** Along `c`, scores never increase within one depth. */
  predicate SimilarFirst(c: seq<Node>, score: string -> real) {
    forall i, j :: 0 <= i < j < |c| && c[i].depth == c[j].depth ==> score(c[i].path) >= score(c[j].path)
  }

  lemma ConcatOrdered(head: seq<Node>, tail: seq<Node>, k: nat, score: string -> real)
    requires forall n :: n in head ==> n.depth == k
    requires forall n :: n in tail ==> n.depth > k
    requires Descending(head, score)
    requires ShallowFirst(tail) && SimilarFirst(tail, score)
    ensures ShallowFirst(head + tail) && SimilarFirst(head + tail, score)
  {
    var c := head + tail;
    forall i, j | 0 <= i < j < |c|
      ensures c[i].depth <= c[j].depth
      ensures c[i].depth == c[j].depth ==> score(c[i].path) >= score(c[j].path)
    {
      if j < |head| {
        assert c[i] == head[i] && c[j] == head[j];
      } else if i < |head| {
        assert c[i] == head[i] && c[j] == tail[j - |head|];
        assert c[i] in head && c[j] in tail;
      } else {
        assert c[i] == tail[i - |head|] && c[j] == tail[j - |head|];
      }
    }
  }

  lemma {:induction false} ChainOrdered(keys: seq<nat>, levels: map<nat, seq<Node>>, score: string -> real)
    requires forall k :: k in keys ==> k in levels
    requires forall i, j :: 0 <= i < j < |keys| ==> keys[i] < keys[j]
    requires Layered(levels)
    ensures ShallowFirst(Chain(keys, levels, score))
    ensures SimilarFirst(Chain(keys, levels, score), score)
  {
    if keys != [] {
      var head := SortByScore(levels[keys[0]], score);
      var tail := Chain(keys[1..], levels, score);
      ChainOrdered(keys[1..], levels, score);
      ChainMembers(keys[1..], levels, score);
      assert forall n :: n in head ==> n in multiset(levels[keys[0]]);
      assert forall n :: n in tail ==> n.depth > keys[0] by {
        forall n | n in tail ensures n.depth > keys[0] {
          var i :| 0 <= i < |keys[1..]| && keys[1..][i] == n.depth;
          assert keys[1..][i] == keys[i + 1];
        }
      }
      ConcatOrdered(head, tail, keys[0], score);
    }
  }

  lemma {:induction false} ChainTier(keys: seq<nat>, levels: map<nat, seq<Node>>, d: nat, v: real, score: string -> real)
    requires forall k :: k in keys ==> k in levels
    requires forall i, j :: 0 <= i < j < |keys| ==> keys[i] < keys[j]
    requires Layered(levels)
    ensures Tier(Chain(keys, levels, score), d, v, score) == if d in keys then Tier(levels[d], d, v, score) else []
  {
    if keys != [] {
      var k := keys[0];
      var head := SortByScore(levels[k], score);
      ChainTier(keys[1..], levels, d, v, score);
      TierConcat(head, Chain(keys[1..], levels, score), d, v, score);
      if k != d {
        assert forall n :: n in head ==> n in multiset(levels[k]);
        TierAbsent(head, d, v, score);
      } else {
        assert d !in keys[1..];
      }
    }
  }

  /** The list the comprehension returns for the scanned levels. */
  function Arrange(levels: map<nat, seq<Node>>, score: string -> real): seq<Node> {
    Chain(SortedKeys(levels.Keys), levels, score)
  }

  /**
   * The comprehension over the levels of a scan lists every file found, exactly as often as
   * found, shallow levels first, each level by non-increasing score, and the files of one depth
   * and one score in the order they were found.
   */
  lemma ArrangeGrouped(found: seq<Node>, score: string -> real)
    ensures var files := Arrange(Grouped(found), score);
      && (forall x :: multiset(files)[x] == if x.isFile then multiset(found)[x] else 0)
      && ShallowFirst(files)
      && SimilarFirst(files, score)
      && (forall d, v :: Tier(files, d, v, score) == Tier(found, d, v, score))
  {
    var levels := Grouped(found);
    var keys := SortedKeys(levels.Keys);
    var files := Arrange(levels, score);
    GroupedLayered(found);
    ChainOrdered(keys, levels, score);
    ChainMembers(keys, levels, score);
    forall d, v ensures Tier(files, d, v, score) == Tier(found, d, v, score) {
      ChainTier(keys, levels, d, v, score);
      if d !in levels {
        assert forall n :: n in found && n.isFile ==> n.depth in Depths(found);
        AtDepthAbsent(found, d);
      }
      TierOfAtDepth(found, d, v, score);
    }
    forall x: Node ensures multiset(files)[x] == if x.isFile then multiset(found)[x] else 0 {
      if x.isFile {
        CountInTier(files, x, score);
        CountInTier(found, x, score);
      } else {
        assert x !in files;
      }
    }
  }

  /**
   * `get_all_files(path)`: `[path]` when the path is a file; otherwise the files among the
   * entries `found` by the recursive scan, grouped by depth in a dictionary and listed as
   * `Arrange` lists them.  `score` is the similarity of a path to the input folder's path.
   */
  method GetAllFiles(root: string, rootIsFile: bool, found: seq<Node>, score: string -> real)
    returns (files: seq<Node>)
    ensures rootIsFile ==> files == [Node(root, 0, true)]
    ensures !rootIsFile ==> forall x :: multiset(files)[x] == if x.isFile then multiset(found)[x] else 0
    ensures !rootIsFile ==> ShallowFirst(files) && SimilarFirst(files, score)
    ensures !rootIsFile ==> forall d, v :: Tier(files, d, v, score) == Tier(found, d, v, score)
  {
    if rootIsFile {
      return [Node(root, 0, true)];
    }
    var levels: map<nat, seq<Node>> := map[];
    for i := 0 to |found|
      invariant levels == Grouped(found[..i])
    {
      var f := found[i];
      GroupedSnoc(found[..i], f);
      assert found[..i + 1] == found[..i] + [f];
      if f.isFile {
        var d := f.depth;
        levels := levels[d := (if d in levels then levels[d] else []) + [f]];
      }
    }
    assert found[..|found|] == found;
    files := Arrange(levels, score);
    ArrangeGrouped(found, score);
  }
}
