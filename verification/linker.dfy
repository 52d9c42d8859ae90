/**
 * `AniSort.process` of `ani_sort/core.py`: make the destination folders, then hard-link each
 * source to its destination, or, when the destination already exists, record the source's
 * own name in the table instead.
 *
 * The file system is the set of paths that exist. Whether `os.link` fails for a source is a
 * parameter: the set of sources whose link raises.
 */
module Linker {
  import opened Paths
  import opened Tables

  /** The table's destinations and the paths that exist. */
  datatype Outcome = Outcome(dest: map<string, string>, fs: set<string>)

  /**
   * One turn of the loop over the table, for `src`. A destination that exists is a collision
   * and the entry becomes the source's name; a missing one is linked, which makes it exist,
   * unless the run is dry or the link fails. `"ignore"` entries are passed over when
   * `skipIgnore` holds.
   */
  function Step(o: Outcome, src: string, dryRun: bool, failing: set<string>, skipIgnore: bool): (r: Outcome)
    requires src in o.dest
    ensures r.dest.Keys == o.dest.Keys && o.fs <= r.fs
    ensures forall k :: k in o.dest && k != src ==> r.dest[k] == o.dest[k]
    ensures r.dest[src] == o.dest[src] || r.dest[src] == Name(src)
    ensures skipIgnore && o.dest[src] == Ignore ==> r == o
    ensures !(skipIgnore && o.dest[src] == Ignore) && o.dest[src] in o.fs ==>
      r == Outcome(o.dest[src := Name(src)], o.fs)
    ensures !(skipIgnore && o.dest[src] == Ignore) && o.dest[src] !in o.fs ==>
      r.dest == o.dest && r.fs == if dryRun || src in failing then o.fs else o.fs + {o.dest[src]}
  {
    var d := o.dest[src];
    if skipIgnore && d == Ignore then o
    else if d !in o.fs then
      if dryRun || src in failing then o else Outcome(o.dest, o.fs + {d})
    else Outcome(o.dest[src := Name(src)], o.fs)
  }

  /** The loop over the sources in `order`, from the state `o`. */
  function Resolve(order: seq<string>, o: Outcome, dryRun: bool, failing: set<string>, skipIgnore: bool): (r: Outcome)
    requires forall k :: k in order ==> k in o.dest
    ensures r.dest.Keys == o.dest.Keys && o.fs <= r.fs
    ensures forall k :: k in o.dest && k !in order ==> r.dest[k] == o.dest[k]
    decreases |order|
  {
    if order == [] then o
    else
      var init := order[..|order| - 1];
      assert forall k :: k in init ==> k in order;
      var m := Resolve(init, o, dryRun, failing, skipIgnore);
      Step(m, order[|order| - 1], dryRun, failing, skipIgnore)
  }

  /** The folders the table's destinations are in, `.` for the bare `"ignore"` among them. */
  function DestDirs(dest: map<string, string>): (r: set<string>)
    ensures forall k :: k in dest ==> Parent(dest[k]) in r
    ensures forall p :: p in r ==> exists k :: k in dest && p == Parent(dest[k])
  {
    set k | k in dest :: Parent(dest[k])
  }

  /** What making each of `dirs` with its parents creates. */
  ghost function Made(dirs: set<string>): (r: set<string>)
    decreases |dirs|
  {
    if dirs == {} then {} else var d :| d in dirs; Ancestry(d) + Made(dirs - {d})
  }

  /** A path is made when it is one of the folders or an ancestor of one. */
  lemma {:induction false} MadeMembers(dirs: set<string>, p: string)
    ensures p in Made(dirs) <==> exists d :: d in dirs && p in Ancestry(d)
    decreases |dirs|
  {
    if dirs != {} {
      var d :| d in dirs && Made(dirs) == Ancestry(d) + Made(dirs - {d});
      MadeMembers(dirs - {d}, p);
      if p in Made(dirs) && p !in Ancestry(d) {
        var e :| e in dirs - {d} && p in Ancestry(e);
      }
      if exists e :: e in dirs && p in Ancestry(e) {
        var e :| e in dirs && p in Ancestry(e);
        if e != d {
          assert e in dirs - {d};
        }
      }
    }
  }

  /** Making one more folder adds that folder's ancestry. */
  lemma MadeAdd(done: set<string>, d: string)
    ensures Made(done + {d}) == Made(done) + Ancestry(d)
  {
    forall p ensures p in Made(done + {d}) <==> p in Made(done) + Ancestry(d) {
      MadeMembers(done + {d}, p);
      MadeMembers(done, p);
      if p in Made(done) {
        var e :| e in done && p in Ancestry(e);
        assert e in done + {d};
      }
      if p in Made(done + {d}) && p !in Ancestry(d) {
        var e :| e in done + {d} && p in Ancestry(e);
        assert e in done;
      }
    }
  }

  /** Making one more of the folders still left adds that folder's ancestry. */
  lemma MakeOne(fs: set<string>, dirs: set<string>, left: set<string>, d: string, made: set<string>)
    requires d in left && left <= dirs && made == fs + Made(dirs - left)
    ensures made + Ancestry(d) == fs + Made(dirs - (left - {d}))
  {
    assert dirs - (left - {d}) == (dirs - left) + {d};
    MadeAdd(dirs - left, d);
  }

  /**
   * The first loop of `process`: `d.mkdir(parents=True, exist_ok=True)` for each folder of
   * `dirs`, on the file system `fs`; a dry run skips it.
   */
  method MakeAll(dirs: set<string>, fs: set<string>) returns (made: set<string>)
    ensures made == fs + Made(dirs)
  {
    var left := dirs;
    made := fs;
    while left != {}
      invariant left <= dirs && made == fs + Made(dirs - left)
      decreases |left|
    {
      var d :| d in left;
      MakeOne(fs, dirs, left, d, made);
      made := made + Ancestry(d);
      left := left - {d};
    }
    assert dirs - left == dirs;
  }

  /**
   * The whole of `process`: in a real run the destination folders are made first; then each
   * entry is handled in table order.
   */
  ghost function Materialize(t: Table, fs: set<string>, dryRun: bool, failing: set<string>, skipIgnore: bool): (r: Outcome)
    requires WellFormed(t)
  {
    Resolve(t.order, Outcome(t.dest, if dryRun then fs else fs + Made(DestDirs(t.dest))), dryRun, failing, skipIgnore)
  }

  /** A sorter's table and the file system it works on. */
  class Sorter {
    var order: seq<string>
    var dest: map<string, string>
    var fs: set<string>

    ghost predicate Valid()
      reads this
    {
      WellFormed(Table(order, dest))
    }

    constructor (t: Table, existing: set<string>)
      requires WellFormed(t)
      ensures Valid() && order == t.order && dest == t.dest && fs == existing
    {
      order, dest, fs := t.order, t.dest, existing;
    }

    /**
     * `process(dryrun)`: the folders it makes, the links it makes and the entries it rewrites.
     * The `.ignore` markers and the `Comparison_Table.txt` it may write afterwards are not
     * part of this file system.
     */
    method Process(dryRun: bool, failing: set<string>)
      requires Valid()
      modifies this
      ensures Valid() && order == old(order)
      ensures Outcome(dest, fs) == Materialize(Table(old(order), old(dest)), old(fs), dryRun, failing, true)
    {
      var keys, table, made := order, dest, fs;
      if !dryRun {
        made := MakeAll(DestDirs(table), made);
      }
      ghost var o := Outcome(table, made);
      ghost var want := Materialize(Table(keys, table), fs, dryRun, failing, true);
      assert want == Resolve(keys, o, dryRun, failing, true);
      table, made := LinkAll(keys, table, made, dryRun, failing);
      SameKeys(keys, o.dest, table);
      dest, fs := table, made;
      assert Outcome(dest, fs) == want;
    }
  }

  /**
   * The second loop of `process`: each entry in table order, `"ignore"` entries passed over,
   * on the table `dest` and the file system `fs`.
   */
  method LinkAll(order: seq<string>, dest: map<string, string>, fs: set<string>, dryRun: bool, failing: set<string>)
    returns (table: map<string, string>, made: set<string>)
    requires forall k :: k in order ==> k in dest
    ensures Outcome(table, made) == Resolve(order, Outcome(dest, fs), dryRun, failing, true)
  {
    table, made := dest, fs;
    var i := 0;
    while i < |order|
      invariant 0 <= i <= |order|
      invariant Outcome(table, made) == Resolve(order[..i], Outcome(dest, fs), dryRun, failing, true)
    {
      var src := order[i];
      ResolveSnoc(order, i, Outcome(dest, fs), dryRun, failing, true);
      var d := table[src];
      if d == Ignore {
      } else if d !in made {
        if !dryRun && src !in failing {
          made := made + {d};
        }
      } else {
        table := table[src := Name(src)];
      }
      i := i + 1;
    }
    assert order[..|order|] == order;
  }

  /** The table stays well formed when only its values change. */
  lemma SameKeys(order: seq<string>, before: map<string, string>, after: map<string, string>)
    requires WellFormed(Table(order, before)) && after.Keys == before.Keys
    ensures WellFormed(Table(order, after))
  {
    assert forall k :: k in after <==> k in before;
  }

  /** One more turn of the loop over `order` is one more `Step`. */
  lemma ResolveSnoc(order: seq<string>, i: nat, o: Outcome, dryRun: bool, failing: set<string>, skipIgnore: bool)
    requires i < |order| && forall k :: k in order ==> k in o.dest
    ensures forall k :: k in order[..i] ==> k in o.dest
    ensures forall k :: k in order[..i + 1] ==> k in o.dest
    ensures order[i] in Resolve(order[..i], o, dryRun, failing, skipIgnore).dest
    ensures Resolve(order[..i + 1], o, dryRun, failing, skipIgnore)
      == Step(Resolve(order[..i], o, dryRun, failing, skipIgnore), order[i], dryRun, failing, skipIgnore)
  {
    assert forall k :: k in order[..i] ==> k in order;
    assert forall k :: k in order[..i + 1] ==> k in order;
    assert order[..i + 1][..i] == order[..i];
  }

  /** A dry run creates nothing. */
  lemma DryRunCreatesNothing(t: Table, fs: set<string>, failing: set<string>, skipIgnore: bool)
    requires WellFormed(t)
    ensures Materialize(t, fs, true, failing, skipIgnore).fs == fs
  {
    DryResolveKeepsFs(t.order, Outcome(t.dest, fs), failing, skipIgnore);
  }

  lemma {:induction false} DryResolveKeepsFs(order: seq<string>, o: Outcome, failing: set<string>, skipIgnore: bool)
    requires forall k :: k in order ==> k in o.dest
    ensures Resolve(order, o, true, failing, skipIgnore).fs == o.fs
    decreases |order|
  {
    if order != [] {
      var init := order[..|order| - 1];
      assert forall k :: k in init ==> k in order;
      DryResolveKeepsFs(init, o, failing, skipIgnore);
    }
  }

  /**
   * In the loop each entry is either kept or becomes its source's name, and it changes only
   * when, at its turn, its destination exists; an `"ignore"` entry never changes when
   * `skipIgnore` holds. Nothing else in the table changes.
   */
  lemma {:induction false} ResolveEntries(order: seq<string>, o: Outcome, dryRun: bool, failing: set<string>, skipIgnore: bool)
    requires forall k :: k in order ==> k in o.dest
    ensures var r := Resolve(order, o, dryRun, failing, skipIgnore);
      forall k :: k in o.dest ==>
        && (r.dest[k] == o.dest[k] || r.dest[k] == Name(k))
        && (skipIgnore && o.dest[k] == Ignore ==> r.dest[k] == o.dest[k])
        && (r.dest[k] != o.dest[k] ==> o.dest[k] in r.fs && !(skipIgnore && o.dest[k] == Ignore))
    decreases |order|
  {
    if order != [] {
      var init := order[..|order| - 1];
      assert forall k :: k in init ==> k in order;
      ResolveEntries(init, o, dryRun, failing, skipIgnore);
    }
  }

  /**
   * An entry's fate is decided at its turn, over keys that each occur once: it becomes its
   * source's name exactly when its destination exists by then (and it is not an `"ignore"`
   * entry passed over), and it is kept otherwise.
   */
  lemma {:induction false} EntryAtItsTurn(order: seq<string>, o: Outcome, dryRun: bool, failing: set<string>, skipIgnore: bool, i: nat)
    requires forall k :: k in order ==> k in o.dest
    requires forall a, b :: 0 <= a < b < |order| ==> order[a] != order[b]
    requires i < |order|
    ensures forall k :: k in order[..i] ==> k in o.dest
    ensures var k := order[i];
      var before := Resolve(order[..i], o, dryRun, failing, skipIgnore);
      Resolve(order, o, dryRun, failing, skipIgnore).dest[k]
        == if o.dest[k] in before.fs && !(skipIgnore && o.dest[k] == Ignore) then Name(k) else o.dest[k]
    decreases |order|
  {
    var k := order[i];
    ResolveSnoc(order, i, o, dryRun, failing, skipIgnore);
    if i == |order| - 1 {
      assert order[..i + 1] == order;
      assert k !in order[..i] by {
        forall j | 0 <= j < i ensures order[..i][j] != k {
          assert order[..i][j] == order[j];
        }
      }
    } else {
      var init := order[..|order| - 1];
      assert init[..i] == order[..i] && init[i] == k;
      assert forall x :: x in init ==> x in order;
      EntryAtItsTurn(init, o, dryRun, failing, skipIgnore, i);
      assert order[|order| - 1] != k;
    }
  }

  /** A run that passes over `"ignore"` entries never creates the path `ignore`. */
  lemma {:induction false} IgnoreNeverLinked(order: seq<string>, o: Outcome, dryRun: bool, failing: set<string>)
    requires forall k :: k in order ==> k in o.dest
    ensures Ignore in Resolve(order, o, dryRun, failing, true).fs <==> Ignore in o.fs
    decreases |order|
  {
    if order != [] {
      var init := order[..|order| - 1];
      assert forall k :: k in init ==> k in order;
      IgnoreNeverLinked(init, o, dryRun, failing);
    }
  }

  /**
   * Every path the loop creates, over keys that each occur once, is the destination of an
   * entry whose link was attempted in a real run and did not fail, and never a passed-over
   * `"ignore"`.
   */
  lemma {:induction false} LinkedPaths(order: seq<string>, o: Outcome, dryRun: bool, failing: set<string>, skipIgnore: bool)
    requires forall k :: k in order ==> k in o.dest
    requires forall a, b :: 0 <= a < b < |order| ==> order[a] != order[b]
    ensures var r := Resolve(order, o, dryRun, failing, skipIgnore);
      forall p :: p in r.fs && p !in o.fs ==>
        && !dryRun && !(skipIgnore && p == Ignore)
        && exists k :: k in order && k !in failing && o.dest[k] == p
    decreases |order|
  {
    if order != [] {
      var init := order[..|order| - 1];
      var last := order[|order| - 1];
      assert forall k :: k in init ==> k in order;
      assert last !in init;
      LinkedPaths(init, o, dryRun, failing, skipIgnore);
      var m := Resolve(init, o, dryRun, failing, skipIgnore);
      assert m.dest[last] == o.dest[last];
      StepCreates(m, last, dryRun, failing, skipIgnore);
    }
  }

  /** The one path a turn can create is its entry's destination, linked in a real run. */
  lemma StepCreates(m: Outcome, src: string, dryRun: bool, failing: set<string>, skipIgnore: bool)
    requires src in m.dest
    ensures var r := Step(m, src, dryRun, failing, skipIgnore);
      forall p :: p in r.fs && p !in m.fs ==>
        p == m.dest[src] && !dryRun && src !in failing && !(skipIgnore && p == Ignore)
  {
  }

  /**
   * A dry run, over keys that each occur once, flattens exactly the entries whose destination
   * already exists, `"ignore"` entries aside when `skipIgnore` holds.
   */
  lemma {:induction false} DryRunFlattensExisting(order: seq<string>, o: Outcome, failing: set<string>, skipIgnore: bool)
    requires forall k :: k in order ==> k in o.dest
    requires forall i, j :: 0 <= i < j < |order| ==> order[i] != order[j]
    ensures var r := Resolve(order, o, true, failing, skipIgnore);
      forall k :: k in order ==>
        r.dest[k] == if o.dest[k] in o.fs && !(skipIgnore && o.dest[k] == Ignore) then Name(k) else o.dest[k]
    decreases |order|
  {
    if order != [] {
      var init := order[..|order| - 1];
      var last := order[|order| - 1];
      assert forall k :: k in init ==> k in order;
      assert last !in init;
      DryRunFlattensExisting(init, o, failing, skipIgnore);
      DryResolveKeepsFs(init, o, failing, skipIgnore);
      assert forall k :: k in order ==> k in init || k == last;
    }
  }

  /**
   * After a real run every destination exists, flattened entries' included, unless its link
   * failed or it is an `"ignore"` entry passed over.
   */
  lemma {:induction false} RealRunLinksAll(order: seq<string>, o: Outcome, failing: set<string>, skipIgnore: bool)
    requires forall k :: k in order ==> k in o.dest
    requires forall i, j :: 0 <= i < j < |order| ==> order[i] != order[j]
    ensures var r := Resolve(order, o, false, failing, skipIgnore);
      forall k :: k in order ==> o.dest[k] in r.fs || k in failing || (skipIgnore && o.dest[k] == Ignore)
    decreases |order|
  {
    if order != [] {
      var init := order[..|order| - 1];
      var last := order[|order| - 1];
      assert forall k :: k in init ==> k in order;
      assert last !in init;
      RealRunLinksAll(init, o, failing, skipIgnore);
      var m := Resolve(init, o, false, failing, skipIgnore);
      assert m.dest[last] == o.dest[last];
      assert forall k :: k in order ==> k in init || k == last;
    }
  }

  /** Every entry's destination exists, unless its link fails or it is passed over. */
  ghost predicate Covered(order: seq<string>, o: Outcome, failing: set<string>, skipIgnore: bool)
    requires forall k :: k in order ==> k in o.dest
  {
    forall k :: k in order ==> o.dest[k] in o.fs || k in failing || (skipIgnore && o.dest[k] == Ignore)
  }

  /** A loop over entries whose destinations are covered creates nothing. */
  lemma {:induction false} StableRunKeepsFs(order: seq<string>, o: Outcome, dryRun: bool, failing: set<string>, skipIgnore: bool)
    requires forall k :: k in order ==> k in o.dest
    requires forall i, j :: 0 <= i < j < |order| ==> order[i] != order[j]
    requires Covered(order, o, failing, skipIgnore)
    ensures Resolve(order, o, dryRun, failing, skipIgnore).fs == o.fs
    decreases |order|
  {
    if order != [] {
      var init := order[..|order| - 1];
      var last := order[|order| - 1];
      assert forall k :: k in init ==> k in order;
      assert last !in init;
      StableRunKeepsFs(init, o, dryRun, failing, skipIgnore);
      assert Resolve(init, o, dryRun, failing, skipIgnore).dest[last] == o.dest[last];
    }
  }

  /** A loop over entries whose destinations are covered flattens those that exist. */
  lemma {:induction false} StableRunFlattens(order: seq<string>, o: Outcome, dryRun: bool, failing: set<string>, skipIgnore: bool)
    requires forall k :: k in order ==> k in o.dest
    requires forall i, j :: 0 <= i < j < |order| ==> order[i] != order[j]
    requires Covered(order, o, failing, skipIgnore)
    ensures var r := Resolve(order, o, dryRun, failing, skipIgnore);
      forall k :: k in order ==>
        r.dest[k] == if o.dest[k] in o.fs && !(skipIgnore && o.dest[k] == Ignore) then Name(k) else o.dest[k]
    decreases |order|
  {
    if order != [] {
      var init := order[..|order| - 1];
      var last := order[|order| - 1];
      assert forall k :: k in init ==> k in order;
      assert last !in init;
      assert Covered(init, o, failing, skipIgnore);
      StableRunFlattens(init, o, dryRun, failing, skipIgnore);
      StableRunKeepsFs(init, o, dryRun, failing, skipIgnore);
      var m := Resolve(init, o, dryRun, failing, skipIgnore);
      StableStep(m, o, last, dryRun, failing, skipIgnore);
      var r := Step(m, last, dryRun, failing, skipIgnore);
      assert Resolve(order, o, dryRun, failing, skipIgnore) == r;
      forall k | k in order
        ensures r.dest[k] == if o.dest[k] in o.fs && !(skipIgnore && o.dest[k] == Ignore) then Name(k) else o.dest[k]
      {
        if k != last {
          assert k in init;
        }
      }
    }
  }

  /** One step on an entry not yet visited, whose destination is covered, flattens it exactly when that destination exists. */
  lemma StableStep(m: Outcome, o: Outcome, src: string, dryRun: bool, failing: set<string>, skipIgnore: bool)
    requires src in m.dest && src in o.dest
    requires m.fs == o.fs && m.dest[src] == o.dest[src]
    requires o.dest[src] in o.fs || src in failing || (skipIgnore && o.dest[src] == Ignore)
    ensures Step(m, src, dryRun, failing, skipIgnore).dest[src] ==
      if o.dest[src] in o.fs && !(skipIgnore && o.dest[src] == Ignore) then Name(src) else o.dest[src]
  {
  }

  /**
   * A loop, over keys that each occur once, in which every destination already exists unless
   * its link fails or it is an `"ignore"` entry passed over, creates nothing and flattens
   * exactly the entries whose destination exists.
   */
  lemma StableRun(order: seq<string>, o: Outcome, dryRun: bool, failing: set<string>, skipIgnore: bool)
    requires forall k :: k in order ==> k in o.dest
    requires forall i, j :: 0 <= i < j < |order| ==> order[i] != order[j]
    requires Covered(order, o, failing, skipIgnore)
    ensures var r := Resolve(order, o, dryRun, failing, skipIgnore);
      && r.fs == o.fs
      && forall k :: k in order ==>
        r.dest[k] == if o.dest[k] in o.fs && !(skipIgnore && o.dest[k] == Ignore) then Name(k) else o.dest[k]
  {
    StableRunKeepsFs(order, o, dryRun, failing, skipIgnore);
    StableRunFlattens(order, o, dryRun, failing, skipIgnore);
  }

  /** After a real run the folders it made still exist. */
  lemma FirstRunKeepsFolders(t: Table, fs: set<string>, failing: set<string>)
    requires WellFormed(t)
    ensures var first := Materialize(t, fs, false, failing, true).fs;
      first + Made(DestDirs(t.dest)) == first
  {
  }

  /** After a real run every destination exists, unless its link failed or it is `"ignore"`. */
  lemma FirstRunCovers(t: Table, fs: set<string>, failing: set<string>)
    requires WellFormed(t)
    ensures Covered(t.order, Outcome(t.dest, Materialize(t, fs, false, failing, true).fs), failing, true)
  {
    var start := Outcome(t.dest, fs + Made(DestDirs(t.dest)));
    RealRunLinksAll(t.order, start, failing, true);
  }

  /**
   * Running `process` a second time on the same table, with the same links failing, writes
   * nothing: the folders and every linked destination exist by then, so each entry that is not
   * `"ignore"` and whose link does not fail finds its destination and is flattened.
   */
  lemma RerunWritesNothing(t: Table, fs: set<string>, failing: set<string>)
    requires WellFormed(t)
    ensures var first := Materialize(t, fs, false, failing, true);
      var second := Materialize(t, first.fs, false, failing, true);
      && second.fs == first.fs
      && forall k :: k in t.dest && k !in failing && t.dest[k] != Ignore ==> second.dest[k] == Name(k)
  {
    var first := Materialize(t, fs, false, failing, true);
    FirstRunKeepsFolders(t, fs, failing);
    FirstRunCovers(t, fs, failing);
    var again := Outcome(t.dest, first.fs);
    assert Materialize(t, first.fs, false, failing, true) == Resolve(t.order, again, false, failing, true);
    StableRun(t.order, again, false, failing, true);
  }

  /**
   * Two sources with the same missing destination: in a real run the first is linked and the
   * second, finding the link, is flattened to its own name; a dry run links nothing, so
   * neither changes.
   */
  lemma SecondOfTwoFlattened(a: string, b: string, d: string, dest: map<string, string>, fs: set<string>, failing: set<string>)
    requires a != b && a in dest && b in dest && dest[a] == d && dest[b] == d
    requires d != Ignore && d !in fs && a !in failing
    ensures var run := Resolve([a, b], Outcome(dest, fs), false, failing, true);
      run.dest == dest[b := Name(b)] && d in run.fs
    ensures Resolve([a, b], Outcome(dest, fs), true, failing, true).dest == dest
  {
    var o := Outcome(dest, fs);
    ResolveSnoc([a, b], 0, o, false, failing, true);
    ResolveSnoc([a, b], 1, o, false, failing, true);
    ResolveSnoc([a, b], 0, o, true, failing, true);
    ResolveSnoc([a, b], 1, o, true, failing, true);
    assert [a, b][..0] == [] && [a, b][..2] == [a, b];
  }

  /** A table with no `"ignore"` entry is handled the same whether or not they are passed over. */
  lemma {:induction false} IgnoreIrrelevant(order: seq<string>, o: Outcome, dryRun: bool, failing: set<string>)
    requires forall k :: k in order ==> k in o.dest
    requires forall i, j :: 0 <= i < j < |order| ==> order[i] != order[j]
    requires forall k :: k in o.dest ==> o.dest[k] != Ignore
    ensures Resolve(order, o, dryRun, failing, true) == Resolve(order, o, dryRun, failing, false)
    decreases |order|
  {
    if order != [] {
      var init := order[..|order| - 1];
      var last := order[|order| - 1];
      assert forall k :: k in init ==> k in order;
      assert last !in init;
      IgnoreIrrelevant(init, o, dryRun, failing);
    }
  }
}
