/** The source-to-destination table: a dictionary that keeps its keys in insertion order. */
module Tables {
  import opened Results

  /** The destination that marks a file to leave alone. */
  const Ignore: string := "ignore"

  /** The table: its keys in insertion order, and the value of each key. */
  datatype Table = Table(order: seq<string>, dest: map<string, string>)

  predicate WellFormed(t: Table) {
    && (forall i, j :: 0 <= i < j < |t.order| ==> t.order[i] != t.order[j])
    && (forall k :: k in t.dest ==> k in t.order)
    && (forall k :: k in t.order ==> k in t.dest)
  }

  /** `d[k] = v` on an insertion-ordered dictionary. */
  function Assign(t: Table, k: string, v: string): (r: Table)
    requires WellFormed(t)
    ensures WellFormed(r)
    ensures r.dest == t.dest[k := v]
    ensures k in t.dest ==> r.order == t.order
    ensures k !in t.dest ==> r.order == t.order + [k]
  {
    Table(if k in t.dest then t.order else t.order + [k], t.dest[k := v])
  }

  /**
   * `{str(file): dest(file) for file in files}`, entries added in order; the first exception
   * raised ends the construction. Every file becomes a key, mapped to its own destination.
   */
  function BuildTable(files: seq<string>, dest: string -> Result<string, PyError>): (r: Result<Table, PyError>)
    ensures r.Ok? <==> forall i :: 0 <= i < |files| ==> dest(files[i]).Ok?
    ensures r.Ok? ==> WellFormed(r.value)
    ensures r.Ok? ==> forall f :: f in r.value.dest <==> f in files
    ensures r.Ok? ==> forall f :: f in r.value.dest ==> dest(f) == Ok(r.value.dest[f])
    decreases |files|
  {
    if files == [] then Ok(Table([], map[]))
    else
      var init := files[..|files| - 1];
      var last := files[|files| - 1];
      assert files == init + [last];
      var t :- BuildTable(init, dest);
      var v :- dest(last);
      Ok(Assign(t, last, v))
  }

  /** Files without repeats keep their order as the table's keys. */
  lemma {:induction false} BuildTableOrder(files: seq<string>, dest: string -> Result<string, PyError>)
    requires BuildTable(files, dest).Ok?
    requires forall i, j :: 0 <= i < j < |files| ==> files[i] != files[j]
    ensures BuildTable(files, dest).value.order == files
    decreases |files|
  {
    if files != [] {
      var init := files[..|files| - 1];
      assert files == init + [files[|files| - 1]];
      BuildTableOrder(init, dest);
    }
  }

}
