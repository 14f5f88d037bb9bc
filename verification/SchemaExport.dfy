/** Writing the generated schemas and detecting drift. A committed file is modelled by the JSON value it
    parses to (`None`: not JSON); printing and parsing one value are taken to be inverse. */
module SchemaExport {
  import opened Text
  import opened Json

  datatype SchemaEntry = SchemaEntry(fileName: string, schema: Json)

  datatype DriftEntry = Missing(fileName: string) | Differs(fileName: string)

  type Files = map<string, Option<Json>>

  // ---------- Specification ----------

  function Written(files: Files, entries: seq<SchemaEntry>): (r: Files) {
    if entries == [] then files
    else
      var e := entries[|entries| - 1];
      Written(files, entries[..|entries| - 1])[e.fileName := Some(SortValue(e.schema))]
  }

  /** One entry's finding; `None` when the committed file cannot be parsed. */
  function Finding(files: Files, e: SchemaEntry): (r: Option<seq<DriftEntry>>) {
    if e.fileName !in files then Some([Missing(e.fileName)])
    else
      var committed :- files[e.fileName];
      Some(if SortValue(e.schema) != SortValue(committed) then [Differs(e.fileName)] else [])
  }

  function DriftOf(files: Files, entries: seq<SchemaEntry>): (r: Option<seq<DriftEntry>>) {
    if entries == [] then Some([])
    else
      var before :- DriftOf(files, entries[..|entries| - 1]);
      var last :- Finding(files, entries[|entries| - 1]);
      Some(before + last)
  }

  // ---------- The two commands ----------

  class SchemaDir {
    var files: Files

    constructor (files: Files)
      ensures this.files == files
    {
      this.files := files;
    }

    method WriteAll(entries: seq<SchemaEntry>) returns (written: seq<string>)
      modifies this
      ensures files == Written(old(files), entries)
      ensures |written| == |entries| && forall i :: 0 <= i < |entries| ==> written[i] == entries[i].fileName
    {
      written := [];
      for i := 0 to |entries|
        invariant files == Written(old(files), entries[..i])
        invariant |written| == i && forall k :: 0 <= k < i ==> written[k] == entries[k].fileName
      {
        files := files[entries[i].fileName := Some(SortValue(entries[i].schema))];
        written := written + [entries[i].fileName];
        assert entries[..i + 1][..i] == entries[..i];
      }
      assert entries[..|entries|] == entries;
    }

    method Drift(entries: seq<SchemaEntry>) returns (out: Option<seq<DriftEntry>>)
      ensures out == DriftOf(files, entries)
    {
      var found := [];
      for i := 0 to |entries|
        invariant DriftOf(files, entries[..i]) == Some(found)
      {
        var e := entries[i];
        assert entries[..i + 1][..i] == entries[..i];
        if e.fileName !in files {
          found := found + [Missing(e.fileName)];
        } else if files[e.fileName].None? {
          FailureStays(files, entries, i + 1);
          return None;
        } else if SortValue(e.schema) != SortValue(files[e.fileName].value) {
          found := found + [Differs(e.fileName)];
        } else {
          assert found + [] == found;
        }
      }
      assert entries[..|entries|] == entries;
      return Some(found);
    }
  }

  lemma {:induction false} FailureStays(files: Files, entries: seq<SchemaEntry>, i: nat)
    requires i <= |entries| && DriftOf(files, entries[..i]).None?
    ensures DriftOf(files, entries).None?
    decreases |entries| - i
  {
    if i < |entries| {
      assert entries[..i + 1][..i] == entries[..i];
      FailureStays(files, entries, i + 1);
    } else {
      assert entries[..i] == entries;
    }
  }

  // ---------- What drift means ----------

  /** The committed file holds the generated schema, up to the order of object keys. */
  predicate UpToDate(files: Files, e: SchemaEntry) {
    e.fileName in files && files[e.fileName].Some? && Same(e.schema, files[e.fileName].value)
  }

  ghost predicate AllWellFormed(files: Files, entries: seq<SchemaEntry>) {
    && (forall i :: 0 <= i < |entries| ==> WellFormed(entries[i].schema))
    && (forall n :: n in files && files[n].Some? ==> WellFormed(files[n].value))
  }

  lemma NoDriftNext(files: Files, entries: seq<SchemaEntry>)
    requires entries != []
    ensures DriftOf(files, entries) == Some([]) <==>
            DriftOf(files, entries[..|entries| - 1]) == Some([]) && Finding(files, entries[|entries| - 1]) == Some([])
  {
    hide Finding;
    var before, last := DriftOf(files, entries[..|entries| - 1]), Finding(files, entries[|entries| - 1]);
    if before.Some? && last.Some? {
      assert DriftOf(files, entries) == Some(before.value + last.value);
      assert |before.value + last.value| == |before.value| + |last.value|;
    }
  }

  /** No drift is reported exactly when every generated schema is committed up to key order. */
  lemma {:induction false} NoDriftMeansUpToDate(files: Files, entries: seq<SchemaEntry>)
    requires AllWellFormed(files, entries)
    ensures DriftOf(files, entries) == Some([]) <==> forall i :: 0 <= i < |entries| ==> UpToDate(files, entries[i])
  {
    if entries != [] {
      var n := |entries| - 1;
      var init, e := entries[..n], entries[n];
      NoDriftMeansUpToDate(files, init);
      if e.fileName in files && files[e.fileName].Some? {
        SortedFormsDecide(e.schema, files[e.fileName].value);
      }
      assert Finding(files, e) == Some([]) <==> UpToDate(files, e);
      assert forall i :: 0 <= i < n ==> init[i] == entries[i];
      NoDriftNext(files, entries);
    }
  }

  /** What is reported, entry by entry and in order: a missing file, a file that differs beyond key order,
      nothing, or failure on a file that is not JSON. */
  lemma DriftOfOne(files: Files, e: SchemaEntry)
    requires AllWellFormed(files, [e])
    ensures DriftOf(files, [e]) ==
            if e.fileName !in files then Some([Missing(e.fileName)])
            else if files[e.fileName].None? then None
            else if Same(e.schema, files[e.fileName].value) then Some([])
            else Some([Differs(e.fileName)])
  {
    assert [e][..0] == [] && [e][0] == e;
    if e.fileName in files && files[e.fileName].Some? {
      SortedFormsDecide(e.schema, files[e.fileName].value);
    }
    assert forall x: seq<DriftEntry> :: [] + x == x;
  }

  lemma {:induction false} DriftConcat(files: Files, a: seq<SchemaEntry>, b: seq<SchemaEntry>)
    ensures var x, y := DriftOf(files, a), DriftOf(files, b);
            DriftOf(files, a + b) == if x.None? || y.None? then None else Some(x.value + y.value)
  {
    hide Finding;
    if b == [] {
      assert a + b == a;
      if DriftOf(files, a).Some? { assert DriftOf(files, a).value + [] == DriftOf(files, a).value; }
    } else {
      var n := |b| - 1;
      assert (a + b)[..|a + b| - 1] == a + b[..n] && (a + b)[|a| + n] == b[n];
      DriftConcat(files, a, b[..n]);
      var x, y, z := DriftOf(files, a), DriftOf(files, b[..n]), Finding(files, b[n]);
      if x.Some? && y.Some? && z.Some? {
        assert x.value + y.value + z.value == x.value + (y.value + z.value);
      }
    }
  }

  /** An export touches no other file. */
  lemma {:induction false} WrittenElsewhere(files: Files, entries: seq<SchemaEntry>, name: string)
    requires forall i :: 0 <= i < |entries| ==> entries[i].fileName != name
    ensures name in Written(files, entries) <==> name in files
    ensures name in files ==> Written(files, entries)[name] == files[name]
  {
    if entries != [] {
      WrittenElsewhere(files, entries[..|entries| - 1], name);
    }
  }

  ghost predicate DistinctNames(entries: seq<SchemaEntry>) {
    forall i, j :: 0 <= i < j < |entries| ==> entries[i].fileName != entries[j].fileName
  }

  lemma {:induction false} WrittenHolds(files: Files, entries: seq<SchemaEntry>, i: nat)
    requires DistinctNames(entries) && i < |entries|
    ensures entries[i].fileName in Written(files, entries)
    ensures Written(files, entries)[entries[i].fileName] == Some(SortValue(entries[i].schema))
  {
    var n := |entries| - 1;
    if i < n {
      WrittenHolds(files, entries[..n], i);
      assert entries[..n][i] == entries[i];
    }
  }

  lemma {:induction false} NoFindings(files: Files, entries: seq<SchemaEntry>)
    requires forall i :: 0 <= i < |entries| ==> Finding(files, entries[i]) == Some([])
    ensures DriftOf(files, entries) == Some([])
  {
    if entries != [] {
      NoFindings(files, entries[..|entries| - 1]);
      NoDriftNext(files, entries);
    }
  }

  /** Right after an export there is no drift. */
  lemma ExportLeavesNoDrift(files: Files, entries: seq<SchemaEntry>)
    requires DistinctNames(entries)
    ensures DriftOf(Written(files, entries), entries) == Some([])
  {
    forall i | 0 <= i < |entries|
      ensures Finding(Written(files, entries), entries[i]) == Some([])
    {
      WrittenHolds(files, entries, i);
      SortIsIdempotent(entries[i].schema);
    }
    NoFindings(Written(files, entries), entries);
  }

  /** Reordering keys in the committed files, at any depth, never causes drift. */
  lemma ReorderingLeavesNoDrift(files: Files, reordered: Files, entries: seq<SchemaEntry>)
    requires AllWellFormed(files, entries) && AllWellFormed(reordered, entries)
    requires DriftOf(files, entries) == Some([])
    requires forall n :: n in files && files[n].Some? ==>
               n in reordered && reordered[n].Some? && Same(files[n].value, reordered[n].value)
    ensures DriftOf(reordered, entries) == Some([])
  {
    NoDriftMeansUpToDate(files, entries);
    forall i | 0 <= i < |entries|
      ensures UpToDate(reordered, entries[i])
    {
      var e := entries[i];
      assert UpToDate(files, e);
      var c, r := files[e.fileName].value, reordered[e.fileName].value;
      SortedFormsDecide(e.schema, c);
      SortedFormsDecide(c, r);
      SortedFormsDecide(e.schema, r);
    }
    NoDriftMeansUpToDate(reordered, entries);
  }
}
