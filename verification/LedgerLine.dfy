/** Reading one line of the session ledger, in any of its three versions, and the archive's search for an id. */
module LedgerLine {
  import opened Text
  import opened Json
  import opened FixedWidth

  /** A line of the file: white space, text that is no JSON, or a document. */
  datatype Line = BlankLine | NotJson | Document(j: Json)

  const VERSION := "schema_version"
  const RETIRED := "stacks_core_base_sha"

  // ---------- Changing an object in place ----------

  /** Replaces the value of a key, or adds the key. */
  function Insert(fields: seq<Field>, k: string, v: Json): (r: seq<Field>) {
    if fields == [] then [Field(k, v)]
    else
      var n := |fields| - 1;
      if fields[n].key == k then fields[..n] + [Field(k, v)] else Insert(fields[..n], k, v) + [fields[n]]
  }

  function Remove(fields: seq<Field>, k: string): (r: seq<Field>) {
    if fields == [] then []
    else
      var n := |fields| - 1;
      if fields[n].key == k then Remove(fields[..n], k) else Remove(fields[..n], k) + [fields[n]]
  }

  lemma {:induction false} InsertedLookup(fields: seq<Field>, k: string, v: Json, x: string)
    ensures Lookup(Insert(fields, k, v), x) == if x == k then Some(v) else Lookup(fields, x)
  {
    if fields != [] {
      var n := |fields| - 1;
      var r := Insert(fields, k, v);
      if fields[n].key == k {
        assert r[..|r| - 1] == fields[..n];
      } else {
        InsertedLookup(fields[..n], k, v, x);
        assert r[..|r| - 1] == Insert(fields[..n], k, v);
      }
    }
  }

  lemma {:induction false} RemovedLookup(fields: seq<Field>, k: string, x: string)
    ensures Lookup(Remove(fields, k), x) == if x == k then None else Lookup(fields, x)
  {
    if fields != [] {
      var n := |fields| - 1;
      var r := Remove(fields, k);
      RemovedLookup(fields[..n], k, x);
      if fields[n].key != k {
        assert r[..|r| - 1] == Remove(fields[..n], k);
      }
    }
  }

  // ---------- Versions ----------

  /** A number that is a whole `u64`. */
  function WholeNumber(j: Json): (n: Option<int>) {
    if j.Num? && j.n.Floor as real == j.n && 0 <= j.n.Floor <= U64_MAX then Some(j.n.Floor) else None
  }

  /** A line without a readable version is of the first one. */
  function VersionOf(j: Json): (v: int) {
    var n := if Get(j, VERSION).Some? then WholeNumber(Get(j, VERSION).value) else None;
    if n.Some? then n.value else 1
  }

  /** A line of version 1 or 2 rewritten as version 3. */
  function Promoted(j: Json): (r: Json) {
    if j.Obj? then Obj(Remove(Insert(j.fields, VERSION, Num(3.0)), RETIRED)) else j
  }

  /** `decode` is the strict reader of the current version. */
  function FromLedgerLine<R>(j: Json, decode: Json -> Option<R>): (r: Option<R>) {
    var v := VersionOf(j);
    if v == 1 || v == 2 then decode(Promoted(j)) else if v == 3 then decode(j) else None
  }

  /** How a line is read, by the value under `schema_version`: 3 as it stands; 1, 2, none, or anything but a
      whole 64-bit number after promotion; every other whole number not at all. */
  lemma ReadByVersion<R>(j: Json, decode: Json -> Option<R>)
    ensures IsVersion(j, 3) ==> FromLedgerLine(j, decode) == decode(j)
    ensures IsVersion(j, 1) || IsVersion(j, 2) ==> FromLedgerLine(j, decode) == decode(Promoted(j))
    ensures (forall n :: !IsVersion(j, n)) ==> FromLedgerLine(j, decode) == decode(Promoted(j))
    ensures forall n :: IsVersion(j, n) && n != 1 && n != 2 && n != 3 ==> FromLedgerLine(j, decode) == None
  {
    hide Promoted, Get;
    var v := Get(j, VERSION);
    if v.Some? && WholeNumber(v.value).Some? {
      assert IsVersion(j, WholeNumber(v.value).value);
    }
  }

  /** The line carries version `n`, a whole 64-bit number. */
  ghost predicate IsVersion(j: Json, n: int) {
    0 <= n <= U64_MAX && Get(j, "schema_version") == Some(Num(n as real))
  }

  /** Promotion changes the version, drops the retired key and keeps every other key's value. */
  lemma PromotedGet(j: Json, k: string)
    requires j.Obj?
    ensures Get(Promoted(j), k) == if k == RETIRED then None else if k == VERSION then Some(Num(3.0)) else Get(j, k)
  {
    hide Insert, Remove, Lookup;
    var more := Insert(j.fields, VERSION, Num(3.0));
    InsertedLookup(j.fields, VERSION, Num(3.0), k);
    RemovedLookup(more, RETIRED, k);
    assert RETIRED != VERSION by { assert |RETIRED| == 20 && |VERSION| == 14; }
  }

  /** A reader that looks only at the values of keys, not at their order. */
  ghost predicate IgnoresOrder<R(!new)>(decode: Json -> Option<R>) {
    forall a, b :: SameKeys(a, b) ==> decode(a) == decode(b)
  }

  ghost predicate SameKeys(a: Json, b: Json) { a.Obj? && b.Obj? && forall k :: Get(a, k) == Get(b, k) }

  /** The current-version line with the same values. */
  ghost predicate IsCurrentFormOf(c: Json, j: Json) {
    && c.Obj? && Get(c, VERSION) == Some(Num(3.0)) && Get(c, RETIRED).None?
    && forall k :: k != VERSION && k != RETIRED ==> Get(c, k) == Get(j, k)
  }

  /** An old line reads exactly as the current-version line with the same values. */
  lemma OldLinesReadAlike<R(!new)>(j: Json, c: Json, decode: Json -> Option<R>)
    requires j.Obj? && VersionOf(j) in {1, 2} && IsCurrentFormOf(c, j) && IgnoresOrder(decode)
    ensures FromLedgerLine(j, decode) == FromLedgerLine(c, decode)
  {
    hide Insert, Remove, Get;
    assert VersionOf(c) == 3 by { assert (3.0).Floor == 3; }
    forall k
      ensures Get(Promoted(j), k) == Get(c, k)
    {
      PromotedGet(j, k);
    }
    assert SameKeys(Promoted(j), c);
  }

  // ---------- The search ----------

  /** Line `i` holds a record of session `id`. */
  predicate Records(line: Line, id: string, decode: Json -> Option<string>) {
    line.Document? && FromLedgerLine(line.j, decode) == Some(id)
  }

  /** `decode` gives the id of a line of the current version. A missing file has no lines. */
  method LedgerContainsId(lines: seq<Line>, id: string, decode: Json -> Option<string>) returns (found: bool)
    ensures found <==> exists i :: 0 <= i < |lines| && Records(lines[i], id, decode)
  {
    hide FromLedgerLine;
    for i := 0 to |lines|
      invariant forall k :: 0 <= k < i ==> !Records(lines[k], id, decode)
    {
      if lines[i].BlankLine? || lines[i].NotJson? {
        continue;
      }
      var record := FromLedgerLine(lines[i].j, decode);
      if record.None? {
        continue;
      }
      if record.value == id {
        assert Records(lines[i], id, decode);
        return true;
      }
    }
    return false;
  }

  /** Blank lines and lines the reader rejects neither hide a record nor count as one. */
  lemma JunkIsSkipped(a: seq<Line>, junk: Line, b: seq<Line>, id: string, decode: Json -> Option<string>)
    requires junk.Document? ==> FromLedgerLine(junk.j, decode).None?
    ensures (exists i :: 0 <= i < |a + [junk] + b| && Records((a + [junk] + b)[i], id, decode)) <==>
            (exists i :: 0 <= i < |a + b| && Records((a + b)[i], id, decode))
  {
    hide FromLedgerLine;
    var long, short := a + [junk] + b, a + b;
    if i :| 0 <= i < |long| && Records(long[i], id, decode) {
      assert Records(short[if i < |a| then i else i - 1], id, decode);
    }
    if i :| 0 <= i < |short| && Records(short[i], id, decode) {
      assert Records(long[if i < |a| then i else i + 1], id, decode);
    }
  }
}
