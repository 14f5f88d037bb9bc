/** JSON values with ordered objects, and the key-sorting that schema export relies on. */
module Json {
  import opened Text

  /** An object keeps its keys in insertion order. */
  datatype Json =
    | Null
    | Bool(b: bool)
    | Num(n: real)
    | Str(s: string)
    | Arr(items: seq<Json>)
    | Obj(fields: seq<Field>)

  datatype Field = Field(key: string, value: Json)

  function Lookup(fields: seq<Field>, k: string): (v: Option<Json>) {
    if fields == [] then None
    else if fields[|fields| - 1].key == k then Some(fields[|fields| - 1].value)
    else Lookup(fields[..|fields| - 1], k)
  }

  /** A member of an object; `None` for anything that is not an object. */
  function Get(j: Json, k: string): (v: Option<Json>) {
    if j.Obj? then Lookup(j.fields, k) else None
  }

  ghost predicate UniqueKeys(fields: seq<Field>) {
    forall i, j :: 0 <= i < j < |fields| ==> fields[i].key != fields[j].key
  }

  /** No object in the value has the same key twice. */
  ghost predicate WellFormed(j: Json) {
    match j
    case Arr(items) => forall i :: 0 <= i < |items| ==> WellFormed(items[i])
    case Obj(fields) => UniqueKeys(fields) && forall i :: 0 <= i < |fields| ==> WellFormed(fields[i].value)
    case _ => true
  }

  /** Equality of JSON values: object keys in any order, at every depth. */
  predicate Same(a: Json, b: Json)
    decreases a
  {
    match a
    case Arr(items) => b.Arr? && |items| == |b.items| && forall i :: 0 <= i < |items| ==> Same(items[i], b.items[i])
    case Obj(fields) =>
      && b.Obj? && |fields| == |b.fields|
      && forall i :: 0 <= i < |fields| ==>
           var v := Lookup(b.fields, fields[i].key); v.Some? && Same(fields[i].value, v.value)
    case _ => a == b
  }

  // ---------- Sorting keys ----------

  /** Inserting into a map ordered by key; an equal key is overwritten. */
  function InsertField(f: Field, sorted: seq<Field>): (r: seq<Field>) {
    if sorted == [] || Less(f.key, sorted[0].key) then [f] + sorted
    else if f.key == sorted[0].key then [f] + sorted[1..]
    else [sorted[0]] + InsertField(f, sorted[1..])
  }

  function SortValue(j: Json): (r: Json)
    decreases j, 1
  {
    match j
    case Arr(items) => Arr(SortItems(items))
    case Obj(fields) => Obj(SortFields(fields))
    case _ => j
  }

  function SortItems(items: seq<Json>): (r: seq<Json>)
    ensures |r| == |items|
    ensures forall i :: 0 <= i < |items| ==> r[i] == SortValue(items[i])
    decreases items, 0
  {
    if items == [] then [] else SortItems(items[..|items| - 1]) + [SortValue(items[|items| - 1])]
  }

  function SortFields(fields: seq<Field>): (r: seq<Field>)
    decreases fields, 0
  {
    if fields == [] then []
    else
      var last := fields[|fields| - 1];
      InsertField(Field(last.key, SortValue(last.value)), SortFields(fields[..|fields| - 1]))
  }

  // ---------- Objects with sorted keys ----------

  function Keys(fields: seq<Field>): (ks: seq<string>)
    ensures |ks| == |fields| && forall i :: 0 <= i < |fields| ==> ks[i] == fields[i].key
  {
    seq(|fields|, i requires 0 <= i < |fields| => fields[i].key)
  }

  ghost predicate SortedKeys(fields: seq<Field>) { StrictlySorted(Keys(fields)) }

  /** Every object in the value lists its keys in order. */
  ghost predicate Ordered(j: Json) {
    match j
    case Arr(items) => forall i :: 0 <= i < |items| ==> Ordered(items[i])
    case Obj(fields) => SortedKeys(fields) && forall i :: 0 <= i < |fields| ==> Ordered(fields[i].value)
    case _ => true
  }

  lemma {:induction false} LookupIs(fields: seq<Field>, k: string)
    ensures Lookup(fields, k).Some? <==> exists i :: 0 <= i < |fields| && fields[i].key == k
    ensures UniqueKeys(fields) ==>
              forall i :: 0 <= i < |fields| && fields[i].key == k ==> Lookup(fields, k) == Some(fields[i].value)
  {
    if fields != [] {
      var n := |fields| - 1;
      LookupIs(fields[..n], k);
      if exists i :: 0 <= i < |fields| && fields[i].key == k {
        var i :| 0 <= i < |fields| && fields[i].key == k;
        assert i < n ==> fields[..n][i].key == k;
      }
      assert forall i :: 0 <= i < n ==> fields[..n][i] == fields[i];
    }
  }

  lemma SortedKeysAreUnique(fields: seq<Field>)
    requires SortedKeys(fields)
    ensures UniqueKeys(fields)
  {
    forall i, j | 0 <= i < j < |fields|
      ensures fields[i].key != fields[j].key
    {
      assert Less(Keys(fields)[i], Keys(fields)[j]);
      LessIsTotal(fields[i].key, fields[i].key);
    }
  }

  /** `fields` holds `f` and, under every other key, what `sorted` holds. */
  ghost predicate Overrides(fields: seq<Field>, f: Field, sorted: seq<Field>) {
    forall g :: g in fields <==> g == f || (g in sorted && g.key != f.key)
  }

  lemma {:induction false} InsertFieldIs(f: Field, sorted: seq<Field>)
    requires SortedKeys(sorted)
    ensures SortedKeys(InsertField(f, sorted)) && Overrides(InsertField(f, sorted), f, sorted)
  {
    LessIsTotal(f.key, f.key);
    if sorted != [] {
      var head, tail := sorted[0], sorted[1..];
      assert sorted == [head] + tail;
      assert Keys(sorted)[1..] == Keys(tail);
      forall i | 0 <= i < |tail|
        ensures Less(head.key, tail[i].key)
      {
        assert Less(Keys(sorted)[0], Keys(sorted)[i + 1]);
      }
      if Less(f.key, head.key) {
        forall i | 0 <= i < |tail|
          ensures Less(f.key, tail[i].key)
        {
          LessIsTransitive(f.key, head.key, tail[i].key);
        }
        FrontKeepsOrder(f, sorted);
      } else if f.key == head.key {
        FrontKeepsOrder(f, tail);
      } else {
        LessIsTotal(f.key, head.key);
        InsertFieldIs(f, tail);
        FrontKeepsOrder(head, InsertField(f, tail));
      }
    }
  }

  lemma FrontKeepsOrder(f: Field, rest: seq<Field>)
    requires SortedKeys(rest)
    requires forall g :: g in rest ==> Less(f.key, g.key)
    ensures SortedKeys([f] + rest)
  {
  }

  /** With unique keys, looking up is membership. */
  lemma LookupIsMember(fields: seq<Field>, k: string, v: Json)
    requires UniqueKeys(fields)
    ensures Lookup(fields, k) == Some(v) <==> Field(k, v) in fields
  {
  }

  lemma LookupInserted(f: Field, sorted: seq<Field>, k: string)
    requires SortedKeys(sorted)
    ensures Lookup(InsertField(f, sorted), k) == if k == f.key then Some(f.value) else Lookup(sorted, k)
  {
    hide Lookup, InsertField, SortedKeys;
    var r := InsertField(f, sorted);
    InsertFieldIs(f, sorted);
    SortedKeysAreUnique(sorted);
    SortedKeysAreUnique(r);
    if k == f.key {
      LookupIsMember(r, k, f.value);
    } else {
      forall v
        ensures Lookup(r, k) == Some(v) <==> Lookup(sorted, k) == Some(v)
      {
        LookupIsMember(r, k, v);
        LookupIsMember(sorted, k, v);
      }
      assert Lookup(r, k).Some? ==> Lookup(r, k) == Some(Lookup(r, k).value);
      assert Lookup(sorted, k).Some? ==> Lookup(sorted, k) == Some(Lookup(sorted, k).value);
    }
  }

  lemma {:induction false} InsertFieldLength(f: Field, sorted: seq<Field>)
    ensures |InsertField(f, sorted)| == |sorted| || |InsertField(f, sorted)| == |sorted| + 1
    ensures (forall i :: 0 <= i < |sorted| ==> sorted[i].key != f.key) ==> |InsertField(f, sorted)| == |sorted| + 1
  {
    if sorted != [] && !Less(f.key, sorted[0].key) && f.key != sorted[0].key {
      InsertFieldLength(f, sorted[1..]);
    }
  }

  function SortedOption(v: Option<Json>): (r: Option<Json>) { if v.Some? then Some(SortValue(v.value)) else None }

  lemma {:induction false} SortFieldsOrders(fields: seq<Field>)
    ensures SortedKeys(SortFields(fields))
  {
    if fields != [] {
      var n := |fields| - 1;
      SortFieldsOrders(fields[..n]);
      InsertFieldIs(Field(fields[n].key, SortValue(fields[n].value)), SortFields(fields[..n]));
    }
  }

  /** Sorting an object keeps, under each key, the sorted form of what was there. */
  lemma {:induction false} SortFieldsKeeps(fields: seq<Field>, k: string)
    ensures Lookup(SortFields(fields), k) == SortedOption(Lookup(fields, k))
  {
    if fields != [] {
      var n := |fields| - 1;
      SortFieldsKeeps(fields[..n], k);
      SortFieldsOrders(fields[..n]);
      LookupInserted(Field(fields[n].key, SortValue(fields[n].value)), SortFields(fields[..n]), k);
    }
  }

  lemma {:induction false} SortFieldsLength(fields: seq<Field>)
    requires UniqueKeys(fields)
    ensures |SortFields(fields)| == |fields|
  {
    if fields != [] {
      var n := |fields| - 1;
      var init, sorted := fields[..n], SortFields(fields[..n]);
      SortFieldsLength(init);
      SortFieldsKeeps(init, fields[n].key);
      LookupIs(init, fields[n].key);
      LookupIs(sorted, fields[n].key);
      InsertFieldLength(Field(fields[n].key, SortValue(fields[n].value)), sorted);
    }
  }

  /** Two objects with sorted keys that agree under every key are the same object. */
  lemma SortedObjectIsUnique(a: seq<Field>, b: seq<Field>)
    requires SortedKeys(a) && SortedKeys(b)
    requires forall k :: Lookup(a, k) == Lookup(b, k)
    ensures a == b
  {
    hide Lookup;
    SortedKeysAreUnique(a);
    SortedKeysAreUnique(b);
    forall k
      ensures k in Keys(a) <==> k in Keys(b)
    {
      LookupIs(a, k);
      LookupIs(b, k);
      assert k in Keys(a) <==> exists i :: 0 <= i < |a| && a[i].key == k;
      assert k in Keys(b) <==> exists i :: 0 <= i < |b| && b[i].key == k;
    }
    SortedSetIsUnique(Keys(a), Keys(b));
    forall i | 0 <= i < |a|
      ensures a[i] == b[i]
    {
      assert Keys(a)[i] == Keys(b)[i];
      LookupIs(a, a[i].key);
      LookupIs(b, a[i].key);
    }
  }

  // ---------- What sorting guarantees ----------

  lemma {:induction false} SortValueOrders(j: Json)
    ensures Ordered(SortValue(j))
    decreases j, 1
  {
    match j
    case Arr(items) =>
      forall i | 0 <= i < |items|
        ensures Ordered(SortItems(items)[i])
      {
        SortValueOrders(items[i]);
      }
    case Obj(fields) =>
      SortFieldsOrders(fields);
      SortFieldsOrderValues(fields);
    case _ =>
  }

  lemma {:induction false} SortFieldsOrderValues(fields: seq<Field>)
    ensures forall i :: 0 <= i < |SortFields(fields)| ==> Ordered(SortFields(fields)[i].value)
    decreases fields, 0
  {
    if fields != [] {
      var n := |fields| - 1;
      var f := Field(fields[n].key, SortValue(fields[n].value));
      SortFieldsOrderValues(fields[..n]);
      SortValueOrders(fields[n].value);
      SortFieldsOrders(fields[..n]);
      InsertFieldIs(f, SortFields(fields[..n]));
      forall i | 0 <= i < |SortFields(fields)|
        ensures Ordered(SortFields(fields)[i].value)
      {
        assert SortFields(fields)[i] in SortFields(fields);
      }
    }
  }

  lemma {:induction false} OrderedIsFixed(j: Json)
    requires Ordered(j)
    ensures SortValue(j) == j
  {
    match j
    case Arr(items) =>
      forall i | 0 <= i < |items|
        ensures SortItems(items)[i] == items[i]
      {
        OrderedIsFixed(items[i]);
      }
    case Obj(fields) =>
      SortedKeysAreUnique(fields);
      forall k
        ensures Lookup(SortFields(fields), k) == Lookup(fields, k)
      {
        SortFieldsKeeps(fields, k);
        LookupIs(fields, k);
        if Lookup(fields, k).Some? {
          var i :| 0 <= i < |fields| && fields[i].key == k;
          OrderedIsFixed(fields[i].value);
        }
      }
      SortFieldsOrders(fields);
      SortedObjectIsUnique(SortFields(fields), fields);
    case _ =>
  }

  /** Sorting twice is sorting once. */
  lemma SortIsIdempotent(j: Json)
    ensures SortValue(SortValue(j)) == SortValue(j)
  {
    SortValueOrders(j);
    OrderedIsFixed(SortValue(j));
  }

  datatype PathStep = Key(k: string) | Index(i: nat)

  /** The value a path leads to. */
  function At(j: Json, path: seq<PathStep>): (v: Option<Json>)
    decreases |path|
  {
    if path == [] then Some(j)
    else
      match path[0]
      case Key(k) =>
        var v :- Get(j, k);
        At(v, path[1..])
      case Index(i) =>
        if j.Arr? && i < |j.items| then At(j.items[i], path[1..]) else None
  }

  /** Every path leads to the same place, array positions included, with only key order changed there. */
  lemma {:induction false} SortKeepsPaths(j: Json, path: seq<PathStep>)
    ensures At(SortValue(j), path) == SortedOption(At(j, path))
    decreases |path|
  {
    if path != [] {
      match path[0]
      case Key(k) =>
        if j.Obj? {
          SortFieldsKeeps(j.fields, k);
          if Lookup(j.fields, k).Some? {
            SortKeepsPaths(Lookup(j.fields, k).value, path[1..]);
          }
        }
      case Index(i) =>
        if j.Arr? && i < |j.items| {
          SortKeepsPaths(j.items[i], path[1..]);
        }
    }
  }

  /** Keys found in an object of unique keys are as many as its fields; so two such objects of equal size,
      one covering the other, cover each other. */
  lemma CoveringIsMutual(a: seq<Field>, b: seq<Field>)
    requires UniqueKeys(a) && UniqueKeys(b) && |a| == |b|
    requires forall i :: 0 <= i < |a| ==> Lookup(b, a[i].key).Some?
    ensures forall k :: Lookup(a, k).Some? <==> Lookup(b, k).Some?
  {
    hide Lookup, UniqueKeys;
    KeySetIs(a);
    KeySetIs(b);
    assert KeySet(a) <= KeySet(b);
    hide KeySet;
    SubsetOfSameSize(KeySet(a), KeySet(b));
  }

  ghost function KeySet(a: seq<Field>): (ks: set<string>) { set i | 0 <= i < |a| :: a[i].key }

  lemma KeySetIs(a: seq<Field>)
    requires UniqueKeys(a)
    ensures |KeySet(a)| == |a| && forall k :: k in KeySet(a) <==> Lookup(a, k).Some?
  {
    KeyCount(a);
    hide UniqueKeys, Lookup;
    forall k
      ensures k in KeySet(a) <==> Lookup(a, k).Some?
    {
      LookupIs(a, k);
    }
  }

  lemma SubsetOfSameSize(x: set<string>, y: set<string>)
    requires x <= y && |x| == |y|
    ensures x == y
  {
    assert y == x + (y - x);
    assert |y - x| == 0;
  }

  lemma {:induction false} KeyCount(a: seq<Field>)
    requires UniqueKeys(a)
    ensures |KeySet(a)| == |a|
  {
    if a != [] {
      var n := |a| - 1;
      var init := a[..n];
      KeyCount(init);
      assert forall i :: 0 <= i < n ==> init[i] == a[i];
      assert KeySet(a) == KeySet(init) + {a[n].key};
    }
  }

  /** Sorted forms are equal exactly when the values are, up to key order at every depth. */
  lemma {:induction false} SortedFormsDecide(a: Json, b: Json)
    requires WellFormed(a) && WellFormed(b)
    ensures SortValue(a) == SortValue(b) <==> Same(a, b)
    decreases a, 1
  {
    match a
    case Arr(items) =>
      if b.Arr? && |items| == |b.items| {
        forall i | 0 <= i < |items|
          ensures SortItems(items)[i] == SortItems(b.items)[i] <==> Same(items[i], b.items[i])
        {
          SortedFormsDecide(items[i], b.items[i]);
        }
        assert SortItems(items) == SortItems(b.items) <==>
               forall i :: 0 <= i < |items| ==> SortItems(items)[i] == SortItems(b.items)[i];
      }
    case Obj(fields) =>
      if b.Obj? {
        SameSorted(a, b);
      }
    case _ =>
  }

  lemma {:induction false} SameSorted(a: Json, b: Json)
    requires a.Obj? && b.Obj? && WellFormed(a) && WellFormed(b)
    ensures SortValue(a) == SortValue(b) <==> Same(a, b)
    decreases a, 0
  {
    hide Lookup;
    var fa, fb := a.fields, b.fields;
    // Under each key of `a`, equal sorted values and equal values are the same thing.
    forall i | 0 <= i < |fa| && Lookup(fb, fa[i].key).Some?
      ensures SortValue(fa[i].value) == SortValue(Lookup(fb, fa[i].key).value) <==>
              Same(fa[i].value, Lookup(fb, fa[i].key).value)
    {
      LookupIs(fb, fa[i].key);
      SortedFormsDecide(fa[i].value, Lookup(fb, fa[i].key).value);
    }
    forall k
      ensures Lookup(SortFields(fa), k) == SortedOption(Lookup(fa, k))
      ensures Lookup(SortFields(fb), k) == SortedOption(Lookup(fb, k))
    {
      SortFieldsKeeps(fa, k);
      SortFieldsKeeps(fb, k);
    }
    forall i | 0 <= i < |fa|
      ensures Lookup(fa, fa[i].key) == Some(fa[i].value)
    {
      LookupIs(fa, fa[i].key);
    }
    SortFieldsLength(fa);
    SortFieldsLength(fb);
    if Same(a, b) {
      CoveringIsMutual(fa, fb);
      forall k
        ensures Lookup(SortFields(fa), k) == Lookup(SortFields(fb), k)
      {
        LookupIs(fa, k);
        if Lookup(fa, k).Some? {
          var i :| 0 <= i < |fa| && fa[i].key == k;
          assert Same(fa[i].value, Lookup(fb, fa[i].key).value);
        }
      }
      SortFieldsOrders(fa);
      SortFieldsOrders(fb);
      SortedObjectIsUnique(SortFields(fa), SortFields(fb));
    }
    if SortValue(a) == SortValue(b) {
      forall i | 0 <= i < |fa|
        ensures Lookup(fb, fa[i].key).Some? && Same(fa[i].value, Lookup(fb, fa[i].key).value)
      {
        assert SortedOption(Lookup(fa, fa[i].key)) == SortedOption(Lookup(fb, fa[i].key));
      }
    }
  }
}
