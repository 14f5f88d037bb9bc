/** The JSON Schema keywords the transforms use (Draft 2020-12), as a typed schema and its meaning. */
module JsonSchema {
  import opened Text
  import opened Json

  datatype JsonType = NullType | ArrayType

  datatype Prop = Prop(key: string, schema: Schema)

  /** A schema is a boolean or an object of keywords. */
  datatype Schema = Literal(accept: bool) | Object(keywords: seq<Keyword>)

  /** `Generated` stands for whatever else the derived schema of a type says. An absent `else` is
      `Literal(true)`; `NonBlankPattern` is the pattern `\S`. */
  datatype Keyword =
    | AllOf(schemas: seq<Schema>)
    | Not(schema: Schema)
    | IfThenElse(cond: Schema, thn: Schema, els: Schema)
    | Properties(props: seq<Prop>)
    | Required(keys: seq<string>)
    | Const(value: Json)
    | Enum(values: seq<Json>)
    | Type(t: JsonType)
    | MinItems(n: nat)
    | Items(schema: Schema)
    | MinLength(n: nat)
    | NonBlankPattern
    | Minimum(least: real)
    | Generated(accepts: Json -> bool)

  ghost predicate Valid(s: Schema, j: Json)
    decreases s
  {
    match s
    case Literal(accept) => accept
    case Object(keywords) => forall k :: k in keywords ==> Holds(k, j)
  }

  /** Keywords constrain only instances of the type they are about. */
  ghost predicate Holds(k: Keyword, j: Json)
    decreases k
  {
    match k
    case AllOf(schemas) => forall s :: s in schemas ==> Valid(s, j)
    case Not(schema) => !Valid(schema, j)
    case IfThenElse(cond, thn, els) => if Valid(cond, j) then Valid(thn, j) else Valid(els, j)
    case Properties(props) =>
      j.Obj? ==>
        forall p :: p in props && Lookup(j.fields, p.key).Some? ==> Valid(p.schema, Lookup(j.fields, p.key).value)
    case Required(keys) => j.Obj? ==> forall key :: key in keys ==> Lookup(j.fields, key).Some?
    case Const(value) => Same(value, j)
    case Enum(values) => exists v :: v in values && Same(v, j)
    case Type(t) => if t.NullType? then j.Null? else j.Arr?
    case MinItems(n) => j.Arr? ==> |j.items| >= n
    case Items(schema) => j.Arr? ==> forall i :: 0 <= i < |j.items| ==> Valid(schema, j.items[i])
    case MinLength(n) => j.Str? ==> |j.s| >= n
    case NonBlankPattern => j.Str? ==> !Blank(j.s)
    case Minimum(least) => j.Num? ==> j.n >= least
    case Generated(accepts) => accepts(j)
  }

  ghost predicate AllValid(schemas: seq<Schema>, j: Json) { forall s :: s in schemas ==> Valid(s, j) }

  // ---------- Adding to `allOf` ----------

  /** Position of the `allOf` keyword, or the number of keywords. */
  function AllOfIndex(keywords: seq<Keyword>): (i: nat)
    ensures i <= |keywords| && (i < |keywords| ==> keywords[i].AllOf?)
  {
    if keywords == [] || keywords[0].AllOf? then 0 else 1 + AllOfIndex(keywords[1..])
  }

  /** A boolean schema has no place for the entry and is left alone. */
  function WithAllOf(def: Schema, entry: Schema): (r: Schema)
  {
    if def.Literal? then def
    else
      var i := AllOfIndex(def.keywords);
      if i < |def.keywords| then Object(def.keywords[i := AllOf(def.keywords[i].schemas + [entry])])
      else Object(def.keywords + [AllOf([entry])])
  }

  function WithEach(def: Schema, entries: seq<Schema>): (r: Schema) {
    if entries == [] then def else WithAllOf(WithEach(def, entries[..|entries| - 1]), entries[|entries| - 1])
  }

  /** Adding an entry is conjunction, except on a boolean schema, which it leaves alone. */
  lemma WithAllOfIsConjunction(def: Schema, entry: Schema, j: Json)
    ensures Valid(WithAllOf(def, entry), j) <==> Valid(def, j) && (def.Object? ==> Valid(entry, j))
  {
    hide Holds;
    if def.Object? {
      var ks := def.keywords;
      var i := AllOfIndex(ks);
      var r := WithAllOf(def, entry).keywords;
      ValidByPosition(ks, j);
      ValidByPosition(r, j);
      if i < |ks| {
        MoreSchemas(ks[i].schemas, entry, j);
        assert Holds(r[i], j) <==> Holds(ks[i], j) && Valid(entry, j);
        if forall x :: 0 <= x < |r| ==> Holds(r[x], j) {
          forall x | 0 <= x < |ks|
            ensures Holds(ks[x], j)
          {
            assert Holds(r[x], j);
          }
        }
      } else {
        assert [] + [entry] == [entry];
        MoreSchemas([], entry, j);
        NothingToMeet(j);
        assert forall x :: 0 <= x < |ks| ==> r[x] == ks[x] && Holds(r[x], j) == Holds(ks[x], j);
        assert r[|ks|] == AllOf([entry]);
      }
    }
  }

  lemma MoreSchemas(schemas: seq<Schema>, entry: Schema, j: Json)
    ensures Holds(AllOf(schemas + [entry]), j) <==> Holds(AllOf(schemas), j) && Valid(entry, j)
  {
  }

  lemma NothingToMeet(j: Json)
    ensures Holds(AllOf([]), j)
  {
  }

  lemma ValidByPosition(ks: seq<Keyword>, j: Json)
    ensures Valid(Object(ks), j) <==> forall i :: 0 <= i < |ks| ==> Holds(ks[i], j)
  {
  }

  /** Any number of additions is the conjunction of them all. */
  lemma {:induction false} WithEachIsConjunction(def: Schema, entries: seq<Schema>, j: Json)
    ensures WithEach(def, entries).Object? == def.Object?
    ensures Valid(WithEach(def, entries), j) <==> Valid(def, j) && (def.Object? ==> AllValid(entries, j))
  {
    hide Valid;
    if entries != [] {
      var n := |entries| - 1;
      WithEachIsConjunction(def, entries[..n], j);
      WithAllOfIsConjunction(WithEach(def, entries[..n]), entries[n], j);
      assert forall s :: s in entries <==> s in entries[..n] || s == entries[n] by {
        assert entries == entries[..n] + [entries[n]];
      }
    }
  }

  // ---------- Shapes the transforms build ----------

  predicate Scalar(j: Json) { j.Null? || j.Bool? || j.Num? || j.Str? }

  /** `{ "properties": { key: { "const": v } } }` */
  function Pin(key: string, v: Json): (s: Schema) { Object([Properties([Prop(key, Object([Const(v)]))])]) }

  /** `{ "properties": { key: { "const": v } }, "required": [key] }` */
  function Has(key: string, v: Json): (s: Schema) {
    Object([Properties([Prop(key, Object([Const(v)]))]), Required([key])])
  }

  function HasBoth(k1: string, v1: Json, k2: string, v2: Json): (s: Schema) {
    Object([Properties([Prop(k1, Object([Const(v1)])), Prop(k2, Object([Const(v2)]))]), Required([k1, k2])])
  }

  /** `{ "not": { "required": [key] } }` */
  function Forbid(key: string): (s: Schema) { Object([Not(Object([Required([key])]))]) }

  function NotNull(): (s: Schema) { Object([Not(Object([Type(NullType)]))]) }

  function When(cond: Schema, thn: Schema): (s: Schema) { Object([IfThenElse(cond, thn, Literal(true))]) }

  function NonBlank(): (s: Schema) { Object([MinLength(1), NonBlankPattern]) }

  lemma ConstMeans(v: Json, j: Json)
    requires Scalar(v)
    ensures Valid(Object([Const(v)]), j) <==> j == v
  {
    assert Const(v) in [Const(v)];
    assert Holds(Const(v), j) <==> Same(v, j);
  }

  lemma PinMeans(key: string, v: Json, j: Json)
    requires j.Obj? && Scalar(v)
    ensures Valid(Pin(key, v), j) <==> (Get(j, key).Some? ==> Get(j, key) == Some(v))
  {
    var p := Prop(key, Object([Const(v)]));
    OneKeyword(Properties([p]), j);
    OneProp(p, j);
    if Get(j, key).Some? {
      ConstMeans(v, Get(j, key).value);
    }
  }

  lemma OneKeyword(k: Keyword, j: Json)
    ensures Valid(Object([k]), j) <==> Holds(k, j)
  {
  }

  lemma TwoKeywords(a: Keyword, b: Keyword, j: Json)
    ensures Valid(Object([a, b]), j) <==> Holds(a, j) && Holds(b, j)
  {
  }

  lemma ThreeKeywords(a: Keyword, b: Keyword, c: Keyword, j: Json)
    ensures Valid(Object([a, b, c]), j) <==> Holds(a, j) && Holds(b, j) && Holds(c, j)
  {
    assert a in [a, b, c] && b in [a, b, c] && c in [a, b, c];
  }

  /** A property says nothing about an object without it. */
  ghost predicate PropHolds(p: Prop, j: Json) { Get(j, p.key).Some? ==> Valid(p.schema, Get(j, p.key).value) }

  lemma OneProp(p: Prop, j: Json)
    requires j.Obj?
    ensures Holds(Properties([p]), j) <==> PropHolds(p, j)
  {
  }

  lemma TwoProps(p: Prop, q: Prop, j: Json)
    requires j.Obj?
    ensures Holds(Properties([p, q]), j) <==> PropHolds(p, j) && PropHolds(q, j)
  {
  }

  lemma ThreeProps(p: Prop, q: Prop, r: Prop, j: Json)
    requires j.Obj?
    ensures Holds(Properties([p, q, r]), j) <==> PropHolds(p, j) && PropHolds(q, j) && PropHolds(r, j)
  {
  }

  lemma HasMeans(key: string, v: Json, j: Json)
    requires j.Obj? && Scalar(v)
    ensures Valid(Has(key, v), j) <==> Get(j, key) == Some(v)
  {
    var p := Prop(key, Object([Const(v)]));
    TwoKeywords(Properties([p]), Required([key]), j);
    OneProp(p, j);
    assert Holds(Required([key]), j) <==> Get(j, key).Some? by { assert key in [key]; }
    if Get(j, key).Some? {
      ConstMeans(v, Get(j, key).value);
    }
  }

  lemma HasBothMeans(k1: string, v1: Json, k2: string, v2: Json, j: Json)
    requires j.Obj? && Scalar(v1) && Scalar(v2)
    ensures Valid(HasBoth(k1, v1, k2, v2), j) <==> Get(j, k1) == Some(v1) && Get(j, k2) == Some(v2)
  {
    var p, q := Prop(k1, Object([Const(v1)])), Prop(k2, Object([Const(v2)]));
    TwoKeywords(Properties([p, q]), Required([k1, k2]), j);
    TwoProps(p, q, j);
    assert Holds(Required([k1, k2]), j) <==> Get(j, k1).Some? && Get(j, k2).Some? by {
      assert k1 in [k1, k2] && k2 in [k1, k2];
    }
    if Get(j, k1).Some? && Get(j, k2).Some? {
      ConstMeans(v1, Get(j, k1).value);
      ConstMeans(v2, Get(j, k2).value);
    }
  }

  lemma ForbidMeans(key: string, j: Json)
    requires j.Obj?
    ensures Valid(Forbid(key), j) <==> Get(j, key).None?
  {
    OneKeyword(Not(Object([Required([key])])), j);
    OneKeyword(Required([key]), j);
    assert Holds(Required([key]), j) <==> Get(j, key).Some? by { assert key in [key]; }
  }

  lemma NotNullMeans(j: Json)
    ensures Valid(NotNull(), j) <==> !j.Null?
  {
    OneKeyword(Not(Object([Type(NullType)])), j);
    OneKeyword(Type(NullType), j);
  }

  lemma WhenMeans(cond: Schema, thn: Schema, j: Json)
    ensures Valid(When(cond, thn), j) <==> (Valid(cond, j) ==> Valid(thn, j))
  {
    OneKeyword(IfThenElse(cond, thn, Literal(true)), j);
  }

  lemma NonBlankMeans(j: Json)
    requires j.Str?
    ensures Valid(NonBlank(), j) <==> !Blank(j.s)
  {
    TwoKeywords(MinLength(1), NonBlankPattern, j);
  }
}
