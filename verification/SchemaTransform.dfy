/** The cross-field rules the export injects into the generated definitions. */
module SchemaTransform {
  import opened Json
  import opened JsonSchema

  const T := Bool(true)
  const F := Bool(false)

  /** `{ "required": [..], "properties": { k: not null, .. } }` for the three consensus fields. */
  function ConsensusFieldsPresent(): (s: Schema) {
    Object([Required(["breakage_class", "poc_implementable", "consensus_writeup"]),
            Properties([Prop("breakage_class", NotNull()), Prop("poc_implementable", NotNull()),
                        Prop("consensus_writeup", NotNull())])])
  }

  function TestScopePresent(): (s: Schema) {
    Object([Required(["poc_test_scope"]),
            Properties([Prop("poc_test_scope", Object([AllOf([NotNull(), Object([MinItems(1)])])]))])])
  }

  function EvidencePresent(): (s: Schema) {
    Object([Required(["verification_replay", "evidence_queries"]),
            Properties([Prop("verification_replay", NotNull()), Prop("evidence_queries", Object([MinItems(1)]))])])
  }

  function NoConsensusFields(): (s: Schema) {
    Object([AllOf([Forbid("breakage_class"), Forbid("poc_implementable"),
                   Forbid("poc_test_scope"), Forbid("consensus_writeup")])])
  }

  function Unless(cond: Schema, thn: Schema): (s: Schema) { When(Object([Not(cond)]), thn) }

  /** The five rules shared by analyzer and merged targets. */
  function RoutingFragments(): (fs: seq<Schema>) {
    [When(Has("consensus_breaking", T), ConsensusFieldsPresent()),
     When(Has("poc_implementable", T), TestScopePresent()),
     When(Has("breakage_class", Str("block_validation")), Pin("poc_implementable", F)),
     Unless(Has("poc_implementable", T), Forbid("poc_test_scope")),
     Unless(Has("consensus_breaking", T), NoConsensusFields())]
  }

  function AnalyzerFragments(): (fs: seq<Schema>) {
    RoutingFragments() + [When(Has("consensus_breaking", F), EvidencePresent())]
  }

  function DerivedFragments(): (fs: seq<Schema>) {
    [When(Has("consensus_breaking", F), Pin("delivery_mode", Str("normal_pr"))),
     When(HasBoth("consensus_breaking", T, "poc_implementable", T), Pin("delivery_mode", Str("consensus_poc_pr"))),
     When(HasBoth("consensus_breaking", T, "poc_implementable", F), Pin("delivery_mode", Str("consensus_issue"))),
     Object([IfThenElse(Has("delivery_mode", Str("normal_pr")), Pin("bench_eligible", T), Pin("bench_eligible", F))]),
     When(Has("bench_eligible", T), EvidencePresent())]
  }

  function MergedFragments(): (fs: seq<Schema>) { RoutingFragments() + DerivedFragments() }

  /** Delivery modes with the statuses each admits. */
  function ModeStatuses(): (table: seq<(string, seq<string>)>) {
    [("normal_pr", ["accepted", "rejected", "aborted"]),
     ("consensus_poc_pr", ["poc_landed", "aborted"]),
     ("consensus_issue", ["routed_to_issue", "aborted"])]
  }

  function Strings(ss: seq<string>): (js: seq<Json>)
    ensures |js| == |ss| && forall i :: 0 <= i < |ss| ==> js[i] == Str(ss[i])
  {
    seq(|ss|, i requires 0 <= i < |ss| => Str(ss[i]))
  }

  function StatusRule(row: (string, seq<string>)): (s: Schema) {
    When(Has("delivery_mode", Str(row.0)), Object([Properties([Prop("status", Object([Enum(Strings(row.1))]))])]))
  }

  function StatusRules(table: seq<(string, seq<string>)>): (fs: seq<Schema>)
    ensures |fs| == |table| && forall i :: 0 <= i < |table| ==> fs[i] == StatusRule(table[i])
  {
    seq(|table|, i requires 0 <= i < |table| => StatusRule(table[i]))
  }

  function ExperimentFragments(): (fs: seq<Schema>) { StatusRules(ModeStatuses()) }

  function SomeNonBlankItems(): (s: Schema) { Object([MinItems(1), Items(NonBlank())]) }

  function Inside(key: string, s: Schema): (r: Schema) { Object([Properties([Prop(key, s)])]) }

  function ImplementedFragments(): (fs: seq<Schema>) {
    [When(Object([Properties([Prop("parity", Has("consensus_sensitive", T))]), Required(["parity"])]),
          Inside("parity", Object([Properties([Prop("evidence", SomeNonBlankItems()),
                                               Prop("tests", SomeNonBlankItems())])]))),
     Inside("parity", Inside("unproven_risk", Object([Type(NullType)]))),
     Inside("test_summary", Pin("failed", Num(0.0))),
     Object([Properties([Prop("implementation_summary", NonBlank()), Prop("pr_title", NonBlank()),
                         Prop("test_summary", Inside("log_path", NonBlank()))])]),
     Inside("test_summary", Inside("duration_secs", Object([Minimum(0.0)]))),
     When(Has("delivery_mode", Str("normal_pr")),
          Object([Required(["clippy_clean"]), Properties([Prop("clippy_clean", Object([Const(T)]))])])),
     When(Has("delivery_mode", Str("consensus_issue")), Literal(false))]
  }

  function AbortedFragments(): (fs: seq<Schema>) {
    [Inside("reason", NonBlank()),
     When(Has("failed_gate", Str("nextest")),
          Object([Required(["failing_tests"]),
                  Properties([Prop("failing_tests", Object([Type(ArrayType), MinItems(1), Items(NonBlank())]))])]))]
  }

  // ---------- The in-place transforms ----------

  lemma {:induction false} WithEachAppends(def: Schema, a: seq<Schema>, b: seq<Schema>)
    ensures WithEach(WithEach(def, a), b) == WithEach(def, a + b)
  {
    hide WithAllOf;
    if b == [] {
      assert a + b == a;
    } else {
      var n := |b| - 1;
      WithEachAppends(def, a, b[..n]);
      assert (a + b)[..|a + b| - 1] == a + b[..n];
    }
  }

  lemma WithOne(def: Schema, a: seq<Schema>, e: Schema)
    ensures WithAllOf(WithEach(def, a), e) == WithEach(def, a + [e])
  {
  }

  /** One generated definition, changed in place. */
  class SchemaDef {
    var def: Schema

    constructor (def: Schema)
      ensures this.def == def
    {
      this.def := def;
    }

    method AppendAllOf(entry: Schema)
      modifies this
      ensures def == WithAllOf(old(def), entry)
    {
      if def.Object? {
        var i := AllOfIndex(def.keywords);
        var keywords := def.keywords;
        if i == |keywords| {
          keywords := keywords + [AllOf([])];
        }
        keywords := keywords[i := AllOf(keywords[i].schemas + [entry])];
        assert [] + [entry] == [entry];
        def := Object(keywords);
      }
    }

    /** The entries one after the other. */
    method AppendEach(entries: seq<Schema>)
      modifies this
      ensures def == WithEach(old(def), entries)
    {
      for i := 0 to |entries|
        invariant def == WithEach(old(def), entries[..i])
      {
        AppendAllOf(entries[i]);
        WithOne(old(def), entries[..i], entries[i]);
        assert entries[..i] + [entries[i]] == entries[..i + 1];
      }
      assert entries[..|entries|] == entries;
    }

    method InjectConsensusRouting()
      modifies this
      ensures def == WithEach(old(def), RoutingFragments())
    {
      AppendEach(RoutingFragments());
    }

    method InjectAnalyzerTarget()
      modifies this
      ensures def == WithEach(old(def), AnalyzerFragments())
    {
      InjectConsensusRouting();
      WithOne(old(def), RoutingFragments(), When(Has("consensus_breaking", F), EvidencePresent()));
      AppendAllOf(When(Has("consensus_breaking", F), EvidencePresent()));
    }

    method InjectMergedTarget()
      modifies this
      ensures def == WithEach(old(def), MergedFragments())
    {
      InjectConsensusRouting();
      AppendEach(DerivedFragments());
      WithEachAppends(old(def), RoutingFragments(), DerivedFragments());
    }

    /** One rule per delivery mode. */
    method InjectExperiment()
      modifies this
      ensures def == WithEach(old(def), ExperimentFragments())
    {
      var table := ModeStatuses();
      for i := 0 to |table|
        invariant def == WithEach(old(def), StatusRules(table)[..i])
      {
        AppendAllOf(StatusRule(table[i]));
        WithOne(old(def), StatusRules(table)[..i], StatusRule(table[i]));
        assert StatusRules(table)[..i] + [StatusRule(table[i])] == StatusRules(table)[..i + 1];
      }
      assert StatusRules(table)[..|table|] == StatusRules(table);
    }

    method InjectImplementedReport()
      modifies this
      ensures def == WithEach(old(def), ImplementedFragments())
    {
      AppendEach(ImplementedFragments());
    }

    method InjectAbortedReport()
      modifies this
      ensures def == WithEach(old(def), AbortedFragments())
    {
      AppendEach(AbortedFragments());
    }
  }
}
