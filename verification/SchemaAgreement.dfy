/** The injected fragments against the typed validators: what a decodable document's acceptance means. */
module SchemaAgreement {
  import opened Text
  import opened Json
  import opened JsonSchema
  import opened SchemaTransform
  import opened Models

  // ---------- Meaning of the compound fragments ----------

  lemma UnlessMeans(cond: Schema, thn: Schema, j: Json)
    ensures Valid(Unless(cond, thn), j) <==> (!Valid(cond, j) ==> Valid(thn, j))
  {
    WhenMeans(Object([Not(cond)]), thn, j);
    OneKeyword(Not(cond), j);
  }

  predicate Present(j: Json, key: string) { Get(j, key).Some? && !Get(j, key).value.Null? }

  lemma PropNotNull(key: string, j: Json)
    ensures PropHolds(Prop(key, NotNull()), j) <==> Get(j, key) != Some(Null)
  {
    if Get(j, key).Some? {
      NotNullMeans(Get(j, key).value);
    }
  }

  lemma ConsensusFieldsPresentMeans(j: Json)
    requires j.Obj?
    ensures Valid(ConsensusFieldsPresent(), j) <==>
            Present(j, "breakage_class") && Present(j, "poc_implementable") && Present(j, "consensus_writeup")
  {
    var a, b, c := "breakage_class", "poc_implementable", "consensus_writeup";
    var keys, p, q, r := [a, b, c], Prop(a, NotNull()), Prop(b, NotNull()), Prop(c, NotNull());
    TwoKeywords(Required(keys), Properties([p, q, r]), j);
    ThreeProps(p, q, r, j);
    PropNotNull(a, j);
    PropNotNull(b, j);
    PropNotNull(c, j);
    RequiredThree(a, b, c, j);
  }

  lemma RequiredThree(a: string, b: string, c: string, j: Json)
    requires j.Obj?
    ensures Holds(Required([a, b, c]), j) <==> Get(j, a).Some? && Get(j, b).Some? && Get(j, c).Some?
  {
  }

  lemma RequiredOne(a: string, j: Json)
    requires j.Obj?
    ensures Holds(Required([a]), j) <==> Get(j, a).Some?
  {
  }

  lemma RequiredTwo(a: string, b: string, j: Json)
    requires j.Obj?
    ensures Holds(Required([a, b]), j) <==> Get(j, a).Some? && Get(j, b).Some?
  {
  }

  /** At least one item, when the value is a list at all. */
  predicate Nonempty(j: Json) { j.Arr? ==> |j.items| >= 1 }

  lemma MinItemsMeans(j: Json)
    ensures Valid(Object([MinItems(1)]), j) <==> Nonempty(j)
  {
    OneKeyword(MinItems(1), j);
  }

  lemma TestScopePresentMeans(j: Json)
    requires j.Obj?
    ensures Valid(TestScopePresent(), j) <==> Present(j, "poc_test_scope") && Nonempty(Get(j, "poc_test_scope").value)
  {
    var key := "poc_test_scope";
    var both := [NotNull(), Object([MinItems(1)])];
    var p := Prop(key, Object([AllOf(both)]));
    TwoKeywords(Required([key]), Properties([p]), j);
    RequiredOne(key, j);
    OneProp(p, j);
    if Get(j, key).Some? {
      var v := Get(j, key).value;
      OneKeyword(AllOf(both), v);
      NotNullMeans(v);
      MinItemsMeans(v);
      assert NotNull() in both && Object([MinItems(1)]) in both;
    }
  }

  lemma EvidencePresentMeans(j: Json)
    requires j.Obj?
    ensures Valid(EvidencePresent(), j) <==>
            && Present(j, "verification_replay")
            && Get(j, "evidence_queries").Some? && Nonempty(Get(j, "evidence_queries").value)
  {
    var a, b := "verification_replay", "evidence_queries";
    var p, q := Prop(a, NotNull()), Prop(b, Object([MinItems(1)]));
    TwoKeywords(Required([a, b]), Properties([p, q]), j);
    RequiredTwo(a, b, j);
    TwoProps(p, q, j);
    PropNotNull(a, j);
    if Get(j, b).Some? {
      MinItemsMeans(Get(j, b).value);
    }
  }

  lemma NoConsensusFieldsMeans(j: Json)
    requires j.Obj?
    ensures Valid(NoConsensusFields(), j) <==>
            Get(j, "breakage_class").None? && Get(j, "poc_implementable").None?
            && Get(j, "poc_test_scope").None? && Get(j, "consensus_writeup").None?
  {
    var a, b := Forbid("breakage_class"), Forbid("poc_implementable");
    var c, d := Forbid("poc_test_scope"), Forbid("consensus_writeup");
    OneKeyword(AllOf([a, b, c, d]), j);
    ForbidMeans("breakage_class", j);
    ForbidMeans("poc_implementable", j);
    ForbidMeans("poc_test_scope", j);
    ForbidMeans("consensus_writeup", j);
    AllOfFour(a, b, c, d, j);
  }

  lemma AllOfFour(a: Schema, b: Schema, c: Schema, d: Schema, j: Json)
    ensures Holds(AllOf([a, b, c, d]), j) <==> Valid(a, j) && Valid(b, j) && Valid(c, j) && Valid(d, j)
  {
    assert a in [a, b, c, d] && b in [a, b, c, d] && c in [a, b, c, d] && d in [a, b, c, d];
  }

  // ---------- Routing ----------

  /** The five routing rules, read off the document. */
  predicate RoutingRules(j: Json) {
    && (Get(j, "consensus_breaking") == Some(T) ==>
          Present(j, "breakage_class") && Present(j, "poc_implementable") && Present(j, "consensus_writeup"))
    && (Get(j, "poc_implementable") == Some(T) ==>
          Present(j, "poc_test_scope") && Nonempty(Get(j, "poc_test_scope").value))
    && (Get(j, "breakage_class") == Some(Str("block_validation")) ==> Get(j, "poc_implementable") in {None, Some(F)})
    && (Get(j, "poc_implementable") != Some(T) ==> Get(j, "poc_test_scope").None?)
    && (Get(j, "consensus_breaking") != Some(T) ==>
          Get(j, "breakage_class").None? && Get(j, "poc_implementable").None?
          && Get(j, "poc_test_scope").None? && Get(j, "consensus_writeup").None?)
  }

  lemma RoutingFragmentsMean(j: Json)
    requires j.Obj?
    ensures AllValid(RoutingFragments(), j) <==> RoutingRules(j)
  {
    hide Valid, Get;
    var fs := RoutingFragments();
    assert AllValid(fs, j) <==>
           Valid(fs[0], j) && Valid(fs[1], j) && Valid(fs[2], j) && Valid(fs[3], j) && Valid(fs[4], j);
    hide ConsensusFieldsPresent, TestScopePresent, NoConsensusFields, Has, Pin, Forbid, When, Unless;
    WhenMeans(Has("consensus_breaking", T), ConsensusFieldsPresent(), j);
    HasMeans("consensus_breaking", T, j);
    ConsensusFieldsPresentMeans(j);
    WhenMeans(Has("poc_implementable", T), TestScopePresent(), j);
    HasMeans("poc_implementable", T, j);
    TestScopePresentMeans(j);
    WhenMeans(Has("breakage_class", Str("block_validation")), Pin("poc_implementable", F), j);
    HasMeans("breakage_class", Str("block_validation"), j);
    PinMeans("poc_implementable", F, j);
    UnlessMeans(Has("poc_implementable", T), Forbid("poc_test_scope"), j);
    ForbidMeans("poc_test_scope", j);
    UnlessMeans(Has("consensus_breaking", T), NoConsensusFields(), j);
    NoConsensusFieldsMeans(j);
  }

  /** No consensus-only field is spelled out as null. */
  predicate NoNullRouting(j: Json) {
    && Get(j, "breakage_class") != Some(Null) && Get(j, "poc_implementable") != Some(Null)
    && Get(j, "poc_test_scope") != Some(Null) && Get(j, "consensus_writeup") != Some(Null)
  }

  lemma BlockValidationName(b: BreakageClass)
    ensures BreakageName(b) == "block_validation" <==> b == BlockValidation
  {
  }

  /** On a document that decodes, the five rules hold exactly when the typed routing check passes and no
      consensus-only field is written as null. */
  lemma RoutingAgrees(j: Json, r: Routing)
    requires j.Obj? && DecodesRouting(j, r)
    ensures AllValid(RoutingFragments(), j) <==> RoutingOk(r) && NoNullRouting(j)
  {
    hide AllValid, RoutingFragments, Get, BreakageName;
    RoutingFragmentsMean(j);
    if r.breakageClass.Some? {
      BlockValidationName(r.breakageClass.value);
    }
  }

  // ---------- Analyzer targets ----------

  /** The clauses of the analyzer-target check that the schema restates. */
  predicate AnalyzerClauses(t: AnalyzerTarget) {
    RoutingOk(t.routing) && (!t.routing.consensusBreaking ==> t.replay.Some? && t.evidence != [])
  }

  lemma AllValidConcat(a: seq<Schema>, b: seq<Schema>, j: Json)
    ensures AllValid(a + b, j) <==> AllValid(a, j) && AllValid(b, j)
  {
  }

  lemma AllValidOne(s: Schema, j: Json)
    ensures AllValid([s], j) <==> Valid(s, j)
  {
  }

  lemma EvidenceAgrees(j: Json, replay: Option<Replay>, evidence: seq<EvidenceQuery>)
    requires j.Obj? && DecodesEvidence(j, replay, evidence)
    ensures Valid(EvidencePresent(), j) <==> replay.Some? && evidence != []
  {
    hide Valid, Get, EvidencePresent;
    EvidencePresentMeans(j);
  }

  /** A definition with the analyzer rules injected accepts a decodable document exactly when the rest of
      the definition does, the typed clauses hold, and no consensus-only field is written as null. */
  lemma AnalyzerTargetAgrees(def: Schema, j: Json, t: AnalyzerTarget)
    requires def.Object? && DecodesAnalyzerTarget(j, t)
    ensures Valid(WithEach(def, AnalyzerFragments()), j) <==> Valid(def, j) && AnalyzerClauses(t) && NoNullRouting(j)
  {
    hide Valid, Get, AllValid, RoutingFragments, EvidencePresent, Has, When, WithEach, RoutingOk, NoNullRouting;
    var last := When(Has("consensus_breaking", F), EvidencePresent());
    WithEachIsConjunction(def, AnalyzerFragments(), j);
    AllValidConcat(RoutingFragments(), [last], j);
    AllValidOne(last, j);
    RoutingAgrees(j, t.routing);
    WhenMeans(Has("consensus_breaking", F), EvidencePresent(), j);
    HasMeans("consensus_breaking", F, j);
    EvidenceAgrees(j, t.replay, t.evidence);
  }

  /** The typed check is the schema's clauses plus what a schema cannot say: the replay's own rules and
      that evidence names only invocations of the replay. */
  lemma AnalyzerCheckExtendsClauses(t: AnalyzerTarget)
    ensures ValidateAnalyzerTarget(t) <==>
            && AnalyzerClauses(t)
            && (t.replay.Some? ==> t.replay.value.wellFormed)
            && EvidenceRefersToReplay(t.evidence, t.replay)
    ensures ValidateAnalyzerTarget(t) && t.replay.None? ==> t.evidence == []
  {
    hide RoutingOk;
    EvidenceMeans(t.evidence, t.replay, !t.routing.consensusBreaking);
  }

  /** Every query passes its own checks, supports some invocation, and only invocations the replay lists. */
  ghost predicate EvidenceRefersToReplay(evidence: seq<EvidenceQuery>, replay: Option<Replay>) {
    forall q :: q in evidence ==>
      && q.wellFormed && |q.supports| > 0
      && (forall id :: id in q.supports ==>
            replay.Some? && exists k :: 0 <= k < |replay.value.invocationIds| && replay.value.invocationIds[k] == id)
  }

  lemma EvidenceMeans(evidence: seq<EvidenceQuery>, replay: Option<Replay>, required: bool)
    ensures EvidenceOk(evidence, replay, required) <==>
            (required ==> evidence != []) && EvidenceRefersToReplay(evidence, replay)
    ensures EvidenceOk(evidence, replay, required) && replay.None? ==> evidence == []
  {
    assert forall i :: 0 <= i < |evidence| ==> evidence[i] in evidence;
    if replay.Some? {
      var ids := replay.value.invocationIds;
      assert forall id :: id in ids <==> exists k :: 0 <= k < |ids| && ids[k] == id;
    } else if evidence != [] {
      var q := evidence[0];
      assert q in evidence;
      if q.supports != [] { assert q.supports[0] in q.supports; }
    }
  }

  /** Every target the typed check passes is accepted by the rules once serialized, whatever else the
      definition demands. */
  lemma ValidAnalyzerTargetIsAccepted(def: Schema, t: AnalyzerTarget, replay: Json, evidence: seq<Json>)
    requires ValidateAnalyzerTarget(t)
    requires DecodesQueries(evidence, t.evidence) && (t.replay.Some? ==> DecodesReplay(replay, t.replay.value))
    requires def.Object? && Valid(def, SerializeAnalyzerTarget(t, replay, evidence))
    ensures Valid(WithEach(def, AnalyzerFragments()), SerializeAnalyzerTarget(t, replay, evidence))
  {
    hide WithEach, AnalyzerFragments, AnalyzerClauses, Get, Valid;
    hide SerializeAnalyzerTarget, ValidateAnalyzerTarget, DecodesAnalyzerTarget;
    var j := SerializeAnalyzerTarget(t, replay, evidence);
    SerializedDecodes(t, replay, evidence);
    AnalyzerCheckExtendsClauses(t);
    AnalyzerTargetAgrees(def, j, t);
  }

  // ---------- Merged targets ----------

  predicate MergedClauses(t: MergedTarget) {
    && RoutingOk(t.routing)
    && t.deliveryMode == DeliveryMode.Derive(t.routing.consensusBreaking, t.routing.pocImplementable)
    && t.benchEligible == t.deliveryMode.BenchEligible()
    && (t.benchEligible ==> t.replay.Some? && t.evidence != [])
  }

  lemma ModeNamesDiffer(m: DeliveryMode)
    ensures m.Name() == "normal_pr" <==> m.NormalPr?
    ensures m.Name() == "consensus_poc_pr" <==> m.ConsensusPocPr?
    ensures m.Name() == "consensus_issue" <==> m.ConsensusIssue?
  {
  }

  /** The derived-field rules, read off the document. */
  predicate DerivedRules(j: Json) {
    && (Get(j, "consensus_breaking") == Some(F) ==> PinnedTo(j, "delivery_mode", Str("normal_pr")))
    && (Get(j, "consensus_breaking") == Some(T) && Get(j, "poc_implementable") == Some(T) ==>
          PinnedTo(j, "delivery_mode", Str("consensus_poc_pr")))
    && (Get(j, "consensus_breaking") == Some(T) && Get(j, "poc_implementable") == Some(F) ==>
          PinnedTo(j, "delivery_mode", Str("consensus_issue")))
    && PinnedTo(j, "bench_eligible", if Get(j, "delivery_mode") == Some(Str("normal_pr")) then T else F)
  }

  predicate PinnedTo(j: Json, key: string, v: Json) { Get(j, key).Some? ==> Get(j, key) == Some(v) }

  lemma DerivedFragmentsMean(j: Json)
    requires j.Obj?
    ensures AllValid(DerivedFragments(), j) <==>
            DerivedRules(j) && (Get(j, "bench_eligible") == Some(T) ==> Valid(EvidencePresent(), j))
  {
    hide Valid, Get;
    var fs := DerivedFragments();
    assert AllValid(fs, j) <==>
           Valid(fs[0], j) && Valid(fs[1], j) && Valid(fs[2], j) && Valid(fs[3], j) && Valid(fs[4], j);
    hide EvidencePresent, Has, HasBoth, Pin, When;
    var normal, poc := Pin("delivery_mode", Str("normal_pr")), Pin("delivery_mode", Str("consensus_poc_pr"));
    var issue := Pin("delivery_mode", Str("consensus_issue"));
    WhenMeans(Has("consensus_breaking", F), normal, j);
    HasMeans("consensus_breaking", F, j);
    PinMeans("delivery_mode", Str("normal_pr"), j);
    WhenMeans(HasBoth("consensus_breaking", T, "poc_implementable", T), poc, j);
    HasBothMeans("consensus_breaking", T, "poc_implementable", T, j);
    PinMeans("delivery_mode", Str("consensus_poc_pr"), j);
    WhenMeans(HasBoth("consensus_breaking", T, "poc_implementable", F), issue, j);
    HasBothMeans("consensus_breaking", T, "poc_implementable", F, j);
    PinMeans("delivery_mode", Str("consensus_issue"), j);
    var c := Has("delivery_mode", Str("normal_pr"));
    OneKeyword(IfThenElse(c, Pin("bench_eligible", T), Pin("bench_eligible", F)), j);
    HasMeans("delivery_mode", Str("normal_pr"), j);
    PinMeans("bench_eligible", T, j);
    PinMeans("bench_eligible", F, j);
    WhenMeans(Has("bench_eligible", T), EvidencePresent(), j);
    HasMeans("bench_eligible", T, j);
  }

  /** The same for merged targets, with the derived delivery mode and bench eligibility. */
  lemma MergedTargetAgrees(def: Schema, j: Json, t: MergedTarget)
    requires def.Object? && DecodesMergedTarget(j, t)
    ensures Valid(WithEach(def, MergedFragments()), j) <==> Valid(def, j) && MergedClauses(t) && NoNullRouting(j)
  {
    hide Valid, Get, AllValid, RoutingFragments, DerivedFragments, EvidencePresent, WithEach, NoNullRouting;
    WithEachIsConjunction(def, MergedFragments(), j);
    AllValidConcat(RoutingFragments(), DerivedFragments(), j);
    RoutingAgrees(j, t.routing);
    DerivedFragmentsMean(j);
    EvidenceAgrees(j, t.replay, t.evidence);
    ModeNamesDiffer(t.deliveryMode);
    DerivedAgrees(j, t);
  }

  lemma DerivedAgrees(j: Json, t: MergedTarget)
    requires DecodesMergedTarget(j, t)
    ensures RoutingOk(t.routing) ==>
              (DerivedRules(j) <==>
               t.deliveryMode == DeliveryMode.Derive(t.routing.consensusBreaking, t.routing.pocImplementable)
               && t.benchEligible == t.deliveryMode.BenchEligible())
  {
  }

  lemma MergedCheckExtendsClauses(t: MergedTarget)
    ensures ValidateMergedTarget(t) <==>
            && MergedClauses(t)
            && t.mergedFrom != [] && |t.mergedFrom| == t.convergenceCount
            && (t.replay.Some? ==> t.replay.value.wellFormed)
            && EvidenceRefersToReplay(t.evidence, t.replay)
    ensures ValidateMergedTarget(t) && t.replay.None? ==> t.evidence == []
  {
    hide RoutingOk;
    EvidenceMeans(t.evidence, t.replay, t.benchEligible);
  }

  lemma ValidMergedTargetIsAccepted(def: Schema, t: MergedTarget, replay: Json, evidence: seq<Json>)
    requires ValidateMergedTarget(t)
    requires DecodesQueries(evidence, t.evidence) && (t.replay.Some? ==> DecodesReplay(replay, t.replay.value))
    requires def.Object? && Valid(def, SerializeMergedTarget(t, replay, evidence))
    ensures Valid(WithEach(def, MergedFragments()), SerializeMergedTarget(t, replay, evidence))
  {
    hide WithEach, MergedFragments, MergedClauses, Get, Valid;
    hide SerializeMergedTarget, ValidateMergedTarget, DecodesMergedTarget;
    var j := SerializeMergedTarget(t, replay, evidence);
    MergedSerializedDecodes(t, replay, evidence);
    MergedCheckExtendsClauses(t);
    MergedTargetAgrees(def, j, t);
  }

  // ---------- Experiments ----------

  lemma StatusRuleMeans(row: (string, seq<string>), j: Json)
    requires j.Obj? && Get(j, "status").Some? && Get(j, "status").value.Str?
    ensures Valid(StatusRule(row), j) <==>
            (Get(j, "delivery_mode") == Some(Str(row.0)) ==> Get(j, "status").value.s in row.1)
  {
    var p := Prop("status", Object([Enum(Strings(row.1))]));
    var v := Get(j, "status").value;
    WhenMeans(Has("delivery_mode", Str(row.0)), Object([Properties([p])]), j);
    HasMeans("delivery_mode", Str(row.0), j);
    OneKeyword(Properties([p]), j);
    OneProp(p, j);
    OneKeyword(Enum(Strings(row.1)), v);
    EnumMeans(row.1, v);
  }

  lemma EnumMeans(ss: seq<string>, v: Json)
    requires v.Str?
    ensures Holds(Enum(Strings(ss)), v) <==> v.s in ss
  {
    if v.s in ss {
      var i :| 0 <= i < |ss| && ss[i] == v.s;
      assert Strings(ss)[i] == v && Same(v, v);
    }
    if Holds(Enum(Strings(ss)), v) {
      var w :| w in Strings(ss) && Same(w, v);
      var i :| 0 <= i < |ss| && Strings(ss)[i] == w;
    }
  }

  lemma StatusNamesDiffer(s: ExperimentStatus)
    ensures StatusName(s) in ["accepted", "rejected", "aborted"] <==> s.Accepted? || s.Rejected? || s.Aborted?
    ensures StatusName(s) in ["poc_landed", "aborted"] <==> s.PocLanded? || s.Aborted?
    ensures StatusName(s) in ["routed_to_issue", "aborted"] <==> s.RoutedToIssue? || s.Aborted?
  {
  }

  /** The status rule is the same on both sides. */
  lemma ExperimentAgrees(def: Schema, j: Json, e: Experiment)
    requires def.Object? && DecodesExperiment(j, e)
    ensures Valid(WithEach(def, ExperimentFragments()), j) <==> Valid(def, j) && ValidateExperiment(e)
  {
    hide Valid, Get, WithEach, StatusRule, StatusName;
    var fs, table := ExperimentFragments(), ModeStatuses();
    WithEachIsConjunction(def, fs, j);
    assert fs == [StatusRule(table[0]), StatusRule(table[1]), StatusRule(table[2])];
    assert AllValid(fs, j) <==> Valid(fs[0], j) && Valid(fs[1], j) && Valid(fs[2], j);
    StatusRuleMeans(table[0], j);
    StatusRuleMeans(table[1], j);
    StatusRuleMeans(table[2], j);
    ModeNamesDiffer(e.deliveryMode);
    StatusNamesDiffer(e.status);
  }

  // ---------- Optimizer reports ----------

  predicate AllNonBlank(ss: seq<string>) { forall i :: 0 <= i < |ss| ==> IsNonBlank(ss[i]) }

  lemma NonBlankAgrees(s: string)
    ensures Valid(NonBlank(), Str(s)) <==> IsNonBlank(s)
  {
    NonBlankMeans(Str(s));
    TrimEmptyIffBlank(s);
  }

  lemma ItemsAgree(ss: seq<string>)
    ensures Holds(Items(NonBlank()), StrArray(ss)) <==> AllNonBlank(ss)
  {
    hide Valid;
    forall i | 0 <= i < |ss|
      ensures Valid(NonBlank(), StrArray(ss).items[i]) <==> IsNonBlank(ss[i])
    {
      NonBlankAgrees(ss[i]);
    }
  }

  lemma SomeNonBlankItemsMean(ss: seq<string>)
    ensures Valid(SomeNonBlankItems(), StrArray(ss)) <==> ss != [] && AllNonBlank(ss)
  {
    hide Valid;
    TwoKeywords(MinItems(1), Items(NonBlank()), StrArray(ss));
    ItemsAgree(ss);
  }

  lemma InsideMeans(key: string, s: Schema, j: Json)
    requires j.Obj?
    ensures Valid(Inside(key, s), j) <==> (Get(j, key).Some? ==> Valid(s, Get(j, key).value))
  {
    OneKeyword(Properties([Prop(key, s)]), j);
    OneProp(Prop(key, s), j);
  }

  /** Rule 1: a consensus-sensitive report lists evidence and tests, every entry non-blank. */
  lemma ParityRuleMeans(j: Json, r: ImplementedReport)
    requires DecodesImplemented(j, r)
    ensures Valid(ImplementedFragments()[0], j) <==>
            (r.consensusSensitive ==>
               r.evidence != [] && AllNonBlank(r.evidence) && r.tests != [] && AllNonBlank(r.tests))
  {
    hide Valid, Get;
    var parity := Get(j, "parity").value;
    var p, q := Prop("evidence", SomeNonBlankItems()), Prop("tests", SomeNonBlankItems());
    var inner := Object([Properties([p, q])]);
    var c := Prop("parity", Has("consensus_sensitive", T));
    WhenMeans(Object([Properties([c]), Required(["parity"])]), Inside("parity", inner), j);
    TwoKeywords(Properties([c]), Required(["parity"]), j);
    OneProp(c, j);
    RequiredOne("parity", j);
    HasMeans("consensus_sensitive", T, parity);
    InsideMeans("parity", inner, j);
    OneKeyword(Properties([p, q]), parity);
    TwoProps(p, q, parity);
    SomeNonBlankItemsMean(r.evidence);
    SomeNonBlankItemsMean(r.tests);
  }

  /** Rule 2: no unproven risk. */
  lemma RiskRuleMeans(j: Json, r: ImplementedReport)
    requires DecodesImplemented(j, r)
    ensures Valid(ImplementedFragments()[1], j) <==> r.unprovenRisk.None?
  {
    hide Valid, Get;
    var parity, none := Get(j, "parity").value, Object([Type(NullType)]);
    InsideMeans("parity", Inside("unproven_risk", none), j);
    InsideMeans("unproven_risk", none, parity);
    if Get(parity, "unproven_risk").Some? {
      OneKeyword(Type(NullType), Get(parity, "unproven_risk").value);
    }
  }

  /** Rules 3 and 5: the test summary's numbers. */
  lemma TestRulesMean(j: Json, r: ImplementedReport)
    requires DecodesImplemented(j, r)
    ensures Valid(ImplementedFragments()[2], j) <==> r.failed == 0
    ensures Valid(ImplementedFragments()[4], j) <==> r.durationSecs >= 0.0
  {
    hide Valid, Get;
    var tests := Get(j, "test_summary").value;
    InsideMeans("test_summary", Pin("failed", Num(0.0)), j);
    PinMeans("failed", Num(0.0), tests);
    InsideMeans("test_summary", Inside("duration_secs", Object([Minimum(0.0)])), j);
    InsideMeans("duration_secs", Object([Minimum(0.0)]), tests);
    OneKeyword(Minimum(0.0), Num(r.durationSecs));
  }

  /** Rule 4: free text. */
  lemma TextRuleMeans(j: Json, r: ImplementedReport)
    requires DecodesImplemented(j, r)
    ensures Valid(ImplementedFragments()[3], j) <==>
            IsNonBlank(r.implementationSummary) && IsNonBlank(r.prTitle) && IsNonBlank(r.logPath)
  {
    hide Valid, Get;
    var a, b := Prop("implementation_summary", NonBlank()), Prop("pr_title", NonBlank());
    var c := Prop("test_summary", Inside("log_path", NonBlank()));
    OneKeyword(Properties([a, b, c]), j);
    ThreeProps(a, b, c, j);
    NonBlankAgrees(r.implementationSummary);
    NonBlankAgrees(r.prTitle);
    InsideMeans("log_path", NonBlank(), Get(j, "test_summary").value);
    NonBlankAgrees(r.logPath);
  }

  /** Rule 6: clippy by delivery mode. */
  lemma ClippyRulesMean(j: Json, r: ImplementedReport)
    requires DecodesImplemented(j, r)
    ensures Valid(ImplementedFragments()[5], j) <==> (r.deliveryMode.NormalPr? ==> r.clippyClean == Some(true))
    ensures Valid(ImplementedFragments()[6], j) <==> !r.deliveryMode.ConsensusIssue?
  {
    hide Valid, Get;
    var p := Prop("clippy_clean", Object([Const(T)]));
    var then5 := Object([Required(["clippy_clean"]), Properties([p])]);
    WhenMeans(Has("delivery_mode", Str("normal_pr")), then5, j);
    HasMeans("delivery_mode", Str("normal_pr"), j);
    TwoKeywords(Required(["clippy_clean"]), Properties([p]), j);
    RequiredOne("clippy_clean", j);
    OneProp(p, j);
    if Get(j, "clippy_clean").Some? {
      ConstMeans(T, Get(j, "clippy_clean").value);
    }
    WhenMeans(Has("delivery_mode", Str("consensus_issue")), Literal(false), j);
    HasMeans("delivery_mode", Str("consensus_issue"), j);
    LiteralMeans(false, j);
    ModeNamesDiffer(r.deliveryMode);
  }

  lemma LiteralMeans(accept: bool, j: Json)
    ensures Valid(Literal(accept), j) <==> accept
  {
  }

  /** The schema accepts exactly the reports the typed check accepts in which, when consensus is at stake,
      every evidence and test entry is non-blank (the typed check asks for one). */
  lemma ImplementedAgrees(def: Schema, j: Json, r: ImplementedReport)
    requires def.Object? && DecodesImplemented(j, r)
    ensures Valid(WithEach(def, ImplementedFragments()), j) <==>
            && Valid(def, j) && ValidateImplemented(r)
            && (r.consensusSensitive ==> AllNonBlank(r.evidence) && AllNonBlank(r.tests))
  {
    hide Valid, WithEach, DecodesImplemented, IsNonBlank, ImplementedFragments;
    var fs := ImplementedFragments();
    WithEachIsConjunction(def, fs, j);
    SevenFragments();
    assert AllValid(fs, j) <==> forall i :: 0 <= i < 7 ==> Valid(fs[i], j);
    ParityRuleMeans(j, r);
    RiskRuleMeans(j, r);
    TestRulesMean(j, r);
    TextRuleMeans(j, r);
    ClippyRulesMean(j, r);
    SomeOfAll(r.evidence);
    SomeOfAll(r.tests);
  }

  lemma SevenFragments()
    ensures |ImplementedFragments()| == 7
  {
  }

  lemma SomeOfAll(ss: seq<string>)
    ensures AllNonBlank(ss) ==> (HasNonBlank(ss) <==> ss != [])
  {
    hide IsNonBlank;
    if AllNonBlank(ss) && ss != [] {
      assert IsNonBlank(ss[0]);
    }
  }

  lemma AbortReasonMeans(j: Json, r: AbortedReport)
    requires DecodesAborted(j, r)
    ensures Valid(AbortedFragments()[0], j) <==> IsNonBlank(r.reason)
  {
    hide Valid, Get, IsNonBlank;
    InsideMeans("reason", NonBlank(), j);
    NonBlankAgrees(r.reason);
  }

  lemma FailingTestsMean(j: Json, r: AbortedReport)
    requires DecodesAborted(j, r)
    ensures Valid(AbortedFragments()[1], j) <==>
            (r.gate == Some("nextest") ==>
               r.failingTests.Some? && r.failingTests.value != [] && AllNonBlank(r.failingTests.value))
  {
    hide Valid, Get, IsNonBlank;
    var list := Object([Type(ArrayType), MinItems(1), Items(NonBlank())]);
    var p := Prop("failing_tests", list);
    WhenMeans(Has("failed_gate", Str("nextest")), Object([Required(["failing_tests"]), Properties([p])]), j);
    HasMeans("failed_gate", Str("nextest"), j);
    TwoKeywords(Required(["failing_tests"]), Properties([p]), j);
    RequiredOne("failing_tests", j);
    OneProp(p, j);
    if Get(j, "failing_tests").Some? {
      ThreeKeywords(Type(ArrayType), MinItems(1), Items(NonBlank()), Get(j, "failing_tests").value);
      if r.failingTests.Some? {
        ItemsAgree(r.failingTests.value);
      }
    }
  }

  /** The same for aborted reports and their failing tests. */
  lemma AbortedAgrees(def: Schema, j: Json, r: AbortedReport)
    requires def.Object? && DecodesAborted(j, r)
    ensures Valid(WithEach(def, AbortedFragments()), j) <==>
            && Valid(def, j) && ValidateAborted(r)
            && (r.gate == Some("nextest") ==> AllNonBlank(r.failingTests.value))
  {
    hide Valid, Get, WithEach, IsNonBlank, DecodesAborted, AbortedFragments;
    var fs := AbortedFragments();
    TwoFragments();
    WithEachIsConjunction(def, fs, j);
    assert AllValid(fs, j) <==> Valid(fs[0], j) && Valid(fs[1], j);
    AbortReasonMeans(j, r);
    FailingTestsMean(j, r);
    if r.failingTests.Some? {
      SomeOfAll(r.failingTests.value);
    }
  }

  lemma TwoFragments()
    ensures |AbortedFragments()| == 2
  {
  }
}
