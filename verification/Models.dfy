/** The typed artifacts, their `validate_model` checks, and how JSON decodes to them. */
module Models {
  import opened Text
  import opened Json

  datatype BreakageClass =
    | ClarityCostWeight | ClarityVmBehavior | MiningFlow | BlockValidation | MarfLayout | OnChainFormat

  function BreakageName(b: BreakageClass): (s: string) {
    match b
    case ClarityCostWeight => "clarity_cost_weight"
    case ClarityVmBehavior => "clarity_vm_behavior"
    case MiningFlow => "mining_flow"
    case BlockValidation => "block_validation"
    case MarfLayout => "marf_layout"
    case OnChainFormat => "on_chain_format"
  }

  datatype DeliveryMode = NormalPr | ConsensusPocPr | ConsensusIssue {
    static function Derive(consensusBreaking: bool, pocImplementable: Option<bool>): (m: DeliveryMode) {
      if !consensusBreaking then NormalPr
      else if pocImplementable == Some(true) then ConsensusPocPr
      else ConsensusIssue
    }

    predicate BenchEligible() { NormalPr? }

    function Name(): (s: string) {
      match this
      case NormalPr => "normal_pr"
      case ConsensusPocPr => "consensus_poc_pr"
      case ConsensusIssue => "consensus_issue"
    }
  }

  /** The five consensus-routing fields both target types carry. */
  datatype Routing = Routing(consensusBreaking: bool, breakageClass: Option<BreakageClass>,
                             pocImplementable: Option<bool>, pocTestScope: Option<seq<string>>,
                             consensusWriteup: Option<string>)

  /** A replay recipe: the outcome of its own check, and its invocation ids. */
  datatype Replay = Replay(wellFormed: bool, invocationIds: seq<string>)

  /** An evidence query: the outcome of its own text checks, and the invocations it supports. */
  datatype EvidenceQuery = EvidenceQuery(wellFormed: bool, supports: seq<string>)

  datatype AnalyzerTarget = AnalyzerTarget(routing: Routing, replay: Option<Replay>, evidence: seq<EvidenceQuery>)

  /** An analyzer target that contributed to a merged one. */
  datatype MergedFrom = MergedFrom(familyId: string, targetIndex: nat)

  datatype MergedTarget = MergedTarget(mergedFrom: seq<MergedFrom>, convergenceCount: nat,
                                       routing: Routing, replay: Option<Replay>, evidence: seq<EvidenceQuery>,
                                       deliveryMode: DeliveryMode, benchEligible: bool)

  // ---------- validate_model ----------

  predicate RoutingOk(r: Routing) {
    if r.consensusBreaking then
      && r.breakageClass.Some? && r.pocImplementable.Some? && r.consensusWriteup.Some?
      && !(r.breakageClass == Some(BlockValidation) && r.pocImplementable != Some(false))
      && (if r.pocImplementable == Some(true)
          then r.pocTestScope.Some? && r.pocTestScope.value != []
          else r.pocTestScope.None?)
    else
      r.breakageClass.None? && r.pocImplementable.None? && r.pocTestScope.None? && r.consensusWriteup.None?
  }

  predicate QueryOk(q: EvidenceQuery) { q.wellFormed && q.supports != [] }

  predicate EvidenceOk(evidence: seq<EvidenceQuery>, replay: Option<Replay>, required: bool) {
    && !(required && evidence == [])
    && forall i :: 0 <= i < |evidence| ==>
         && QueryOk(evidence[i])
         && (if replay.Some? then forall id :: id in evidence[i].supports ==> id in replay.value.invocationIds
             else evidence[i].supports == [])
  }

  predicate ValidateAnalyzerTarget(t: AnalyzerTarget) {
    && (t.replay.Some? ==> t.replay.value.wellFormed)
    && RoutingOk(t.routing)
    && !(!t.routing.consensusBreaking && t.replay.None?)
    && EvidenceOk(t.evidence, t.replay, !t.routing.consensusBreaking)
  }

  predicate ValidateMergedTarget(t: MergedTarget) {
    && (t.replay.Some? ==> t.replay.value.wellFormed)
    && t.mergedFrom != [] && |t.mergedFrom| == t.convergenceCount
    && RoutingOk(t.routing)
    && t.deliveryMode == DeliveryMode.Derive(t.routing.consensusBreaking, t.routing.pocImplementable)
    && t.benchEligible == t.deliveryMode.BenchEligible()
    && !(t.benchEligible && t.replay.None?)
    && EvidenceOk(t.evidence, t.replay, t.benchEligible)
  }

  datatype ExperimentStatus = Accepted | Rejected | Aborted | PocLanded | RoutedToIssue

  function StatusName(s: ExperimentStatus): (n: string) {
    match s
    case Accepted => "accepted"
    case Rejected => "rejected"
    case Aborted => "aborted"
    case PocLanded => "poc_landed"
    case RoutedToIssue => "routed_to_issue"
  }

  datatype Experiment = Experiment(deliveryMode: DeliveryMode, status: ExperimentStatus)

  predicate ValidateExperiment(e: Experiment) {
    match e.deliveryMode
    case NormalPr => e.status.Accepted? || e.status.Rejected? || e.status.Aborted?
    case ConsensusPocPr => e.status.PocLanded? || e.status.Aborted?
    case ConsensusIssue => e.status.RoutedToIssue? || e.status.Aborted?
  }

  predicate IsNonBlank(s: string) { Trim(s) != [] }

  predicate HasNonBlank(xs: seq<string>) { exists i :: 0 <= i < |xs| && IsNonBlank(xs[i]) }

  datatype ImplementedReport = ImplementedReport(
    deliveryMode: DeliveryMode, implementationSummary: string, prTitle: string, clippyClean: Option<bool>,
    consensusSensitive: bool, evidence: seq<string>, tests: seq<string>, unprovenRisk: Option<string>,
    failed: nat, durationSecs: real, logPath: string)

  predicate ValidateImplemented(r: ImplementedReport) {
    && (r.consensusSensitive ==> HasNonBlank(r.evidence) && HasNonBlank(r.tests))
    && r.unprovenRisk.None?
    && r.failed == 0
    && IsNonBlank(r.implementationSummary) && IsNonBlank(r.prTitle) && IsNonBlank(r.logPath)
    && r.durationSecs >= 0.0
    && (match r.deliveryMode
        case NormalPr => r.clippyClean == Some(true)
        case ConsensusPocPr => true
        case ConsensusIssue => false)
  }

  /** `gate` is the snake-case name of the failed gate. */
  datatype AbortedReport = AbortedReport(reason: string, gate: Option<string>, failingTests: Option<seq<string>>)

  predicate ValidateAborted(r: AbortedReport) {
    && IsNonBlank(r.reason)
    && (r.gate == Some("nextest") ==> r.failingTests.Some? && HasNonBlank(r.failingTests.value))
  }

  // ---------- Decoding ----------

  /** An optional field may be absent or null when it has no value. */
  predicate DecodesOption(v: Option<Json>, o: Option<Json>) { v == o || (o.None? && v == Some(Null)) }

  function OptStr(o: Option<string>): (r: Option<Json>) { if o.Some? then Some(Str(o.value)) else None }

  function OptBool(o: Option<bool>): (r: Option<Json>) { if o.Some? then Some(Bool(o.value)) else None }

  function OptBreakage(o: Option<BreakageClass>): (r: Option<Json>) {
    if o.Some? then Some(Str(BreakageName(o.value))) else None
  }

  function StrArray(ss: seq<string>): (j: Json) { Arr(seq(|ss|, i requires 0 <= i < |ss| => Str(ss[i]))) }

  function OptStrs(o: Option<seq<string>>): (r: Option<Json>) { if o.Some? then Some(StrArray(o.value)) else None }

  predicate DecodesRouting(j: Json, r: Routing) {
    && Get(j, "consensus_breaking") == Some(Bool(r.consensusBreaking))
    && DecodesOption(Get(j, "breakage_class"), OptBreakage(r.breakageClass))
    && DecodesOption(Get(j, "poc_implementable"), OptBool(r.pocImplementable))
    && DecodesOption(Get(j, "poc_test_scope"), OptStrs(r.pocTestScope))
    && DecodesOption(Get(j, "consensus_writeup"), OptStr(r.consensusWriteup))
  }

  /** A replay lists its invocations, each with its id. */
  predicate DecodesReplay(v: Json, r: Replay) {
    && v.Obj? && Get(v, "invocations").Some? && Get(v, "invocations").value.Arr?
    && var items := Get(v, "invocations").value.items;
       |items| == |r.invocationIds|
       && forall i :: 0 <= i < |items| ==> items[i].Obj? && Get(items[i], "id") == Some(Str(r.invocationIds[i]))
  }

  predicate DecodesQuery(v: Json, q: EvidenceQuery) {
    v.Obj? && Get(v, "supports_invocations") == Some(StrArray(q.supports))
  }

  predicate DecodesQueries(items: seq<Json>, evidence: seq<EvidenceQuery>) {
    |items| == |evidence| && forall i :: 0 <= i < |items| ==> DecodesQuery(items[i], evidence[i])
  }

  /** The replay is absent or null iff the target has none; a missing evidence list is empty. */
  predicate DecodesEvidence(j: Json, replay: Option<Replay>, evidence: seq<EvidenceQuery>) {
    && (if replay.Some?
        then Get(j, "verification_replay").Some? && DecodesReplay(Get(j, "verification_replay").value, replay.value)
        else Get(j, "verification_replay") in {None, Some(Null)})
    && (if Get(j, "evidence_queries").None? then evidence == []
        else Get(j, "evidence_queries").value.Arr? && DecodesQueries(Get(j, "evidence_queries").value.items, evidence))
  }

  predicate DecodesAnalyzerTarget(j: Json, t: AnalyzerTarget) {
    j.Obj? && DecodesRouting(j, t.routing) && DecodesEvidence(j, t.replay, t.evidence)
  }

  predicate DecodesMergedTarget(j: Json, t: MergedTarget) {
    && j.Obj? && DecodesRouting(j, t.routing) && DecodesEvidence(j, t.replay, t.evidence)
    && Get(j, "delivery_mode") == Some(Str(t.deliveryMode.Name()))
    && Get(j, "bench_eligible") == Some(Bool(t.benchEligible))
    && Get(j, "merged_from").Some? && Get(j, "merged_from").value.Arr?
    && DecodesContributors(Get(j, "merged_from").value.items, t.mergedFrom)
    && Get(j, "convergence_count") == Some(Num(t.convergenceCount as real))
  }

  predicate DecodesContributors(items: seq<Json>, from: seq<MergedFrom>) {
    && |items| == |from|
    && forall i :: 0 <= i < |items| ==>
         && Get(items[i], "family_id") == Some(Str(from[i].familyId))
         && Get(items[i], "target_index") == Some(Num(from[i].targetIndex as real))
  }

  predicate DecodesExperiment(j: Json, e: Experiment) {
    && j.Obj?
    && Get(j, "delivery_mode") == Some(Str(e.deliveryMode.Name()))
    && Get(j, "status") == Some(Str(StatusName(e.status)))
  }

  predicate DecodesImplemented(j: Json, r: ImplementedReport) {
    && j.Obj?
    && Get(j, "delivery_mode") == Some(Str(r.deliveryMode.Name()))
    && Get(j, "implementation_summary") == Some(Str(r.implementationSummary))
    && Get(j, "pr_title") == Some(Str(r.prTitle))
    && DecodesOption(Get(j, "clippy_clean"), OptBool(r.clippyClean))
    && Get(j, "parity").Some? && DecodesParity(Get(j, "parity").value, r)
    && Get(j, "test_summary").Some? && DecodesTestSummary(Get(j, "test_summary").value, r)
  }

  predicate DecodesParity(p: Json, r: ImplementedReport) {
    && p.Obj?
    && Get(p, "consensus_sensitive") == Some(Bool(r.consensusSensitive))
    && Get(p, "evidence") == Some(StrArray(r.evidence))
    && Get(p, "tests") == Some(StrArray(r.tests))
    && DecodesOption(Get(p, "unproven_risk"), OptStr(r.unprovenRisk))
  }

  predicate DecodesTestSummary(t: Json, r: ImplementedReport) {
    && t.Obj?
    && Get(t, "failed") == Some(Num(r.failed as real))
    && Get(t, "duration_secs") == Some(Num(r.durationSecs))
    && Get(t, "log_path") == Some(Str(r.logPath))
  }

  predicate DecodesAborted(j: Json, r: AbortedReport) {
    && j.Obj?
    && Get(j, "reason") == Some(Str(r.reason))
    && DecodesOption(Get(j, "failed_gate"), OptStr(r.gate))
    && DecodesOption(Get(j, "failing_tests"), OptStrs(r.failingTests))
  }

  // ---------- Serialization ----------

  /** A field without a value is skipped. */
  function OptField(key: string, v: Option<Json>): (fs: seq<Field>) { if v.Some? then [Field(key, v.value)] else [] }

  /** The fields of an analyzer target that the cross-field rules are about, in declaration order; the
      replay object and the evidence entries are given as the JSON they serialize to. */
  function SerializeAnalyzerTarget(t: AnalyzerTarget, replay: Json, evidence: seq<Json>): (j: Json)
    requires |evidence| == |t.evidence|
  {
    Obj(OptField("evidence_queries", if evidence == [] then None else Some(Arr(evidence)))
        + OptField("verification_replay", if t.replay.Some? then Some(replay) else None)
        + [Field("consensus_breaking", Bool(t.routing.consensusBreaking))]
        + OptField("breakage_class", OptBreakage(t.routing.breakageClass))
        + OptField("poc_implementable", OptBool(t.routing.pocImplementable))
        + OptField("poc_test_scope", OptStrs(t.routing.pocTestScope))
        + OptField("consensus_writeup", OptStr(t.routing.consensusWriteup)))
  }

  lemma {:induction false} LookupConcat(a: seq<Field>, b: seq<Field>, k: string)
    ensures Lookup(a + b, k) == if Lookup(b, k).Some? then Lookup(b, k) else Lookup(a, k)
  {
    if b == [] {
      assert a + b == a;
    } else {
      assert (a + b)[..|a + b| - 1] == a + b[..|b| - 1];
      LookupConcat(a, b[..|b| - 1], k);
    }
  }

  lemma LookupOptField(key: string, v: Option<Json>, k: string)
    ensures Lookup(OptField(key, v), k) == if k == key then v else None
  {
  }

  lemma LookupSerialized(t: AnalyzerTarget, replay: Json, evidence: seq<Json>, k: string)
    requires |evidence| == |t.evidence|
    ensures Get(SerializeAnalyzerTarget(t, replay, evidence), k) ==
            if k == "consensus_writeup" then OptStr(t.routing.consensusWriteup)
            else if k == "poc_test_scope" then OptStrs(t.routing.pocTestScope)
            else if k == "poc_implementable" then OptBool(t.routing.pocImplementable)
            else if k == "breakage_class" then OptBreakage(t.routing.breakageClass)
            else if k == "consensus_breaking" then Some(Bool(t.routing.consensusBreaking))
            else if k == "verification_replay" then (if t.replay.Some? then Some(replay) else None)
            else if k == "evidence_queries" then (if evidence == [] then None else Some(Arr(evidence)))
            else None
  {
    hide Lookup, OptField;
    var e := OptField("evidence_queries", if evidence == [] then None else Some(Arr(evidence)));
    var r := OptField("verification_replay", if t.replay.Some? then Some(replay) else None);
    var c := [Field("consensus_breaking", Bool(t.routing.consensusBreaking))];
    var b := OptField("breakage_class", OptBreakage(t.routing.breakageClass));
    var p := OptField("poc_implementable", OptBool(t.routing.pocImplementable));
    var s := OptField("poc_test_scope", OptStrs(t.routing.pocTestScope));
    var w := OptField("consensus_writeup", OptStr(t.routing.consensusWriteup));
    LookupConcat(e, r, k);
    LookupConcat(e + r, c, k);
    LookupConcat(e + r + c, b, k);
    LookupConcat(e + r + c + b, p, k);
    LookupConcat(e + r + c + b + p, s, k);
    LookupConcat(e + r + c + b + p + s, w, k);
    LookupOptField("evidence_queries", if evidence == [] then None else Some(Arr(evidence)), k);
    LookupOptField("verification_replay", if t.replay.Some? then Some(replay) else None, k);
    LookupField("consensus_breaking", Bool(t.routing.consensusBreaking), k);
    LookupOptField("breakage_class", OptBreakage(t.routing.breakageClass), k);
    LookupOptField("poc_implementable", OptBool(t.routing.pocImplementable), k);
    LookupOptField("poc_test_scope", OptStrs(t.routing.pocTestScope), k);
    LookupOptField("consensus_writeup", OptStr(t.routing.consensusWriteup), k);
    KeysDiffer();
  }

  lemma LookupField(key: string, v: Json, k: string)
    ensures Lookup([Field(key, v)], k) == if k == key then Some(v) else None
  {
  }

  /** Names of equal length differ in their first letters. */
  lemma KeysDiffer()
    ensures "breakage_class" != "poc_test_scope" && "poc_implementable" != "consensus_writeup"
  {
  }

  /** What serialization writes decodes back to the target, with nothing spelled out as null. */
  lemma SerializedDecodes(t: AnalyzerTarget, replay: Json, evidence: seq<Json>)
    requires DecodesQueries(evidence, t.evidence) && (t.replay.Some? ==> DecodesReplay(replay, t.replay.value))
    ensures var j := SerializeAnalyzerTarget(t, replay, evidence);
            DecodesAnalyzerTarget(j, t) && forall k :: Get(j, k) != Some(Null)
  {
    hide SerializeAnalyzerTarget, Get, DecodesQueries;
    assert |evidence| == |t.evidence| && (evidence == [] <==> t.evidence == []) by {
      QueriesCount(evidence, t.evidence);
    }
    var j := SerializeAnalyzerTarget(t, replay, evidence);
    forall k
      ensures Get(j, k) != Some(Null)
    {
      LookupSerialized(t, replay, evidence, k);
    }
    LookupSerialized(t, replay, evidence, "consensus_breaking");
    LookupSerialized(t, replay, evidence, "breakage_class");
    LookupSerialized(t, replay, evidence, "poc_implementable");
    LookupSerialized(t, replay, evidence, "poc_test_scope");
    LookupSerialized(t, replay, evidence, "consensus_writeup");
    LookupSerialized(t, replay, evidence, "verification_replay");
    LookupSerialized(t, replay, evidence, "evidence_queries");
    KeysDiffer();
    assert j.Obj? by { SerializedIsObject(t, replay, evidence); }
  }

  lemma SerializedIsObject(t: AnalyzerTarget, replay: Json, evidence: seq<Json>)
    requires |evidence| == |t.evidence|
    ensures SerializeAnalyzerTarget(t, replay, evidence).Obj?
  {
  }

  lemma QueriesCount(items: seq<Json>, evidence: seq<EvidenceQuery>)
    requires DecodesQueries(items, evidence)
    ensures |items| == |evidence|
  {
  }

  function SerializeMergedFrom(m: MergedFrom): (j: Json) {
    Obj([Field("family_id", Str(m.familyId)), Field("target_index", Num(m.targetIndex as real))])
  }

  function SerializeContributors(from: seq<MergedFrom>): (items: seq<Json>) {
    seq(|from|, i requires 0 <= i < |from| => SerializeMergedFrom(from[i]))
  }

  lemma ContributorsDecode(from: seq<MergedFrom>)
    ensures DecodesContributors(SerializeContributors(from), from)
  {
    forall i | 0 <= i < |from|
      ensures Get(SerializeMergedFrom(from[i]), "family_id") == Some(Str(from[i].familyId))
      ensures Get(SerializeMergedFrom(from[i]), "target_index") == Some(Num(from[i].targetIndex as real))
    {
      var f, t := Field("family_id", Str(from[i].familyId)), Field("target_index", Num(from[i].targetIndex as real));
      assert [f, t] == [f] + [t] && "family_id" != "target_index";
      LookupConcat([f], [t], "family_id");
      LookupConcat([f], [t], "target_index");
    }
  }

  /** A merged target begins with its contributors and ends with its two derived fields. */
  function SerializeMergedTarget(t: MergedTarget, replay: Json, evidence: seq<Json>): (j: Json)
    requires |evidence| == |t.evidence|
  {
    SerializedIsObject(AnalyzerPart(t), replay, evidence);
    Obj(ContributorFields(t) + SerializeAnalyzerTarget(AnalyzerPart(t), replay, evidence).fields + DerivedFields(t))
  }

  function ContributorFields(t: MergedTarget): (fs: seq<Field>) {
    [Field("merged_from", Arr(SerializeContributors(t.mergedFrom)))]
    + [Field("convergence_count", Num(t.convergenceCount as real))]
  }

  function DerivedFields(t: MergedTarget): (fs: seq<Field>) {
    [Field("delivery_mode", Str(t.deliveryMode.Name()))] + [Field("bench_eligible", Bool(t.benchEligible))]
  }

  function AnalyzerPart(t: MergedTarget): (a: AnalyzerTarget) { AnalyzerTarget(t.routing, t.replay, t.evidence) }

  lemma LookupTwo(a: Field, b: Field, k: string)
    ensures Lookup([a] + [b], k) == if k == b.key then Some(b.value) else if k == a.key then Some(a.value) else None
  {
    hide Lookup;
    LookupConcat([a], [b], k);
    LookupField(a.key, a.value, k);
    LookupField(b.key, b.value, k);
  }

  lemma LookupMerged(t: MergedTarget, replay: Json, evidence: seq<Json>, k: string)
    requires |evidence| == |t.evidence|
    ensures Get(SerializeMergedTarget(t, replay, evidence), k) ==
            if k == "bench_eligible" then Some(Bool(t.benchEligible))
            else if k == "delivery_mode" then Some(Str(t.deliveryMode.Name()))
            else
              var inner := Get(SerializeAnalyzerTarget(AnalyzerPart(t), replay, evidence), k);
              if inner.Some? then inner
              else if k == "convergence_count" then Some(Num(t.convergenceCount as real))
              else if k == "merged_from" then Some(Arr(SerializeContributors(t.mergedFrom)))
              else None
  {
    hide Lookup, SerializeAnalyzerTarget, SerializeContributors;
    SerializedIsObject(AnalyzerPart(t), replay, evidence);
    var front, fs := ContributorFields(t), SerializeAnalyzerTarget(AnalyzerPart(t), replay, evidence).fields;
    LookupConcat(front, fs, k);
    LookupConcat(front + fs, DerivedFields(t), k);
    LookupTwo(front[0], front[1], k);
    LookupTwo(DerivedFields(t)[0], DerivedFields(t)[1], k);
  }

  /** The four keys a merged target adds are not keys of an analyzer target. */
  lemma AddedKeys(t: AnalyzerTarget, replay: Json, evidence: seq<Json>)
    requires |evidence| == |t.evidence|
    ensures Get(SerializeAnalyzerTarget(t, replay, evidence), "merged_from").None?
    ensures Get(SerializeAnalyzerTarget(t, replay, evidence), "convergence_count").None?
    ensures "convergence_count" != "merged_from"
  {
    hide SerializeAnalyzerTarget, Get;
    LookupSerialized(t, replay, evidence, "merged_from");
    LookupSerialized(t, replay, evidence, "convergence_count");
    assert "convergence_count"[0] == 'c' && "poc_implementable"[0] == 'p';
    assert "convergence_count"[3] == 'v' && "consensus_writeup"[3] == 's';
  }

  /** Every key of the analyzer part keeps its value in the merged document. */
  lemma MergedKeepsAnalyzerPart(t: MergedTarget, replay: Json, evidence: seq<Json>, k: string)
    requires |evidence| == |t.evidence|
    requires k in ["consensus_breaking", "breakage_class", "poc_implementable", "poc_test_scope", "consensus_writeup",
                   "verification_replay", "evidence_queries"]
    ensures Get(SerializeMergedTarget(t, replay, evidence), k) ==
            Get(SerializeAnalyzerTarget(AnalyzerPart(t), replay, evidence), k)
  {
    hide SerializeMergedTarget, SerializeAnalyzerTarget, Get;
    LookupMerged(t, replay, evidence, k);
    MergedKeysDiffer();
  }

  lemma MergedKeysDiffer()
    ensures forall k :: k in ["bench_eligible", "delivery_mode", "merged_from", "convergence_count"] ==>
              k !in ["consensus_breaking", "breakage_class", "poc_implementable", "poc_test_scope", "consensus_writeup",
                     "verification_replay", "evidence_queries"]
    ensures "delivery_mode" != "bench_eligible" && "merged_from" != "bench_eligible" && "merged_from" != "delivery_mode"
    ensures "convergence_count" !in ["bench_eligible", "delivery_mode", "merged_from"]
  {
    assert "bench_eligible"[1] == 'e' && "breakage_class"[1] == 'r' && "poc_test_scope"[0] == 'p';
    assert "convergence_count"[0] == 'c' && "poc_implementable"[0] == 'p';
    assert "convergence_count"[3] == 'v' && "consensus_writeup"[3] == 's';
  }

  /** What serialization writes decodes back to the merged target, with nothing spelled out as null. */
  lemma MergedSerializedDecodes(t: MergedTarget, replay: Json, evidence: seq<Json>)
    requires DecodesQueries(evidence, t.evidence) && (t.replay.Some? ==> DecodesReplay(replay, t.replay.value))
    ensures var j := SerializeMergedTarget(t, replay, evidence);
            DecodesMergedTarget(j, t) && forall k :: Get(j, k) != Some(Null)
  {
    hide SerializeAnalyzerTarget, SerializeMergedTarget, SerializeContributors, Get;
    hide DecodesReplay, DecodesQueries, DecodesContributors;
    QueriesCount(evidence, t.evidence);
    var j, a := SerializeMergedTarget(t, replay, evidence), SerializeAnalyzerTarget(AnalyzerPart(t), replay, evidence);
    SerializedDecodes(AnalyzerPart(t), replay, evidence);
    forall k
      ensures Get(j, k) != Some(Null)
    {
      LookupMerged(t, replay, evidence, k);
    }
    AddedFieldsDecode(t, replay, evidence);
    MergedKeepsAnalyzerPart(t, replay, evidence, "consensus_breaking");
    MergedKeepsAnalyzerPart(t, replay, evidence, "breakage_class");
    MergedKeepsAnalyzerPart(t, replay, evidence, "poc_implementable");
    MergedKeepsAnalyzerPart(t, replay, evidence, "poc_test_scope");
    MergedKeepsAnalyzerPart(t, replay, evidence, "consensus_writeup");
    MergedKeepsAnalyzerPart(t, replay, evidence, "verification_replay");
    MergedKeepsAnalyzerPart(t, replay, evidence, "evidence_queries");
  }

  lemma AddedFieldsDecode(t: MergedTarget, replay: Json, evidence: seq<Json>)
    requires |evidence| == |t.evidence|
    ensures var j := SerializeMergedTarget(t, replay, evidence);
            && j.Obj? && Get(j, "delivery_mode") == Some(Str(t.deliveryMode.Name()))
            && Get(j, "bench_eligible") == Some(Bool(t.benchEligible))
            && Get(j, "merged_from") == Some(Arr(SerializeContributors(t.mergedFrom)))
            && DecodesContributors(SerializeContributors(t.mergedFrom), t.mergedFrom)
            && Get(j, "convergence_count") == Some(Num(t.convergenceCount as real))
  {
    hide SerializeAnalyzerTarget, Get, DecodesContributors, SerializeContributors;
    AddedKeys(AnalyzerPart(t), replay, evidence);
    MergedKeysDiffer();
    LookupMerged(t, replay, evidence, "delivery_mode");
    LookupMerged(t, replay, evidence, "bench_eligible");
    LookupMerged(t, replay, evidence, "merged_from");
    LookupMerged(t, replay, evidence, "convergence_count");
    ContributorsDecode(t.mergedFrom);
  }
}
