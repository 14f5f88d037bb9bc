/** What runs of the rejections ledger do: every operation can complete, only recordable families are ever
    recorded, and what each operation and each query means to its caller. */
module RejectionRuns {
  import opened Text
  import opened Fingerprint
  import opened RejectionLedger

  // ---------- What an operation leaves and returns ----------

  lemma {:induction false} RecordsConcat(a: seq<Line>, b: seq<Line>)
    ensures Records(a + b) == Records(a) + Records(b)
  {
    if b == [] {
      assert a + b == a;
    } else {
      var n := |b| - 1;
      assert (a + b)[..|a + b| - 1] == a + b[..n] && (a + b)[|a| + n] == b[n];
      RecordsConcat(a, b[..n]);
    }
  }

  lemma {:induction false} RecordsOfEntries(rs: seq<Record>)
    ensures Records(Entries(rs)) == rs
  {
    if rs != [] {
      var n := |rs| - 1;
      RecordsOfEntries(rs[..n]);
      assert Entries(rs)[..n] == Entries(rs[..n]);
    }
  }

  /** An append adds its record after all others and touches no line; a load changes nothing and returns the
      records in order, broken and blank lines left out; a rewrite leaves exactly its records; a filter
      leaves exactly what it returns and counts what it dropped, or fails and changes nothing. */
  lemma OperationsAre(lines: seq<Line>, r: Record, rs: seq<Record>, f: seq<Record> -> Option<seq<Record>>)
    ensures After(lines, Append(r)) == lines + [Entry(r)] && Answer(lines, Append(r)) == Done
    ensures Records(After(lines, Append(r))) == Records(lines) + [r]
    ensures After(lines, Load) == lines && Answer(lines, Load) == Loaded(Records(lines))
    ensures Records(After(lines, Rewrite(rs))) == rs && Answer(lines, Rewrite(rs)) == Done
    ensures var before := Records(lines);
            if f(before).None? then After(lines, Filter(f)) == lines && Answer(lines, Filter(f)) == Refused
            else
              var after := f(before).value;
              && Records(After(lines, Filter(f))) == after && Answer(lines, Filter(f)).Dropped?
              && Answer(lines, Filter(f)).count == if |before| <= |after| then 0 else |before| - |after|
  {
    RecordsConcat(lines, [Entry(r)]);
    assert [Entry(r)][..0] == [] && Records([Entry(r)]) == [r];
    RecordsOfEntries(rs);
    if f(Records(lines)).Some? {
      RecordsOfEntries(f(Records(lines)).value);
    }
  }

  // ---------- What a probe returns ----------

  /** Something identifies the family: a span or a contract that is not blank. */
  ghost predicate HasIdentity(spans: seq<string>, contract: Option<string>) {
    (exists i :: 0 <= i < |spans| && !Blank(spans[i])) || (contract.Some? && !Blank(contract.value))
  }

  lemma SpecificIsIdentified(spans: seq<string>, contract: Option<string>)
    ensures SpecificEnough(spans, contract) <==> HasIdentity(spans, contract)
  {
    forall i | 0 <= i < |spans|
      ensures Trim(spans[i]) == [] <==> Blank(spans[i])
    {
      TrimEmptyIffBlank(spans[i]);
    }
    if contract.Some? { TrimEmptyIffBlank(contract.value); }
  }

  /** A probe for an identified family returns exactly the loaded records with its fingerprint; one without
      identity returns nothing. */
  lemma ProbeIs(q: Inputs, loaded: seq<Record>, r: Record)
    ensures r in Probe(q, loaded) <==>
            HasIdentity(q.spans, q.contract) && r in loaded && r.fingerprint == ComputeFingerprint(q)
  {
    hide ComputeFingerprint, SpecificEnough, HasIdentity;
    SpecificIsIdentified(q.spans, q.contract);
    MatchingIs(ComputeFingerprint(q), loaded);
  }

  /** Order and repetitions are the ledger's. */
  lemma {:induction false} ProbeKeepsOrder(q: Inputs, a: seq<Record>, b: seq<Record>)
    ensures Probe(q, a + b) == Probe(q, a) + Probe(q, b)
    ensures forall r :: |Probe(q, [r])| <= 1
  {
    hide ComputeFingerprint, SpecificEnough;
    if a == [] {
      assert a + b == b && Probe(q, []) == [];
    } else {
      assert (a + b)[1..] == a[1..] + b;
      ProbeKeepsOrder(q, a[1..], b);
    }
    forall r
      ensures |Probe(q, [r])| <= 1
    {
      assert [r][1..] == [] && Matching(ComputeFingerprint(q), []) == [];
    }
  }

  /** What the hook records: rejected and not-actionable families that have an identity, under that
      identity. */
  lemma HookRecordIs(c: Candidate, v: Verdict)
    ensures var spans := if c.spans.Some? then c.spans.value else [];
            HookRecord(c, v).Some? <==> !v.Addressed? && (c.contract.Some? || HasIdentity(spans, None))
    ensures HookRecord(c, v).Some? ==>
              var r := HookRecord(c, v).value;
              && r.familyId == c.familyId && r.lens == c.lens && r.kind == c.kind
              && r.spans == (if c.spans.Some? then c.spans.value else [])
              && r.contract == (if c.contract.None? then None
                                else Some(c.contract.value.0 + "." + c.contract.value.1 + "." + c.contract.value.2))
              && r.fingerprint == ComputeFingerprint(Inputs(r.lens, r.kind, r.spans, r.contract))
              && r.rest == (if v.RejectedSignal? then v.reason
                            else if v.note.None? then "(analyzer did not provide a reason)" else v.note.value)
  {
    hide ComputeFingerprint, SpecificEnough;
    var inputs := CandidateInputs(c);
    SpecificIsIdentified(inputs.spans, inputs.contract);
    if c.contract.Some? {
      DotIsNotBlank(c.contract.value.0, c.contract.value.1 + "." + c.contract.value.2);
      assert inputs.contract.value == c.contract.value.0 + "." + (c.contract.value.1 + "." + c.contract.value.2);
    }
  }

  lemma DotIsNotBlank(a: string, b: string)
    ensures !Blank(a + "." + b)
  {
    assert (a + "." + b)[|a|] == '.';
  }

  /** On inputs without separators, a hook record answers only queries for its own family. */
  lemma HookRecordIsOnlyForItsFamily(c: Candidate, v: Verdict, q: Inputs, loaded: seq<Record>)
    requires HookRecord(c, v).Some? && Separable(CandidateInputs(c)) && Separable(q)
    requires HookRecord(c, v).value in Probe(q, loaded)
    ensures SameFamily(CandidateInputs(c), q)
  {
    hide ComputeFingerprint, Separable, SameFamily, HasIdentity, Probe, SpecificEnough;
    ProbeIs(q, loaded, HookRecord(c, v).value);
    FingerprintIsInjective(CandidateInputs(c), q);
  }

  // ---------- Only recordable families are recorded ----------

  /** Appends under way and logged have an identity. */
  ghost predicate AllIdentified(s: State) {
    && (forall p :: 0 <= p < |s.procs| && !s.procs[p].Idle? && s.procs[p].op.Append? ==>
          Recordable(s.procs[p].op.record))
    && (forall i :: 0 <= i < |s.log| && s.log[i].op.Append? ==> Recordable(s.log[i].op.record))
  }

  ghost predicate Recordable(r: Record) { HasIdentity(r.spans, r.contract) }

  lemma StepKeepsIdentified(s: State, p: nat, a: Action, t: State)
    requires AllIdentified(s) && Step(s, p, a) == Some(t)
    ensures AllIdentified(t)
  {
    hide SpecificEnough, HasIdentity, ReadBack, View;
    if a.Request? && a.op.Append? {
      SpecificIsIdentified(a.op.record.spans, a.op.record.contract);
    }
    assert forall q :: 0 <= q < |s.procs| && q != p ==> t.procs[q] == s.procs[q];
  }

  /** Over every run from a fresh start, no record without an identity is ever appended. */
  lemma {:induction false} OnlyIdentifiedAreAppended(s: State, start: seq<Line>, schedule: seq<Turn>)
    requires Init(s, start) && Run(s, schedule).Some?
    ensures AllIdentified(Run(s, schedule).value)
  {
    hide Step, Recordable;
    if schedule != [] {
      var n := |schedule| - 1;
      OnlyIdentifiedAreAppended(s, start, schedule[..n]);
      StepKeepsIdentified(Run(s, schedule[..n]).value, schedule[n].pid, schedule[n].action, Run(s, schedule).value);
    }
  }

  /** An append without an identity is ignored. */
  lemma UnidentifiedAppendIsIgnored(s: State, p: nat, r: Record)
    requires p < |s.procs| && s.procs[p].Idle? && !HasIdentity(r.spans, r.contract)
    ensures Step(s, p, Request(Append(r))) == Some(s)
  {
    hide SpecificEnough, HasIdentity;
    SpecificIsIdentified(r.spans, r.contract);
  }

  // ---------- Locks ----------

  /** Loads share the lock; everything else needs it alone. */
  lemma AcquireIff(s: State, p: nat)
    requires p < |s.procs| && s.procs[p].Waiting?
    ensures Step(s, p, Acquire).Some? <==> s.writer.None? && (s.procs[p].op.Load? || s.readers == {})
  {
  }

  /** Whoever crashes inside loses the lock, and nothing else changes. */
  lemma CrashFreesLock(s: State, p: nat)
    requires p < |s.procs| && !s.procs[p].Idle? && !s.procs[p].TailWritten?
    ensures Step(s, p, Crash).Some?
    ensures var t := Step(s, p, Crash).value;
            && t.procs == s.procs[p := Idle] && p !in t.readers && t.writer != Some(p)
            && t.ledger == s.ledger && t.temp == s.temp && t.log == s.log
  {
  }

  /** In every run, while a process appends or rewrites, no other process is inside the lock. */
  lemma WritersAreAlone(s: State, start: seq<Line>, schedule: seq<Turn>, p: nat, q: nat)
    requires Init(s, start) && Run(s, schedule).Some?
    requires var t := Run(s, schedule).value;
             && p < |t.procs| && q < |t.procs| && p != q
             && !t.procs[p].Idle? && !t.procs[p].Waiting? && !t.procs[p].op.Load?
    ensures var t := Run(s, schedule).value; t.procs[q].Idle? || t.procs[q].Waiting?
  {
    hide Run, Init, Legal, Replay, ProcessInv;
    InitIsInv(s, start);
    RunKeepsInv(s, start, schedule);
    OthersOutside(Run(s, schedule).value, p);
  }

  /** The lock is what keeps readers from a half-written append: between its two writes the file already
      shows the record, which no completed operation accounts for. */
  lemma HalfAppendShows(s: State, start: seq<Line>, p: nat)
    requires Inv(s, start) && p < |s.procs| && s.procs[p].TailWritten?
    ensures ReadBack(s.ledger) == Replay(start, s.log) + [Entry(s.procs[p].op.record)]
  {
    hide Legal, Replay, LockInv;
    assert ProcessInv(s.procs[p], View(s.ledger), s.ledger, s.temp);
  }

  // ---------- Every operation can complete ----------

  ghost predicate AllBy(p: nat, schedule: seq<Turn>) { forall i :: 0 <= i < |schedule| ==> schedule[i].pid == p }

  /** `schedule` is a run of `p` alone from `s` to `t`. */
  ghost predicate Leads(s: State, p: nat, schedule: seq<Turn>, t: State) {
    AllBy(p, schedule) && Run(s, schedule) == Some(t)
  }

  lemma LeadsNowhere(s: State, p: nat)
    ensures Leads(s, p, [], s)
  {
  }

  lemma LeadsOn(s: State, p: nat, schedule: seq<Turn>, u: State, a: Action, t: State)
    requires Leads(s, p, schedule, u) && Step(u, p, a) == Some(t)
    ensures Leads(s, p, schedule + [Turn(p, a)], t)
  {
    hide Step;
    assert (schedule + [Turn(p, a)])[..|schedule|] == schedule;
  }

  predicate Free(s: State) { s.readers == {} && s.writer == None }

  /** Process `p`, inside the lock, has done its work and logged it. */
  ghost predicate AboutToLeave(s: State, p: nat, op: Op, t: State) {
    && p < |t.procs| == |s.procs| && t.procs[p].Leaving? && t.procs[p].op == op
    && t.readers <= {p} && (t.writer == None || t.writer == Some(p))
    && |t.log| == |s.log| + 1 && t.log[..|s.log|] == s.log && t.log[|s.log|].pid == p && t.log[|s.log|].op == op
  }

  /** Process `p` has entered with nobody else inside. */
  lemma Enter(s: State, p: nat, op: Op) returns (schedule: seq<Turn>, t: State)
    requires p < |s.procs| && s.procs[p].Idle? && Free(s)
    requires op.Append? ==> SpecificEnough(op.record.spans, op.record.contract)
    ensures Leads(s, p, schedule, t)
    ensures t.procs == s.procs[p := Entered(op)] && t.ledger == s.ledger && t.temp == s.temp && t.log == s.log
    ensures t.readers <= {p} && (t.writer == None || t.writer == Some(p))
  {
    hide Leads, SpecificEnough;
    LeadsNowhere(s, p);
    var u := Step(s, p, Request(op)).value;
    LeadsOn(s, p, [], s, Request(op), u);
    t := Step(u, p, Acquire).value;
    LeadsOn(s, p, [] + [Turn(p, Request(op))], u, Acquire, t);
    schedule := [] + [Turn(p, Request(op))] + [Turn(p, Acquire)];
  }

  lemma AppendWork(s: State, p: nat, op: Op, schedule0: seq<Turn>, u: State)
      returns (schedule: seq<Turn>, t: State)
    requires op.Append? && p < |s.procs| == |u.procs| && u.procs[p] == Entered(op) && u.log == s.log
    requires Leads(s, p, schedule0, u) && u.readers <= {p} && (u.writer == None || u.writer == Some(p))
    ensures Leads(s, p, schedule, t) && AboutToLeave(s, p, op, t)
  {
    hide Leads;
    var u1 := Step(u, p, OpenForAppend).value;
    LeadsOn(s, p, schedule0, u, OpenForAppend, u1);
    var u2 := Step(u1, p, WriteBody).value;
    var k1 := schedule0 + [Turn(p, OpenForAppend)];
    LeadsOn(s, p, k1, u1, WriteBody, u2);
    t := Step(u2, p, WriteNewline).value;
    var k2 := k1 + [Turn(p, WriteBody)];
    LeadsOn(s, p, k2, u2, WriteNewline, t);
    schedule := k2 + [Turn(p, WriteNewline)];
  }

  /** Reading line after line to the end of the file. */
  lemma {:induction false} ReadToEnd(s: State, p: nat, schedule0: seq<Turn>, u: State)
      returns (schedule: seq<Turn>, t: State)
    requires Leads(s, p, schedule0, u) && p < |u.procs| && u.procs[p].Reading?
    requires u.procs[p].next <= |ReadBack(u.ledger)|
    ensures Leads(s, p, schedule, t) && p < |t.procs| && t.procs[p].Reading? && t.procs[p].op == u.procs[p].op
    ensures t.procs[p].next == |ReadBack(t.ledger)| && t == u.(procs := t.procs) && |t.procs| == |u.procs|
    decreases |ReadBack(u.ledger)| - u.procs[p].next
  {
    hide Leads, ReadBack;
    if u.procs[p].next == |ReadBack(u.ledger)| {
      schedule, t := schedule0, u;
    } else {
      var v := Step(u, p, ReadLine).value;
      LeadsOn(s, p, schedule0, u, ReadLine, v);
      schedule, t := ReadToEnd(s, p, schedule0 + [Turn(p, ReadLine)], v);
    }
  }

  /** Writing record after record to the temporary file, and renaming it. */
  lemma {:induction false} WriteToEnd(s: State, p: nat, schedule0: seq<Turn>, u: State)
      returns (schedule: seq<Turn>, t: State)
    requires Leads(s, p, schedule0, u) && p < |u.procs| == |s.procs| && u.procs[p].Writing? && u.log == s.log
    requires u.temp.File? && u.procs[p].next <= |u.procs[p].out|
    requires u.readers <= {p} && (u.writer == None || u.writer == Some(p))
    ensures Leads(s, p, schedule, t) && AboutToLeave(s, p, u.procs[p].op, t)
    decreases |u.procs[p].out| - u.procs[p].next
  {
    hide Leads;
    if u.procs[p].next == |u.procs[p].out| {
      t := Step(u, p, Rename).value;
      LeadsOn(s, p, schedule0, u, Rename, t);
      schedule := schedule0 + [Turn(p, Rename)];
    } else {
      var v := Step(u, p, WriteTemp).value;
      LeadsOn(s, p, schedule0, u, WriteTemp, v);
      schedule, t := WriteToEnd(s, p, schedule0 + [Turn(p, WriteTemp)], v);
    }
  }

  lemma ReadWork(s: State, p: nat, op: Op, schedule0: seq<Turn>, u: State) returns (schedule: seq<Turn>, t: State)
    requires (op.Load? || op.Filter?) && p < |s.procs| == |u.procs| && u.procs[p] == Entered(op) && u.log == s.log
    requires Leads(s, p, schedule0, u) && u.readers <= {p} && (u.writer == None || u.writer == Some(p))
    ensures Leads(s, p, schedule, t) && AboutToLeave(s, p, op, t)
  {
    hide Leads, ReadBack;
    var u1 := Step(u, p, OpenForRead).value;
    LeadsOn(s, p, schedule0, u, OpenForRead, u1);
    var k2, u2 := ReadToEnd(s, p, schedule0 + [Turn(p, OpenForRead)], u1);
    var u3 := Step(u2, p, EndOfFile).value;
    LeadsOn(s, p, k2, u2, EndOfFile, u3);
    var k3 := k2 + [Turn(p, EndOfFile)];
    if u3.procs[p].Leaving? {
      schedule, t := k3, u3;
    } else {
      var u4 := Step(u3, p, OpenTemp).value;
      LeadsOn(s, p, k3, u3, OpenTemp, u4);
      schedule, t := WriteToEnd(s, p, k3 + [Turn(p, OpenTemp)], u4);
    }
  }

  lemma RewriteWork(s: State, p: nat, op: Op, schedule0: seq<Turn>, u: State) returns (schedule: seq<Turn>, t: State)
    requires op.Rewrite? && p < |s.procs| == |u.procs| && u.procs[p] == Entered(op) && u.log == s.log
    requires Leads(s, p, schedule0, u) && u.readers <= {p} && (u.writer == None || u.writer == Some(p))
    ensures Leads(s, p, schedule, t) && AboutToLeave(s, p, op, t)
  {
    hide Leads;
    var u1 := Step(u, p, OpenTemp).value;
    LeadsOn(s, p, schedule0, u, OpenTemp, u1);
    schedule, t := WriteToEnd(s, p, schedule0 + [Turn(p, OpenTemp)], u1);
  }

  /** From every reachable state with the lock free, an idle process can carry out any operation alone, if it
      passes the append gate: it ends idle with the lock free again, the operation logged, and answered and
      performed as the atomic ledger would. */
  lemma OperationCanComplete(s: State, start: seq<Line>, p: nat, op: Op) returns (schedule: seq<Turn>, t: State)
    requires Inv(s, start) && p < |s.procs| && s.procs[p].Idle? && Free(s)
    requires op.Append? ==> HasIdentity(op.record.spans, op.record.contract)
    ensures Leads(s, p, schedule, t) && p < |t.procs| && t.procs[p].Idle? && Free(t)
    ensures t.log == s.log + [Event(p, op, Answer(View(s.ledger), op))]
    ensures View(t.ledger) == After(View(s.ledger), op)
  {
    hide Leads, SpecificEnough, HasIdentity, LockInv, ProcessInv, Legal, Replay, After, Answer, Step;
    if op.Append? { SpecificIsIdentified(op.record.spans, op.record.contract); }
    var k1, u1 := Enter(s, p, op);
    var k2, u2;
    if op.Append? {
      k2, u2 := AppendWork(s, p, op, k1, u1);
    } else if op.Rewrite? {
      k2, u2 := RewriteWork(s, p, op, k1, u1);
    } else {
      k2, u2 := ReadWork(s, p, op, k1, u1);
    }
    schedule, t := Leave(s, p, op, k2, u2);
    CompletedAnswer(s, start, p, op, schedule, t);
  }

  lemma Leave(s: State, p: nat, op: Op, schedule0: seq<Turn>, u: State) returns (schedule: seq<Turn>, t: State)
    requires Leads(s, p, schedule0, u) && AboutToLeave(s, p, op, u)
    ensures Leads(s, p, schedule, t) && p < |t.procs| && t.procs[p].Idle? && Free(t) && t.log == u.log
  {
    hide Leads;
    t := Step(u, p, Release).value;
    LeadsOn(s, p, schedule0, u, Release, t);
    schedule := schedule0 + [Turn(p, Release)];
  }

  lemma CompletedAnswer(s: State, start: seq<Line>, p: nat, op: Op, schedule: seq<Turn>, t: State)
    requires Inv(s, start) && Leads(s, p, schedule, t)
    requires |t.log| == |s.log| + 1 && t.log[..|s.log|] == s.log
    requires t.log[|s.log|].pid == p && t.log[|s.log|].op == op
    ensures t.log == s.log + [Event(p, op, Answer(View(s.ledger), op))]
    ensures View(t.ledger) == After(View(s.ledger), op)
  {
    hide Run, Step, LockInv, ProcessInv, After, Answer, View;
    RunKeepsInv(s, start, schedule);
    assert t.log[|s.log|].result == Answer(Replay(start, t.log[..|s.log|]), op);
    assert t.log == s.log + [t.log[|s.log|]];
    ReplayNext(start, s.log, t.log[|s.log|]);
  }
}
