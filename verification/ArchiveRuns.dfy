/** What runs of the archive protocol do: which steps are possible, what each changes, how the main push is
    retried, and that an undisturbed archive succeeds. */
module ArchiveRuns {
  import opened Text
  import opened ArchiveProtocol
  import P = PushRetry

  // ---------- Single steps ----------

  /** When each step is possible. */
  lemma StepEnabledIff(s: State, c: nat, a: Action)
    requires c < |s.clones|
    ensures var me := s.clones[c];
            Step(s, c, a).Some? <==>
            match a
            case Begin(_) => me.pc.Idle?
            case CommitBranch(made) =>
              me.pc.Checked? && (if made.None? then me.pc.id in me.chains else made.value !in s.shas)
            case PushBranch(outcome) => me.pc.Committed? && (outcome.Failed? || MayPush(s, me, me.pc.id))
            case PullRebase(ok, keys) =>
              && (me.pc.Idle? || me.pc.Pushed? || me.pc.Retrying?)
              && (!ok || s.remote.main <= me.main || |keys| == |Pending(me.main, s.remote.main)|)
            case AppendLine(_) => me.pc.Rebased?
            case PushMain(outcome) =>
              (me.pc.Idle? || me.pc.PushingMain?) && (outcome.Failed? || s.remote.main <= me.main)
            case Crash => true
            case Edit(_) => me.pc.Idle?
  {
    hide LedgerContains;
  }

  /** The remote tip of the branch, if there is one, is among the commits this clone made on it. */
  predicate MayPush(s: State, me: Clone, id: Id) {
    && id in me.chains && me.chains[id] != []
    && (id !in s.remote.branches || exists i :: 0 <= i < |me.chains[id]| && me.chains[id][i] == s.remote.branches[id])
  }

  /** What a step changes outside the clone that takes it. */
  lemma StepOutside(s: State, c: nat, a: Action, t: State)
    requires Step(s, c, a) == Some(t)
    ensures |t.clones| == |s.clones| && forall d :: 0 <= d < |s.clones| && d != c ==> t.clones[d] == s.clones[d]
    ensures var me := s.clones[c];
            t.remote ==
            if a.PushMain? && !a.outcome.Failed? then Remote(me.main, s.remote.branches)
            else if a.PushBranch? && !a.outcome.Failed? then
              Remote(s.remote.main, s.remote.branches[me.pc.id := me.chains[me.pc.id][|me.chains[me.pc.id]| - 1]])
            else s.remote
  {
    hide LedgerContains, Rebase;
  }

  /** What a step changes inside: the main branch and the session branches. */
  lemma StepInside(s: State, c: nat, a: Action, t: State)
    requires Step(s, c, a) == Some(t)
    ensures var me, me' := s.clones[c], t.clones[c];
            && (a.AppendLine? ==> me.pc.Rebased? && me'.main == me.main + [Commit(a.key, Some(me.pc.line))])
            && (a.Edit? ==> me'.main == me.main + [Commit(a.key, None)])
            && (a.PullRebase? && a.ok ==> Rebase(me.main, s.remote.main, a.keys) == Some(me'.main))
            && (!a.AppendLine? && !a.Edit? && !(a.PullRebase? && a.ok) ==> me'.main == me.main)
            && (!(a.CommitBranch? && a.made.Some?) ==> me'.chains == me.chains)
            && (a.CommitBranch? && a.made.Some? ==>
                  && me.pc.Checked? && me.pc.id in me'.chains
                  && me'.chains[me.pc.id] ==
                     (if me.pc.id in me.chains then me.chains[me.pc.id] else []) + [a.made.value]
                  && (forall id :: id != me.pc.id ==> (id in me'.chains <==> id in me.chains))
                  && (forall id :: id != me.pc.id && id in me.chains ==> me'.chains[id] == me.chains[id]))
  {
    hide LedgerContains, Rebase;
  }

  /** Where a step leaves the archive. A reply that says no, or none at all, ends it, except that the main push
      is tried again up to three times. */
  lemma StepProgress(s: State, c: nat, a: Action, t: State)
    requires Step(s, c, a) == Some(t)
    ensures var pc, pc' := s.clones[c].pc, t.clones[c].pc;
            && (a.CommitBranch? ==> pc' == Committed(pc.id))
            && (a.PushBranch? && a.outcome == Ok ==>
                  pc'.Pushed? && pc'.line.id == pc.id && t.remote.branches[pc.id] == pc'.line.sha)
            && (a.PushBranch? && a.outcome != Ok ==> pc' == Idle)
            && (a.PullRebase? && !a.ok ==> pc' == Idle)
            && (a.PullRebase? && a.ok && pc.Pushed? ==> pc' == Rebased(pc.line))
            && (a.PullRebase? && a.ok && pc.Retrying? ==> pc' == PushingMain(pc.line, pc.attempt))
            && (a.AppendLine? ==> pc' == PushingMain(pc.line, 0))
            && (a.PushMain? && (a.outcome == Ok || pc.Idle? || pc.attempt >= 3) ==> pc' == Idle)
            && (a.PushMain? && a.outcome != Ok && pc.PushingMain? && pc.attempt < 3 ==>
                  pc' == Retrying(pc.line, pc.attempt + 1))
            && (a.Crash? ==> pc' == Idle)
            && (pc.Idle? && !a.Begin? ==> pc' == Idle)
  {
    hide LedgerContains, Rebase;
  }

  /** Archiving a listed session again changes nothing at all. */
  lemma ListedIsNotArchivedAgain(s: State, c: nat, id: Id)
    requires c < |s.clones| && s.clones[c].pc.Idle?
    ensures Step(s, c, Begin(id)) ==
            if Lists(s.clones[c].main, id) then Some(s)
            else Some(s.(clones := s.clones[c := s.clones[c].(pc := Checked(id))]))
  {
    hide LedgerContains, Lists;
    LedgerContainsIs(s.clones[c].main, id);
  }

  /** A rebase takes commits in order: splitting the branch splits what is replayed. */
  lemma {:induction false} PendingConcat(a: seq<Commit>, b: seq<Commit>, upstream: seq<Commit>)
    ensures Pending(a + b, upstream) == Pending(a, upstream) + Pending(b, upstream)
  {
    if b == [] {
      assert a + b == a;
    } else {
      var n := |b| - 1;
      assert (a + b)[..|a + b| - 1] == a + b[..n] && (a + b)[|a| + n] == b[n];
      PendingConcat(a, b[..n], upstream);
      PendingNext(a + b, upstream);
      PendingNext(b, upstream);
    }
  }

  /** The last commit is replayed last, unless the upstream has it. */
  lemma PendingNext(a: seq<Commit>, upstream: seq<Commit>)
    requires a != []
    ensures Pending(a, upstream) ==
            Pending(a[..|a| - 1], upstream) + if a[|a| - 1] in upstream then [] else [a[|a| - 1]]
  {
  }

  // ---------- The main push ----------

  predicate IsMainCall(a: Action) { a.PushMain? || a.PullRebase? }

  /** The calls clone `c` made for its main branch. A push whose reply was lost counts as refused. */
  function Calls(schedule: seq<Turn>, c: nat): (calls: seq<P.Call>) {
    if schedule == [] then []
    else
      var turn := schedule[|schedule| - 1];
      Calls(schedule[..|schedule| - 1], c) +
      (if turn.clone != c then []
       else if turn.action.PushMain? then [P.Push(turn.action.outcome.Ok?)]
       else if turn.action.PullRebase? then [P.PullRebase(turn.action.ok)]
       else [])
  }

  /** Clone `c` is idle at no point before the end. */
  ghost predicate BusyThroughout(u: State, c: nat, schedule: seq<Turn>) {
    forall k :: 0 <= k < |schedule| ==>
      Run(u, schedule[..k]).Some? && c < |Run(u, schedule[..k]).value.clones|
      && !Run(u, schedule[..k]).value.clones[c].pc.Idle?
  }

  ghost predicate NoCrash(c: nat, schedule: seq<Turn>) {
    forall k :: 0 <= k < |schedule| && schedule[k].clone == c ==> !schedule[k].action.Crash?
  }

  ghost predicate OnlyMainCalls(c: nat, schedule: seq<Turn>) {
    forall k :: 0 <= k < |schedule| && schedule[k].clone == c ==> IsMainCall(schedule[k].action)
  }

  /** Where the clone stands after its calls. */
  ghost predicate Stage(pc: Progress, line: Line, calls: seq<P.Call>) {
    match pc
    case PushingMain(l, a) => l == line && a <= 3 && P.Rounds(calls, a)
    case Retrying(l, a) =>
      l == line && 1 <= a <= 3 && |calls| == 2 * a - 1 && P.Alternating(calls) && !calls[2 * a - 2].ok
    case Idle => P.Alternating(calls) && P.Finished(calls, 3) && P.Pushes(calls) <= 4
    case _ => false
  }

  lemma {:induction false} StagesOfMainPush(u: State, c: nat, line: Line, rest: seq<Turn>)
    requires c < |u.clones| && u.clones[c].pc == PushingMain(line, 0)
    requires Run(u, rest).Some? && BusyThroughout(u, c, rest) && NoCrash(c, rest)
    ensures c < |Run(u, rest).value.clones| && OnlyMainCalls(c, rest)
    ensures Stage(Run(u, rest).value.clones[c].pc, line, Calls(rest, c))
  {
    hide Step, Stage, BusyThroughout, NoCrash, OnlyMainCalls;
    if rest == [] {
      FirstStage(line);
      assert OnlyMainCalls(c, rest) by { NoTurns(c); }
    } else {
      var n := |rest| - 1;
      var init, turn := rest[..n], rest[n];
      BusyBefore(u, c, rest);
      StagesOfMainPush(u, c, line, init);
      var v, t := Run(u, init).value, Run(u, rest).value;
      StepOutside(v, turn.clone, turn.action, t);
      if turn.clone == c {
        NextStage(v, c, turn.action, t, line, Calls(init, c));
      } else {
        assert Calls(init, c) + [] == Calls(init, c);
      }
      OneMoreCall(c, rest);
    }
  }

  lemma NoTurns(c: nat)
    ensures OnlyMainCalls(c, [])
  {
  }

  lemma BusyBefore(u: State, c: nat, rest: seq<Turn>)
    requires rest != [] && BusyThroughout(u, c, rest) && NoCrash(c, rest)
    ensures var n := |rest| - 1;
            && BusyThroughout(u, c, rest[..n]) && NoCrash(c, rest[..n])
            && Run(u, rest[..n]).Some? && c < |Run(u, rest[..n]).value.clones|
            && !Run(u, rest[..n]).value.clones[c].pc.Idle?
            && (rest[n].clone == c ==> !rest[n].action.Crash?)
  {
    hide Run;
    var n := |rest| - 1;
    var init := rest[..n];
    assert forall k :: 0 <= k < n ==> init[..k] == rest[..k] && init[k] == rest[k];
  }

  lemma OneMoreCall(c: nat, rest: seq<Turn>)
    requires rest != [] && OnlyMainCalls(c, rest[..|rest| - 1])
    requires rest[|rest| - 1].clone == c ==> IsMainCall(rest[|rest| - 1].action)
    ensures OnlyMainCalls(c, rest)
  {
    var init := rest[..|rest| - 1];
    assert forall k :: 0 <= k < |init| ==> init[k] == rest[k];
  }

  lemma FirstStage(line: Line)
    ensures Stage(PushingMain(line, 0), line, [])
  {
  }

  lemma NextStage(v: State, c: nat, a: Action, t: State, line: Line, calls: seq<P.Call>)
    requires c < |v.clones| && Step(v, c, a) == Some(t) && !a.Crash? && !v.clones[c].pc.Idle?
    requires Stage(v.clones[c].pc, line, calls)
    ensures IsMainCall(a) && c < |t.clones|
    ensures Stage(t.clones[c].pc, line,
                  calls + if a.PushMain? then [P.Push(a.outcome.Ok?)] else [P.PullRebase(a.ok)])
  {
    hide Rebase, LedgerContains, P.Alternating, P.Pushes;
    var pc := v.clones[c].pc;
    if pc.PushingMain? {
      PushMore(calls, pc.attempt, a.outcome.Ok?);
    } else {
      RebaseMore(calls, pc.attempt, a.ok);
    }
  }

  lemma PushMore(calls: seq<P.Call>, k: nat, ok: bool)
    requires P.Rounds(calls, k)
    ensures P.Alternating(calls + [P.Push(ok)]) && P.Pushes(calls + [P.Push(ok)]) == k + 1
  {
    var more := calls + [P.Push(ok)];
    assert 2 * k % 2 == 0;
    assert forall i :: 0 <= i < |calls| ==> more[i] == calls[i];
    P.PushesOfAlternating(more);
  }

  lemma RebaseMore(calls: seq<P.Call>, k: nat, ok: bool)
    requires 1 <= k && |calls| == 2 * k - 1 && P.Alternating(calls) && !calls[2 * k - 2].ok
    ensures P.Alternating(calls + [P.PullRebase(ok)]) && P.Pushes(calls + [P.PullRebase(ok)]) == k
  {
    var more := calls + [P.PullRebase(ok)];
    assert (2 * k - 1) % 2 == 1;
    assert forall i :: 0 <= i < |calls| ==> more[i] == calls[i];
    P.PushesOfAlternating(more);
  }

  /** Over every run, from the commit of its line until it is next idle, an archive that does not crash makes
      only main pushes and rebases, in turn; it stops exactly when a push landed, a rebase failed, or the
      fourth push was refused. */
  lemma MainPushIsBounded(s: State, c: nat, key: nat, rest: seq<Turn>)
    requires c < |s.clones| && s.clones[c].pc.Rebased? && Step(s, c, AppendLine(key)).Some?
    requires var u := Step(s, c, AppendLine(key)).value;
             Run(u, rest).Some? && BusyThroughout(u, c, rest) && NoCrash(c, rest)
    ensures OnlyMainCalls(c, rest) && P.Alternating(Calls(rest, c)) && P.Pushes(Calls(rest, c)) <= 4
    ensures var t := Run(Step(s, c, AppendLine(key)).value, rest).value;
            && c < |t.clones| && (t.clones[c].pc.Idle? <==> P.Finished(Calls(rest, c), 3))
            && Run(s, [Turn(c, AppendLine(key))] + rest) == Some(t)
  {
    hide Run, P.Alternating, P.Pushes;
    var u := Step(s, c, AppendLine(key)).value;
    var line, calls := s.clones[c].pc.line, Calls(rest, c);
    RunAfter(s, Turn(c, AppendLine(key)), rest, u);
    StagesOfMainPush(u, c, line, rest);
    var pc := Run(u, rest).value.clones[c].pc;
    if pc.PushingMain? || pc.Retrying? {
      P.PushesOfAlternating(calls);
      NotFinished(pc, line, calls);
    }
  }

  lemma NotFinished(pc: Progress, line: Line, calls: seq<P.Call>)
    requires Stage(pc, line, calls) && !pc.Idle?
    ensures !P.Finished(calls, 3) && P.Pushes(calls) <= 4
  {
    P.PushesOfAlternating(calls);
    if calls != [] {
      assert calls[|calls| - 1].Push? <==> (|calls| - 1) % 2 == 0;
    }
  }

  // ---------- Success ----------

  lemma {:induction false} RunConcat(s: State, a: seq<Turn>, b: seq<Turn>, u: State)
    requires Run(s, a) == Some(u)
    ensures Run(s, a + b) == Run(u, b)
  {
    hide Step;
    if b == [] {
      assert a + b == a;
    } else {
      var n := |b| - 1;
      assert (a + b)[..|a + b| - 1] == a + b[..n];
      RunConcat(s, a, b[..n], u);
    }
  }

  /** A refused main push, a clean rebase and an accepted push put the line on the remote. */
  lemma RetryLands(s: State, c: nat, keys: seq<nat>)
    requires Inv(s) && c < |s.clones| && s.clones[c].pc.PushingMain? && s.clones[c].pc.attempt < 3
    requires |keys| == |Pending(s.clones[c].main, s.remote.main)|
    ensures var r := Run(s, [Turn(c, PushMain(Failed)), Turn(c, PullRebase(true, keys)), Turn(c, PushMain(Ok))]);
            && r.Some? && r.value.clones[c].pc.Idle? && s.remote.main <= r.value.remote.main
            && exists m :: m in r.value.remote.main && m.line == Some(s.clones[c].pc.line)
  {
    hide Run, Inv, Rebase;
    var me := s.clones[c];
    var main := RebasedMain(s, c, keys);
    var s1 := Put(s, c, me.(pc := Retrying(me.pc.line, me.pc.attempt + 1)));
    var s2 := Put(s, c, me.(main := main, pc := PushingMain(me.pc.line, me.pc.attempt + 1)));
    assert Step(s, c, PushMain(Failed)) == Some(s1);
    assert s1.clones[c := s2.clones[c]] == s2.clones;
    assert Step(s1, c, PullRebase(true, keys)) == Some(s2);
    RunOfThree(s, Turn(c, PushMain(Failed)), Turn(c, PullRebase(true, keys)), Turn(c, PushMain(Ok)), s1, s2);
  }

  /** The main branch after a clean rebase: it extends the remote's and keeps the clone's line. */
  lemma RebasedMain(s: State, c: nat, keys: seq<nat>) returns (main: seq<Commit>)
    requires Inv(s) && c < |s.clones| && |keys| == |Pending(s.clones[c].main, s.remote.main)|
    ensures Rebase(s.clones[c].main, s.remote.main, keys) == Some(main) && s.remote.main <= main
    ensures s.clones[c].pc.PushingMain? ==> exists m :: m in main && m.line == Some(s.clones[c].pc.line)
  {
    var me := s.clones[c];
    main := Rebase(me.main, s.remote.main, keys).value;
    hide RemoteInv, ChainsInv, MainInv, Rebase, Pending;
    assert ProgressInv(s, me);
    var line := if me.pc.PushingMain? then me.pc.line else Line("", 0);
    KeptLine(me.main, s.remote.main, keys, main, line);
  }

  lemma KeptLine(main: seq<Commit>, upstream: seq<Commit>, keys: seq<nat>, r: seq<Commit>, line: Line)
    requires Rebase(main, upstream, keys) == Some(r)
    ensures upstream <= r
    ensures (exists m :: m in main && m.line == Some(line)) ==> exists m :: m in r && m.line == Some(line)
  {
    hide Pending;
    if upstream <= main {
      assert r == main;
    } else if m :| m in main && m.line == Some(line) {
      if m in upstream {
        assert m in r;
      } else {
        PendingIs(main, upstream);
        var p := Pending(main, upstream);
        var i :| 0 <= i < |p| && p[i] == m;
        assert r[|upstream| + i] == Replayed(p, keys)[i] && r[|upstream| + i] in r;
      }
    }
  }

  /** The turns of an archive nothing disturbs. */
  function WholeArchive(c: nat, id: Id, sha: Sha, keys: seq<nat>, key: nat): (schedule: seq<Turn>) {
    UpToPush(c, id, sha) + [Turn(c, PullRebase(true, keys)), Turn(c, AppendLine(key)), Turn(c, PushMain(Ok))]
  }

  /** An archive nothing disturbs ends with its branch at the new commit and its line on the remote, after
      everything that was there. */
  lemma UndisturbedArchiveSucceeds(s: State, c: nat, id: Id, sha: Sha, keys: seq<nat>, key: nat)
    requires Inv(s) && c < |s.clones| && s.clones[c].pc.Idle? && !Lists(s.clones[c].main, id) && sha !in s.shas
    requires id in s.remote.branches ==> id in s.clones[c].chains && s.remote.branches[id] in s.clones[c].chains[id]
    requires |keys| == |Pending(s.clones[c].main, s.remote.main)|
    ensures var r := Run(s, WholeArchive(c, id, sha, keys, key));
            && r.Some? && r.value.clones[c].pc.Idle? && r.value.remote.branches == s.remote.branches[id := sha]
            && s.remote.main <= r.value.remote.main && r.value.remote.main == r.value.clones[c].main
            && r.value.remote.main != []
            && r.value.remote.main[|r.value.remote.main| - 1] == Commit(key, Some(Line(id, sha)))
  {
    hide Run, Lists, Rebase, Inv;
    ArchiveUpToPush(s, c, id, sha);
    var t := AfterPush(s, c, id, sha);
    RunConcat(s, UpToPush(c, id, sha), WholeArchive(c, id, sha, keys, key)[3..], t);
    var me := t.clones[c];
    var main := RebasedMain(s, c, keys);
    var t1 := Put(t, c, me.(main := main, pc := Rebased(Line(id, sha))));
    var next := me.(main := main + [Commit(key, Some(Line(id, sha)))], pc := PushingMain(Line(id, sha), 0));
    var t2 := Put(t, c, next).(lines := t.lines + {Line(id, sha)});
    assert Step(t, c, PullRebase(true, keys)) == Some(t1);
    assert t1.clones[c := next] == t2.clones;
    assert Step(t1, c, AppendLine(key)) == Some(t2);
    var last := [Turn(c, PullRebase(true, keys)), Turn(c, AppendLine(key)), Turn(c, PushMain(Ok))];
    assert WholeArchive(c, id, sha, keys, key)[3..] == last;
    assert WholeArchive(c, id, sha, keys, key) == UpToPush(c, id, sha) + last;
    assert t.remote.main <= next.main;
    RunOfThree(t, last[0], last[1], last[2], t1, t2);
  }
}
