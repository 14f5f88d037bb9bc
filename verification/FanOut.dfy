/** The analyzer fan-out: one task per candidate family, a fixed number of permits, a join loop. */
module FanOut {
  import opened Text

  datatype Outcome = Succeeded | Errored | Panicked

  datatype Task = Waiting | Running | Done(outcome: Outcome) | Joined(outcome: Outcome)

  /** `starts` is history: how often each family's analyzer was started. */
  datatype State = State(free: nat, tasks: seq<Task>, total: nat, errors: seq<Outcome>, starts: seq<nat>)

  datatype Action = Acquire(t: nat) | Finish(t: nat, outcome: Outcome) | Join(t: nat)

  /** The number of permits for `n` families: the override or else the setting, at least one, at most `n`. */
  function Cap(override: Option<nat>, setting: nat, n: nat): (cap: nat)
    ensures n > 0 ==> 1 <= cap <= n
  {
    var wanted := if override.Some? then override.value else setting;
    var configured := if wanted < 1 then 1 else wanted;
    if configured < n then configured else n
  }

  function Distance(a: int, b: int): (d: nat) { if a < b then b - a else a - b }

  /** The cap is the number between one and the families closest to what was asked for: the override if there
      is one, else the setting. */
  lemma CapIsClosest(override: Option<nat>, setting: nat, n: nat, k: nat)
    requires 1 <= k <= n
    ensures override.Some? ==> Distance(Cap(override, setting, n), override.value) <= Distance(k, override.value)
    ensures override.None? ==> Distance(Cap(override, setting, n), setting) <= Distance(k, setting)
  {
  }

  function Start(cap: nat, n: nat): (s: State) {
    State(cap, seq(n, _ => Waiting), 0, [], seq(n, _ => 0))
  }

  function Move(s: State, t: nat, task: Task): (r: State)
    requires t < |s.tasks|
  {
    s.(tasks := s.tasks[t := task])
  }

  function Step(s: State, a: Action): (r: Option<State>)
  {
    if a.t >= |s.tasks| || a.t >= |s.starts| then None
    else
      var task := s.tasks[a.t];
      match a
      case Acquire(t) =>
        if !task.Waiting? || s.free == 0 then None
        else Some(Move(s, t, Running).(free := s.free - 1, starts := s.starts[t := s.starts[t] + 1]))
      case Finish(t, outcome) =>
        // The permit goes back when the analyzer ends, also by a panic.
        if !task.Running? then None else Some(Move(s, t, Done(outcome)).(free := s.free + 1))
      case Join(t) =>
        if !task.Done? then None
        else
          var s' := Move(s, t, Joined(task.outcome));
          Some(if task.outcome.Succeeded? then s'.(total := s.total + 1) else s'.(errors := s.errors + [task.outcome]))
  }

  function Run(s: State, schedule: seq<Action>): (r: Option<State>)
  {
    if schedule == [] then Some(s)
    else
      var before :- Run(s, schedule[..|schedule| - 1]);
      Step(before, schedule[|schedule| - 1])
  }

  /** What `run` returns once every task is joined: the first error; or, when an analysis file cannot be
      read, that error; or the total and the tally of the analyses on disk. */
  datatype Answer = Ok(total: nat, accepted: nat, rejected: nat) | Err(first: Outcome) | Unreadable

  /** An analysis on disk. */
  datatype Analysis = Accepted | Rejected

  function Result(s: State, analyses: Option<seq<Analysis>>): (r: Answer) {
    if s.errors != [] then Err(s.errors[0])
    else if analyses.None? then Unreadable
    else Ok(s.total, multiset(analyses.value)[Accepted], multiset(analyses.value)[Rejected])
  }

  /** The tally loop. */
  method Tally(analyses: seq<Analysis>) returns (accepted: nat, rejected: nat)
    ensures accepted == multiset(analyses)[Accepted] && rejected == multiset(analyses)[Rejected]
    ensures accepted + rejected == |analyses|
  {
    accepted, rejected := 0, 0;
    for i := 0 to |analyses|
      invariant accepted == multiset(analyses[..i])[Accepted] && rejected == multiset(analyses[..i])[Rejected]
      invariant accepted + rejected == i
    {
      assert analyses[..i + 1] == analyses[..i] + [analyses[i]];
      match analyses[i]
      case Accepted => accepted := accepted + 1;
      case Rejected => rejected := rejected + 1;
    }
    assert analyses[..|analyses|] == analyses;
  }

  predicate AllJoined(s: State) { forall t :: 0 <= t < |s.tasks| ==> s.tasks[t].Joined? }

  // ---------- Counting tasks ----------

  /** What is counted: permits held, successes and failures joined, steps still to take. */
  datatype Measure = Held | Won | Lost | ToGo

  function Weight(m: Measure, task: Task): (n: nat) {
    match m
    case Held => if task.Running? then 1 else 0
    case Won => if task.Joined? && task.outcome.Succeeded? then 1 else 0
    case Lost => if task.Joined? && !task.outcome.Succeeded? then 1 else 0
    case ToGo => match task case Waiting => 3 case Running => 2 case Done(_) => 1 case Joined(_) => 0
  }

  function Sum(tasks: seq<Task>, m: Measure): (n: nat) {
    if tasks == [] then 0 else Sum(tasks[..|tasks| - 1], m) + Weight(m, tasks[|tasks| - 1])
  }

  lemma {:induction false} SumUpdate(tasks: seq<Task>, t: nat, task: Task, m: Measure)
    requires t < |tasks|
    ensures Sum(tasks[t := task], m) == Sum(tasks, m) - Weight(m, tasks[t]) + Weight(m, task)
  {
    var n := |tasks| - 1;
    var more := tasks[t := task];
    if t == n {
      assert more[..n] == tasks[..n];
    } else {
      assert more[..n] == tasks[..n][t := task];
      SumUpdate(tasks[..n], t, task, m);
    }
  }

  lemma {:induction false} SumSame(tasks: seq<Task>, m: Measure, v: nat)
    requires forall t :: 0 <= t < |tasks| ==> Weight(m, tasks[t]) == v
    ensures Sum(tasks, m) == v * |tasks|
  {
    if tasks != [] {
      SumSame(tasks[..|tasks| - 1], m, v);
    }
  }

  lemma {:induction false} SumSplit(tasks: seq<Task>)
    requires forall t :: 0 <= t < |tasks| ==> tasks[t].Joined?
    ensures Sum(tasks, Won) + Sum(tasks, Lost) == |tasks|
  {
    if tasks != [] {
      SumSplit(tasks[..|tasks| - 1]);
    }
  }

  // ---------- Invariant ----------

  ghost predicate Inv(s: State, cap: nat, n: nat) {
    && |s.tasks| == |s.starts| == n
    && s.free + Sum(s.tasks, Held) == cap
    && s.total == Sum(s.tasks, Won) && |s.errors| == Sum(s.tasks, Lost)
    && (forall i :: 0 <= i < |s.errors| ==> !s.errors[i].Succeeded?)
    && (forall t :: 0 <= t < n ==> s.starts[t] == if s.tasks[t].Waiting? then 0 else 1)
  }

  lemma StartIsInv(cap: nat, n: nat)
    ensures Inv(Start(cap, n), cap, n) && Sum(Start(cap, n).tasks, ToGo) == 3 * n
  {
    var s := Start(cap, n);
    SumSame(s.tasks, Held, 0);
    SumSame(s.tasks, Won, 0);
    SumSame(s.tasks, Lost, 0);
    SumSame(s.tasks, ToGo, 3);
  }

  /** Every step keeps the invariant and brings the end one step nearer. */
  lemma StepKeepsInv(s: State, cap: nat, n: nat, a: Action, s': State)
    requires Inv(s, cap, n) && Step(s, a) == Some(s')
    ensures Inv(s', cap, n) && Sum(s'.tasks, ToGo) == Sum(s.tasks, ToGo) - 1
  {
    hide Sum;
    var task := s'.tasks[a.t];
    SumUpdate(s.tasks, a.t, task, Held);
    SumUpdate(s.tasks, a.t, task, Won);
    SumUpdate(s.tasks, a.t, task, Lost);
    SumUpdate(s.tasks, a.t, task, ToGo);
  }

  lemma {:induction false} RunKeepsInv(cap: nat, n: nat, schedule: seq<Action>)
    requires Run(Start(cap, n), schedule).Some?
    ensures var s := Run(Start(cap, n), schedule).value;
            Inv(s, cap, n) && Sum(s.tasks, ToGo) == 3 * n - |schedule|
  {
    hide Inv, Step, Sum, Start;
    if schedule == [] {
      StartIsInv(cap, n);
    } else {
      var k := |schedule| - 1;
      RunKeepsInv(cap, n, schedule[..k]);
      StepKeepsInv(Run(Start(cap, n), schedule[..k]).value, cap, n, schedule[k], Run(Start(cap, n), schedule).value);
    }
  }

  // ---------- What every schedule guarantees ----------

  /** Permits are conserved, at most `cap` families run at once, none is started twice, and no schedule is
      longer than three steps per family. */
  lemma PermitsAreConserved(cap: nat, n: nat, schedule: seq<Action>)
    requires Run(Start(cap, n), schedule).Some?
    ensures var s := Run(Start(cap, n), schedule).value;
            && s.free + Sum(s.tasks, Held) == cap
            && |s.starts| == n && (forall t :: 0 <= t < n ==> s.starts[t] <= 1)
            && |schedule| <= 3 * n
  {
    hide Run, Start, Sum;
    RunKeepsInv(cap, n, schedule);
  }

  ghost predicate Enabled(s: State, a: Action) { Step(s, a).Some? }

  /** With the cap the code computes, no schedule gets stuck: some step is possible until all are joined. */
  lemma NeverStuck(override: Option<nat>, setting: nat, n: nat, schedule: seq<Action>)
    requires Run(Start(Cap(override, setting, n), n), schedule).Some?
    ensures var s := Run(Start(Cap(override, setting, n), n), schedule).value;
            AllJoined(s) <==> forall a :: !Enabled(s, a)
  {
    hide Run, Start, Sum, Cap;
    var cap := Cap(override, setting, n);
    RunKeepsInv(cap, n, schedule);
    var s := Run(Start(cap, n), schedule).value;
    if t :| 0 <= t < n && !s.tasks[t].Joined? {
      if r :| 0 <= r < n && s.tasks[r].Running? {
        assert Enabled(s, Finish(r, Succeeded));
      } else if s.tasks[t].Done? {
        assert Enabled(s, Join(t));
      } else {
        SumSame(s.tasks, Held, 0);
        assert Enabled(s, Acquire(t));
      }
    }
  }

  /** When the join loop ends, every family ran exactly once, and the answer is `Ok` exactly when all
      succeeded and the analyses can be read, with the number of families as its total. */
  lemma OkMeansAll(cap: nat, n: nat, schedule: seq<Action>, analyses: Option<seq<Analysis>>)
    requires Run(Start(cap, n), schedule).Some? && AllJoined(Run(Start(cap, n), schedule).value)
    ensures var s := Run(Start(cap, n), schedule).value;
            var r := Result(s, analyses);
            && |s.starts| == n && |s.tasks| == n && (forall t :: 0 <= t < n ==> s.starts[t] == 1)
            && |schedule| == 3 * n
            && (r.Err? <==> exists t :: 0 <= t < n && !s.tasks[t].outcome.Succeeded?)
            && (r.Ok? <==> analyses.Some? && forall t :: 0 <= t < n ==> s.tasks[t].outcome.Succeeded?)
            && (r.Ok? ==> r.total == n && r.accepted == multiset(analyses.value)[Accepted]
                          && r.rejected == multiset(analyses.value)[Rejected])
            && (r.Err? ==> FirstFailure(cap, n, schedule, r.first))
  {
    hide Run, Start, Sum;
    RunKeepsInv(cap, n, schedule);
    var s := Run(Start(cap, n), schedule).value;
    SumSame(s.tasks, ToGo, 0);
    SumSplit(s.tasks);
    if forall t :: 0 <= t < n ==> s.tasks[t].outcome.Succeeded? {
      SumSame(s.tasks, Lost, 0);
    }
    if s.errors == [] {
      NoneLost(s.tasks);
    }
    ErrorsAreJoined(cap, n, schedule);
  }

  /** The state before turn `i`. */
  ghost predicate JoinsAt(cap: nat, n: nat, schedule: seq<Action>, i: int, outcome: Outcome) {
    && 0 <= i < |schedule| && schedule[i].Join? && Run(Start(cap, n), schedule[..i]).Some?
    && var before := Run(Start(cap, n), schedule[..i]).value;
       schedule[i].t < |before.tasks| && before.tasks[schedule[i].t] == Done(outcome)
  }

  /** `first` is the outcome of the first task to be joined that did not succeed. */
  ghost predicate FirstFailure(cap: nat, n: nat, schedule: seq<Action>, first: Outcome) {
    exists i :: JoinsAt(cap, n, schedule, i, first) && !first.Succeeded?
                && forall k, o :: 0 <= k < i && JoinsAt(cap, n, schedule, k, o) ==> o.Succeeded?
  }

  lemma {:induction false} ErrorsAreJoined(cap: nat, n: nat, schedule: seq<Action>)
    requires Run(Start(cap, n), schedule).Some?
    ensures var s := Run(Start(cap, n), schedule).value;
            && (s.errors == [] ==>
                  forall k, o :: 0 <= k < |schedule| && JoinsAt(cap, n, schedule, k, o) ==> o.Succeeded?)
            && (s.errors != [] ==> FirstFailure(cap, n, schedule, s.errors[0]))
  {
    hide Start;
    if schedule == [] {
      StartHasNoErrors(cap, n);
    } else {
      var k := |schedule| - 1;
      var init := schedule[..k];
      ErrorsAreJoined(cap, n, init);
      assert forall i :: 0 <= i < k ==> init[..i] == schedule[..i] && init[i] == schedule[i];
      var before, s := Run(Start(cap, n), init).value, Run(Start(cap, n), schedule).value;
      if before.errors != [] {
        EarlierFailure(cap, n, schedule, before.errors[0]);
        assert s.errors[0] == before.errors[0];
      } else {
        NoEarlierFailure(cap, n, schedule);
        if s.errors != [] {
          assert JoinsAt(cap, n, schedule, k, s.errors[0]);
        }
      }
    }
  }

  lemma StartHasNoErrors(cap: nat, n: nat)
    ensures Start(cap, n).errors == []
  {
  }

  lemma NoEarlierFailure(cap: nat, n: nat, schedule: seq<Action>)
    requires schedule != []
    requires var init := schedule[..|schedule| - 1];
             forall k, o :: 0 <= k < |init| && JoinsAt(cap, n, init, k, o) ==> o.Succeeded?
    ensures forall k, o :: 0 <= k < |schedule| - 1 && JoinsAt(cap, n, schedule, k, o) ==> o.Succeeded?
  {
    hide Start, Run;
    var init := schedule[..|schedule| - 1];
    forall k, o | 0 <= k < |init| && JoinsAt(cap, n, schedule, k, o)
      ensures o.Succeeded?
    {
      assert init[..k] == schedule[..k] && init[k] == schedule[k];
      assert JoinsAt(cap, n, init, k, o);
    }
  }

  lemma EarlierFailure(cap: nat, n: nat, schedule: seq<Action>, first: Outcome)
    requires schedule != [] && FirstFailure(cap, n, schedule[..|schedule| - 1], first)
    ensures FirstFailure(cap, n, schedule, first)
  {
    hide Start, Run;
    var init := schedule[..|schedule| - 1];
    assert forall i :: 0 <= i < |init| ==> init[..i] == schedule[..i] && init[i] == schedule[i];
    var i :| JoinsAt(cap, n, init, i, first) && !first.Succeeded?
             && forall k, o :: 0 <= k < i && JoinsAt(cap, n, init, k, o) ==> o.Succeeded?;
    assert JoinsAt(cap, n, schedule, i, first);
    forall k, o | 0 <= k < i && JoinsAt(cap, n, schedule, k, o)
      ensures o.Succeeded?
    {
      assert JoinsAt(cap, n, init, k, o);
    }
  }

  /** A waiting family starts whenever a permit is free; running ones finish, finished ones are joined. */
  lemma EnabledIff(s: State, t: nat, outcome: Outcome)
    requires t < |s.tasks| == |s.starts|
    ensures Enabled(s, Acquire(t)) <==> s.tasks[t].Waiting? && s.free > 0
    ensures Enabled(s, Finish(t, outcome)) <==> s.tasks[t].Running?
    ensures Enabled(s, Join(t)) <==> s.tasks[t].Done?
  {
  }

  lemma {:induction false} NoneLost(tasks: seq<Task>)
    requires Sum(tasks, Lost) == 0 && forall t :: 0 <= t < |tasks| ==> tasks[t].Joined?
    ensures forall t :: 0 <= t < |tasks| ==> tasks[t].outcome.Succeeded?
  {
    if tasks != [] {
      assert tasks == tasks[..|tasks| - 1] + [tasks[|tasks| - 1]];
      NoneLost(tasks[..|tasks| - 1]);
    }
  }
}
