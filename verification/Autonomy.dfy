/** The gates in front of an unattended session: the pause file, the open pull requests, the interval
    since the last session, and the circuit breaker that writes the pause file. */
module Autonomy {
  import opened Text
  import opened FixedWidth
  import opened Timestamps
  import opened SessionOrder

  datatype Settings = Settings(maxOpenPrs: nat, minIntervalHours: nat, zeroAcceptedBreaker: nat)

  datatype ArtifactKind =
    | PrOpen | PrMerged | PrClosedUnmerged | PrStale | PrForcePushed | PrBranchDeleted | IssueOpen | IssueClosed

  /** What the breaker writes: when, the length of the losing streak, and the sessions in it. */
  datatype PauseFile = PauseFile(at: Option<string>, streak: nat, ids: seq<string>)

  datatype BreakerOutcome = Preserved | WouldWrite | Wrote

  datatype Block =
    | Paused
    | TooManyOpenPrs(open: nat, limit: nat)
    | TooSoon(id: string, hours: nat, required: nat)
    | ZeroAcceptedStreak(n: nat, outcome: BreakerOutcome)

  datatype Gate = PauseFileGate | OpenPrGate | IntervalGate | BreakerGate

  function GateOf(b: Block): (g: Gate) {
    match b
    case Paused => PauseFileGate
    case TooManyOpenPrs(_, _) => OpenPrGate
    case TooSoon(_, _, _) => IntervalGate
    case ZeroAcceptedStreak(_, _) => BreakerGate
  }

  function Gates(bs: seq<Block>): (gs: seq<Gate>) { seq(|bs|, i requires 0 <= i < |bs| => GateOf(bs[i])) }

  /** `Unreadable`: the ledgers could not be read. `Panicked`: a recorded date overflowed the day count. */
  datatype Answer = Blocks(blocks: seq<Block>) | Unreadable | Panicked

  /** The operator repository: its session ledger, the last observed kind of every artifact, its pause file. */
  datatype World = World(sessions: seq<Session>, latest: map<string, ArtifactKind>, pause: Option<PauseFile>)

  // ---------- Open pull requests ----------

  ghost predicate HasPr(sessions: seq<Session>, url: string) {
    exists i, j :: 0 <= i < |sessions| && 0 <= j < |sessions[i].targets| && sessions[i].targets[j].prUrl == Some(url)
  }

  predicate Gone(latest: map<string, ArtifactKind>, url: string) {
    url in latest && (latest[url].PrMerged? || latest[url].PrClosedUnmerged?)
  }

  function TargetUrls(targets: seq<Target>): (urls: set<string>) {
    if targets == [] then {}
    else TargetUrls(targets[..|targets| - 1]) +
         (var t := targets[|targets| - 1]; if t.prUrl.Some? then {t.prUrl.value} else {})
  }

  function AllUrls(sessions: seq<Session>): (urls: set<string>) {
    if sessions == [] then {}
    else AllUrls(sessions[..|sessions| - 1]) + TargetUrls(sessions[|sessions| - 1].targets)
  }

  function OpenUrls(sessions: seq<Session>, latest: map<string, ArtifactKind>): (urls: set<string>) {
    set url | url in AllUrls(sessions) && !Gone(latest, url)
  }

  lemma {:induction false} TargetUrlsAre(targets: seq<Target>)
    ensures forall url :: url in TargetUrls(targets) <==>
              exists j :: 0 <= j < |targets| && targets[j].prUrl == Some(url)
  {
    if targets != [] {
      TargetUrlsAre(targets[..|targets| - 1]);
    }
  }

  /** A pull request is open when some session published it and nothing later saw it merged or closed. */
  lemma {:induction false} OpenUrlsAre(sessions: seq<Session>, latest: map<string, ArtifactKind>, url: string)
    ensures url in AllUrls(sessions) <==> HasPr(sessions, url)
    ensures url in OpenUrls(sessions, latest) <==> HasPr(sessions, url) && !Gone(latest, url)
  {
    if sessions != [] {
      var n := |sessions| - 1;
      OpenUrlsAre(sessions[..n], latest, url);
      TargetUrlsAre(sessions[n].targets);
      if HasPr(sessions, url) {
        var i, j :| 0 <= i < |sessions| && 0 <= j < |sessions[i].targets| && sessions[i].targets[j].prUrl == Some(url);
        assert i < n ==> sessions[..n][i] == sessions[i];
      }
      if HasPr(sessions[..n], url) {
        var i, j :| 0 <= i < n && 0 <= j < |sessions[..n][i].targets| && sessions[..n][i].targets[j].prUrl == Some(url);
        assert sessions[i] == sessions[..n][i];
      }
    }
  }

  method OpenPrUrls(sessions: seq<Session>, latest: map<string, ArtifactKind>) returns (urls: set<string>)
    ensures urls == OpenUrls(sessions, latest)
  {
    urls := {};
    for i := 0 to |sessions|
      invariant urls == AllUrls(sessions[..i])
    {
      var targets := sessions[i].targets;
      for j := 0 to |targets|
        invariant urls == AllUrls(sessions[..i]) + TargetUrls(targets[..j])
      {
        if targets[j].prUrl.Some? {
          urls := urls + {targets[j].prUrl.value};
        }
        assert targets[..j + 1][..j] == targets[..j];
      }
      assert targets[..|targets|] == targets && sessions[..i + 1][..i] == sessions[..i];
    }
    assert sessions[..|sessions|] == sessions;
    urls := set url | url in urls && !Gone(latest, url);
  }

  // ---------- The latest session ----------

  /** The end of a session if it can be read, otherwise its start. */
  function SessionTime(s: Session): (t: Parsed) {
    var finished := ParseIsoish(s.finishedAt);
    if finished.Rejected? then ParseIsoish(s.startedAt) else finished
  }

  /** The last of the sessions with the greatest time. */
  function LatestSession(sessions: seq<Session>): (r: Option<(string, nat)>) {
    if sessions == [] then None
    else
      var before := LatestSession(sessions[..|sessions| - 1]);
      var s := sessions[|sessions| - 1];
      var t := SessionTime(s);
      if !t.Instant? then before
      else if before.Some? && before.value.1 > t.secs then before
      else Some((s.id, t.secs))
  }

  ghost predicate Overflows(sessions: seq<Session>) {
    exists i :: 0 <= i < |sessions| && SessionTime(sessions[i]).Overflow?
  }

  /** Session `k` has a time, `t`; no session has a later one, and no session after it the same one. */
  ghost predicate LatestAt(sessions: seq<Session>, k: int, t: nat) {
    && 0 <= k < |sessions| && SessionTime(sessions[k]) == Instant(t)
    && (forall i :: 0 <= i < |sessions| && SessionTime(sessions[i]).Instant? ==> SessionTime(sessions[i]).secs <= t)
    && (forall i :: k < i < |sessions| && SessionTime(sessions[i]).Instant? ==> SessionTime(sessions[i]).secs < t)
  }

  lemma {:induction false} LatestSessionIs(sessions: seq<Session>)
    ensures LatestSession(sessions).None? <==> forall i :: 0 <= i < |sessions| ==> !SessionTime(sessions[i]).Instant?
    ensures LatestSession(sessions).Some? ==>
              var (id, t) := LatestSession(sessions).value;
              exists k :: LatestAt(sessions, k, t) && sessions[k].id == id
  {
    hide SessionTime;
    if sessions != [] {
      var n := |sessions| - 1;
      var init, t := sessions[..n], SessionTime(sessions[n]);
      LatestSessionIs(init);
      assert forall i :: 0 <= i < n ==> init[i] == sessions[i];
      if LatestSession(init).Some? {
        var m := LatestSession(init).value.1;
        var k :| LatestAt(init, k, m) && init[k].id == LatestSession(init).value.0;
        LatestNext(sessions, k, m);
      } else if t.Instant? {
        FirstIsLatest(sessions);
      }
    }
  }

  lemma FirstIsLatest(sessions: seq<Session>)
    requires sessions != [] && SessionTime(sessions[|sessions| - 1]).Instant?
    requires forall i :: 0 <= i < |sessions| - 1 ==> !SessionTime(sessions[i]).Instant?
    ensures LatestAt(sessions, |sessions| - 1, SessionTime(sessions[|sessions| - 1]).secs)
  {
    hide SessionTime;
  }

  lemma LatestNext(sessions: seq<Session>, k: int, m: nat)
    requires sessions != [] && LatestAt(sessions[..|sessions| - 1], k, m)
    ensures 0 <= k < |sessions| - 1 && SessionTime(sessions[k]) == Instant(m)
    ensures var n, t := |sessions| - 1, SessionTime(sessions[|sessions| - 1]);
            if t.Instant? && m <= t.secs then LatestAt(sessions, n, t.secs) else LatestAt(sessions, k, m)
  {
    hide SessionTime;
    var init := sessions[..|sessions| - 1];
    assert forall i :: 0 <= i < |init| ==> init[i] == sessions[i];
  }

  /** A session's time overflows exactly when the text it is read from has the right shape and a date out
      of bounds. */
  lemma SessionOverflowsIff(s: Session)
    ensures SessionTime(s).Overflow? <==>
            OutOfBounds(s.finishedAt) || (ParseIsoish(s.finishedAt).Rejected? && OutOfBounds(s.startedAt))
  {
    hide ParseIsoish, OutOfBounds;
    OverflowIff(s.finishedAt);
    OverflowIff(s.startedAt);
  }

  // ---------- One evaluation of all gates ----------

  function MinInterval(hours: nat): (secs: nat) { if hours * 3600 > U64_MAX then U64_MAX else hours * 3600 }

  function Elapsed(now: int, t: nat): (secs: nat) { if now >= t then now - t else 0 }

  function PauseBlocks(w: World): (bs: seq<Block>) { if w.pause.Some? then [Paused] else [] }

  function OpenPrBlocks(st: Settings, w: World): (bs: seq<Block>) {
    var open := |OpenUrls(w.sessions, w.latest)|;
    if open >= st.maxOpenPrs then [TooManyOpenPrs(open, st.maxOpenPrs)] else []
  }

  function IntervalBlocks(st: Settings, w: World, now: int): (bs: seq<Block>) {
    var last := LatestSession(w.sessions);
    if st.minIntervalHours == 0 || last.None? then []
    else
      var elapsed := Elapsed(now, last.value.1);
      if elapsed >= MinInterval(st.minIntervalHours) then []
      else [TooSoon(last.value.0, elapsed / 3600, st.minIntervalHours)]
  }

  function BreakerBlocks(st: Settings, w: World, enforce: bool): (bs: seq<Block>) {
    var n := st.zeroAcceptedBreaker;
    if !Trips(w.sessions, n) then []
    else [ZeroAcceptedStreak(n, if w.pause.Some? then Preserved else if enforce then Wrote else WouldWrite)]
  }

  function Ids(v: seq<Session>): (ids: seq<string>) { seq(|v|, i requires 0 <= i < |v| => v[i].id) }

  function Written(st: Settings, sessions: seq<Session>, now: int): (p: PauseFile) {
    var n := st.zeroAcceptedBreaker;
    PauseFile(FormatSystemTime(if now < 0 then 0 else now), n, Ids(Window(sessions, n)))
  }

  datatype Event =
    | Archive(session: Session)
    | Observe(url: string, kind: ArtifactKind)
    | Check(settings: Settings, now: int, readable: bool, enforce: bool)
    | RemovePause

  ghost function AnswerTo(w: World, e: Event): (a: Answer)
    requires e.Check?
  {
    if !e.readable then Unreadable
    else if e.settings.minIntervalHours != 0 && Overflows(w.sessions) then Panicked
    else Blocks(PauseBlocks(w) + OpenPrBlocks(e.settings, w) + IntervalBlocks(e.settings, w, e.now) +
                BreakerBlocks(e.settings, w, e.enforce))
  }

  ghost function After(w: World, e: Event): (w': World) {
    match e
    case Archive(s) => w.(sessions := w.sessions + [s])
    case Observe(url, kind) => w.(latest := w.latest[url := kind])
    case RemovePause => w.(pause := None)
    case Check(st, now, _, enforce) =>
      if AnswerTo(w, e).Blocks? && enforce && w.pause.None? && Trips(w.sessions, st.zeroAcceptedBreaker)
      then w.(pause := Some(Written(st, w.sessions, now))) else w
  }

  ghost function Run(w: World, es: seq<Event>): (w': World) {
    if es == [] then w else After(Run(w, es[..|es| - 1]), es[|es| - 1])
  }

  // ---------- The operator repository ----------

  class Operator {
    var sessions: seq<Session>
    var latest: map<string, ArtifactKind>
    var pause: Option<PauseFile>

    ghost function Contents(): World
      reads this
    {
      World(sessions, latest, pause)
    }

    constructor ()
      ensures Contents() == World([], map[], None)
    {
      sessions, latest, pause := [], map[], None;
    }

    method ArchiveSession(s: Session)
      modifies this
      ensures Contents() == After(old(Contents()), Archive(s))
      ensures sessions == old(sessions) + [s] && latest == old(latest) && pause == old(pause)
    {
      sessions := sessions + [s];
    }

    method ObserveArtifact(url: string, kind: ArtifactKind)
      modifies this
      ensures Contents() == After(old(Contents()), Observe(url, kind))
      ensures latest == old(latest)[url := kind] && sessions == old(sessions) && pause == old(pause)
    {
      latest := latest[url := kind];
    }

    method Remove()
      modifies this
      ensures Contents() == After(old(Contents()), RemovePause)
      ensures pause == None && sessions == old(sessions) && latest == old(latest)
    {
      pause := None;
    }

    method CheckGates(st: Settings, now: int, readable: bool, enforce: bool) returns (answer: Answer)
      modifies this
      ensures answer == AnswerTo(old(Contents()), Check(st, now, readable, enforce))
      ensures Contents() == After(old(Contents()), Check(st, now, readable, enforce))
    {
      hide OpenUrls, LatestSession, Trips, Written, Overflows, MinInterval;
      var blocks := PauseBlocks(World(sessions, latest, pause));
      if !readable {
        return Unreadable;
      }
      var open := OpenPrUrls(sessions, latest);
      if |open| >= st.maxOpenPrs {
        blocks := blocks + [TooManyOpenPrs(|open|, st.maxOpenPrs)];
      }
      if st.minIntervalHours != 0 {
        var panicked, last := Latest();
        if panicked {
          return Panicked;
        }
        if last.Some? && Elapsed(now, last.value.1) < MinInterval(st.minIntervalHours) {
          blocks := blocks + [TooSoon(last.value.0, Elapsed(now, last.value.1) / 3600, st.minIntervalHours)];
        }
      }
      var found := CheckBreaker(st, now, enforce);
      blocks := blocks + found;
      return Blocks(blocks);
    }

    /** One pass over the ledger, keeping the last greatest time. */
    method Latest() returns (panicked: bool, last: Option<(string, nat)>)
      ensures panicked <==> Overflows(sessions)
      ensures !panicked ==> last == LatestSession(sessions)
    {
      hide SessionTime;
      last := None;
      for i := 0 to |sessions|
        invariant last == LatestSession(sessions[..i]) && !Overflows(sessions[..i])
      {
        var t := SessionTime(sessions[i]);
        if t.Overflow? {
          return true, None;
        }
        if t.Instant? && !(last.Some? && last.value.1 > t.secs) {
          last := Some((sessions[i].id, t.secs));
        }
        assert sessions[..i + 1][..i] == sessions[..i];
      }
      assert sessions[..|sessions|] == sessions;
      return false, last;
    }

    method CheckBreaker(st: Settings, now: int, enforce: bool) returns (found: seq<Block>)
      modifies this`pause
      ensures found == BreakerBlocks(st, old(Contents()), enforce)
      ensures pause == if enforce && old(pause).None? && Trips(sessions, st.zeroAcceptedBreaker)
                       then Some(Written(st, sessions, now)) else old(pause)
    {
      var n := st.zeroAcceptedBreaker;
      if n == 0 {
        return [];
      }
      var completed := NewestFirst(Completed(sessions));
      hide NewestFirst, Completed, HasAccepted, FormatSystemTime;
      SortLength(Completed(sessions));
      assert n <= |completed| ==> Window(sessions, n) == completed[..n];
      if |completed| < n {
        return [];
      }
      var window := completed[..n];
      if exists i :: 0 <= i < |window| && HasAccepted(window[i]) {
        return [];
      }
      assert Trips(sessions, n);
      if pause.Some? {
        return [ZeroAcceptedStreak(n, Preserved)];
      }
      if !enforce {
        return [ZeroAcceptedStreak(n, WouldWrite)];
      }
      pause := Some(PauseFile(FormatSystemTime(if now < 0 then 0 else now), n, Ids(window)));
      return [ZeroAcceptedStreak(n, Wrote)];
    }
  }

  // ---------- What one check says ----------

  /** A report names the gates an enforcing check would name, in the same order, and writes nothing. */
  lemma ReportNamesTheSameGates(w: World, st: Settings, now: int, readable: bool)
    ensures var r, f := AnswerTo(w, Check(st, now, readable, false)), AnswerTo(w, Check(st, now, readable, true));
            && r.Blocks? == f.Blocks? && (r.Blocks? ==> Gates(r.blocks) == Gates(f.blocks)) && (!r.Blocks? ==> r == f)
    ensures After(w, Check(st, now, readable, false)) == w
  {
    hide Trips, OpenPrBlocks, IntervalBlocks, Overflows;
    var a := PauseBlocks(w) + OpenPrBlocks(st, w) + IntervalBlocks(st, w, now);
    GatesAppend(a, BreakerBlocks(st, w, false));
    GatesAppend(a, BreakerBlocks(st, w, true));
  }

  lemma GatesAppend(a: seq<Block>, b: seq<Block>)
    ensures Gates(a + b) == Gates(a) + Gates(b)
  {
  }

  // ---------- What every run guarantees ----------

  /** Every pause file in a run that began without one was written by an enforcing check, at a moment
      when none existed and the breaker's window held no accepted target, and has stood untouched since. */
  lemma {:induction false} PauseHasACause(w: World, es: seq<Event>) returns (i: nat)
    requires w.pause.None? && Run(w, es).pause.Some?
    ensures i < |es| && es[i].Check? && es[i].enforce
    ensures var u := Run(w, es[..i]);
            && u.pause.None? && Trips(u.sessions, es[i].settings.zeroAcceptedBreaker)
            && Run(w, es).pause == Some(Written(es[i].settings, u.sessions, es[i].now))
    ensures forall k :: i < k <= |es| ==> Run(w, es[..k]).pause == Run(w, es).pause
    ensures forall k :: i < k < |es| ==> !es[k].RemovePause?
  {
    hide Trips, Written, After;
    var n := |es| - 1;
    assert es[..|es|] == es;
    var u := Run(w, es[..n]);
    PauseSteps(u, es[n]);
    if u.pause.None? {
      i := n;
    } else {
      i := PauseHasACause(w, es[..n]);
      assert forall k :: 0 <= k <= n ==> es[..n][..k] == es[..k];
    }
  }

  lemma PauseSteps(u: World, e: Event)
    ensures u.pause.None? && After(u, e).pause.Some? ==>
              && e.Check? && e.enforce && Trips(u.sessions, e.settings.zeroAcceptedBreaker)
              && After(u, e).pause == Some(Written(e.settings, u.sessions, e.now))
    ensures u.pause.Some? && After(u, e).pause.Some? ==> !e.RemovePause? && After(u, e).pause == u.pause
  {
    hide Trips, Written, AnswerTo;
  }

  /** Until the operator removes it, a pause file is never replaced, and every check either fails to read
      the ledgers or blocks with the pause-file gate first. */
  lemma {:induction false} PauseHolds(w: World, es: seq<Event>)
    requires w.pause.Some? && forall i :: 0 <= i < |es| ==> !es[i].RemovePause?
    ensures Run(w, es).pause == w.pause
    ensures forall i :: 0 <= i < |es| && es[i].Check? ==> BlocksFirst(AnswerTo(Run(w, es[..i]), es[i]))
  {
    hide Trips, Written;
    if es != [] {
      var n := |es| - 1;
      PauseHolds(w, es[..n]);
      forall i | 0 <= i < |es| && es[i].Check?
        ensures BlocksFirst(AnswerTo(Run(w, es[..i]), es[i]))
      {
        assert i < n ==> es[..n][..i] == es[..i] && es[..n][i] == es[i];
        if i == n {
          PausedBlocksFirst(Run(w, es[..n]), es[n]);
        }
      }
    }
  }

  predicate BlocksFirst(a: Answer) { a.Blocks? ==> a.blocks != [] && GateOf(a.blocks[0]) == PauseFileGate }

  lemma PausedBlocksFirst(w: World, e: Event)
    requires w.pause.Some? && e.Check?
    ensures BlocksFirst(AnswerTo(w, e))
  {
  }

  /** Sessions only accumulate. */
  function Archived(es: seq<Event>): (v: seq<Session>) {
    if es == [] then []
    else Archived(es[..|es| - 1]) + (var e := es[|es| - 1]; if e.Archive? then [e.session] else [])
  }

  lemma {:induction false} RunArchives(w: World, es: seq<Event>)
    ensures Run(w, es).sessions == w.sessions + Archived(es)
  {
    hide AnswerTo, Trips, Written;
    if es != [] {
      RunArchives(w, es[..|es| - 1]);
    }
  }

  lemma {:induction false} RunSplit(w: World, a: seq<Event>, b: seq<Event>)
    ensures Run(w, a + b) == Run(Run(w, a), b)
  {
    hide After;
    if b == [] {
      assert a + b == a;
    } else {
      var n := |b| - 1;
      assert (a + b)[..|a + b| - 1] == a + b[..n];
      RunSplit(w, a, b[..n]);
    }
  }

  /** After an accepting session becomes the newest of the ledger, whatever else happens, the breaker stays
      quiet until `n` newer sessions without an accepted target have been archived. */
  lemma QuietAfterAccepted(w: World, es: seq<Event>, x: Session, more: seq<Event>, n: nat)
    requires !x.status.Aborted? && HasAccepted(x)
    requires forall i :: 0 <= i < |Run(w, es).sessions| ==> Less(Run(w, es).sessions[i].startedAt, x.startedAt)
    requires Trips(Run(w, es + [Archive(x)] + more).sessions, n)
    ensures Count(Archived(more), NewerFailure(x.startedAt)) >= n
  {
    hide Less, HasAccepted, Trips, Run, Count;
    var older, later := Run(w, es).sessions, Archived(more);
    RunSplit(w, es + [Archive(x)], more);
    RunSplit(w, es, [Archive(x)]);
    RunArchives(Run(w, es + [Archive(x)]), more);
    RunArchives(Run(w, es), [Archive(x)]);
    assert Archived([Archive(x)]) == [x] by { ArchivedOne(x); }
    TripNeedsNewerFailures(older, x, later, n);
  }

  lemma ArchivedOne(x: Session)
    ensures Archived([Archive(x)]) == [x]
  {
  }
}
