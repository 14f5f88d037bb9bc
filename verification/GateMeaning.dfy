/** What a check of the gates says, spelled out on the ledgers: which blocks it reports, when it fails, and
    exactly when the breaker pauses the operator. */
module GateMeaning {
  import opened Text
  import opened FixedWidth
  import opened Timestamps
  import opened SessionOrder
  import opened Autonomy

  // ---------- The ledgers' words ----------

  ghost predicate Accepting(s: Session) { exists j :: 0 <= j < |s.targets| && s.targets[j].status == TargetAccepted }

  /** The session ended at `t`; if its end cannot be read, it started then. */
  ghost predicate EndsAt(s: Session, t: nat) {
    || ParseIsoish(s.finishedAt) == Instant(t)
    || (ParseIsoish(s.finishedAt) == Rejected && ParseIsoish(s.startedAt) == Instant(t))
  }

  /** The text its time is read from has the right shape and a date out of bounds. */
  ghost predicate BadDate(s: Session) {
    OutOfBounds(s.finishedAt) || (ParseIsoish(s.finishedAt) == Rejected && OutOfBounds(s.startedAt))
  }

  /** Session `k` ended last, at `t`; of several that did, it is the last of the ledger. */
  ghost predicate EndsLast(sessions: seq<Session>, k: int, t: nat) {
    && 0 <= k < |sessions| && EndsAt(sessions[k], t)
    && forall i, u: nat :: 0 <= i < |sessions| && EndsAt(sessions[i], u) ==> u <= t && (i > k ==> u < t)
  }

  /** The distinct pull requests that sessions published and nobody last saw merged or closed. */
  ghost predicate AreOpen(w: World, urls: set<string>) {
    forall url :: url in urls <==>
      && (exists i, j :: 0 <= i < |w.sessions| && 0 <= j < |w.sessions[i].targets|
                         && w.sessions[i].targets[j].prUrl == Some(url))
      && !(url in w.latest && (w.latest[url] == PrMerged || w.latest[url] == PrClosedUnmerged))
  }

  /** At least `n` completed sessions, and `n` of them ahead of every accepting one. */
  ghost predicate LosingStreak(sessions: seq<Session>, n: nat) {
    var c := Completed(sessions);
    0 < n <= |c| && forall i :: 0 <= i < |c| && Accepting(c[i]) ==> Rank(c, i) >= n
  }

  ghost predicate Younger(now: int, t: nat, hours: nat) {
    now - t < if 3600 * hours > 0xFFFF_FFFF_FFFF_FFFF then 0xFFFF_FFFF_FFFF_FFFF else 3600 * hours
  }

  lemma SessionTimeIs(s: Session, t: nat)
    ensures SessionTime(s) == Instant(t) <==> EndsAt(s, t)
    ensures SessionTime(s).Overflow? <==> BadDate(s)
  {
    hide ParseIsoish, OutOfBounds;
    SessionOverflowsIff(s);
    OverflowIff(s.finishedAt);
    OverflowIff(s.startedAt);
  }

  lemma LatestIs(sessions: seq<Session>, k: int, t: nat)
    ensures LatestAt(sessions, k, t) <==> EndsLast(sessions, k, t)
  {
    hide SessionTime, EndsAt;
    forall i, u: nat | 0 <= i < |sessions|
      ensures SessionTime(sessions[i]) == Instant(u) <==> EndsAt(sessions[i], u)
    {
      SessionTimeIs(sessions[i], u);
    }
    if EndsLast(sessions, k, t) {
      forall i | 0 <= i < |sessions| && SessionTime(sessions[i]).Instant?
        ensures SessionTime(sessions[i]).secs <= t && (i > k ==> SessionTime(sessions[i]).secs < t)
      {
        assert EndsAt(sessions[i], SessionTime(sessions[i]).secs);
      }
    }
    if LatestAt(sessions, k, t) {
      forall i, u: nat | 0 <= i < |sessions| && EndsAt(sessions[i], u)
        ensures u <= t && (i > k ==> u < t)
      {
        assert SessionTime(sessions[i]) == Instant(u);
      }
    }
  }

  lemma OpenUrlsAreOpen(w: World)
    ensures AreOpen(w, OpenUrls(w.sessions, w.latest))
  {
    hide AllUrls;
    forall url
      ensures url in OpenUrls(w.sessions, w.latest) <==> HasPr(w.sessions, url) && !Gone(w.latest, url)
    {
      OpenUrlsAre(w.sessions, w.latest, url);
    }
  }

  lemma OpenSetIsUnique(w: World, a: set<string>, b: set<string>)
    requires AreOpen(w, a) && AreOpen(w, b)
    ensures a == b
  {
  }

  lemma TripsMeans(sessions: seq<Session>, n: nat)
    ensures Trips(sessions, n) <==> LosingStreak(sessions, n)
  {
    hide Trips, Completed, Rank;
    TripsByRank(sessions, n);
    assert forall s :: HasAccepted(s) <==> Accepting(s);
  }

  // ---------- Which answer ----------

  /** A check fails exactly when it cannot read the ledgers, and stops exactly when the interval gate is on
      and some session's date is out of bounds. */
  lemma AnswerKind(w: World, e: Event)
    requires e.Check?
    ensures AnswerTo(w, e) == Unreadable <==> !e.readable
    ensures AnswerTo(w, e) == Panicked <==>
            && e.readable && e.settings.minIntervalHours != 0
            && exists i :: 0 <= i < |w.sessions| && BadDate(w.sessions[i])
  {
    hide SessionTime, BadDate, OpenPrBlocks, IntervalBlocks, BreakerBlocks, PauseBlocks;
    forall i | 0 <= i < |w.sessions|
      ensures SessionTime(w.sessions[i]).Overflow? <==> BadDate(w.sessions[i])
    {
      SessionTimeIs(w.sessions[i], 0);
    }
  }

  // ---------- Which blocks ----------

  /** Exactly what makes each block part of the answer. */
  ghost predicate Deserved(w: World, e: Event, b: Block)
    requires e.Check?
  {
    match b
    case Paused => w.pause != None
    case TooManyOpenPrs(open, limit) =>
      limit == e.settings.maxOpenPrs && open >= limit && exists urls :: AreOpen(w, urls) && |urls| == open
    case TooSoon(id, hours, required) =>
      && required == e.settings.minIntervalHours && required != 0
      && exists k, t :: EndsLast(w.sessions, k, t) && w.sessions[k].id == id && Younger(e.now, t, required)
                        && hours == (if e.now < t then 0 else (e.now - t) / 3600)
    case ZeroAcceptedStreak(n, outcome) =>
      && n == e.settings.zeroAcceptedBreaker && LosingStreak(w.sessions, n)
      && outcome == if w.pause != None then Preserved else if e.enforce then Wrote else WouldWrite
  }

  lemma OpenPrDeserved(w: World, e: Event, b: Block)
    requires e.Check? && b.TooManyOpenPrs?
    ensures b in OpenPrBlocks(e.settings, w) <==> Deserved(w, e, b)
  {
    hide OpenUrls, AreOpen;
    var urls := OpenUrls(w.sessions, w.latest);
    OpenUrlsAreOpen(w);
    forall s | AreOpen(w, s)
      ensures s == urls
    {
      OpenSetIsUnique(w, s, urls);
    }
  }

  lemma IntervalDeserved(w: World, e: Event, b: Block)
    requires e.Check? && b.TooSoon?
    ensures b in IntervalBlocks(e.settings, w, e.now) <==> Deserved(w, e, b)
  {
    hide SessionTime, LatestSession, EndsLast;
    var last := LatestSession(w.sessions);
    if last.Some? {
      var k := LatestEnds(w.sessions);
      forall k', t: nat | EndsLast(w.sessions, k', t)
        ensures k' == k && t == last.value.1
      {
        LastIsUnique(w.sessions, k, last.value.1, k', t);
      }
      assert EndsLast(w.sessions, k, last.value.1);
    } else {
      NobodyEnds(w.sessions);
    }
  }

  lemma LatestEnds(sessions: seq<Session>) returns (k: int)
    requires LatestSession(sessions).Some?
    ensures 0 <= k < |sessions| && EndsLast(sessions, k, LatestSession(sessions).value.1)
    ensures sessions[k].id == LatestSession(sessions).value.0
  {
    hide SessionTime, LatestSession, EndsLast;
    LatestSessionIs(sessions);
    var (id, t) := LatestSession(sessions).value;
    k :| LatestAt(sessions, k, t) && sessions[k].id == id;
    LatestIs(sessions, k, t);
  }

  lemma LastIsUnique(sessions: seq<Session>, k: int, t: nat, k': int, t': nat)
    requires EndsLast(sessions, k, t) && EndsLast(sessions, k', t')
    ensures k == k' && t == t'
  {
    hide EndsAt;
  }

  lemma NobodyEnds(sessions: seq<Session>)
    requires LatestSession(sessions).None?
    ensures forall k, t: nat :: !EndsLast(sessions, k, t)
  {
    hide SessionTime, EndsAt;
    LatestSessionIs(sessions);
    forall k, t: nat | 0 <= k < |sessions|
      ensures !EndsAt(sessions[k], t)
    {
      SessionTimeIs(sessions[k], t);
    }
  }

  lemma BreakerDeserved(w: World, e: Event, b: Block)
    requires e.Check? && b.ZeroAcceptedStreak?
    ensures b in BreakerBlocks(e.settings, w, e.enforce) <==> Deserved(w, e, b)
  {
    hide Trips, LosingStreak;
    TripsMeans(w.sessions, e.settings.zeroAcceptedBreaker);
  }

  /** A check that answers reports exactly the blocks its ledgers deserve. */
  lemma BlocksAre(w: World, e: Event, b: Block)
    requires e.Check? && AnswerTo(w, e).Blocks?
    ensures b in AnswerTo(w, e).blocks <==> Deserved(w, e, b)
  {
    hide Overflows, LosingStreak, AreOpen, EndsLast, Younger;
    var x, y := PauseBlocks(w), OpenPrBlocks(e.settings, w);
    var z, u := IntervalBlocks(e.settings, w, e.now), BreakerBlocks(e.settings, w, e.enforce);
    InOneOfFour(x, y, z, u, b);
    KindsOf(w, e);
    hide PauseBlocks, OpenPrBlocks, IntervalBlocks, BreakerBlocks;
    match b
    case Paused => PauseDeserved(w, e);
    case TooManyOpenPrs(_, _) => OpenPrDeserved(w, e, b);
    case TooSoon(_, _, _) => IntervalDeserved(w, e, b);
    case ZeroAcceptedStreak(_, _) => BreakerDeserved(w, e, b);
  }

  lemma PauseDeserved(w: World, e: Event)
    requires e.Check?
    ensures Paused in PauseBlocks(w) <==> Deserved(w, e, Paused)
  {
  }

  lemma InOneOfFour(a: seq<Block>, b: seq<Block>, c: seq<Block>, d: seq<Block>, x: Block)
    ensures x in a + b + c + d <==> x in a || x in b || x in c || x in d
  {
  }

  /** Each gate contributes at most one block, of its own kind. */
  lemma KindsOf(w: World, e: Event)
    requires e.Check?
    ensures |PauseBlocks(w)| <= 1 && forall b :: b in PauseBlocks(w) ==> b.Paused?
    ensures |OpenPrBlocks(e.settings, w)| <= 1 && forall b :: b in OpenPrBlocks(e.settings, w) ==> b.TooManyOpenPrs?
    ensures |IntervalBlocks(e.settings, w, e.now)| <= 1
    ensures forall b :: b in IntervalBlocks(e.settings, w, e.now) ==> b.TooSoon?
    ensures |BreakerBlocks(e.settings, w, e.enforce)| <= 1
    ensures forall b :: b in BreakerBlocks(e.settings, w, e.enforce) ==> b.ZeroAcceptedStreak?
  {
    hide OpenUrls, LatestSession, MinInterval, Elapsed, Trips;
  }

  function Place(b: Block): (n: nat) {
    match b
    case Paused => 0
    case TooManyOpenPrs(_, _) => 1
    case TooSoon(_, _, _) => 2
    case ZeroAcceptedStreak(_, _) => 3
  }

  /** Blocks of the gates `lo` to `hi`, in order, no gate twice. */
  ghost predicate Placed(bs: seq<Block>, lo: nat, hi: nat) {
    && (forall i :: 0 <= i < |bs| ==> lo <= Place(bs[i]) < hi)
    && (forall i, j :: 0 <= i < j < |bs| ==> Place(bs[i]) < Place(bs[j]))
  }

  lemma PlacedConcat(a: seq<Block>, b: seq<Block>, lo: nat, mid: nat, hi: nat)
    requires lo <= mid <= hi && Placed(a, lo, mid) && Placed(b, mid, hi)
    ensures Placed(a + b, lo, hi)
  {
    hide Place;
    var r := a + b;
    forall i, j | 0 <= i < j < |r|
      ensures Place(r[i]) < Place(r[j])
    {
      if i < |a| <= j {
        assert r[i] == a[i] && r[j] == b[j - |a|];
      }
    }
  }

  /** They come in the order of the gates, no gate twice. */
  lemma BlocksAreInOrder(w: World, e: Event)
    requires e.Check? && AnswerTo(w, e).Blocks?
    ensures Placed(AnswerTo(w, e).blocks, 0, 4)
  {
    hide Overflows;
    var x, y := PauseBlocks(w), OpenPrBlocks(e.settings, w);
    var z, u := IntervalBlocks(e.settings, w, e.now), BreakerBlocks(e.settings, w, e.enforce);
    KindsOf(w, e);
    hide PauseBlocks, OpenPrBlocks, IntervalBlocks, BreakerBlocks;
    OneIsPlaced(x, 0);
    OneIsPlaced(y, 1);
    OneIsPlaced(z, 2);
    OneIsPlaced(u, 3);
    PlacedConcat(x, y, 0, 1, 2);
    PlacedConcat(x + y, z, 0, 2, 3);
    PlacedConcat(x + y + z, u, 0, 3, 4);
  }

  lemma OneIsPlaced(bs: seq<Block>, n: nat)
    requires |bs| <= 1 && forall b :: b in bs ==> Place(b) == n
    ensures Placed(bs, n, n + 1)
  {
    assert forall i :: 0 <= i < |bs| ==> bs[i] in bs;
  }

  // ---------- The pause file ----------

  /** A step creates a pause file exactly when it is an enforcing check that could read its ledgers and was
      not stopped by a bad date, in a losing streak. */
  lemma PauseAppearsIff(w: World, e: Event)
    requires w.pause.None?
    ensures After(w, e).pause.Some? <==>
            && e.Check? && e.enforce && e.readable
            && (e.settings.minIntervalHours == 0 || forall i :: 0 <= i < |w.sessions| ==> !BadDate(w.sessions[i]))
            && LosingStreak(w.sessions, e.settings.zeroAcceptedBreaker)
  {
    hide Trips, LosingStreak, Written, BadDate;
    if e.Check? {
      hide AnswerTo;
      AnswerKind(w, e);
      TripsMeans(w.sessions, e.settings.zeroAcceptedBreaker);
    }
  }

  /** What it says: the moment, the length of the streak, and the ids of its sessions, newest first. */
  lemma WrittenIs(st: Settings, sessions: seq<Session>, now: int, i: nat)
    requires LosingStreak(sessions, st.zeroAcceptedBreaker)
    ensures 0 <= now < YEAR_10000 ==> Written(st, sessions, now).at == Some(Stamp(now))
    ensures now < 0 ==> Written(st, sessions, now).at == Some(Stamp(0))
    ensures Written(st, sessions, now).streak == st.zeroAcceptedBreaker == |Written(st, sessions, now).ids|
    ensures var c := Completed(sessions);
            i < |c| && Rank(c, i) < st.zeroAcceptedBreaker ==> Written(st, sessions, now).ids[Rank(c, i)] == c[i].id
  {
    hide Completed, Rank, FormatSystemTime, Stamp, Window;
    if 0 <= now < YEAR_10000 { PrintersAgree(now); }
    PrintersAgree(0);
    WindowIs(sessions, st.zeroAcceptedBreaker, i);
  }

  lemma WindowIs(sessions: seq<Session>, n: nat, i: nat)
    requires LosingStreak(sessions, n)
    ensures |Window(sessions, n)| == n
    ensures var c := Completed(sessions); i < |c| && Rank(c, i) < n ==> Window(sessions, n)[Rank(c, i)] == c[i]
  {
    hide Completed, Rank, NewestFirst, Accepting;
    var c := Completed(sessions);
    SortLength(c);
    if i < |c| {
      SortIsByRank(c, i);
    }
  }
}
