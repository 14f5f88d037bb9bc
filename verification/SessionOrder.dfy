/** The order in which the circuit breaker looks at archived sessions. */
module SessionOrder {
  import opened Text
  import opened Calendar
  import opened Timestamps
  import opened SessionIds

  datatype SessionStatus = Succeeded | Failed | Aborted

  datatype TargetStatus = TargetAccepted | TargetRejected | TargetAborted | TargetFailed

  datatype Target = Target(status: TargetStatus, prUrl: Option<string>)

  datatype Session = Session(id: string, startedAt: string, finishedAt: string, status: SessionStatus,
                             targets: seq<Target>)

  predicate HasAccepted(s: Session) { exists i :: 0 <= i < |s.targets| && s.targets[i].status.TargetAccepted? }

  /** The sessions the breaker considers. */
  function Completed(sessions: seq<Session>): (v: seq<Session>) {
    if sessions == [] then []
    else (if sessions[0].status.Aborted? then [] else [sessions[0]]) + Completed(sessions[1..])
  }

  // ---------- Stable sort by `started_at`, newest first ----------

  function Place(x: Session, v: seq<Session>): (r: seq<Session>) {
    if v == [] || !Less(x.startedAt, v[0].startedAt) then [x] + v else [v[0]] + Place(x, v[1..])
  }

  function NewestFirst(v: seq<Session>): (r: seq<Session>) {
    if v == [] then [] else Place(v[0], NewestFirst(v[1..]))
  }

  ghost predicate Descending(v: seq<Session>) {
    forall i, j :: 0 <= i < j < |v| ==> !Less(v[i].startedAt, v[j].startedAt)
  }

  lemma {:induction false} NotLessIsTransitive(a: string, b: string, c: string)
    requires !Less(a, b) && !Less(b, c)
    ensures !Less(a, c)
  {
    hide Less;
    LessIsTotal(a, b);
    LessIsTotal(b, c);
    LessIsTotal(a, c);
    if Less(a, c) {
      if a == b {
      } else if b == c {
      } else {
        LessIsTransitive(c, b, a);
      }
    }
  }

  /** Where `Place` puts its element: after the strictly newer ones. */
  lemma {:induction false} PlaceIs(x: Session, v: seq<Session>) returns (k: nat)
    requires Descending(v)
    ensures k <= |v| && Place(x, v) == v[..k] + [x] + v[k..]
    ensures forall i :: 0 <= i < |v| ==> (i < k <==> Less(x.startedAt, v[i].startedAt))
    ensures Descending(Place(x, v))
  {
    hide Less;
    if v == [] || !Less(x.startedAt, v[0].startedAt) {
      k := 0;
      assert Place(x, v) == v[..0] + [x] + v[0..];
      forall i | 0 <= i < |v|
        ensures !Less(x.startedAt, v[i].startedAt)
      {
        if i > 0 {
          NotLessIsTransitive(x.startedAt, v[0].startedAt, v[i].startedAt);
        }
      }
    } else {
      var tail := v[1..];
      var j := PlaceIs(x, tail);
      k := j + 1;
      assert forall i :: 0 < i < |v| ==> v[i] == tail[i - 1];
      assert v[..k] == [v[0]] + tail[..j] && v[k..] == tail[j..];
      assert Place(x, v) == [v[0]] + (tail[..j] + [x] + tail[j..]);
    }
    InsertKeepsDescending(x, v, k);
  }

  lemma InsertKeepsDescending(x: Session, v: seq<Session>, k: nat)
    requires Descending(v) && k <= |v|
    requires forall i :: 0 <= i < |v| ==> (i < k <==> Less(x.startedAt, v[i].startedAt))
    ensures Descending(v[..k] + [x] + v[k..])
  {
    hide Less;
    var w := v[..k] + [x] + v[k..];
    forall i, j | 0 <= i < j < |w|
      ensures !Less(w[i].startedAt, w[j].startedAt)
    {
      LessIsTotal(w[i].startedAt, x.startedAt);
      assert i != k ==> w[i] == v[if i < k then i else i - 1];
      assert j != k ==> w[j] == v[if j < k then j else j - 1];
    }
  }

  // ---------- Rank ----------

  function Count(v: seq<Session>, p: Session -> bool): (n: nat)
    ensures n <= |v|
  {
    if v == [] then 0 else (if p(v[0]) then 1 else 0) + Count(v[1..], p)
  }

  function NewerThan(key: string): Session -> bool { (s: Session) => Less(key, s.startedAt) }

  function StartedAt(key: string): Session -> bool { (s: Session) => s.startedAt == key }

  /** How many sessions come before the `i`-th of the ledger: the newer ones, and those started at the
      same moment that the ledger lists earlier. */
  function Rank(v: seq<Session>, i: nat): (n: nat)
    requires i < |v|
  {
    Count(v, NewerThan(v[i].startedAt)) + Count(v[..i], StartedAt(v[i].startedAt))
  }

  lemma {:induction false} CountAppend(a: seq<Session>, b: seq<Session>, p: Session -> bool)
    ensures Count(a + b, p) == Count(a, p) + Count(b, p)
  {
    if a == [] {
      assert a + b == b;
    } else {
      assert (a + b)[1..] == a[1..] + b;
      CountAppend(a[1..], b, p);
    }
  }

  lemma {:induction false} CountAll(v: seq<Session>, p: Session -> bool)
    ensures (forall i :: 0 <= i < |v| ==> p(v[i])) ==> Count(v, p) == |v|
    ensures (forall i :: 0 <= i < |v| ==> !p(v[i])) ==> Count(v, p) == 0
  {
    if v != [] {
      assert forall i :: 0 <= i < |v[1..]| ==> v[1..][i] == v[i + 1];
      CountAll(v[1..], p);
    }
  }

  lemma {:induction false} PlaceKeepsCounts(x: Session, v: seq<Session>, p: Session -> bool)
    ensures Count(Place(x, v), p) == (if p(x) then 1 else 0) + Count(v, p)
    ensures multiset(Place(x, v)) == multiset{x} + multiset(v)
  {
    hide Less;
    if v == [] || !Less(x.startedAt, v[0].startedAt) {
      assert ([x] + v)[1..] == v;
    } else {
      PlaceKeepsCounts(x, v[1..], p);
      assert v == [v[0]] + v[1..];
      assert ([v[0]] + Place(x, v[1..]))[1..] == Place(x, v[1..]);
    }
  }

  lemma {:induction false} SortKeepsCounts(v: seq<Session>, p: Session -> bool)
    ensures Count(NewestFirst(v), p) == Count(v, p)
    ensures Descending(NewestFirst(v)) && multiset(NewestFirst(v)) == multiset(v)
  {
    hide Less, Place;
    if v != [] {
      SortKeepsCounts(v[1..], p);
      var _ := PlaceIs(v[0], NewestFirst(v[1..]));
      PlaceKeepsCounts(v[0], NewestFirst(v[1..]), p);
      assert v == [v[0]] + v[1..];
    }
  }

  /** The prefix a descending list shows before a moment. */
  lemma CountNewer(v: seq<Session>, k: nat, key: string)
    requires k <= |v| && forall i :: 0 <= i < |v| ==> (i < k <==> Less(key, v[i].startedAt))
    ensures Count(v, NewerThan(key)) == k
  {
    hide Less, Count;
    var a, b := v[..k], v[k..];
    assert v == a + b;
    CountAppend(a, b, NewerThan(key));
    assert forall i :: 0 <= i < |a| ==> a[i] == v[i];
    assert forall i :: 0 <= i < |b| ==> b[i] == v[k + i];
    CountAll(a, NewerThan(key));
    CountAll(b, NewerThan(key));
  }

  /** One more session at the front of the ledger is ahead of those it is not older than. */
  lemma RankNext(v: seq<Session>, i: nat)
    requires 0 < i < |v|
    ensures Rank(v, i) == Rank(v[1..], i - 1) + (if Less(v[0].startedAt, v[i].startedAt) then 0 else 1)
  {
    hide Less;
    var key := v[i].startedAt;
    assert v[1..][i - 1] == v[i] && v[..i][1..] == v[1..][..i - 1];
    LessIsTotal(v[0].startedAt, key);
  }

  /** Sorting puts the `i`-th session of the ledger at its rank. */
  lemma {:induction false} SortIsByRank(v: seq<Session>, i: nat)
    requires i < |v|
    ensures |NewestFirst(v)| == |v| && Rank(v, i) < |v| && NewestFirst(v)[Rank(v, i)] == v[i]
  {
    hide Less, Rank, Count, Place;
    var tail, rest, w := v[1..], NewestFirst(v[1..]), NewestFirst(v);
    SortKeepsCounts(tail, NewerThan(v[0].startedAt));
    var k := PlaceIs(v[0], rest);
    assert w == rest[..k] + [v[0]] + rest[k..];
    hide NewestFirst, Descending;
    SameLength(rest, tail);
    if i == 0 {
      CountNewer(rest, k, v[0].startedAt);
      RankOfFirst(v);
    } else {
      SortIsByRank(tail, i - 1);
      RankNext(v, i);
      var p := Rank(tail, i - 1);
      assert rest[p] == v[i];
      assert p < k <==> Less(v[0].startedAt, v[i].startedAt);
      assert w[if p < k then p else p + 1] == rest[p];
    }
  }

  lemma SameLength(a: seq<Session>, b: seq<Session>)
    requires multiset(a) == multiset(b)
    ensures |a| == |b|
  {
    assert |multiset(a)| == |multiset(b)|;
  }

  lemma RankOfFirst(v: seq<Session>)
    requires v != []
    ensures Rank(v, 0) == Count(v[1..], NewerThan(v[0].startedAt))
  {
    LessIsTotal(v[0].startedAt, v[0].startedAt);
  }

  /** Every position of the sorted list is some session's rank. */
  lemma {:induction false} PositionIsARank(v: seq<Session>, p: nat) returns (i: nat)
    requires p < |v|
    ensures i < |v| && Rank(v, i) == p
  {
    hide Less, Rank, Count;
    var tail, rest := v[1..], NewestFirst(v[1..]);
    SortKeepsCounts(tail, NewerThan(v[0].startedAt));
    var k := PlaceIs(v[0], rest);
    hide NewestFirst, Descending, Place;
    SameLength(rest, tail);
    CountNewer(rest, k, v[0].startedAt);
    RankOfFirst(v);
    if p == k {
      i := 0;
    } else {
      var q := if p < k then p else p - 1;
      var j := PositionIsARank(tail, q);
      SortIsByRank(tail, j);
      i := j + 1;
      RankNext(v, i);
    }
  }

  // ---------- The window ----------

  function Window(sessions: seq<Session>, n: nat): (w: seq<Session>) {
    var v := NewestFirst(Completed(sessions));
    if n <= |v| then v[..n] else v
  }

  /** The breaker's condition, as the code computes it. */
  predicate Trips(sessions: seq<Session>, n: nat) {
    && n != 0 && n <= |Completed(sessions)|
    && forall i :: 0 <= i < |Window(sessions, n)| ==> !HasAccepted(Window(sessions, n)[i])
  }

  /** The same without sorting: enough sessions, and `n` of them ahead of every accepting one. */
  lemma TripsByRank(sessions: seq<Session>, n: nat)
    ensures var c := Completed(sessions);
            Trips(sessions, n) <==>
            n != 0 && n <= |c| && forall i :: 0 <= i < |c| && HasAccepted(c[i]) ==> Rank(c, i) >= n
  {
    hide Less, Rank, Count, Completed, NewestFirst, HasAccepted;
    var c := Completed(sessions);
    var v := NewestFirst(c);
    SortLength(c);
    if Trips(sessions, n) {
      forall i | 0 <= i < |c| && HasAccepted(c[i])
        ensures Rank(c, i) >= n
      {
        SortIsByRank(c, i);
        assert forall p :: 0 <= p < n ==> !HasAccepted(v[p]) by {
          assert forall p :: 0 <= p < n ==> Window(sessions, n)[p] == v[p];
        }
      }
    }
    if n <= |c| && forall i :: 0 <= i < |c| && HasAccepted(c[i]) ==> Rank(c, i) >= n {
      forall p | 0 <= p < n
        ensures !HasAccepted(v[p])
      {
        var i := PositionIsARank(c, p);
        SortIsByRank(c, i);
      }
    }
  }

  lemma SortLength(c: seq<Session>)
    ensures |NewestFirst(c)| == |c|
  {
    SortKeepsCounts(c, StartedAt(""));
    assert |multiset(NewestFirst(c))| == |multiset(c)|;
  }

  /** `started_at` was printed from a second before year 10000. */
  ghost predicate Printed(s: Session) { exists t: nat :: t < YEAR_10000 && s.startedAt == Stamp(t) }

  function StartSecond(s: Session): (t: nat) {
    var p := ParseIsoish(s.startedAt);
    if p.Instant? then p.secs else 0
  }

  lemma OrderIsTimeOrder(a: Session, b: Session)
    requires Printed(a) && Printed(b)
    ensures Less(a.startedAt, b.startedAt) <==> StartSecond(a) < StartSecond(b)
    ensures a.startedAt == b.startedAt <==> StartSecond(a) == StartSecond(b)
  {
    hide Less, Stamp, ParseIsoish;
    var s: nat :| s < YEAR_10000 && a.startedAt == Stamp(s);
    var t: nat :| t < YEAR_10000 && b.startedAt == Stamp(t);
    ParseOfStamp(s);
    ParseOfStamp(t);
    StampOrderIsTimeOrder(s, t);
  }

  /** Every archived session whose id was minted before year 10000 qualifies. */
  lemma MintedIsPrinted(s: Session, secs: nat, suffix: string, now: string)
    requires secs < YEAR_10000 && MintSessionId(secs).Some?
    requires s.startedAt == StartedAtFromId(MintSessionId(secs).value + suffix, now)
    ensures Printed(s) && StartSecond(s) == secs
  {
    hide Stamp, ParseIsoish, StartedAtFromId, MintSessionId;
    StartedAtOfMintedId(secs, suffix, now);
    ParseOfStamp(secs);
  }

  /** So does one under any id whose digits name a moment from 1970 on. */
  lemma NamedIsPrinted(s: Session, id: string, now: string)
    requires NamesMoment(id) && IdDate(id).year >= 1970 && s.startedAt == StartedAtFromId(id, now)
    ensures Printed(s) && StartSecond(s) == MomentOf(id)
  {
    hide ParseIsoish, StartedAtFromId, IsoText, CivilFromDays, Days;
    NamedText(id, now);
    var d, t := IdDate(id), TimeOfId(id);
    SinceEpoch(d);
    PrintableDays(d);
    CivilOfDays(d);
    var secs := Days(d) * DAY + t;
    assert secs / DAY == Days(d) && secs % DAY == t;
    assert s.startedAt == Stamp(secs);
    ParseOfStamp(secs);
  }

  lemma SinceEpoch(d: Date)
    requires ValidDate(d) && d.year >= 1970
    ensures Days(d) >= 0 && d.day <= 31
  {
    hide Days;
    EpochIsDayZero();
    DaysPreserveOrder(d, EPOCH);
  }

  /** The string sort selects the chronologically latest `n`: the window and what it leaves out make up
      the completed sessions, and nothing left out started after anything in the window. */
  lemma WindowIsLatest(sessions: seq<Session>, n: nat, a: nat, b: nat)
    requires forall i :: 0 <= i < |Completed(sessions)| ==> Printed(Completed(sessions)[i])
    requires n <= |Completed(sessions)|
    ensures var v := NewestFirst(Completed(sessions));
            && |v| == |Completed(sessions)| && multiset(v) == multiset(Completed(sessions))
            && v == Window(sessions, n) + v[n..]
            && (a < n <= b < |v| ==> StartSecond(v[a]) >= StartSecond(v[b]))
  {
    hide Less, NewestFirst, Printed, StartSecond, Completed;
    var c := Completed(sessions);
    var v := NewestFirst(c);
    SortKeepsCounts(c, StartedAt(""));
    SortLength(c);
    if a < n <= b < |v| {
      var i := PositionIsARank(c, a);
      var j := PositionIsARank(c, b);
      SortIsByRank(c, i);
      SortIsByRank(c, j);
      OrderIsTimeOrder(v[a], v[b]);
    }
  }

  // ---------- Ledger order ----------

  ghost predicate DistinctStarts(v: seq<Session>) {
    forall i, j :: 0 <= i < j < |v| ==> v[i].startedAt != v[j].startedAt
  }

  ghost predicate StrictlyDescending(v: seq<Session>) {
    forall i, j :: 0 <= i < j < |v| ==> Less(v[j].startedAt, v[i].startedAt)
  }

  /** Distinct start times leave no ties to sort. */
  lemma SortIsStrict(c: seq<Session>)
    requires DistinctStarts(c)
    ensures StrictlyDescending(NewestFirst(c)) && forall x :: x in NewestFirst(c) <==> x in c
  {
    hide Less, Rank, NewestFirst;
    var v := NewestFirst(c);
    SortKeepsCounts(c, StartedAt(""));
    SortLength(c);
    forall p, q | 0 <= p < q < |v|
      ensures Less(v[q].startedAt, v[p].startedAt)
    {
      var i := PositionIsARank(c, p);
      var j := PositionIsARank(c, q);
      SortIsByRank(c, i);
      SortIsByRank(c, j);
      LessIsTotal(v[p].startedAt, v[q].startedAt);
      assert i < j || j < i;
    }
    assert forall x :: x in v <==> x in multiset(v);
    assert forall x :: x in c <==> x in multiset(c);
  }

  /** A strictly descending list is determined by its elements. */
  lemma {:induction false} DescendingIsUnique(a: seq<Session>, b: seq<Session>)
    requires StrictlyDescending(a) && StrictlyDescending(b)
    requires forall x :: x in a <==> x in b
    ensures a == b
  {
    hide Less;
    if a != [] { assert a[0] in b; }
    if b != [] { assert b[0] in a; }
    if a != [] {
      var i :| 0 <= i < |b| && b[i] == a[0];
      var j :| 0 <= j < |a| && a[j] == b[0];
      LessIsTotal(a[0].startedAt, b[0].startedAt);
      LessIsTotal(a[0].startedAt, a[0].startedAt);
      assert a[0] == b[0];
      assert forall x :: x in a <==> x == a[0] || x in a[1..];
      assert forall x :: x in b <==> x == b[0] || x in b[1..];
      DescendingIsUnique(a[1..], b[1..]);
      assert a == [a[0]] + a[1..] && b == [b[0]] + b[1..];
    }
  }

  lemma {:induction false} CompletedIsDistinct(a: seq<Session>)
    requires DistinctStarts(a)
    ensures DistinctStarts(Completed(a))
  {
    if a != [] {
      var tail := a[1..];
      assert forall k :: 0 <= k < |tail| ==> tail[k] == a[k + 1];
      CompletedIsDistinct(tail);
      var c := Completed(tail);
      assert [] + c == c;
      forall j | 0 <= j < |c|
        ensures c[j].startedAt != a[0].startedAt
      {
        CompletedComesFrom(tail, c[j]);
      }
      hide Completed;
      PrependDistinct(a[0], c);
    }
  }

  lemma CompletedComesFrom(v: seq<Session>, x: Session)
    requires x in Completed(v)
    ensures x in v
  {
    CompletedIs(v, "");
  }

  lemma PrependDistinct(x: Session, c: seq<Session>)
    requires DistinctStarts(c) && forall j :: 0 <= j < |c| ==> c[j].startedAt != x.startedAt
    ensures DistinctStarts([x] + c)
  {
    var all := [x] + c;
    assert all[0] == x && forall j :: 0 < j < |all| ==> all[j] == c[j - 1];
  }

  /** With distinct start times the breaker sees the same sessions whatever the order of the ledger. */
  lemma LedgerOrderIsIrrelevant(a: seq<Session>, b: seq<Session>, n: nat)
    requires DistinctStarts(a) && DistinctStarts(b)
    requires forall x :: x in a <==> x in b
    ensures Window(a, n) == Window(b, n) && (Trips(a, n) <==> Trips(b, n))
  {
    hide Less, Completed, NewestFirst, HasAccepted;
    var c, d := Completed(a), Completed(b);
    CompletedIs(a, "");
    CompletedIs(b, "");
    CompletedIsDistinct(a);
    CompletedIsDistinct(b);
    SortIsStrict(c);
    SortIsStrict(d);
    SortLength(c);
    SortLength(d);
    DescendingIsUnique(NewestFirst(c), NewestFirst(d));
  }

  // ---------- After an accepting session ----------

  predicate ZeroAccepted(s: Session) { !s.status.Aborted? && !HasAccepted(s) }

  /** Completed, started after `key`, nothing accepted. */
  function NewerFailure(key: string): Session -> bool { (s: Session) => ZeroAccepted(s) && Less(key, s.startedAt) }

  lemma {:induction false} CompletedAppend(a: seq<Session>, b: seq<Session>)
    ensures Completed(a + b) == Completed(a) + Completed(b)
  {
    if a == [] {
      assert a + b == b;
    } else {
      assert (a + b)[1..] == a[1..] + b;
      CompletedAppend(a[1..], b);
    }
  }

  lemma {:induction false} CompletedIs(sessions: seq<Session>, key: string)
    ensures forall s :: s in Completed(sessions) <==> s in sessions && !s.status.Aborted?
    ensures Count(Completed(sessions), NewerFailure(key)) == Count(sessions, NewerFailure(key))
  {
    if sessions != [] {
      hide Less, HasAccepted;
      CompletedIs(sessions[1..], key);
      assert sessions == [sessions[0]] + sessions[1..];
      var c := if sessions[0].status.Aborted? then [] else [sessions[0]];
      CountAppend(c, Completed(sessions[1..]), NewerFailure(key));
      if c != [] { assert c[1..] == []; }
    }
  }

  /** Once an accepting session is the newest in the ledger, the breaker trips again only after `n` newer
      sessions have been archived, all completed and all without an accepted target. */
  lemma TripNeedsNewerFailures(older: seq<Session>, x: Session, later: seq<Session>, n: nat)
    requires !x.status.Aborted? && HasAccepted(x)
    requires forall i :: 0 <= i < |older| ==> Less(older[i].startedAt, x.startedAt)
    requires Trips(older + [x] + later, n)
    ensures Count(later, NewerFailure(x.startedAt)) >= n
  {
    hide Less, HasAccepted, Completed, Count, NewestFirst;
    var key, all := x.startedAt, older + [x] + later;
    var c, i := Completed(all), |Completed(older)|;
    CompletedAppend(older + [x], later);
    CompletedAppend(older, [x]);
    CompletedOfOne(x);
    assert c[i] == x && c[..i] == Completed(older);
    TripsByRank(all, n);
    assert Rank(c, i) >= n;
    CompletedIs(older, key);
    NoTies(Completed(older), key);
    SortKeepsCounts(c, NewerThan(key));
    SortKeepsCounts(c, NewerFailure(key));
    SortLength(c);
    CompletedIs(all, key);
    forall p | 0 <= p < n
      ensures ZeroAccepted(NewestFirst(c)[p])
    {
      assert NewestFirst(c)[p] == Window(all, n)[p];
      assert NewestFirst(c)[p] in multiset(c);
    }
    WindowFails(NewestFirst(c), n, key);
    CountAppend(older + [x], later, NewerFailure(key));
    NoneNewer(older + [x], key);
  }

  lemma NoTies(v: seq<Session>, key: string)
    requires forall s :: s in v ==> Less(s.startedAt, key)
    ensures Count(v, StartedAt(key)) == 0
  {
    LessIsTotal(key, key);
    assert forall i :: 0 <= i < |v| ==> v[i] in v;
    CountAll(v, StartedAt(key));
  }

  lemma {:induction false} NewerComeFirst(v: seq<Session>, key: string)
    requires Descending(v)
    ensures forall p :: 0 <= p < Count(v, NewerThan(key)) ==> Less(key, v[p].startedAt)
  {
    hide Less;
    if v != [] {
      assert forall i :: 0 <= i < |v[1..]| ==> v[1..][i] == v[i + 1];
      if Less(key, v[0].startedAt) {
        NewerComeFirst(v[1..], key);
      } else {
        forall i | 0 <= i < |v|
          ensures !NewerThan(key)(v[i])
        {
          if i > 0 { NotLessIsTransitive(key, v[0].startedAt, v[i].startedAt); }
        }
        CountAll(v, NewerThan(key));
      }
    }
  }

  lemma WindowFails(v: seq<Session>, n: nat, key: string)
    requires Descending(v) && n <= Count(v, NewerThan(key))
    requires forall i :: 0 <= i < n ==> ZeroAccepted(v[i])
    ensures Count(v, NewerFailure(key)) >= n
  {
    hide Less, Count, ZeroAccepted;
    NewerComeFirst(v, key);
    assert v == v[..n] + v[n..];
    CountAppend(v[..n], v[n..], NewerFailure(key));
    CountAll(v[..n], NewerFailure(key));
  }

  lemma CompletedOfOne(x: Session)
    requires !x.status.Aborted?
    ensures Completed([x]) == [x]
  {
  }

  lemma NoneNewer(v: seq<Session>, key: string)
    requires forall i :: 0 <= i < |v| ==> Less(v[i].startedAt, key) || v[i].startedAt == key
    ensures Count(v, NewerFailure(key)) == 0
  {
    hide Less, HasAccepted;
    forall i | 0 <= i < |v|
      ensures !NewerFailure(key)(v[i])
    {
      LessIsTotal(v[i].startedAt, key);
    }
    CountAll(v, NewerFailure(key));
  }
}
