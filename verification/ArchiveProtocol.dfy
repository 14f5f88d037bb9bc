/** Archiving from any number of clones into one remote that accepts only fast-forwards. */
module ArchiveProtocol {
  import opened Text
  import J = Json
  import LedgerLine

  type Id = string
  type Sha = nat

  /** What the ledger says of a session: its id and the tip of its branch. */
  datatype Line = Line(id: Id, sha: Sha)

  /** A commit of the main branch: a ledger line, or anything else the operator commits. */
  datatype Commit = Commit(key: nat, line: Option<Line>)

  datatype Remote = Remote(main: seq<Commit>, branches: map<Id, Sha>)

  /** How far one `archive` call has come. `attempt` counts the retries of the main push. */
  datatype Progress =
    | Idle
    | Checked(id: Id)
    | Committed(id: Id)
    | Pushed(line: Line)
    | Rebased(line: Line)
    | PushingMain(line: Line, attempt: nat)
    | Retrying(line: Line, attempt: nat)

  /** `chains` holds the commits this clone made on its own `session/<id>` branches. */
  datatype Clone = Clone(main: seq<Commit>, chains: map<Id, seq<Sha>>, pc: Progress)

  /** `lines` and `shas` are history: every line ever committed, every archive commit ever made. */
  datatype State = State(remote: Remote, clones: seq<Clone>, lines: set<Line>, shas: set<Sha>)

  const MAX_RETRIES := 3

  /** What a network call did and what its caller was told. */
  datatype Outcome = Ok | LostReply | Failed

  datatype Action =
    | Begin(id: Id)
    | CommitBranch(made: Option<Sha>)
    | PushBranch(outcome: Outcome)
    | PullRebase(ok: bool, keys: seq<nat>)
    | AppendLine(key: nat)
    | PushMain(outcome: Outcome)
    | Crash
    | Edit(key: nat)

  ghost predicate Lists(main: seq<Commit>, id: Id) { exists m :: m in main && m.line.Some? && m.line.value.id == id }

  /** The archive check of the local ledger. */
  function LedgerContains(main: seq<Commit>, id: Id): (found: bool) {
    main != [] && ((main[0].line.Some? && main[0].line.value.id == id) || LedgerContains(main[1..], id))
  }

  lemma {:induction false} LedgerContainsIs(main: seq<Commit>, id: Id)
    ensures LedgerContains(main, id) <==> Lists(main, id)
  {
    if main != [] {
      LedgerContainsIs(main[1..], id);
      assert main == [main[0]] + main[1..];
      assert forall m :: m in main <==> m == main[0] || m in main[1..];
    }
  }

  /** The ledger file of a main branch: for each commit whatever lines no archive wrote, then the line it
      added, as `write` wrote it. */
  function LedgerFile(main: seq<Commit>, write: Commit -> J.Json, junk: Commit -> seq<LedgerLine.Line>)
    : (lines: seq<LedgerLine.Line>)
  {
    if main == [] then []
    else
      var m := main[|main| - 1];
      LedgerFile(main[..|main| - 1], write, junk) + junk(m)
      + (if m.line.Some? then [LedgerLine.Document(write(m))] else [])
  }

  /** The reader gives back the id of every line an archive wrote, in whatever version, and nothing for
      the other lines. */
  ghost predicate ReadsBack(main: seq<Commit>, write: Commit -> J.Json, junk: Commit -> seq<LedgerLine.Line>,
                            decode: J.Json -> Option<string>) {
    forall m :: m in main ==>
      && (m.line.Some? ==> LedgerLine.FromLedgerLine(write(m), decode) == Some(m.line.value.id))
      && (forall i, id :: 0 <= i < |junk(m)| ==> !LedgerLine.Records(junk(m)[i], id, decode))
  }

  ghost predicate Finds(lines: seq<LedgerLine.Line>, id: Id, decode: J.Json -> Option<string>) {
    exists i :: 0 <= i < |lines| && LedgerLine.Records(lines[i], id, decode)
  }

  lemma FindsConcat(a: seq<LedgerLine.Line>, b: seq<LedgerLine.Line>, id: Id, decode: J.Json -> Option<string>)
    ensures Finds(a + b, id, decode) <==> Finds(a, id, decode) || Finds(b, id, decode)
  {
    if i :| 0 <= i < |a + b| && LedgerLine.Records((a + b)[i], id, decode) {
      assert if i < |a| then (a + b)[i] == a[i] else (a + b)[i] == b[i - |a|];
    }
    if i :| 0 <= i < |a| && LedgerLine.Records(a[i], id, decode) {
      assert (a + b)[i] == a[i];
    }
    if i :| 0 <= i < |b| && LedgerLine.Records(b[i], id, decode) {
      assert (a + b)[|a| + i] == b[i];
    }
  }

  /** Searching the ledger file of a main branch finds exactly the ids its commits list. */
  lemma {:induction false} SearchFindsListed(main: seq<Commit>, write: Commit -> J.Json,
                                             junk: Commit -> seq<LedgerLine.Line>,
                                             decode: J.Json -> Option<string>, id: Id)
    requires ReadsBack(main, write, junk, decode)
    ensures Finds(LedgerFile(main, write, junk), id, decode) <==> Lists(main, id)
  {
    if main != [] {
      var n := |main| - 1;
      var m, before := main[n], LedgerFile(main[..n], write, junk);
      var own := if m.line.Some? then [LedgerLine.Document(write(m))] else [];
      assert forall x :: x in main <==> x in main[..n] || x == m by { assert main == main[..n] + [m]; }
      SearchFindsListed(main[..n], write, junk, decode, id);
      FindsConcat(before + junk(m), own, id, decode);
      FindsConcat(before, junk(m), id, decode);
      assert Finds(own, id, decode) <==> m.line.Some? && m.line.value.id == id by {
        if m.line.Some? { assert own[0] == LedgerLine.Document(write(m)); }
      }
    }
  }

  // ---------- Rebase ----------

  /** The commits of `main` that `upstream` lacks, in order. */
  function Pending(main: seq<Commit>, upstream: seq<Commit>): (p: seq<Commit>) {
    if main == [] then []
    else Pending(main[..|main| - 1], upstream) + (if main[|main| - 1] in upstream then [] else [main[|main| - 1]])
  }

  /** Replayed commits are new ones with the same changes. */
  function Replayed(p: seq<Commit>, keys: seq<nat>): (r: seq<Commit>)
    requires |keys| == |p|
    ensures |r| == |p| && forall i :: 0 <= i < |p| ==> r[i].line == p[i].line
  {
    seq(|p|, i requires 0 <= i < |p| => Commit(keys[i], p[i].line))
  }

  function Rebase(main: seq<Commit>, upstream: seq<Commit>, keys: seq<nat>): (r: Option<seq<Commit>>)
  {
    if upstream <= main then Some(main)
    else if |keys| != |Pending(main, upstream)| then None
    else Some(upstream + Replayed(Pending(main, upstream), keys))
  }

  // ---------- Steps ----------

  function Put(s: State, c: nat, clone: Clone): (t: State)
    requires c < |s.clones|
  {
    s.(clones := s.clones[c := clone])
  }

  function Tip(chain: seq<Sha>): (sha: Sha)
    requires chain != []
  {
    chain[|chain| - 1]
  }

  /** A push of branch `id` fast-forwards. */
  predicate BranchFastForwards(s: State, me: Clone, id: Id) {
    id in me.chains && me.chains[id] != [] && (id in s.remote.branches ==> s.remote.branches[id] in me.chains[id])
  }

  /** One step of clone `c`, or `None` when it is not possible. */
  function Step(s: State, c: nat, a: Action): (r: Option<State>)
  {
    if c >= |s.clones| then None
    else
      var me := s.clones[c];
      match a
      case Begin(id) =>
        if !me.pc.Idle? then None
        else if LedgerContains(me.main, id) then Some(s)
        else Some(Put(s, c, me.(pc := Checked(id))))
      case CommitBranch(made) =>
        if !me.pc.Checked? then None else CommitBranchStep(s, c, made)
      case PushBranch(outcome) =>
        if !me.pc.Committed? then None
        else if outcome.Failed? then Some(Put(s, c, me.(pc := Idle)))
        else if !BranchFastForwards(s, me, me.pc.id) then None
        else
          var tip := Tip(me.chains[me.pc.id]);
          var pc := if outcome.Ok? then Pushed(Line(me.pc.id, tip)) else Idle;
          Some(Put(s, c, me.(pc := pc)).(remote := s.remote.(branches := s.remote.branches[me.pc.id := tip])))
      case PullRebase(ok, keys) => PullRebaseStep(s, c, ok, keys)
      case AppendLine(key) =>
        if !me.pc.Rebased? then None
        else Some(Put(s, c, me.(main := me.main + [Commit(key, Some(me.pc.line))], pc := PushingMain(me.pc.line, 0))).(
                    lines := s.lines + {me.pc.line}))
      case PushMain(outcome) => PushMainStep(s, c, outcome)
      case Crash => Some(Put(s, c, me.(pc := Idle)))
      case Edit(key) =>
        if !me.pc.Idle? then None else Some(Put(s, c, me.(main := me.main + [Commit(key, None)])))
  }

  /** On a fresh branch there is always something to commit; on a reused one maybe nothing. */
  function CommitBranchStep(s: State, c: nat, made: Option<Sha>): (r: Option<State>)
    requires c < |s.clones| && s.clones[c].pc.Checked?
  {
    var me := s.clones[c];
    var id := me.pc.id;
    var next := me.(pc := Committed(id));
    if made.None? then
      if id in me.chains then Some(Put(s, c, next)) else None
    else if made.value in s.shas then None
    else
      var chain := if id in me.chains then me.chains[id] else [];
      Some(Put(s, c, next.(chains := me.chains[id := chain + [made.value]])).(shas := s.shas + {made.value}))
  }

  /** Before the append, between two push attempts, or by the operator's hand while no archive runs. */
  function PullRebaseStep(s: State, c: nat, ok: bool, keys: seq<nat>): (r: Option<State>)
    requires c < |s.clones|
  {
    var me := s.clones[c];
    if !me.pc.Pushed? && !me.pc.Retrying? && !me.pc.Idle? then None
    else if !ok then Some(Put(s, c, me.(pc := Idle)))
    else
      var main :- Rebase(me.main, s.remote.main, keys);
      var pc := match me.pc
        case Pushed(line) => Rebased(line)
        case Retrying(line, attempt) => PushingMain(line, attempt)
        case _ => Idle;
      Some(Put(s, c, me.(main := main, pc := pc)))
  }

  function PushMainStep(s: State, c: nat, outcome: Outcome): (r: Option<State>)
    requires c < |s.clones|
  {
    var me := s.clones[c];
    if !me.pc.PushingMain? && !me.pc.Idle? then None
    else if !outcome.Failed? && !(s.remote.main <= me.main) then None
    else
      var remote := if outcome.Failed? then s.remote else s.remote.(main := me.main);
      var pc := if outcome.Ok? || me.pc.Idle? || me.pc.attempt >= MAX_RETRIES then Idle
                else Retrying(me.pc.line, me.pc.attempt + 1);
      Some(Put(s, c, me.(pc := pc)).(remote := remote))
  }

  datatype Turn = Turn(clone: nat, action: Action)

  function Run(s: State, schedule: seq<Turn>): (r: Option<State>)
  {
    if schedule == [] then Some(s)
    else
      var before :- Run(s, schedule[..|schedule| - 1]);
      Step(before, schedule[|schedule| - 1].clone, schedule[|schedule| - 1].action)
  }

  // ---------- Invariant ----------

  /** No two lines carry the same id. */
  ghost predicate DistinctIds(main: seq<Commit>) {
    forall i, j :: 0 <= i < j < |main| && main[i].line.Some? && main[j].line.Some? ==>
      main[i].line.value.id != main[j].line.value.id
  }

  ghost predicate LinesWithin(main: seq<Commit>, lines: set<Line>) {
    forall m :: m in main && m.line.Some? ==> m.line.value in lines
  }

  /** Every line ever committed names the tip its branch has now. */
  ghost predicate Backed(s: State) {
    forall l :: l in s.lines ==> l.id in s.remote.branches && s.remote.branches[l.id] == l.sha && l.sha in s.shas
  }

  ghost predicate InChain(me: Clone, sha: Sha) { exists id :: id in me.chains && sha in me.chains[id] }

  ghost predicate Unlisted(s: State, id: Id) { forall l :: l in s.lines ==> l.id != id }

  ghost predicate ChainsInv(s: State) {
    && (forall c, sha :: 0 <= c < |s.clones| && InChain(s.clones[c], sha) ==> sha in s.shas)
    && (forall c, d, sha :: 0 <= c < |s.clones| && 0 <= d < |s.clones| && InChain(s.clones[c], sha) ==>
          InChain(s.clones[d], sha) ==> c == d)
  }

  /** What one clone's ledger has to do with the remote's. */
  ghost predicate MainInv(s: State, me: Clone) {
    && DistinctIds(me.main) && LinesWithin(me.main, s.lines)
    && (forall m :: m in me.main && m.line.Some? && Lists(s.remote.main, m.line.value.id) ==> m in s.remote.main)
    && (forall m :: m in me.main && m.line.Some? && m !in s.remote.main ==> InChain(me, m.line.value.sha))
    && (forall l :: l in s.lines && InChain(me, l.sha) ==> Lists(me.main, l.id))
  }

  /** What a clone in the middle of an archive may rely on. */
  ghost predicate ProgressInv(s: State, me: Clone) {
    match me.pc
    case Idle => true
    case Checked(id) => !Lists(me.main, id)
    case Committed(id) => !Lists(me.main, id)
    case Pushed(line) => Claimed(s, me, line)
    case Rebased(line) => Claimed(s, me, line)
    case PushingMain(line, attempt) => Holds(me, line) && attempt <= MAX_RETRIES
    case Retrying(line, attempt) => Holds(me, line) && attempt <= MAX_RETRIES
  }

  /** The clone owns the remote branch and nobody has committed a line for it. */
  ghost predicate Claimed(s: State, me: Clone, line: Line) {
    && Unlisted(s, line.id) && line.id in s.remote.branches && s.remote.branches[line.id] == line.sha
    && InChain(me, line.sha) && line.sha in s.shas
  }

  ghost predicate Holds(me: Clone, line: Line) { exists m :: m in me.main && m.line == Some(line) }

  ghost predicate RemoteInv(s: State) { DistinctIds(s.remote.main) && LinesWithin(s.remote.main, s.lines) && Backed(s) }

  ghost predicate Inv(s: State) {
    && RemoteInv(s) && ChainsInv(s)
    && (forall c :: 0 <= c < |s.clones| ==> MainInv(s, s.clones[c]) && ProgressInv(s, s.clones[c]))
  }

  /** Any consistent remote, freshly cloned any number of times. */
  ghost predicate Init(s: State) {
    && RemoteInv(s)
    && (forall c :: 0 <= c < |s.clones| ==> s.clones[c] == Clone(s.remote.main, map[], Idle))
  }

  lemma InitIsInv(s: State)
    requires Init(s)
    ensures Inv(s)
  {
  }

  // ---------- Each step keeps the invariant ----------

  /** A clone may move on when neither history nor the remote nor its own branches and ledger change. */
  lemma MoveKeepsInv(s: State, c: nat, pc: Progress)
    requires Inv(s) && c < |s.clones| && ProgressInv(s, s.clones[c].(pc := pc))
    ensures Inv(Put(s, c, s.clones[c].(pc := pc)))
  {
    hide DistinctIds, LinesWithin, Lists;
    var me, t := s.clones[c], Put(s, c, s.clones[c].(pc := pc));
    assert forall sha :: InChain(me.(pc := pc), sha) <==> InChain(me, sha);
    forall d | 0 <= d < |s.clones|
      ensures MainInv(t, t.clones[d]) && ProgressInv(t, t.clones[d])
    {
      assert d != c ==> t.clones[d] == s.clones[d];
    }
  }

  /** The same, where the clone has also committed to its session branch. */
  lemma CommitBranchKeepsInv(s: State, c: nat, made: Option<Sha>, t: State)
    requires Inv(s) && c < |s.clones| && s.clones[c].pc.Checked? && CommitBranchStep(s, c, made) == Some(t)
    ensures Inv(t)
  {
    hide DistinctIds, LinesWithin, Lists;
    var me, me' := s.clones[c], t.clones[c];
    if made.None? {
      MoveKeepsInv(s, c, Committed(me.pc.id));
    } else {
      ChainGrows(me, me.pc.id, made.value, me');
      assert forall d :: 0 <= d < |s.clones| && d != c ==> t.clones[d] == s.clones[d];
      assert forall d :: 0 <= d < |s.clones| ==> !InChain(s.clones[d], made.value);
      assert MainInv(s, me);
      forall d | 0 <= d < |s.clones|
        ensures MainInv(t, t.clones[d]) && ProgressInv(t, t.clones[d])
      {
        assert MainInv(s, s.clones[d]) && ProgressInv(s, s.clones[d]);
      }
    }
  }

  lemma ChainGrows(me: Clone, id: Id, sha: Sha, me': Clone)
    requires me'.chains == me.chains[id := (if id in me.chains then me.chains[id] else []) + [sha]]
    ensures forall x :: InChain(me', x) <==> InChain(me, x) || x == sha
  {
    forall x
      ensures InChain(me', x) <==> InChain(me, x) || x == sha
    {
      if x == sha {
        assert sha in me'.chains[id];
      }
      if InChain(me, x) {
        var i :| i in me.chains && x in me.chains[i];
        assert i in me'.chains && x in me'.chains[i];
      }
      if InChain(me', x) {
        var i :| i in me'.chains && x in me'.chains[i];
        assert i != id ==> x in me.chains[i];
      }
    }
  }

  /** A branch can be fast-forwarded only by a clone whose ledger lacks its line, and then nobody has one. */
  lemma FastForwardMeansUnlisted(s: State, c: nat, id: Id)
    requires Inv(s) && c < |s.clones| && !Lists(s.clones[c].main, id) && BranchFastForwards(s, s.clones[c], id)
    ensures Unlisted(s, id)
    ensures forall d, line :: 0 <= d < |s.clones| && d != c && Claimed(s, s.clones[d], line) ==> line.id != id
  {
  }

  lemma PushBranchKeepsInv(s: State, c: nat, outcome: Outcome, t: State)
    requires Inv(s) && Step(s, c, PushBranch(outcome)) == Some(t)
    ensures Inv(t)
  {
    hide DistinctIds, LinesWithin, Lists;
    var me := s.clones[c];
    if outcome.Failed? {
      MoveKeepsInv(s, c, Idle);
    } else {
      var id, tip := me.pc.id, Tip(me.chains[me.pc.id]);
      assert ProgressInv(s, me);
      FastForwardMeansUnlisted(s, c, id);
      assert InChain(me, tip) by { assert tip in me.chains[id]; }
      assert forall x :: InChain(t.clones[c], x) <==> InChain(me, x);
      assert MainInv(s, me);
      assert forall d :: 0 <= d < |s.clones| && d != c ==> t.clones[d] == s.clones[d];
      forall d | 0 <= d < |s.clones|
        ensures MainInv(t, t.clones[d]) && ProgressInv(t, t.clones[d])
      {
        assert MainInv(s, s.clones[d]) && ProgressInv(s, s.clones[d]);
      }
    }
  }

  // ---------- Ledger changes ----------

  /** Clone `c` replaces its main branch; the remote and the history stay. */
  lemma NewMainKeepsInv(s: State, c: nat, me: Clone)
    requires Inv(s) && c < |s.clones| && me.chains == s.clones[c].chains
    requires MainInv(s, me) && ProgressInv(s, me)
    ensures Inv(Put(s, c, me))
  {
    hide DistinctIds, LinesWithin, Lists;
    var t := Put(s, c, me);
    assert forall x :: InChain(me, x) <==> InChain(s.clones[c], x);
    forall d | 0 <= d < |s.clones|
      ensures MainInv(t, t.clones[d]) && ProgressInv(t, t.clones[d])
    {
      assert d != c ==> t.clones[d] == s.clones[d];
      assert MainInv(s, s.clones[d]) && ProgressInv(s, s.clones[d]);
    }
  }

  lemma {:induction false} PendingIs(main: seq<Commit>, upstream: seq<Commit>)
    ensures forall m :: m in Pending(main, upstream) <==> m in main && m !in upstream
  {
    if main != [] {
      var n := |main| - 1;
      PendingIs(main[..n], upstream);
      assert main == main[..n] + [main[n]];
    }
  }

  lemma {:induction false} PendingIsDistinct(main: seq<Commit>, upstream: seq<Commit>)
    requires DistinctIds(main)
    ensures DistinctIds(Pending(main, upstream))
  {
    if main != [] {
      var n := |main| - 1;
      var p := Pending(main[..n], upstream);
      PendingIsDistinct(main[..n], upstream);
      PendingIs(main[..n], upstream);
      assert main == main[..n] + [main[n]];
      AppendDistinct(p, main[..n], main[n]);
      assert p + [] == p;
    }
  }

  lemma AppendDistinct(p: seq<Commit>, main: seq<Commit>, x: Commit)
    requires DistinctIds(p) && (forall m :: m in p ==> m in main) && DistinctIds(main + [x])
    ensures DistinctIds(p + [x])
  {
    forall i | 0 <= i < |p| && p[i].line.Some? && x.line.Some?
      ensures p[i].line.value.id != x.line.value.id
    {
      assert p[i] in main;
      var k :| 0 <= k < |main| && main[k] == p[i];
      assert (main + [x])[k] == p[i] && (main + [x])[|main|] == x;
    }
  }

  lemma ConcatDistinct(a: seq<Commit>, b: seq<Commit>)
    requires DistinctIds(a) && DistinctIds(b)
    requires forall m :: m in b && m.line.Some? ==> !Lists(a, m.line.value.id)
    ensures DistinctIds(a + b)
  {
  }

  /** Every line of the old main, and every line of the upstream, is in the rebased main. */
  lemma RebaseIs(main: seq<Commit>, upstream: seq<Commit>, keys: seq<nat>, r: seq<Commit>)
    requires Rebase(main, upstream, keys) == Some(r)
    ensures upstream <= r
    ensures forall m :: m in r ==> m in upstream || exists m' :: m' in main && m' !in upstream && m'.line == m.line
    ensures forall m :: m in main ==> exists m' :: m' in r && m'.line == m.line
  {
    if upstream <= main {
      assert forall m :: m in main ==> m in r && m.line == m.line;
    } else {
      PendingIs(main, upstream);
      var p := Pending(main, upstream);
      var q := Replayed(p, keys);
      assert r == upstream + q;
      forall m | m in q
        ensures exists m' :: m' in main && m' !in upstream && m'.line == m.line
      {
        var i :| 0 <= i < |q| && q[i] == m;
        assert p[i] in p && p[i].line == m.line;
      }
      forall m | m in main
        ensures exists m' :: m' in r && m'.line == m.line
      {
        if m in upstream {
          assert m in r;
        } else {
          var i :| 0 <= i < |p| && p[i] == m;
          assert q[i] in r && q[i].line == m.line;
        }
      }
    }
  }

  lemma RebaseIsDistinct(s: State, me: Clone, keys: seq<nat>, r: seq<Commit>)
    requires RemoteInv(s) && MainInv(s, me) && Rebase(me.main, s.remote.main, keys) == Some(r)
    ensures DistinctIds(r)
  {
    hide Lists, LinesWithin;
    if !(s.remote.main <= me.main) {
      var p := Pending(me.main, s.remote.main);
      var q := Replayed(p, keys);
      PendingIs(me.main, s.remote.main);
      PendingIsDistinct(me.main, s.remote.main);
      forall m | m in q && m.line.Some?
        ensures !Lists(s.remote.main, m.line.value.id)
      {
        var i :| 0 <= i < |q| && q[i] == m;
        assert p[i] in p && p[i].line == m.line;
      }
      ConcatDistinct(s.remote.main, q);
    }
  }

  /** A rebase keeps the ids a ledger lists, and adds only the remote's. */
  lemma RebaseKeepsMainInv(s: State, me: Clone, keys: seq<nat>, r: seq<Commit>, pc: Progress)
    requires RemoteInv(s) && MainInv(s, me) && Rebase(me.main, s.remote.main, keys) == Some(r)
    ensures MainInv(s, me.(main := r, pc := pc))
    ensures forall line :: Holds(me, line) ==> Holds(me.(main := r, pc := pc), line)
  {
    hide DistinctIds, Rebase;
    var next := me.(main := r, pc := pc);
    RebaseIs(me.main, s.remote.main, keys, r);
    RebaseIsDistinct(s, me, keys, r);
    assert forall x :: InChain(next, x) <==> InChain(me, x);
    forall m | m in r && m.line.Some?
      ensures m.line.value in s.lines
      ensures Lists(s.remote.main, m.line.value.id) ==> m in s.remote.main
      ensures m !in s.remote.main ==> InChain(next, m.line.value.sha)
    {
      if m !in s.remote.main {
        var m' :| m' in me.main && m' !in s.remote.main && m'.line == m.line;
      }
    }
    forall l | l in s.lines && InChain(next, l.sha)
      ensures Lists(r, l.id)
    {
      var m :| m in me.main && m.line.Some? && m.line.value.id == l.id;
      var m' :| m' in r && m'.line == m.line;
    }
    forall line | Holds(me, line)
      ensures Holds(next, line)
    {
      var m :| m in me.main && m.line == Some(line);
      var m' :| m' in r && m'.line == m.line;
    }
  }

  lemma PullRebaseKeepsInv(s: State, c: nat, ok: bool, keys: seq<nat>, t: State)
    requires Inv(s) && c < |s.clones| && PullRebaseStep(s, c, ok, keys) == Some(t)
    ensures Inv(t)
  {
    hide MainInv, Lists, Rebase, RemoteInv, InChain, Holds, Unlisted;
    var me := s.clones[c];
    if !ok {
      MoveKeepsInv(s, c, Idle);
    } else {
      var next := t.clones[c];
      RebaseKeepsMainInv(s, me, keys, next.main, next.pc);
      assert ProgressInv(s, me);
      SameChains(me, next);
      NewMainKeepsInv(s, c, next);
    }
  }

  lemma SameChains(a: Clone, b: Clone)
    requires a.chains == b.chains
    ensures forall x :: InChain(a, x) <==> InChain(b, x)
  {
  }

  lemma UnlistedIsNowhere(s: State, main: seq<Commit>, id: Id)
    requires Unlisted(s, id) && LinesWithin(main, s.lines)
    ensures !Lists(main, id)
  {
  }

  /** The clone that appends: its line is new to everybody. */
  lemma AppendKeepsOwn(s: State, c: nat, key: nat, t: State)
    requires Inv(s) && Step(s, c, AppendLine(key)) == Some(t)
    ensures MainInv(t, t.clones[c]) && ProgressInv(t, t.clones[c])
  {
    hide DistinctIds, Unlisted;
    var me, next := s.clones[c], t.clones[c];
    var line := me.pc.line;
    var x := Commit(key, Some(line));
    assert MainInv(s, me) && Claimed(s, me, line);
    UnlistedIsNowhere(s, me.main, line.id);
    UnlistedIsNowhere(s, s.remote.main, line.id);
    OneCommitIsDistinct(x);
    ConcatDistinct(me.main, [x]);
    SameChains(me, next);
    assert x in next.main && forall m :: m in next.main <==> m in me.main || m == x;
    forall l | l in t.lines && InChain(next, l.sha)
      ensures Lists(next.main, l.id)
    {
      if l != line {
        var m :| m in me.main && m.line.Some? && m.line.value.id == l.id;
        assert m in next.main;
      }
    }
  }

  lemma OneCommitIsDistinct(x: Commit)
    ensures DistinctIds([x])
  {
  }

  /** Every other clone: it never made the commit the new line names. */
  lemma AppendKeepsOther(s: State, c: nat, key: nat, d: nat, t: State)
    requires Inv(s) && Step(s, c, AppendLine(key)) == Some(t) && d < |s.clones| && d != c
    ensures MainInv(t, t.clones[d]) && ProgressInv(t, t.clones[d])
  {
    hide DistinctIds, Lists, InChain;
    var line, other := s.clones[c].pc.line, s.clones[d];
    assert t.clones[d] == other && t.lines == s.lines + {line};
    assert ProgressInv(s, s.clones[c]) && InChain(s.clones[c], line.sha);
    assert !InChain(other, line.sha);
    assert MainInv(s, other) && ProgressInv(s, other);
  }

  lemma AppendLineKeepsInv(s: State, c: nat, key: nat, t: State)
    requires Inv(s) && Step(s, c, AppendLine(key)) == Some(t)
    ensures Inv(t)
  {
    hide MainInv, DistinctIds;
    assert ProgressInv(s, s.clones[c]);
    assert forall d :: 0 <= d < |s.clones| && d != c ==> t.clones[d] == s.clones[d];
    SameChains(s.clones[c], t.clones[c]);
    forall d | 0 <= d < |s.clones|
      ensures MainInv(t, t.clones[d]) && ProgressInv(t, t.clones[d])
    {
      if d == c {
        AppendKeepsOwn(s, c, key, t);
      } else {
        AppendKeepsOther(s, c, key, d, t);
      }
    }
  }

  lemma EditKeepsInv(s: State, c: nat, key: nat, t: State)
    requires Inv(s) && Step(s, c, Edit(key)) == Some(t)
    ensures Inv(t)
  {
    var me, next, x := s.clones[c], t.clones[c], Commit(key, None);
    assert MainInv(t, next) by {
      hide DistinctIds;
      assert MainInv(s, me);
      SameChains(me, next);
      OneCommitIsDistinct(x);
      ConcatDistinct(me.main, [x]);
      assert x in next.main && forall m :: m in next.main <==> m in me.main || m == x;
      forall l | l in s.lines && InChain(next, l.sha)
        ensures Lists(next.main, l.id)
      {
        var m :| m in me.main && m.line.Some? && m.line.value.id == l.id;
        assert m in next.main;
      }
    }
    NewMainKeepsInv(s, c, next);
  }

  // ---------- Remote changes ----------

  /** Two clones never hold different commits of one unpublished line. */
  lemma PushKeepsMainInv(s: State, c: nat, d: nat, t: State)
    requires Inv(s) && c < |s.clones| && d < |s.clones| && s.remote.main <= s.clones[c].main
    requires t.lines == s.lines && t.remote.main == s.clones[c].main
    ensures MainInv(t, s.clones[d])
  {
  }

  lemma PushMainKeepsInv(s: State, c: nat, outcome: Outcome, t: State)
    requires Inv(s) && c < |s.clones| && PushMainStep(s, c, outcome) == Some(t)
    ensures Inv(t)
  {
    hide MainInv, InChain, DistinctIds, LinesWithin, Lists;
    var me, pc := s.clones[c], t.clones[c].pc;
    assert ProgressInv(s, me);
    assert ProgressInv(s, me.(pc := pc));
    if outcome.Failed? {
      MoveKeepsInv(s, c, pc);
    } else {
      var u := s.(remote := t.remote);
      assert RemoteInv(u) by { MainIsFitForRemote(s, c); }
      forall d | 0 <= d < |s.clones|
        ensures MainInv(u, s.clones[d]) && ProgressInv(u, s.clones[d])
      {
        PushKeepsMainInv(s, c, d, u);
        assert ProgressInv(s, s.clones[d]);
      }
      assert Inv(u);
      MoveKeepsInv(u, c, pc);
    }
  }

  lemma MainIsFitForRemote(s: State, c: nat)
    requires Inv(s) && c < |s.clones|
    ensures DistinctIds(s.clones[c].main) && LinesWithin(s.clones[c].main, s.lines)
  {
  }

  // ---------- Every run ----------

  lemma StepKeepsInv(s: State, c: nat, a: Action, t: State)
    requires Inv(s) && Step(s, c, a) == Some(t)
    ensures Inv(t)
  {
    hide Inv, CommitBranchStep, PullRebaseStep, PushMainStep;
    match a
    case Begin(id) => BeginKeepsInv(s, c, id, t);
    case CommitBranch(made) => CommitBranchKeepsInv(s, c, made, t);
    case PushBranch(outcome) => PushBranchKeepsInv(s, c, outcome, t);
    case PullRebase(ok, keys) => PullRebaseKeepsInv(s, c, ok, keys, t);
    case AppendLine(key) => AppendLineKeepsInv(s, c, key, t);
    case PushMain(outcome) => PushMainKeepsInv(s, c, outcome, t);
    case Crash => CrashKeepsInv(s, c, t);
    case Edit(key) => EditKeepsInv(s, c, key, t);
  }

  lemma BeginKeepsInv(s: State, c: nat, id: Id, t: State)
    requires Inv(s) && Step(s, c, Begin(id)) == Some(t)
    ensures Inv(t)
  {
    hide Inv, LedgerContains, Lists;
    LedgerContainsIs(s.clones[c].main, id);
    if t != s {
      MoveKeepsInv(s, c, Checked(id));
    }
  }

  lemma CrashKeepsInv(s: State, c: nat, t: State)
    requires Inv(s) && Step(s, c, Crash) == Some(t)
    ensures Inv(t)
  {
    hide Inv;
    MoveKeepsInv(s, c, Idle);
  }

  lemma {:induction false} RunKeepsInv(s: State, schedule: seq<Turn>)
    requires Inv(s) && Run(s, schedule).Some?
    ensures Inv(Run(s, schedule).value)
  {
    hide Inv, Step;
    if schedule != [] {
      var n := |schedule| - 1;
      RunKeepsInv(s, schedule[..n]);
      StepKeepsInv(Run(s, schedule[..n]).value, schedule[n].clone, schedule[n].action, Run(s, schedule).value);
    }
  }

  /** What a reader of the remote may rely on: one line per session, each naming the tip of its branch. */
  ghost predicate Consistent(r: Remote) {
    && DistinctIds(r.main)
    && forall m :: m in r.main && m.line.Some? ==>
         m.line.value.id in r.branches && r.branches[m.line.value.id] == m.line.value.sha
  }

  /** The remote ledger is consistent after every run of archives, crashes, lost replies and retries. */
  lemma RemoteIsConsistent(s: State, schedule: seq<Turn>)
    requires Init(s) && Run(s, schedule).Some?
    ensures Consistent(Run(s, schedule).value.remote)
  {
    hide DistinctIds, Run, Init, ChainsInv, MainInv, ProgressInv;
    InitIsInv(s);
    RunKeepsInv(s, schedule);
  }

  /** Over one step the remote ledger is only extended, and no branch moves that some line names. */
  lemma StepOnlyExtends(s: State, c: nat, a: Action, t: State)
    requires Inv(s) && Step(s, c, a) == Some(t)
    ensures s.remote.main <= t.remote.main && s.lines <= t.lines
    ensures forall l :: l in s.lines ==> l.id in t.remote.branches && t.remote.branches[l.id] == l.sha
  {
    hide Rebase, LedgerContains, DistinctIds, LinesWithin, MainInv, ProgressInv, ChainsInv;
    StepKeepsInv(s, c, a, t);
  }

  lemma {:induction false} RunOnlyExtends(s: State, schedule: seq<Turn>)
    requires Inv(s) && Run(s, schedule).Some?
    ensures var t := Run(s, schedule).value;
            && s.remote.main <= t.remote.main && s.lines <= t.lines
            && forall l :: l in s.lines ==> l.id in t.remote.branches && t.remote.branches[l.id] == l.sha
  {
    hide Inv, Step;
    if schedule != [] {
      var n := |schedule| - 1;
      var u := Run(s, schedule[..n]).value;
      RunOnlyExtends(s, schedule[..n]);
      RunKeepsInv(s, schedule[..n]);
      StepOnlyExtends(u, schedule[n].clone, schedule[n].action, Run(s, schedule).value);
    } else {
      InvBacks(s);
    }
  }

  lemma InvBacks(s: State)
    requires Inv(s)
    ensures forall l :: l in s.lines ==> l.id in s.remote.branches && s.remote.branches[l.id] == l.sha
  {
  }

  /** From the moment any clone has committed a session's line, its remote branch never moves again. */
  lemma ListedBranchIsFrozen(s: State, before: seq<Turn>, after: seq<Turn>, c: nat, line: Line)
    requires Init(s) && Run(s, before).Some? && Run(Run(s, before).value, after).Some?
    requires c < |Run(s, before).value.clones| && Holds(Run(s, before).value.clones[c], line)
    ensures var u, t := Run(s, before).value, Run(Run(s, before).value, after).value;
            && line.id in u.remote.branches && u.remote.branches[line.id] == line.sha
            && line.id in t.remote.branches && t.remote.branches[line.id] == line.sha
  {
    hide Run, Init, Step, DistinctIds, ChainsInv, ProgressInv;
    InitIsInv(s);
    RunKeepsInv(s, before);
    var u := Run(s, before).value;
    assert MainInv(u, u.clones[c]);
    assert line in u.lines;
    RunOnlyExtends(u, after);
  }

  /** An archive that reports success has its line on the remote, for good. */
  lemma SuccessIsPermanent(s: State, before: seq<Turn>, c: nat, u: State, after: seq<Turn>)
    requires Init(s) && Run(s, before).Some? && c < |Run(s, before).value.clones|
    requires Run(s, before).value.clones[c].pc.PushingMain? && Step(Run(s, before).value, c, PushMain(Ok)) == Some(u)
    requires Run(u, after).Some?
    ensures exists m :: m in Run(u, after).value.remote.main && m.line == Some(Run(s, before).value.clones[c].pc.line)
  {
    hide Run, Init, DistinctIds, ChainsInv, MainInv, Backed;
    InitIsInv(s);
    RunKeepsInv(s, before);
    var b := Run(s, before).value;
    var me := b.clones[c];
    assert ProgressInv(b, me);
    var m :| m in me.main && m.line == Some(me.pc.line);
    assert u.remote.main == me.main;
    StepKeepsInv(b, c, PushMain(Ok), u);
    RunOnlyExtends(u, after);
    assert m in Run(u, after).value.remote.main;
  }

  lemma RunNext(s: State, schedule: seq<Turn>, turn: Turn)
    requires Run(s, schedule).Some?
    ensures Run(s, schedule + [turn]) == Step(Run(s, schedule).value, turn.clone, turn.action)
  {
  }

  lemma RunOfThree(s: State, a: Turn, b: Turn, c: Turn, s1: State, s2: State)
    requires Step(s, a.clone, a.action) == Some(s1) && Step(s1, b.clone, b.action) == Some(s2)
    ensures Run(s, [a, b, c]) == Step(s2, c.clone, c.action)
  {
    hide Step;
    RunNext(s, [], a);
    assert [] + [a] == [a] && [a] + [b] == [a, b] && [a, b] + [c] == [a, b, c];
    RunNext(s, [a], b);
    RunNext(s, [a, b], c);
  }

  /** An archive up to its branch push, by a clone that may push. */
  function AfterPush(s: State, c: nat, id: Id, sha: Sha): (t: State)
    requires c < |s.clones|
  {
    var me := s.clones[c];
    var chain := if id in me.chains then me.chains[id] else [];
    var next := me.(chains := me.chains[id := chain + [sha]], pc := Pushed(Line(id, sha)));
    State(s.remote.(branches := s.remote.branches[id := sha]), s.clones[c := next], s.lines, s.shas + {sha})
  }

  function UpToPush(c: nat, id: Id, sha: Sha): (schedule: seq<Turn>) {
    [Turn(c, Begin(id)), Turn(c, CommitBranch(Some(sha))), Turn(c, PushBranch(Ok))]
  }

  lemma ArchiveUpToPush(s: State, c: nat, id: Id, sha: Sha)
    requires c < |s.clones| && s.clones[c].pc.Idle? && !Lists(s.clones[c].main, id) && sha !in s.shas
    requires id in s.remote.branches ==> id in s.clones[c].chains && s.remote.branches[id] in s.clones[c].chains[id]
    ensures Run(s, UpToPush(c, id, sha)) == Some(AfterPush(s, c, id, sha))
  {
    hide Run, LedgerContains, Lists;
    LedgerContainsIs(s.clones[c].main, id);
    var me, t := s.clones[c], AfterPush(s, c, id, sha);
    var s1 := Put(s, c, me.(pc := Checked(id)));
    var me2 := t.clones[c].(pc := Committed(id));
    var s2 := Put(s, c, me2).(shas := s.shas + {sha});
    assert s1.clones[c := me2] == s.clones[c := me2];
    assert Step(s1, c, CommitBranch(Some(sha))) == Some(s2);
    assert s2.clones[c := t.clones[c]] == t.clones;
    RunOfThree(s, Turn(c, Begin(id)), Turn(c, CommitBranch(Some(sha))), Turn(c, PushBranch(Ok)), s1, s2);
  }

  /** Whatever the clone was doing, stop, and archive `id` again with new results. */
  function AgainFrom(c: nat, id: Id, sha: Sha): (schedule: seq<Turn>) {
    [Turn(c, Crash)] + UpToPush(c, id, sha)
  }

  lemma {:induction false} RunAfter(s: State, first: Turn, rest: seq<Turn>, u: State)
    requires Step(s, first.clone, first.action) == Some(u)
    ensures Run(s, [first] + rest) == Run(u, rest)
  {
    hide Step;
    if rest == [] {
      assert [first] + rest == [first] && [first][..0] == [];
    } else {
      var n := |rest| - 1;
      RunAfter(s, first, rest[..n], u);
      assert ([first] + rest)[..n + 1] == [first] + rest[..n];
    }
  }

  /** Before its line is committed a branch can still move: whenever a clone has pushed it and not yet
      listed it, archiving again with new results moves it to the new commit. */
  lemma UnlistedBranchMoves(s: State, c: nat, id: Id, sha: Sha)
    requires c < |s.clones| && !Lists(s.clones[c].main, id)
    requires id in s.clones[c].chains && id in s.remote.branches && s.remote.branches[id] in s.clones[c].chains[id]
    requires sha !in s.shas
    ensures var r := Run(s, AgainFrom(c, id, sha)); r.Some? && r.value.remote.branches == s.remote.branches[id := sha]
  {
    hide Run, Lists;
    var u := Put(s, c, s.clones[c].(pc := Idle));
    CrashStep(s, c);
    hide Step;
    RunAfter(s, Turn(c, Crash), UpToPush(c, id, sha), u);
    ArchiveUpToPush(u, c, id, sha);
  }

  lemma CrashStep(s: State, c: nat)
    requires c < |s.clones|
    ensures Step(s, c, Crash) == Some(Put(s, c, s.clones[c].(pc := Idle)))
  {
  }

  lemma AboveAll(shas: set<Sha>) returns (top: Sha)
    ensures forall x :: x in shas ==> x <= top
  {
    if shas == {} {
      top := 0;
    } else {
      var x :| x in shas;
      var rest := AboveAll(shas - {x});
      top := if rest < x then x else rest;
      assert forall y :: y in shas ==> y == x || y in shas - {x};
    }
  }

  /** Some run gives branch `id` another tip. */
  ghost predicate CanMove(s: State, id: Id) {
    exists schedule :: MovesBranch(s, schedule, id)
  }

  ghost predicate MovesBranch(s: State, schedule: seq<Turn>, id: Id) {
    && id in s.remote.branches && Run(s, schedule).Some?
    && var after := Run(s, schedule).value.remote.branches;
       !(id in after && after[id] == s.remote.branches[id])
  }

  /** Write-once, exactly: a branch whose tip is a clone's own commit can still move if and only if that
      clone's ledger does not list its session. */
  lemma BranchMovesIff(s: State, c: nat, id: Id)
    requires Inv(s) && c < |s.clones|
    requires id in s.clones[c].chains && id in s.remote.branches && s.remote.branches[id] in s.clones[c].chains[id]
    ensures CanMove(s, id) <==> !Lists(s.clones[c].main, id)
  {
    hide Run, Step, DistinctIds, MainInv, ProgressInv, Lists;
    if Lists(s.clones[c].main, id) {
      var line := ListedLine(s, c, id);
      forall schedule
        ensures !MovesBranch(s, schedule, id)
      {
        if Run(s, schedule).Some? {
          RunOnlyExtends(s, schedule);
          InvBacks(s);
        }
      }
    } else {
      var top := AboveAll(s.shas);
      var sha := top + 1;
      UnlistedBranchMoves(s, c, id, sha);
      assert InChain(s.clones[c], s.remote.branches[id]);
      assert MovesBranch(s, AgainFrom(c, id, sha), id);
    }
  }

  lemma ListedLine(s: State, c: nat, id: Id) returns (line: Line)
    requires Inv(s) && c < |s.clones| && Lists(s.clones[c].main, id)
    ensures line in s.lines && line.id == id
  {
    assert MainInv(s, s.clones[c]);
    var m :| m in s.clones[c].main && m.line.Some? && m.line.value.id == id;
    line := m.line.value;
  }

  /** Such a state is reachable: one push, then a crash. */
  lemma PushedThenCrashed()
    ensures exists s, schedule, u :: Init(s) && Run(s, schedule) == Some(u)
              && u.remote.branches == map["x" := 1] && |u.clones| == 1
              && u.clones[0] == Clone([], map["x" := [1]], Idle) && u.shas == {1}
  {
    hide Run, Step;
    var me := Clone([], map[], Idle);
    var s := State(Remote([], map[]), [me], {}, {});
    assert Init(s);
    hide Init;
    ArchiveUpToPush(s, 0, "x", 1);
    var three := UpToPush(0, "x", 1);
    var t := AfterPush(s, 0, "x", 1);
    assert [] + [1] == [1] && t.clones[0] == Clone([], map["x" := [1]], Pushed(Line("x", 1)));
    RunNext(s, three, Turn(0, Crash));
    CrashStep(t, 0);
    assert Run(s, three + [Turn(0, Crash)]) == Some(Put(t, 0, t.clones[0].(pc := Idle)));
  }
}
