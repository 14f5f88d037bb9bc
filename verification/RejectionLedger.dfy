/** The analyzed-rejections ledger as processes share it: a file, a temporary file and a reader-writer
    lock, changed one system call at a time by any number of processes. */
module RejectionLedger {
  import opened Text
  import opened Fingerprint

  /** `rest` stands for the fields no query looks at. */
  datatype Record = Record(familyId: string, lens: string, kind: string, spans: seq<string>,
                           contract: Option<string>, fingerprint: string, rest: string)

  /** One line of the file, as the loader sees it. */
  datatype Line = Entry(record: Record) | Malformed | BlankLine

  /** `tail` is a last line whose newline has not been written yet. */
  datatype File = Absent | File(lines: seq<Line>, tail: Option<Line>)

  datatype Op =
    | Append(record: Record)
    | Load
    | Rewrite(records: seq<Record>)
    | Filter(f: seq<Record> -> Option<seq<Record>>)

  datatype Result = Done | Loaded(records: seq<Record>) | Dropped(count: nat) | Refused

  // ---------- The ledger as one atomic object ----------

  function Records(lines: seq<Line>): (rs: seq<Record>) {
    if lines == [] then []
    else Records(lines[..|lines| - 1]) + (var l := lines[|lines| - 1]; if l.Entry? then [l.record] else [])
  }

  function Entries(rs: seq<Record>): (lines: seq<Line>)
    ensures |lines| == |rs|
    ensures forall i :: 0 <= i < |rs| ==> lines[i] == Entry(rs[i])
  {
    seq(|rs|, i requires 0 <= i < |rs| => Entry(rs[i]))
  }

  /** Contents after one operation. */
  function After(lines: seq<Line>, op: Op): (r: seq<Line>) {
    match op
    case Append(record) => lines + [Entry(record)]
    case Load => lines
    case Rewrite(records) => Entries(records)
    case Filter(f) =>
      match f(Records(lines))
      case None => lines
      case Some(out) => Entries(out)
  }

  function DropCount(before: seq<Record>, after: seq<Record>): (n: nat) {
    if |before| > |after| then |before| - |after| else 0
  }

  /** What the caller gets back from one operation. */
  function Answer(lines: seq<Line>, op: Op): (r: Result) {
    match op
    case Append(_) => Done
    case Load => Loaded(Records(lines))
    case Rewrite(_) => Done
    case Filter(f) =>
      match f(Records(lines))
      case None => Refused
      case Some(out) => Dropped(DropCount(Records(lines), out))
  }

  datatype Event = Event(pid: nat, op: Op, result: Result)

  function Replay(start: seq<Line>, log: seq<Event>): (lines: seq<Line>) {
    if log == [] then start else After(Replay(start, log[..|log| - 1]), log[|log| - 1].op)
  }

  /** Every event answered as the atomic ledger would at its place in the log. */
  ghost predicate Legal(start: seq<Line>, log: seq<Event>) {
    forall i :: 0 <= i < |log| ==> log[i].result == Answer(Replay(start, log[..i]), log[i].op)
  }

  // ---------- Processes ----------

  datatype Process =
    | Idle
    | Waiting(op: Op)
    | Entered(op: Op)
    | Opened(op: Op)
    | TailWritten(op: Op)
    | Reading(op: Op, seen: seq<Record>, next: nat)
    | Prepared(op: Op, out: seq<Record>, result: Result)
    | Writing(op: Op, out: seq<Record>, result: Result, next: nat)
    | Leaving(op: Op, result: Result)

  /** `log` is history only: no step reads it. */
  datatype State = State(ledger: File, temp: File, readers: set<nat>, writer: Option<nat>,
                         procs: seq<Process>, log: seq<Event>)

  datatype Action =
    | Request(op: Op)
    | Acquire
    | OpenForAppend
    | WriteBody
    | WriteNewline
    | OpenForRead
    | ReadLine
    | EndOfFile
    | OpenTemp
    | WriteTemp
    | Rename
    | Release
    | Crash

  function View(f: File): (lines: seq<Line>) { if f.File? then f.lines else [] }

  /** The lines a reader gets, an unterminated last one included. */
  function ReadBack(f: File): (lines: seq<Line>) {
    View(f) + (if f.File? && f.tail.Some? then [f.tail.value] else [])
  }

  function Move(s: State, p: nat, next: Process): (t: State)
    requires p < |s.procs|
  {
    s.(procs := s.procs[p := next])
  }

  function Unlock(s: State, p: nat): (t: State) {
    s.(readers := s.readers - {p}, writer := if s.writer == Some(p) then None else s.writer)
  }

  /** One step of process `p`, or `None` when the action is not possible. */
  function Step(s: State, p: nat, a: Action): (r: Option<State>)
  {
    if p >= |s.procs| then None
    else
      var pc := s.procs[p];
      match a
      case Request(op) =>
        if !pc.Idle? then None
        else if op.Append? && !SpecificEnough(op.record.spans, op.record.contract) then Some(s)
        else Some(Move(s, p, Waiting(op)))
      case Acquire =>
        if !pc.Waiting? then None
        else if pc.op.Load? then
          if s.writer.Some? then None else Some(Move(s, p, Entered(pc.op)).(readers := s.readers + {p}))
        else
          if s.writer.Some? || s.readers != {} then None else Some(Move(s, p, Entered(pc.op)).(writer := Some(p)))
      case OpenForAppend =>
        if !(pc.Entered? && pc.op.Append?) then None
        else Some(Move(s, p, Opened(pc.op)).(ledger := if s.ledger.Absent? then File([], None) else s.ledger))
      case WriteBody =>
        if !(pc.Opened? && pc.op.Append? && s.ledger.File?) then None
        else Some(Move(s, p, TailWritten(pc.op)).(ledger := s.ledger.(tail := Some(Entry(pc.op.record)))))
      case WriteNewline =>
        if !(pc.TailWritten? && s.ledger.File? && s.ledger.tail.Some?) then None
        else Some(Move(s, p, Leaving(pc.op, Done)).(
                    ledger := File(s.ledger.lines + [s.ledger.tail.value], None),
                    log := s.log + [Event(p, pc.op, Done)]))
      case OpenForRead =>
        if !(pc.Entered? && (pc.op.Load? || pc.op.Filter?)) then None
        else Some(Move(s, p, Reading(pc.op, [], 0)))
      case ReadLine =>
        if !(pc.Reading? && pc.next < |ReadBack(s.ledger)|) then None
        else
          var l := ReadBack(s.ledger)[pc.next];
          Some(Move(s, p, Reading(pc.op, pc.seen + (if l.Entry? then [l.record] else []), pc.next + 1)))
      case EndOfFile =>
        if !(pc.Reading? && pc.next == |ReadBack(s.ledger)|) then None
        else if pc.op.Load? then
          Some(Move(s, p, Leaving(pc.op, Loaded(pc.seen))).(log := s.log + [Event(p, pc.op, Loaded(pc.seen))]))
        else if pc.op.Filter? then
          match pc.op.f(pc.seen)
          case None => Some(Move(s, p, Leaving(pc.op, Refused)).(log := s.log + [Event(p, pc.op, Refused)]))
          case Some(out) => Some(Move(s, p, Prepared(pc.op, out, Dropped(DropCount(pc.seen, out)))))
        else None
      case OpenTemp =>
        if pc.Entered? && pc.op.Rewrite? then
          Some(Move(s, p, Writing(pc.op, pc.op.records, Done, 0)).(temp := File([], None)))
        else if pc.Prepared? then Some(Move(s, p, Writing(pc.op, pc.out, pc.result, 0)).(temp := File([], None)))
        else None
      case WriteTemp =>
        if !(pc.Writing? && pc.next < |pc.out| && s.temp.File?) then None
        else
          var lines := s.temp.lines + [Entry(pc.out[pc.next])];
          Some(Move(s, p, pc.(next := pc.next + 1)).(temp := s.temp.(lines := lines)))
      case Rename =>
        if !(pc.Writing? && pc.next == |pc.out| && s.temp.File?) then None
        else Some(Move(s, p, Leaving(pc.op, pc.result)).(
                    ledger := s.temp, temp := Absent, log := s.log + [Event(p, pc.op, pc.result)]))
      case Release =>
        if !pc.Leaving? then None else Some(Unlock(Move(s, p, Idle), p))
      case Crash =>
        // The kernel drops a dead process's lock. A crash between the two writes of one append is excluded.
        if pc.Idle? || pc.TailWritten? then None else Some(Unlock(Move(s, p, Idle), p))
  }

  datatype Turn = Turn(pid: nat, action: Action)

  /** The state a schedule leads to, or `None` when some step of it is not possible. */
  function Run(s: State, schedule: seq<Turn>): (r: Option<State>)
  {
    if schedule == [] then Some(s)
    else
      var before :- Run(s, schedule[..|schedule| - 1]);
      Step(before, schedule[|schedule| - 1].pid, schedule[|schedule| - 1].action)
  }

  /** A fresh start: no process inside, any newline-terminated ledger, anything left in the temporary file. */
  ghost predicate Init(s: State, start: seq<Line>) {
    && (forall p :: 0 <= p < |s.procs| ==> s.procs[p].Idle?)
    && s.readers == {} && s.writer == None && s.log == []
    && View(s.ledger) == start && (s.ledger.File? ==> s.ledger.tail.None?)
  }

  // ---------- The invariant ----------

  predicate HoldsExclusive(pc: Process) { !pc.Idle? && !pc.Waiting? && !pc.op.Load? }

  predicate HoldsShared(pc: Process) { !pc.Idle? && !pc.Waiting? && pc.op.Load? }

  ghost predicate LockInv(s: State) {
    && (forall p :: 0 <= p < |s.procs| ==>
          (s.writer == Some(p) <==> HoldsExclusive(s.procs[p])) && (p in s.readers <==> HoldsShared(s.procs[p])))
    && (forall p :: p in s.readers ==> p < |s.procs|)
    && (s.writer.Some? ==> s.writer.value < |s.procs| && s.readers == {})
  }

  /** What a process inside the lock knows, given the contents `lines`. */
  ghost predicate ProcessInv(pc: Process, lines: seq<Line>, ledger: File, temp: File) {
    match pc
    case Opened(op) => op.Append? && ledger.File?
    case TailWritten(op) => op.Append? && ledger.File? && ledger.tail == Some(Entry(op.record))
    case Reading(op, seen, next) => (op.Load? || op.Filter?) && next <= |lines| && seen == Records(lines[..next])
    case Prepared(op, out, result) => op.Filter? && WillCommit(lines, op, out, result)
    case Writing(op, out, result, next) =>
      && (op.Filter? || op.Rewrite?) && WillCommit(lines, op, out, result)
      && next <= |out| && temp == File(Entries(out[..next]), None)
    case _ => true
  }

  predicate WillCommit(lines: seq<Line>, op: Op, out: seq<Record>, result: Result) {
    After(lines, op) == Entries(out) && Answer(lines, op) == result
  }

  ghost predicate Inv(s: State, start: seq<Line>) {
    && LockInv(s)
    && Legal(start, s.log)
    && View(s.ledger) == Replay(start, s.log)
    && (s.ledger.File? && s.ledger.tail.Some? ==> s.writer.Some? && s.procs[s.writer.value].TailWritten?)
    && (forall p :: 0 <= p < |s.procs| ==> ProcessInv(s.procs[p], View(s.ledger), s.ledger, s.temp))
  }

  lemma ReplayNext(start: seq<Line>, log: seq<Event>, e: Event)
    ensures Replay(start, log + [e]) == After(Replay(start, log), e.op)
  {
  }

  lemma LegalNext(start: seq<Line>, log: seq<Event>, e: Event)
    requires Legal(start, log) && e.result == Answer(Replay(start, log), e.op)
    ensures Legal(start, log + [e])
  {
    forall i | 0 <= i < |log + [e]|
      ensures (log + [e])[i].result == Answer(Replay(start, (log + [e])[..i]), (log + [e])[i].op)
    {
      assert (log + [e])[..i] == log[..i];
      if i == |log| { assert log[..i] == log; }
    }
  }

  lemma RecordsNext(lines: seq<Line>, k: nat)
    requires k < |lines|
    ensures Records(lines[..k + 1]) == Records(lines[..k]) + (if lines[k].Entry? then [lines[k].record] else [])
  {
    assert lines[..k + 1][..k] == lines[..k];
  }

  /** Nobody but the appender sees an unterminated line. */
  lemma ReadersSeeWholeLines(s: State, start: seq<Line>, p: nat)
    requires Inv(s, start) && p < |s.procs| && s.procs[p].Reading?
    ensures ReadBack(s.ledger) == View(s.ledger)
  {
  }

  /** While one process holds the exclusive lock every other one is outside. */
  lemma OthersOutside(s: State, p: nat)
    requires LockInv(s) && s.writer == Some(p)
    ensures forall q :: 0 <= q < |s.procs| && q != p ==> s.procs[q].Idle? || s.procs[q].Waiting?
  {
  }

  /** Taking and dropping the lock. */
  lemma LockStepKeepsInv(s: State, start: seq<Line>, p: nat, a: Action, t: State)
    requires Inv(s, start) && Step(s, p, a) == Some(t)
    requires a.Request? || a.Acquire? || a.Release? || a.Crash?
    ensures Inv(t, start)
  {
    assert t.ledger == s.ledger && t.temp == s.temp && t.log == s.log;
    assert forall q :: 0 <= q < |s.procs| && q != p ==> t.procs[q] == s.procs[q];
    LockStepKeepsLock(s, p, a, t);
    if s.ledger.File? && s.ledger.tail.Some? {
      assert HoldsExclusive(s.procs[s.writer.value]);
      assert t.procs[s.writer.value] == s.procs[s.writer.value];
    }
  }

  lemma LockStepKeepsLock(s: State, p: nat, a: Action, t: State)
    requires LockInv(s) && Step(s, p, a) == Some(t)
    requires a.Request? || a.Acquire? || a.Release? || a.Crash?
    ensures LockInv(t)
  {
    forall q | 0 <= q < |s.procs|
      ensures t.writer == Some(q) <==> HoldsExclusive(t.procs[q])
      ensures q in t.readers <==> HoldsShared(t.procs[q])
    {
    }
  }

  /** Only `p` moved, it kept its hold on the lock, and the files and the log are as before. */
  ghost predicate OnlyMoved(s: State, p: nat, t: State) {
    && p < |s.procs| == |t.procs| && t == s.(procs := s.procs[p := t.procs[p]])
    && HoldsExclusive(t.procs[p]) == HoldsExclusive(s.procs[p]) && HoldsShared(t.procs[p]) == HoldsShared(s.procs[p])
    && (s.procs[p].TailWritten? ==> t.procs[p] == s.procs[p])
  }

  lemma MoveKeepsInv(s: State, start: seq<Line>, p: nat, t: State)
    requires Inv(s, start) && OnlyMoved(s, p, t)
    requires ProcessInv(t.procs[p], View(t.ledger), t.ledger, t.temp)
    ensures Inv(t, start)
  {
  }

  lemma ReadLineKeepsInv(s: State, start: seq<Line>, p: nat, a: Action, t: State)
    requires Inv(s, start) && Step(s, p, a) == Some(t) && (a.OpenForRead? || a.ReadLine?)
    ensures Inv(t, start)
  {
    hide Legal, Replay, Records, LockInv;
    var pc, lines := s.procs[p], View(s.ledger);
    if a.OpenForRead? {
      assert lines[..0] == [];
      NoRecords();
    } else {
      ReadersSeeWholeLines(s, start, p);
      RecordsNext(lines, pc.next);
    }
    assert ProcessInv(t.procs[p], lines, t.ledger, t.temp);
    assert OnlyMoved(s, p, t);
    MoveKeepsInv(s, start, p, t);
  }

  lemma NoRecords()
    ensures Records([]) == []
  {
  }

  /** An event that leaves the contents alone may join the log. */
  lemma LogKeepsInv(s: State, start: seq<Line>, e: Event)
    requires Inv(s, start)
    requires After(View(s.ledger), e.op) == View(s.ledger) && e.result == Answer(View(s.ledger), e.op)
    ensures Inv(s.(log := s.log + [e]), start)
  {
    hide Legal, Replay, After, Answer, ProcessInv, View, LockInv;
    var t := s.(log := s.log + [e]);
    ReplayNext(start, s.log, e);
    LegalNext(start, s.log, e);
    assert LockInv(t) by { SameLock(s, t); }
  }

  lemma SameLock(s: State, t: State)
    requires LockInv(s) && t.procs == s.procs && t.readers == s.readers && t.writer == s.writer
    ensures LockInv(t)
  {
  }

  /** At the end of the file a load is answered, and a filter either refuses or prepares its rewrite. */
  lemma EndOfFileKeepsInv(s: State, start: seq<Line>, p: nat, t: State)
    requires Inv(s, start) && Step(s, p, EndOfFile) == Some(t)
    ensures Inv(t, start)
  {
    hide Legal, Replay, Records, LockInv;
    var pc, lines := s.procs[p], View(s.ledger);
    ReadersSeeWholeLines(s, start, p);
    assert lines[..pc.next] == lines;
    assert pc.seen == Records(lines);
    var moved := t.(log := s.log);
    assert OnlyMoved(s, p, moved);
    MoveKeepsInv(s, start, p, moved);
    if t.log != s.log {
      var e := t.log[|s.log|];
      assert t.log == s.log + [e];
      LogKeepsInv(moved, start, e);
      assert t == moved.(log := moved.log + [e]);
    } else {
      assert t == moved;
    }
  }

  /** The holder of the exclusive lock may move and touch both files while the complete lines stay. */
  lemma HolderKeepsInv(s: State, start: seq<Line>, p: nat, next: Process, t: State)
    requires Inv(s, start) && p < |s.procs| && HoldsExclusive(s.procs[p]) && HoldsExclusive(next)
    requires t == s.(ledger := t.ledger, temp := t.temp, procs := s.procs[p := next])
    requires View(t.ledger) == View(s.ledger) && ProcessInv(next, View(t.ledger), t.ledger, t.temp)
    requires t.ledger.File? && t.ledger.tail.Some? ==> next.TailWritten?
    ensures Inv(t, start)
  {
  }

  /** The holder of the exclusive lock replaces the contents by the operation's result and logs it. */
  lemma CommitKeepsInv(s: State, start: seq<Line>, p: nat, e: Event, t: State)
    requires Inv(s, start) && p < |s.procs| && HoldsExclusive(s.procs[p])
    requires s.procs[p].op == e.op && e.result == Answer(View(s.ledger), e.op)
    requires t.ledger == File(After(View(s.ledger), e.op), None)
    requires t == s.(ledger := t.ledger, temp := t.temp, log := s.log + [e],
                     procs := s.procs[p := Leaving(e.op, e.result)])
    ensures Inv(t, start)
  {
    hide Legal, Records, After, Answer, Replay;
    OthersOutside(s, p);
    assert forall q :: 0 <= q < |s.procs| && q != p ==> t.procs[q] == s.procs[q];
    assert HoldsExclusive(t.procs[p]);
    ReplayNext(start, s.log, e);
    LegalNext(start, s.log, e);
  }

  /** The two writes of an append, under the exclusive lock. */
  lemma AppendStepKeepsInv(s: State, start: seq<Line>, p: nat, a: Action, t: State)
    requires Inv(s, start) && Step(s, p, a) == Some(t)
    requires a.OpenForAppend? || a.WriteBody? || a.WriteNewline?
    ensures Inv(t, start)
  {
    hide Legal, Replay, Records;
    var pc := s.procs[p];
    assert ProcessInv(pc, View(s.ledger), s.ledger, s.temp);
    if a.WriteNewline? {
      CommitKeepsInv(s, start, p, Event(p, pc.op, Done), t);
    } else {
      assert s.writer == Some(p);
      HolderKeepsInv(s, start, p, t.procs[p], t);
    }
  }

  lemma EntriesNext(out: seq<Record>, n: nat)
    requires n < |out|
    ensures Entries(out[..n + 1]) == Entries(out[..n]) + [Entry(out[n])]
  {
  }

  /** Filling the temporary file changes nothing a reader can see. */
  lemma TempStepKeepsInv(s: State, start: seq<Line>, p: nat, a: Action, t: State)
    requires Inv(s, start) && Step(s, p, a) == Some(t) && (a.OpenTemp? || a.WriteTemp?)
    ensures Inv(t, start)
  {
    hide Legal, Replay, Records, Entries;
    var pc, next := s.procs[p], t.procs[p];
    assert ProcessInv(pc, View(s.ledger), s.ledger, s.temp);
    if a.OpenTemp? {
      assert next.out[..0] == [] && Entries([]) == [];
    } else {
      EntriesNext(pc.out, pc.next);
    }
    assert s.writer == Some(p);
    HolderKeepsInv(s, start, p, next, t);
  }

  /** The rename puts the whole new contents in place at once. */
  lemma RenameKeepsInv(s: State, start: seq<Line>, p: nat, t: State)
    requires Inv(s, start) && Step(s, p, Rename) == Some(t)
    ensures Inv(t, start)
  {
    hide Legal, Records, After, Answer, Replay, LockInv;
    var pc := s.procs[p];
    assert ProcessInv(pc, View(s.ledger), s.ledger, s.temp);
    assert pc.out[..pc.next] == pc.out;
    CommitKeepsInv(s, start, p, Event(p, pc.op, pc.result), t);
  }

  lemma StepKeepsInv(s: State, start: seq<Line>, p: nat, a: Action, t: State)
    requires Inv(s, start) && Step(s, p, a) == Some(t)
    ensures Inv(t, start)
  {
    hide Step, Inv;
    match a
    case Request(_) => LockStepKeepsInv(s, start, p, a, t);
    case Acquire => LockStepKeepsInv(s, start, p, a, t);
    case Release => LockStepKeepsInv(s, start, p, a, t);
    case Crash => LockStepKeepsInv(s, start, p, a, t);
    case OpenForRead => ReadLineKeepsInv(s, start, p, a, t);
    case ReadLine => ReadLineKeepsInv(s, start, p, a, t);
    case EndOfFile => EndOfFileKeepsInv(s, start, p, t);
    case OpenForAppend => AppendStepKeepsInv(s, start, p, a, t);
    case WriteBody => AppendStepKeepsInv(s, start, p, a, t);
    case WriteNewline => AppendStepKeepsInv(s, start, p, a, t);
    case OpenTemp => TempStepKeepsInv(s, start, p, a, t);
    case WriteTemp => TempStepKeepsInv(s, start, p, a, t);
    case Rename => RenameKeepsInv(s, start, p, t);
  }

  lemma {:induction false} RunKeepsInv(s: State, start: seq<Line>, schedule: seq<Turn>)
    requires Inv(s, start) && Run(s, schedule).Some?
    ensures Inv(Run(s, schedule).value, start)
  {
    hide Step, Inv;
    if schedule != [] {
      var n := |schedule| - 1;
      RunKeepsInv(s, start, schedule[..n]);
      StepKeepsInv(Run(s, schedule[..n]).value, start, schedule[n].pid, schedule[n].action, Run(s, schedule).value);
    }
  }

  lemma InitIsInv(s: State, start: seq<Line>)
    requires Init(s, start)
    ensures Inv(s, start)
  {
  }

  // ---------- What every schedule guarantees ----------

  /** Any interleaving leaves the ledger as its logged operations leave it one at a time, and every
      logged operation was answered as it would have been alone at its place in the log. */
  lemma LedgerIsAtomic(s: State, start: seq<Line>, schedule: seq<Turn>)
    requires Init(s, start) && Run(s, schedule).Some?
    ensures var t := Run(s, schedule).value;
            && Legal(start, t.log)
            && View(t.ledger) == Replay(start, t.log)
            && ((forall p :: 0 <= p < |t.procs| ==> !t.procs[p].TailWritten?) ==>
                  ReadBack(t.ledger) == Replay(start, t.log))
  {
    hide Step, Run, Legal, Replay, Init;
    InitIsInv(s, start);
    RunKeepsInv(s, start, schedule);
  }

  /** The log records exactly the completions: a step that lets a process leave with an answer logs that
      operation and that answer, and no other step logs anything. */
  lemma CompletionsAreLogged(s: State, p: nat, a: Action, t: State)
    requires Step(s, p, a) == Some(t)
    ensures p < |s.procs| == |t.procs|
    ensures t.log == if t.procs[p].Leaving? && !s.procs[p].Leaving?
                     then s.log + [Event(p, t.procs[p].op, t.procs[p].result)] else s.log
    ensures s.procs[p].Leaving? ==> t.procs[p].Idle?
  {
  }

  predicate InRewrite(op: Op) { op.Rewrite? || op.Filter? }

  /** `p` is inside its rewrite of the contents `was`, which it has replaced iff it is leaving. */
  ghost predicate Midway(s: State, p: nat, op: Op, was: seq<Line>) {
    && p < |s.procs| && HoldsExclusive(s.procs[p]) && s.procs[p].op == op
    && View(s.ledger) == if s.procs[p].Leaving? then After(was, op) else was
  }

  lemma OthersCannotDisturb(s: State, start: seq<Line>, p: nat, op: Op, was: seq<Line>, q: nat, a: Action, t: State)
    requires Inv(s, start) && Midway(s, p, op, was) && q != p && Step(s, q, a) == Some(t)
    ensures Midway(t, p, op, was) && t.ledger == s.ledger
  {
    hide Legal, Replay, After, ProcessInv;
    OthersOutside(s, p);
    assert t.procs[p] == s.procs[p];
  }

  lemma OwnStepsGoOldToNew(s: State, start: seq<Line>, p: nat, op: Op, was: seq<Line>, a: Action, t: State)
    requires Inv(s, start) && Midway(s, p, op, was) && InRewrite(op)
    requires Step(s, p, a) == Some(t) && !a.Release? && !a.Crash?
    ensures Midway(t, p, op, was)
  {
    hide Legal, Replay, Records, LockInv;
    var pc := s.procs[p];
    assert ProcessInv(pc, View(s.ledger), s.ledger, s.temp);
    if a.Rename? {
      assert pc.out[..pc.next] == pc.out;
    } else if a.EndOfFile? {
      ReadersSeeWholeLines(s, start, p);
      assert View(s.ledger)[..pc.next] == View(s.ledger);
    } else {
      hide ProcessInv, After, Answer;
      assert View(t.ledger) == View(s.ledger) && !t.procs[p].Leaving?;
    }
  }

  lemma {:induction false} RewriteIsOldOrNew(s: State, start: seq<Line>, p: nat, op: Op, schedule: seq<Turn>)
    requires Inv(s, start) && p < |s.procs| && s.procs[p] == Entered(op) && InRewrite(op)
    requires forall i :: 0 <= i < |schedule| && schedule[i].pid == p ==>
               !schedule[i].action.Release? && !schedule[i].action.Crash?
    requires Run(s, schedule).Some?
    ensures Midway(Run(s, schedule).value, p, op, View(s.ledger))
  {
    hide Step, Inv, After;
    if schedule == [] {
    } else {
      var n := |schedule| - 1;
      var u := Run(s, schedule[..n]).value;
      RewriteIsOldOrNew(s, start, p, op, schedule[..n]);
      RunKeepsInv(s, start, schedule[..n]);
      var turn := schedule[n];
      if turn.pid == p {
        OwnStepsGoOldToNew(u, start, p, op, View(s.ledger), turn.action, Run(s, schedule).value);
      } else {
        OthersCannotDisturb(u, start, p, op, View(s.ledger), turn.pid, turn.action, Run(s, schedule).value);
      }
    }
  }

  /** A crash anywhere inside a rewrite, whatever other processes did meanwhile, leaves exactly the
      contents it started from or exactly the new ones, with no line cut short. */
  lemma CrashLeavesOldOrNew(s: State, start: seq<Line>, p: nat, op: Op, schedule: seq<Turn>, t: State)
    requires Inv(s, start) && p < |s.procs| && s.procs[p] == Entered(op) && InRewrite(op)
    requires forall i :: 0 <= i < |schedule| && schedule[i].pid == p ==>
               !schedule[i].action.Release? && !schedule[i].action.Crash?
    requires Run(s, schedule).Some? && Step(Run(s, schedule).value, p, Crash) == Some(t)
    ensures ReadBack(t.ledger) == View(s.ledger) || ReadBack(t.ledger) == After(View(s.ledger), op)
  {
    hide After, Run, Legal, Replay, ProcessInv;
    RewriteIsOldOrNew(s, start, p, op, schedule);
    RunKeepsInv(s, start, schedule);
    var u := Run(s, schedule).value;
    OthersOutside(u, p);
  }

  // ---------- Recording and probing ----------

  function Probe(inputs: Inputs, loaded: seq<Record>): (hits: seq<Record>)
  {
    if !SpecificEnough(inputs.spans, inputs.contract) then [] else Matching(ComputeFingerprint(inputs), loaded)
  }

  function Matching(fp: string, loaded: seq<Record>): (hits: seq<Record>) {
    if loaded == [] then []
    else (if loaded[0].fingerprint == fp then [loaded[0]] else []) + Matching(fp, loaded[1..])
  }

  lemma {:induction false} MatchingIs(fp: string, loaded: seq<Record>)
    ensures forall r :: r in Matching(fp, loaded) <==> r in loaded && r.fingerprint == fp
  {
    if loaded != [] {
      MatchingIs(fp, loaded[1..]);
      assert loaded == [loaded[0]] + loaded[1..];
    }
  }

  lemma {:induction false} EntryIsRecord(lines: seq<Line>, r: Record)
    ensures Entry(r) in lines <==> r in Records(lines)
  {
    if lines != [] {
      var n := |lines| - 1;
      EntryIsRecord(lines[..n], r);
      assert lines == lines[..n] + [lines[n]];
    }
  }

  /** What the analyzer concluded about a family. */
  datatype Verdict = RejectedSignal(reason: string) | NotActionable(note: Option<string>) | Addressed

  datatype Candidate = Candidate(familyId: string, lens: string, kind: string, spans: Option<seq<string>>,
                                 contract: Option<(string, string, string)>)

  function CandidateInputs(c: Candidate): (inputs: Inputs) {
    Inputs(c.lens, c.kind,
           if c.spans.Some? then c.spans.value else [],
           if c.contract.Some?
           then Some(c.contract.value.0 + "." + c.contract.value.1 + "." + c.contract.value.2)
           else None)
  }

  /** The record the analyzer's hook appends, if it appends one. */
  function HookRecord(c: Candidate, v: Verdict): (r: Option<Record>)
  {
    var inputs := CandidateInputs(c);
    if v.Addressed? || !SpecificEnough(inputs.spans, inputs.contract) then None
    else
      var reason := if v.RejectedSignal? then v.reason
                    else if v.note.Some? then v.note.value
                    else "(analyzer did not provide a reason)";
      Some(Record(c.familyId, c.lens, c.kind, inputs.spans, inputs.contract, ComputeFingerprint(inputs), reason))
  }

  lemma {:induction false} EntrySurvives(start: seq<Line>, log: seq<Event>, i: nat, j: nat, r: Record)
    requires i < j <= |log| && log[i].op == Append(r)
    requires forall k :: i < k < j && InRewrite(log[k].op) ==> Entry(r) in Replay(start, log[..k + 1])
    ensures Entry(r) in Replay(start, log[..j])
    decreases j
  {
    assert log[..j][..j - 1] == log[..j - 1];
    if i < j - 1 {
      EntrySurvives(start, log, i, j - 1, r);
      assert log[..j - 1 + 1] == log[..j];
    }
  }

  /** A rejection the hook appended is found by every later probe for the same family, however its spans
      are ordered, repeated, padded or interleaved with blanks, until a rewrite drops it. This is over any
      schedule of any number of processes. */
  lemma RecordedRejectionIsFound(s: State, start: seq<Line>, schedule: seq<Turn>, c: Candidate, v: Verdict,
                                 i: nat, j: nat, query: Inputs)
    requires Init(s, start) && Run(s, schedule).Some?
    requires HookRecord(c, v).Some?
    requires var log := Run(s, schedule).value.log; var r := HookRecord(c, v).value;
             && i < j < |log| && log[i].op == Append(r) && log[j].op == Load
             && forall k :: i < k < j && InRewrite(log[k].op) ==> Entry(r) in Replay(start, log[..k + 1])
    requires SameFamily(CandidateInputs(c), query)
    ensures var log := Run(s, schedule).value.log;
            log[j].result.Loaded? && HookRecord(c, v).value in Probe(query, log[j].result.records)
  {
    hide Run, Init, Replay, ComputeFingerprint, SpecificEnough, CandidateInputs, SameFamily;
    var log, r := Run(s, schedule).value.log, HookRecord(c, v).value;
    LedgerIsAtomic(s, start, schedule);
    EntrySurvives(start, log, i, j, r);
    EntryIsRecord(Replay(start, log[..j]), r);
    assert log[j].result == Answer(Replay(start, log[..j]), log[j].op);
    SameFamilySameFingerprint(CandidateInputs(c), query);
    MatchingIs(ComputeFingerprint(query), log[j].result.records);
  }
}
