/** What every reachable state of the interleaved processes satisfies. */
module InterleavingInvariant {
  import opened Wrappers
  import opened HashChain
  import opened Journal
  import opened Rollback
  import opened Interleaving

  // ---- one process

  function Base(pr: Proc): nat { if pr.todo.Some? then 1 else 0 }

  /** The depth of the journal lock at each point of the program. */
  function DepthOf(pr: Proc): nat {
    match pr.pc
    case Idle => 0
    case Dead => 0
    case Opening => 0
    case Scanning(section) => if section.Enter? then 1 else 2
    case Treating => 1
    case Closing => 1
    case Writing(_, section, _) => Base(pr) + (if section.Enter? then 0 else 1)
    case _ => Base(pr)
  }

  /** Between taking the operation lock and giving it up. */
  predicate Critical(pr: Proc) {
    match pr.pc
    case Writing(_, _, after) => after.ToApplying? || after.ToSwitch? || after.ToUnlock?
    case Stamping(_, _) => true
    case Switching(_, _) => true
    case Checking(_, _) => true
    case Unlocking(_, _) => true
    case _ => false
  }

  /** A nested rollback works on the head of recovery's list. */
  predicate ForHead(pr: Proc, g: int) {
    pr.todo.Some? ==> pr.todo.value != [] && NeedsSwitchBack(pr.todo.value[0]) && g == HeadGeneration(pr)
  }

  predicate Shape(pr: Proc) {
    pr.depth == DepthOf(pr) &&
    match pr.pc
    case Idle => pr.todo.None?
    case Dead => pr.todo.None?
    case Opening => pr.todo.None?
    case Scanning(section) => !section.Write? && (pr.todo.Some? <==> section.Leave?)
    case Treating => pr.todo.Some?
    case Closing => pr.todo == Some([])
    case Validating(target) => pr.todo.Some? ==> target.Some? && ForHead(pr, target.value)
    case Noting(g) => ForHead(pr, g)
    case Locking(_, g) => ForHead(pr, g)
    case Stamping(_, g) => ForHead(pr, g)
    case Switching(_, g) => ForHead(pr, g)
    case Checking(_, g) => ForHead(pr, g)
    case Unlocking(_, g) => ForHead(pr, g)
    case Writing(step, _, after) => WritingShape(pr, step, after)
  }

  predicate WritingShape(pr: Proc, step: Step, after: Then) {
    match after
    case ToApplying(tx, g) => step.Start? && step.id == tx && ForHead(pr, g)
    case ToSwitch(tx, g) => step.Update? && step.id == tx && ForHead(pr, g)
    case ToUnlock(code, g) => step.Update? && step.state == (if code == 0 then Committed else Failed) && ForHead(pr, g)
    case ToNext(action, _) =>
      && pr.todo.Some? && pr.todo.value != [] && step.Update? && step.id == pr.todo.value[0].id && step.state == StateFor(action)
      && (step.state == RolledBack ==> NeedsSwitchBack(pr.todo.value[0]) && action.g == HeadGeneration(pr))
      && (action == MarkedFailed <==> NoWayBack(pr.todo.value[0]))
    case ToIdle => step.Update? && pr.todo.None?
  }

  // ---- locks and copies

  ghost predicate LocksOk(s: State, p: nat)
    requires p < |s.procs|
  {
    && (s.procs[p].depth > 0 <==> s.journalHolder == Some(p))
    && (Critical(s.procs[p]) <==> s.opHolder == Some(p))
  }

  /** A copy about to be written back is still what is on disk. */
  ghost predicate CopyOk(s: State, p: nat)
    requires p < |s.procs|
  {
    var pc := s.procs[p].pc;
    pc.Writing? && pc.section.Write? ==> pc.section.copy == s.book
  }

  // ---- the active generation

  /** A verified switch still stands: until the lock is given up, and in recovery until the transaction is marked. */
  predicate Claims(pr: Proc, g: nat) {
    match pr.pc
    case Writing(_, _, ToUnlock(code, h)) => code == 0 && h == g
    case Unlocking(code, h) => code == 0 && h == g
    case Writing(_, section, ToNext(RolledBackTo(h), _)) => !section.Leave? && h == g
    case Writing(_, section, ToNext(AlreadyAt(h), calm)) => !section.Leave? && calm && h == g
    case _ => false
  }

  ghost predicate TruthOk(s: State, p: nat)
    requires p < |s.procs|
  {
    forall g: nat :: Claims(s.procs[p], g) ==> s.active == Some(g) && Quiet(s, p)
  }

  // ---- dangling transactions during recovery

  function Ids(j: seq<Entry>): set<string> { set e | e in j :: e.id }

  /** Which transactions may still dangle while this process recovers. */
  function Unsettled(pr: Proc): set<string> {
    var todo := if pr.todo.Some? then pr.todo.value else [];
    match pr.pc
    case Writing(step, section, after) =>
      if after.ToNext? && section.Leave? then Ids(if todo == [] then [] else todo[1..])
      else if after.ToUnlock? && section.Leave? then Ids(todo)
      else Ids(todo) + {step.id}
    case Switching(tx, _) => Ids(todo) + {tx}
    case Checking(tx, _) => Ids(todo) + {tx}
    case _ => Ids(todo)
  }

  ghost predicate DanglingOk(s: State, p: nat)
    requires p < |s.procs|
  {
    s.procs[p].todo.Some? ==> forall e :: e in s.book && IsDangling(e) ==> e.id in Unsettled(s.procs[p])
  }

  // ---- ids and time stamps

  function StartIds(log: seq<Step>): set<string> { set s | s in Starts(log) :: s.id }

  predicate Stamped(pr: Proc) { pr.pc.Writing? && pr.pc.step.Start? && !pr.pc.section.Leave? }

  /** A stamped start that is not yet written: its id is new and its time is not before any written one. */
  ghost predicate PendingOk(s: State, p: nat)
    requires p < |s.procs|
  {
    Stamped(s.procs[p]) ==>
      var step := s.procs[p].pc.step;
      && step.id in s.used && ':' !in step.id && step.id !in StartIds(s.log) && step.now <= s.clock
      && forall e :: e in Starts(s.log) ==> e.now <= step.now
  }

  ghost predicate Global(c: Config, s: State) {
    && s.book == Journal.Run(c.digest, s.log) && DistinctIds(s.book)
    && FreshStarts(s.log) && ClockMonotone(s.log)
    && StartIds(s.log) <= s.used && forall e :: e in Starts(s.log) ==> e.now <= s.clock
  }

  ghost predicate ProcOk(s: State, p: nat)
    requires p < |s.procs|
  {
    Shape(s.procs[p]) && LocksOk(s, p) && CopyOk(s, p) && TruthOk(s, p) && DanglingOk(s, p) && PendingOk(s, p)
  }

  ghost predicate Inv(c: Config, s: State) {
    && Global(c, s)
    && (forall p :: 0 <= p < |s.procs| ==> ProcOk(s, p))
    && (s.journalHolder.Some? ==> s.journalHolder.value < |s.procs|)
    && (s.opHolder.Some? ==> s.opHolder.value < |s.procs|)
  }

  // ---- what a step of q leaves alone

  ghost predicate Frame(s: State, t: State, q: nat)
    requires q < |s.procs|
  {
    && |t.procs| == |s.procs| && (forall p :: 0 <= p < |s.procs| && p != q ==> t.procs[p] == s.procs[p])
    && (t.book != s.book || t.log != s.log ==> s.procs[q].depth > 0)
    && (t.active != s.active ==> s.procs[q].pc.Switching?)
    && (t.journalHolder == s.journalHolder || (s.journalHolder.None? && t.journalHolder == Some(q))
        || (s.journalHolder == Some(q) && t.journalHolder.None?))
    && (t.opHolder == s.opHolder || (s.opHolder.None? && t.opHolder == Some(q)) || (s.opHolder == Some(q) && t.opHolder.None?))
    && (t.procs[q].pc.Switching? ==> Critical(s.procs[q]) && (s.procs[q].depth > 0 || s.procs[q].pc.Switching?))
    && (Starts(t.log) != Starts(s.log) ==> Critical(s.procs[q]))
    && s.clock <= t.clock && s.used <= t.used
  }

  lemma OtherKeeps(s: State, t: State, q: nat, p: nat)
    requires q < |s.procs| && p < |s.procs| && p != q
    requires Frame(s, t, q) && ProcOk(s, p) && LocksOk(s, q)
    ensures ProcOk(t, p)
  {
    OtherKeepsTruth(s, t, q, p);
    assert DanglingOk(t, p);
    assert CopyOk(t, p);
  }

  lemma OtherKeepsTruth(s: State, t: State, q: nat, p: nat)
    requires q < |s.procs| && p < |s.procs| && p != q
    requires Frame(s, t, q) && ProcOk(s, p) && LocksOk(s, q)
    ensures TruthOk(t, p)
  {
    forall g: nat | Claims(t.procs[p], g) ensures t.active == Some(g) && Quiet(t, p) {
      assert Quiet(s, p);
      assert Critical(s.procs[p]) || s.procs[p].depth > 0;
    }
  }

  // ---- the journal under one write

  lemma UpdatedMember(j: seq<Entry>, id: string, state: TxState, now: nat, details: Details, e: Entry)
    requires DistinctIds(j) && e in Updated(j, id, state, now, details)
    ensures if e.id == id then e.state == state else e in j
  {
    var r := Updated(j, id, state, now, details);
    var i :| 0 <= i < |r| && r[i] == e;
    var k := Find(j, id);
    if i != k { assert r[i] == j[i]; }
  }

  lemma StartedMember(d: Digest, j: seq<Entry>, id: string, operation: string, now: nat, details: Details, e: Entry)
    requires e in Started(d, j, id, operation, now, details)
    ensures e.id == id || e in j
  {
  }

  lemma ApplyDistinct(d: Digest, j: seq<Entry>, step: Step)
    requires DistinctIds(j)
    ensures DistinctIds(Apply(d, j, step))
  {
    var r := Apply(d, j, step);
    var k := Find(j, step.id);
    assert forall i :: 0 <= i < |j| ==> r[i].id == j[i].id;
    if step.Start? && k == |j| { assert r == j + [r[|j|]]; }
  }

  lemma LogGrows(log: seq<Step>, step: Step)
    ensures Starts(log + [step]) == Starts(log) + (if step.Start? then [step] else [])
  {
    assert (log + [step])[..|log|] == log;
  }

  lemma WriteKeepsGlobal(c: Config, s: State, t: State, step: Step)
    requires Global(c, s)
    requires t.log == s.log + [step] && t.book == Apply(c.digest, s.book, step) && t.used == s.used && t.clock == s.clock
    requires step.Start? ==> step.id in s.used && ':' !in step.id && step.id !in StartIds(s.log) && step.now <= s.clock
                             && forall e :: e in Starts(s.log) ==> e.now <= step.now
    ensures Global(c, t)
  {
    assert t.log[..|s.log|] == s.log;
    ApplyDistinct(c.digest, s.book, step);
    LogGrows(s.log, step);
    var few, more := Starts(s.log), Starts(t.log);
    forall i | 0 <= i < |few| ensures more[i] == few[i] && few[i].id in StartIds(s.log) && few[i].now <= s.clock {
      assert few[i] in few;
    }
    assert StartIds(t.log) <= s.used;
  }

  // ---- one step of a process

  lemma LeavingFrame(c: Config, s: State, q: nat)
    requires q < |s.procs| && ProcOk(s, q) && s.procs[q].pc.Writing? && s.procs[q].pc.section.Leave?
    ensures Frame(s, MoveWriting(c, s, q), q)
  {
    ContinuedShape(s.procs[q], s.clock);
  }

  lemma WritingFrame(c: Config, s: State, q: nat)
    requires q < |s.procs| && ProcOk(s, q) && s.procs[q].pc.Writing? && !Blocked(s, q)
    ensures Frame(s, MoveWriting(c, s, q), q)
  {
    match s.procs[q].pc.section
    case Enter =>
    case Read =>
    case Write(_) => LogGrows(s.log, s.procs[q].pc.step);
    case Leave => LeavingFrame(c, s, q);
  }

  lemma RollbackFrame(c: Config, s: State, q: nat, x: Choice)
    requires q < |s.procs| && ProcOk(s, q) && CanRun(s, q, x) && !s.procs[q].pc.Writing?
    ensures Frame(s, MoveRollback(c, s, q, x), q)
  {
  }

  lemma RecoveryFrame(c: Config, s: State, q: nat)
    requires q < |s.procs| && ProcOk(s, q) && Busy(s.procs[q]) && !Blocked(s, q) && !s.procs[q].pc.Writing?
    ensures Frame(s, MoveRecovery(c, s, q), q)
  {
  }

  lemma WritingShapeKept(c: Config, s: State, q: nat)
    requires q < |s.procs| && ProcOk(s, q) && s.procs[q].pc.Writing? && !Blocked(s, q)
    ensures Shape(MoveWriting(c, s, q).procs[q]) && CopyOk(MoveWriting(c, s, q), q)
  {
    if s.procs[q].pc.section.Leave? { ContinuedShape(s.procs[q], s.clock); }
  }

  lemma ContinuedShape(pr: Proc, now: nat)
    requires Shape(pr) && pr.pc.Writing? && pr.pc.section.Leave?
    ensures var r := Continued(pr, now);
            Shape(r.(depth := pr.depth - 1)) && (r.pc.Writing? ==> r.pc.section.Enter?) && (Critical(r) <==> Critical(pr))
  {
  }

  lemma WritingLocksKept(c: Config, s: State, q: nat)
    requires q < |s.procs| && ProcOk(s, q) && s.procs[q].pc.Writing? && !Blocked(s, q)
    ensures LocksOk(MoveWriting(c, s, q), q)
  {
    if s.procs[q].pc.section.Leave? { ContinuedShape(s.procs[q], s.clock); }
  }

  lemma WritingTruthKept(c: Config, s: State, q: nat)
    requires q < |s.procs| && ProcOk(s, q) && s.procs[q].pc.Writing? && !Blocked(s, q)
    ensures var t := MoveWriting(c, s, q); TruthOk(t, q)
  {
    var t := MoveWriting(c, s, q);
    forall g: nat | Claims(t.procs[q], g) ensures t.active == Some(g) && Quiet(t, q) {
      assert Claims(s.procs[q], g);
    }
  }

  lemma WritingDanglingKept(c: Config, s: State, q: nat)
    requires q < |s.procs| && ProcOk(s, q) && s.procs[q].pc.Writing? && !Blocked(s, q) && DistinctIds(s.book)
    ensures DanglingOk(MoveWriting(c, s, q), q)
  {
    var pr := s.procs[q];
    if pr.todo.Some? {
      match pr.pc.section
      case Enter =>
      case Read =>
      case Write(_) => WrittenBackDangling(c.digest, s.book, pr);
      case Leave => ContinuedUnsettled(pr, s.clock);
    }
  }

  lemma WrittenBackDangling(d: Digest, book: seq<Entry>, pr: Proc)
    requires Shape(pr) && pr.pc.Writing? && pr.pc.section.Write? && pr.todo.Some? && DistinctIds(book)
    requires forall e :: e in book && IsDangling(e) ==> e.id in Unsettled(pr)
    ensures forall e :: e in Apply(d, book, pr.pc.step) && IsDangling(e) ==> e.id in Unsettled(pr.(pc := pr.pc.(section := Leave)))
  {
    forall e | e in Apply(d, book, pr.pc.step) && IsDangling(e)
      ensures e.id in Unsettled(pr.(pc := pr.pc.(section := Leave)))
    {
      WrittenDangling(d, book, pr.pc.step, e);
      LeavesUnsettled(pr, e.id);
    }
  }

  lemma ContinuedUnsettled(pr: Proc, now: nat)
    requires Shape(pr) && pr.pc.Writing? && pr.pc.section.Leave? && pr.todo.Some?
    ensures Unsettled(pr) <= Unsettled(Continued(pr, now))
  {
  }

  /** Settling a transaction takes it, and nothing else, off the unsettled ones. */
  lemma LeavesUnsettled(pr: Proc, id: string)
    requires Shape(pr) && pr.pc.Writing? && pr.pc.section.Write? && pr.todo.Some? && id in Unsettled(pr)
    ensures id in Unsettled(pr.(pc := pr.pc.(section := Leave)))
         || (id == pr.pc.step.id && (pr.pc.after.ToNext? || pr.pc.after.ToUnlock?))
  {
    HeadOrTail(pr.todo.value, id);
  }

  lemma WrittenDangling(d: Digest, j: seq<Entry>, step: Step, e: Entry)
    requires DistinctIds(j) && e in Apply(d, j, step) && IsDangling(e)
    ensures e.id == step.id || e in j
    ensures step.Update? && step.state != Pending && step.state != Applying ==> e.id != step.id
  {
    match step
    case Start(id, op, now, details) => StartedMember(d, j, id, op, now, details, e);
    case Update(id, state, now, details) => UpdatedMember(j, id, state, now, details, e);
  }

  lemma HeadOrTail(todo: seq<Entry>, id: string)
    ensures id in Ids(todo) ==> todo != [] && (id == todo[0].id || id in Ids(todo[1..]))
  {
    if id in Ids(todo) {
      var e :| e in todo && e.id == id;
      assert todo == [todo[0]] + todo[1..];
    }
  }
}
