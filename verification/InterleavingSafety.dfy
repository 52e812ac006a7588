/** The invariant holds in every reachable state, and what follows from it. */
module InterleavingSafety {
  import opened Wrappers
  import opened HashChain
  import opened Journal
  import opened Rollback
  import opened Interleaving
  import opened InterleavingInvariant

  // ---- the other kinds of step keep a process's own conditions

  lemma DanglingCovers(j: seq<Entry>, e: Entry)
    requires e in j && IsDangling(e)
    ensures e.id in Ids(Dangling(j))
  {
    assert e in Dangling(j);
  }

  lemma RecoverySelf(c: Config, s: State, q: nat)
    requires q < |s.procs| && ProcOk(s, q) && !Blocked(s, q)
    requires s.procs[q].pc.Opening? || s.procs[q].pc.Scanning? || s.procs[q].pc.Closing?
    ensures ProcOk(MoveRecovery(c, s, q), q)
  {
    var t := MoveRecovery(c, s, q);
    if s.procs[q].pc.Scanning? && s.procs[q].pc.section.Read? {
      forall e | e in t.book && IsDangling(e) ensures e.id in Unsettled(t.procs[q]) { DanglingCovers(s.book, e); }
    }
  }

  lemma TreatingSelf(c: Config, s: State, q: nat)
    requires q < |s.procs| && ProcOk(s, q) && s.procs[q].pc.Treating?
    ensures ProcOk(MoveRecovery(c, s, q), q)
  {
    var t := MoveRecovery(c, s, q);
    var todo := s.procs[q].todo.value;
    if todo == [] {
      assert t.procs[q] == s.procs[q].(pc := Closing);
    } else {
      assert t.procs[q] == Treated(s, q);
      TreatedShape(s, q);
      assert Unsettled(s.procs[q]) <= Unsettled(t.procs[q]);
    }
  }

  lemma TreatedShape(s: State, q: nat)
    requires q < |s.procs| && ProcOk(s, q) && s.procs[q].pc.Treating? && s.procs[q].todo.value != []
    ensures var pr := Treated(s, q);
            && Shape(pr) && pr.todo == s.procs[q].todo && pr.depth == s.procs[q].depth && !Critical(pr) && !Stamped(pr)
            && (pr.pc.Writing? ==> pr.pc.section == Enter)
            && forall g: nat :: Claims(pr, g) ==> s.active == Some(g) && Quiet(s, q)
  {
  }

  /** Coming back from execute_rollback. */
  lemma ReturnedShape(pr: Proc, code: int, now: nat)
    requires pr.depth == Base(pr) && ForHead(pr, HeadGeneration(pr))
    ensures var r := Returned(pr, code, now);
            && Shape(r) && r.todo == pr.todo && r.depth == pr.depth && !Critical(r) && !Stamped(r)
            && (r.pc.Writing? ==> r.pc.section == Enter)
            && Unsettled(r) >= Ids(if pr.todo.Some? then pr.todo.value else [])
            && forall g: nat :: Claims(r, g) ==> code == 0 && pr.todo.Some? && g == HeadGeneration(pr)
  {
  }

  lemma EnteringSelf(c: Config, s: State, q: nat, x: Choice)
    requires q < |s.procs| && ProcOk(s, q) && CanRun(s, q, x) && DistinctIds(s.book)
    requires s.procs[q].pc.Validating? || s.procs[q].pc.Noting?
    ensures ProcOk(MoveRollback(c, s, q, x), q)
  {
    ReturnedShape(s.procs[q], 1, s.clock);
    match s.procs[q].pc
    case Validating(target) => SimulatedTarget(c.history, s.active, target);
    case Noting(_) =>
  }

  lemma SimulatedTarget(history: seq<nat>, active: Option<nat>, target: Option<int>)
    ensures Simulate(history, active, target).Target? && target.Some? ==> Simulate(history, active, target).g == target.value
  {
  }

  lemma LockingSelf(c: Config, s: State, q: nat, x: Choice)
    requires q < |s.procs| && ProcOk(s, q) && CanRun(s, q, x) && Global(c, s) && (s.procs[q].pc.Locking? || s.procs[q].pc.Stamping?)
    ensures ProcOk(MoveRollback(c, s, q, x), q)
  {
    ReturnedShape(s.procs[q], 126, s.clock);
  }

  lemma SwitchingSelf(c: Config, s: State, q: nat, x: Choice)
    requires q < |s.procs| && ProcOk(s, q) && CanRun(s, q, x)
    requires s.procs[q].pc.Switching? || s.procs[q].pc.Checking?
    requires forall p :: 0 <= p < |s.procs| && p != q ==> ProcOk(s, p)
    ensures ProcOk(MoveRollback(c, s, q, x), q)
  {
    var t := MoveRollback(c, s, q, x);
    forall p | 0 <= p < |s.procs| && p != q ensures !s.procs[p].pc.Switching? {
      assert ProcOk(s, p) && LocksOk(s, q) && Critical(s.procs[q]);
    }
    assert Quiet(t, q);
  }

  lemma UnlockingSelf(c: Config, s: State, q: nat, x: Choice)
    requires q < |s.procs| && ProcOk(s, q) && CanRun(s, q, x) && s.procs[q].pc.Unlocking?
    ensures ProcOk(MoveRollback(c, s, q, x), q)
  {
    var pr, t := s.procs[q], MoveRollback(c, s, q, x);
    ReturnedShape(pr, pr.pc.code, s.clock);
    forall g: nat | Claims(t.procs[q], g) ensures t.active == Some(g) && Quiet(t, q) {
      assert Claims(pr, g);
    }
  }

  lemma WritingSelf(c: Config, s: State, q: nat)
    requires q < |s.procs| && ProcOk(s, q) && s.procs[q].pc.Writing? && !Blocked(s, q) && DistinctIds(s.book)
    ensures ProcOk(MoveWriting(c, s, q), q)
  {
    WritingShapeKept(c, s, q);
    WritingLocksKept(c, s, q);
    WritingTruthKept(c, s, q);
    WritingDanglingKept(c, s, q);
    WritingPendingKept(c, s, q);
  }

  lemma WritingPendingKept(c: Config, s: State, q: nat)
    requires q < |s.procs| && ProcOk(s, q) && s.procs[q].pc.Writing?
    ensures PendingOk(MoveWriting(c, s, q), q)
  {
  }

  // ---- every event keeps the invariant

  lemma RunSelf(c: Config, s: State, q: nat, x: Choice)
    requires Inv(c, s) && CanRun(s, q, x)
    ensures ProcOk(Moved(c, s, q, x), q) && Frame(s, Moved(c, s, q, x), q)
  {
    assert ProcOk(s, q);
    var pc := s.procs[q].pc;
    if pc.Writing? {
      WritingSelf(c, s, q);
      WritingFrame(c, s, q);
    } else if pc.Opening? || pc.Scanning? || pc.Treating? || pc.Closing? {
      RecoveryFrame(c, s, q);
      if pc.Treating? { TreatingSelf(c, s, q); } else { RecoverySelf(c, s, q); }
    } else {
      RollbackFrame(c, s, q, x);
      if pc.Validating? || pc.Noting? { EnteringSelf(c, s, q, x); }
      else if pc.Locking? || pc.Stamping? { LockingSelf(c, s, q, x); }
      else if pc.Unlocking? { UnlockingSelf(c, s, q, x); }
      else { SwitchingSelf(c, s, q, x); }
    }
  }

  /** Apart from the writing back of a copy, a step leaves journal and log alone. */
  lemma OnlyWritesTouchJournal(c: Config, s: State, q: nat, x: Choice)
    requires q < |s.procs| && !(s.procs[q].pc.Writing? && s.procs[q].pc.section.Write?)
    ensures var t := Moved(c, s, q, x); t.book == s.book && t.log == s.log && t.clock == s.clock && s.used <= t.used
  {
  }

  lemma RunGlobal(c: Config, s: State, q: nat, x: Choice)
    requires Inv(c, s) && CanRun(s, q, x)
    ensures Global(c, Moved(c, s, q, x))
  {
    assert ProcOk(s, q);
    var pc := s.procs[q].pc;
    if pc.Writing? && pc.section.Write? {
      WriteKeepsGlobal(c, s, MoveWriting(c, s, q), pc.step);
    } else {
      OnlyWritesTouchJournal(c, s, q, x);
    }
  }

  lemma FrameKeeps(c: Config, s: State, t: State, q: nat)
    requires Inv(c, s) && q < |s.procs| && Frame(s, t, q) && ProcOk(t, q) && Global(c, t)
    ensures Inv(c, t)
  {
    assert ProcOk(s, q);
    forall p | 0 <= p < |t.procs| ensures ProcOk(t, p) {
      if p != q {
        assert ProcOk(s, p);
        OtherKeeps(s, t, q, p);
      }
    }
  }

  lemma BeginSelf(s: State, q: nat, call: Call)
    requires q < |s.procs| && ProcOk(s, q) && s.procs[q].pc.Idle?
    ensures ProcOk(Begun(s, q, call), q) && Frame(s, Begun(s, q, call), q)
  {
  }

  lemma CrashSelf(s: State, q: nat)
    requires q < |s.procs| && ProcOk(s, q)
    ensures ProcOk(Crashed(s, q), q) && Frame(s, Crashed(s, q), q)
  {
  }

  lemma TickKeeps(s: State, now: nat, p: nat)
    requires p < |s.procs| && ProcOk(s, p) && s.clock <= now
    ensures ProcOk(s.(clock := now), p)
  {
  }

  lemma NextKeeps(c: Config, s: State, e: Event)
    requires Inv(c, s) && Enabled(s, e)
    ensures Inv(c, Next(c, s, e))
  {
    match e
    case Begin(p, call) =>
      assert ProcOk(s, p);
      BeginSelf(s, p, call);
      FrameKeeps(c, s, Next(c, s, e), p);
    case Run(p, x) =>
      RunSelf(c, s, p, x);
      RunGlobal(c, s, p, x);
      FrameKeeps(c, s, Next(c, s, e), p);
    case Crash(p) =>
      assert ProcOk(s, p);
      CrashSelf(s, p);
      FrameKeeps(c, s, Next(c, s, e), p);
    case Tick(now) =>
      forall p | 0 <= p < |s.procs| ensures ProcOk(s.(clock := now), p) {
        assert ProcOk(s, p);
        TickKeeps(s, now, p);
      }
  }

  lemma {:induction false} ReachableInv(c: Config, n: nat, active: Option<nat>, events: seq<Event>)
    requires After(c, n, active, events).Some?
    ensures Inv(c, After(c, n, active, events).value)
  {
    if events != [] {
      ReachableInv(c, n, active, events[..|events| - 1]);
      NextKeeps(c, After(c, n, active, events[..|events| - 1]).value, events[|events| - 1]);
    }
  }

  // ---- what it means

  /** No two processes are ever between taking and giving up the operation lock. */
  lemma MutualExclusion(c: Config, n: nat, active: Option<nat>, events: seq<Event>, p: nat, q: nat)
    requires After(c, n, active, events).Some?
    requires var s := After(c, n, active, events).value;
             p < |s.procs| && q < |s.procs| && Critical(s.procs[p]) && Critical(s.procs[q])
    ensures p == q
  {
    ReachableInv(c, n, active, events);
    var s := After(c, n, active, events).value;
    assert ProcOk(s, p) && ProcOk(s, q);
  }

  /** The journal on disk is what all writes so far give when applied one after the other: none was lost. */
  lemma NoLostUpdate(c: Config, n: nat, active: Option<nat>, events: seq<Event>)
    requires After(c, n, active, events).Some?
    ensures var s := After(c, n, active, events).value;
            s.book == Journal.Run(c.digest, s.log)
  {
    ReachableInv(c, n, active, events);
  }

  /** Because starts are stamped and written under the operation lock, the chain always verifies, whatever the digest. */
  lemma ChainAlwaysVerifies(c: Config, n: nat, active: Option<nat>, events: seq<Event>)
    requires After(c, n, active, events).Some?
    ensures ChainHolds(c.digest, ByTime(Links(After(c, n, active, events).value.book)), Seed())
  {
    ReachableInv(c, n, active, events);
    RunBuilds(c.digest, After(c, n, active, events).value.log);
    OrderedHolds(c.digest, Links(After(c, n, active, events).value.book));
  }

  /** When recovery is about to return, nothing in the journal dangles. */
  lemma RecoveryLeavesNothingDangling(c: Config, n: nat, active: Option<nat>, events: seq<Event>, p: nat)
    requires After(c, n, active, events).Some?
    requires var s := After(c, n, active, events).value; p < |s.procs| && s.procs[p].pc.Closing?
    ensures Dangling(After(c, n, active, events).value.book) == []
  {
    ReachableInv(c, n, active, events);
    var s := After(c, n, active, events).value;
    assert ProcOk(s, p);
    forall e | e in s.book ensures !IsDangling(e) { }
    NothingDangles(s.book);
  }

  /** This step of p writes that its transaction was rolled back, after a nested rollback or a calm look. */
  predicate MarksRolledBack(s: State, p: nat) {
    p < |s.procs| && s.procs[p].pc.Writing? && s.procs[p].pc.section.Write? && s.procs[p].pc.after.ToNext?
    && s.procs[p].pc.step.Update? && s.procs[p].pc.step.state == RolledBack
    && (s.procs[p].pc.after.action.AlreadyAt? ==> s.procs[p].pc.after.calm)
  }

  /** A transaction is marked rolled back only while the generation it started from is active, provided that no other
      process was running the switch command when recovery found it already active. */
  lemma MarkedTrulyUnderInterleaving(c: Config, n: nat, active: Option<nat>, events: seq<Event>, p: nat)
    requires After(c, n, active, events).Some? && MarksRolledBack(After(c, n, active, events).value, p)
    ensures var s := After(c, n, active, events).value;
            && s.procs[p].todo.Some? && s.procs[p].todo.value != []
            && s.procs[p].pc.step.id == s.procs[p].todo.value[0].id
            && s.active.Some? && s.active == s.procs[p].todo.value[0].details.previousGeneration
  {
    ReachableInv(c, n, active, events);
    var s := After(c, n, active, events).value;
    assert ProcOk(s, p);
    var pr := s.procs[p];
    assert Claims(pr, HeadGeneration(pr));
  }

  // ---- no deadlock

  lemma {:induction false} LengthBound(ids: set<string>) returns (n: nat)
    ensures forall x :: x in ids ==> |x| <= n
  {
    if ids == {} {
      n := 0;
    } else {
      var x :| x in ids;
      var m := LengthBound(ids - {x});
      n := if |x| > m then |x| else m;
      forall y | y in ids ensures |y| <= n { if y != x { assert y in ids - {x}; } }
    }
  }

  lemma FreshIdExists(s: State) returns (id: string)
    ensures FreshId(s, id)
  {
    var n := LengthBound(s.used);
    id := seq(n + 1, _ => 'a');
  }

  ghost predicate CanMove(s: State, p: nat) { exists x :: CanRun(s, p, x) }

  /** A process that has to wait waits for one that can go on, so in no reachable state is every busy process stuck. */
  lemma NoDeadlock(c: Config, n: nat, active: Option<nat>, events: seq<Event>, p: nat)
    requires After(c, n, active, events).Some?
    requires var s := After(c, n, active, events).value; p < |s.procs| && Busy(s.procs[p])
    ensures var s := After(c, n, active, events).value;
            CanMove(s, p) || (s.journalHolder.Some? && CanMove(s, s.journalHolder.value))
  {
    ReachableInv(c, n, active, events);
    var s := After(c, n, active, events).value;
    var id := FreshIdExists(s);
    var x := Choice(id, Outcome(0, None));
    if !Blocked(s, p) {
      assert CanRun(s, p, x);
    } else {
      var q := s.journalHolder.value;
      assert ProcOk(s, q);
      assert CanRun(s, q, x);
    }
  }

  // ---- every call comes to an end

  /** Before recovery has read the journal, the length of its list is still open. */
  function Stage(pr: Proc): nat {
    if pr.pc.Opening? || (pr.pc.Scanning? && !pr.pc.section.Leave?) then 1 else 0
  }

  function LoopSteps(todo: seq<Entry>): nat { 24 * |todo| + 2 }

  function ReturnSteps(pr: Proc): nat {
    if pr.todo.Some? && pr.todo.value != [] then 4 + LoopSteps(pr.todo.value[1..]) else 0
  }

  function SectionSteps(section: Section): nat {
    match section case Enter => 4 case Read => 3 case Write(_) => 2 case Leave => 1
  }

  function AfterSteps(pr: Proc, after: Then): nat {
    match after
    case ToApplying(_, _) => 11 + ReturnSteps(pr)
    case ToSwitch(_, _) => 7 + ReturnSteps(pr)
    case ToUnlock(_, _) => 1 + ReturnSteps(pr)
    case ToNext(_, _) => if pr.todo.Some? && pr.todo.value != [] then LoopSteps(pr.todo.value[1..]) else 0
    case ToIdle => 0
  }

  /** How many steps of its own a process can still take before its call returns. */
  function StepsLeft(pr: Proc): nat {
    match pr.pc
    case Idle => 0
    case Dead => 0
    case Opening => 3
    case Scanning(section) =>
      if section.Enter? then 2 else if section.Read? then 1 else LoopSteps(if pr.todo.Some? then pr.todo.value else []) + 1
    case Treating => LoopSteps(if pr.todo.Some? then pr.todo.value else [])
    case Closing => 1
    case Validating(_) => 19 + ReturnSteps(pr)
    case Noting(_) => 18 + ReturnSteps(pr)
    case Locking(_, _) => 17 + ReturnSteps(pr)
    case Stamping(_, _) => 16 + ReturnSteps(pr)
    case Writing(_, section, after) => SectionSteps(section) + AfterSteps(pr, after)
    case Switching(_, _) => 7 + ReturnSteps(pr)
    case Checking(_, _) => 6 + ReturnSteps(pr)
    case Unlocking(_, _) => 1 + ReturnSteps(pr)
  }

  /** Every step a process takes brings its call closer to its end; the steps of others do not matter. */
  lemma StepShortens(c: Config, n: nat, active: Option<nat>, events: seq<Event>, e: Event, p: nat)
    requires After(c, n, active, events).Some? && Enabled(After(c, n, active, events).value, e)
    requires e.Run? || e.Tick?
    requires p < |After(c, n, active, events).value.procs|
    ensures var s := After(c, n, active, events).value;
            var before, after := s.procs[p], Next(c, s, e).procs[p];
            if e.Run? && e.p == p
            then Stage(after) < Stage(before) || (Stage(after) == Stage(before) && StepsLeft(after) < StepsLeft(before))
            else after == before
  {
    ReachableInv(c, n, active, events);
    var s := After(c, n, active, events).value;
    if e.Run? {
      assert ProcOk(s, e.p);
      RunSelf(c, s, e.p, e.choice);
      var pc := s.procs[e.p].pc;
      if pc.Writing? { WritingShortens(c, s, e.p); }
      else if pc.Opening? || pc.Scanning? || pc.Treating? || pc.Closing? { RecoveryShortens(c, s, e.p); }
      else { RollbackShortens(c, s, e.p, e.choice); }
    }
  }

  lemma LeavingShortens(pr: Proc, now: nat)
    requires Shape(pr) && pr.pc.Writing? && pr.pc.section.Leave?
    ensures var after := Continued(pr, now).(depth := pr.depth - 1); Stage(after) == 0 && StepsLeft(after) < StepsLeft(pr)
  {
  }

  lemma WritingShortens(c: Config, s: State, p: nat)
    requires p < |s.procs| && Shape(s.procs[p]) && s.procs[p].pc.Writing?
    ensures var after := MoveWriting(c, s, p).procs[p]; Stage(after) == 0 && StepsLeft(after) < StepsLeft(s.procs[p])
  {
    if s.procs[p].pc.section.Leave? {
      LeavingShortens(s.procs[p], s.clock);
      assert MoveWriting(c, s, p).procs[p] == Continued(s.procs[p], s.clock).(depth := s.procs[p].depth - 1);
    }
  }

  lemma RecoveryShortens(c: Config, s: State, p: nat)
    requires p < |s.procs| && Shape(s.procs[p])
    requires var pc := s.procs[p].pc; pc.Opening? || pc.Scanning? || pc.Treating? || pc.Closing?
    ensures var before, after := s.procs[p], MoveRecovery(c, s, p).procs[p];
            Stage(after) < Stage(before) || (Stage(after) == Stage(before) && StepsLeft(after) < StepsLeft(before))
  {
  }

  lemma RollbackShortens(c: Config, s: State, p: nat, x: Choice)
    requires p < |s.procs| && Shape(s.procs[p]) && CanRun(s, p, x)
    requires var pc := s.procs[p].pc; !(pc.Writing? || pc.Opening? || pc.Scanning? || pc.Treating? || pc.Closing?)
    ensures var after := MoveRollback(c, s, p, x).procs[p]; Stage(after) == 0 && StepsLeft(after) < StepsLeft(s.procs[p])
  {
  }
}
