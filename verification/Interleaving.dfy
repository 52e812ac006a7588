/** Any number of processes that roll back, recover and update the journal, interleaved and crashing. */
module Interleaving {
  import opened Wrappers
  import opened HashChain
  import opened Journal
  import opened Rollback

  // ---- what a process is doing

  /** The parts of a journal read-modify-write, under the reentrant journal lock. */
  datatype Section = Enter | Read | Write(copy: seq<Entry>) | Leave

  /** What follows a journal write. */
  datatype Then = ToApplying(tx: string, g: nat) | ToSwitch(tx: string, g: nat) | ToUnlock(code: int, g: nat)
                | ToNext(action: Action, calm: bool) | ToIdle

  datatype Pc =
    | Idle
    | Dead
      // execute_rollback
    | Validating(target: Option<int>)
    | Noting(g: nat)
    | Locking(previous: nat, g: nat)
    | Stamping(previous: nat, g: nat)
    | Writing(step: Step, section: Section, after: Then)
    | Switching(tx: string, g: nat)
    | Checking(tx: string, g: nat)
    | Unlocking(code: int, g: nat)
      // recover_dangling_transactions
    | Opening
    | Scanning(section: Section)
    | Treating
    | Closing

  /** depth counts this process's entries into the journal lock; todo holds what recovery has yet to settle. */
  datatype Proc = Proc(pc: Pc, depth: nat, todo: Option<seq<Entry>>)

  datatype State = State(book: seq<Entry>, log: seq<Step>, used: set<string>, clock: nat, active: Option<nat>,
                         journalHolder: Option<nat>, opHolder: Option<nat>, procs: seq<Proc>)

  datatype Config = Config(digest: Digest, history: seq<nat>)

  // ---- the steps

  datatype Call = CallRollback(target: Option<int>) | CallRecover | CallUpdate(id: string, state: TxState, details: Details)

  /** What a step draws from outside: an id for a new transaction and the outcome of the switch command. */
  datatype Choice = Choice(id: string, outcome: Outcome)

  datatype Event = Begin(p: nat, call: Call) | Run(p: nat, choice: Choice) | Crash(p: nat) | Tick(now: nat)

  function With(s: State, p: nat, pr: Proc): State
    requires p < |s.procs|
  {
    s.(procs := s.procs[p := pr])
  }

  function Entered(s: State, p: nat, pr: Proc): State
    requires p < |s.procs|
  {
    With(s.(journalHolder := Some(p)), p, pr.(depth := pr.depth + 1))
  }

  /** The last exit gives the lock up. */
  function Exited(s: State, p: nat, pr: Proc): State
    requires p < |s.procs|
  {
    if pr.depth <= 1 then With(s.(journalHolder := None), p, pr.(depth := 0))
    else With(s, p, pr.(depth := pr.depth - 1))
  }

  function Begun(s: State, p: nat, call: Call): State
    requires p < |s.procs|
  {
    var pc :=
      match call
      case CallRollback(target) => Validating(target)
      case CallRecover => Opening
      case CallUpdate(id, state, details) => Writing(Update(id, state, s.clock, details), Enter, ToIdle);
    With(s, p, s.procs[p].(pc := pc))
  }

  function RecoveryNote(a: Action): Details { Details(None, map["recovery_action" := Did(a)]) }

  /** Settle the transaction at the head of the list. */
  function Mark(pr: Proc, action: Action, calm: bool, now: nat): Proc
    requires pr.todo.Some? && pr.todo.value != []
  {
    pr.(pc := Writing(Update(pr.todo.value[0].id, StateFor(action), now, RecoveryNote(action)), Enter, ToNext(action, calm)))
  }

  function HeadGeneration(pr: Proc): nat {
    if pr.todo.Some? && pr.todo.value != [] && pr.todo.value[0].details.previousGeneration.Some?
    then pr.todo.value[0].details.previousGeneration.value else 0
  }

  /** execute_rollback returns, to recovery's loop or to its own caller. */
  function Returned(pr: Proc, code: int, now: nat): Proc {
    if pr.todo.Some? && pr.todo.value != [] then
      var g := HeadGeneration(pr);
      Mark(pr, if code == 0 then RolledBackTo(g) else FailedRollback(g, code), true, now)
    else pr.(pc := Idle)
  }

  function MoveWriting(c: Config, s: State, p: nat): State
    requires p < |s.procs| && s.procs[p].pc.Writing?
  {
    var pr := s.procs[p];
    var step, after := pr.pc.step, pr.pc.after;
    match pr.pc.section
    case Enter => Entered(s, p, pr.(pc := Writing(step, Read, after)))
    case Read => With(s, p, pr.(pc := Writing(step, Write(s.book), after)))
    case Write(copy) =>
      With(s.(book := Apply(c.digest, copy, step), log := s.log + [step]), p, pr.(pc := Writing(step, Leave, after)))
    case Leave => Exited(s, p, Continued(pr, s.clock))
  }

  function Continued(pr: Proc, now: nat): Proc
    requires pr.pc.Writing?
  {
    match pr.pc.after
    case ToApplying(tx, g) => pr.(pc := Writing(Update(tx, Applying, now, NO_DETAILS), Enter, ToSwitch(tx, g)))
    case ToSwitch(tx, g) => pr.(pc := Switching(tx, g))
    case ToUnlock(code, g) => pr.(pc := Unlocking(code, g))
    case ToNext(_, _) =>
      if pr.todo.Some? && pr.todo.value != [] then pr.(pc := Treating, todo := Some(pr.todo.value[1..])) else pr.(pc := Idle)
    case ToIdle => pr.(pc := Idle)
  }

  function MoveRollback(c: Config, s: State, p: nat, x: Choice): State
    requires p < |s.procs|
  {
    var pr := s.procs[p];
    match pr.pc
    case Validating(target) =>
      var v := Simulate(c.history, s.active, target);
      With(s, p, if v.Rejected? then Returned(pr, 1, s.clock) else pr.(pc := Noting(v.g)))
    case Noting(g) =>
      With(s, p, if s.active.None? then Returned(pr, 1, s.clock) else pr.(pc := Locking(s.active.value, g)))
    case Locking(previous, g) =>
      if s.opHolder.Some? then With(s, p, Returned(pr, 126, s.clock))
      else With(s.(opHolder := Some(p)), p, pr.(pc := Stamping(previous, g)))
    case Stamping(previous, g) =>
      var details := Details(Some(previous), map["target_generation" := Number(g)]);
      With(s.(used := s.used + {x.id}), p,
           pr.(pc := Writing(Start(x.id, "rollback", s.clock, details), Enter, ToApplying(x.id, g))))
    case Switching(tx, g) =>
      With(s.(active := x.outcome.active), p,
           if ExitCode(x.outcome) == 0 then pr.(pc := Checking(tx, g)) else Settle(pr, tx, ExitCode(x.outcome), g, s.clock))
    case Checking(tx, g) => With(s, p, Settle(pr, tx, if s.active == Some(g) then 0 else 1, g, s.clock))
    case Unlocking(code, g) => With(s.(opHolder := None), p, Returned(pr, code, s.clock))
    case _ => s
  }

  /** A code of zero stands for a verified switch. */
  function Settle(pr: Proc, tx: string, code: int, g: nat, now: nat): Proc {
    var ok := code == 0;
    var details := Details(None, if ok then map["final_generation" := Number(g)] else map["abort_reason" := Text("failed")]);
    pr.(pc := Writing(Update(tx, if ok then Committed else Failed, now, details), Enter, ToUnlock(code, g)))
  }

  /** No other process is running the switch command. */
  predicate Quiet(s: State, p: nat) {
    forall q :: 0 <= q < |s.procs| && q != p ==> !s.procs[q].pc.Switching?
  }

  function MoveRecovery(c: Config, s: State, p: nat): State
    requires p < |s.procs|
  {
    var pr := s.procs[p];
    match pr.pc
    case Opening => Entered(s, p, pr.(pc := Scanning(Enter)))
    case Scanning(section) =>
      (match section
       case Enter => Entered(s, p, pr.(pc := Scanning(Read)))
       case Read => With(s, p, pr.(pc := Scanning(Leave), todo := Some(Dangling(s.book))))
       case _ => Exited(s, p, pr.(pc := Treating)))
    case Treating =>
      if pr.todo.None? || pr.todo.value == [] then With(s, p, pr.(pc := Closing))
      else With(s, p, Treated(s, p))
    case Closing => Exited(s, p, pr.(pc := Idle, todo := None))
    case _ => s
  }

  /** The three ways of the recovery loop. */
  function Treated(s: State, p: nat): Proc
    requires p < |s.procs| && s.procs[p].todo.Some? && s.procs[p].todo.value != []
  {
    var pr := s.procs[p];
    var g := HeadGeneration(pr);
    if !NeedsSwitchBack(pr.todo.value[0]) then Mark(pr, MarkedFailed, true, s.clock)
    else if s.active.None? then Mark(pr, NeedsRollback(g), true, s.clock)
    else if s.active == Some(g) then Mark(pr, AlreadyAt(g), Quiet(s, p), s.clock)
    else pr.(pc := Validating(Some(g)))
  }

  function Moved(c: Config, s: State, p: nat, x: Choice): (t: State)
    requires p < |s.procs|
    ensures |t.procs| == |s.procs|
  {
    var pc := s.procs[p].pc;
    if pc.Writing? then MoveWriting(c, s, p)
    else if pc.Opening? || pc.Scanning? || pc.Treating? || pc.Closing? then MoveRecovery(c, s, p)
    else MoveRollback(c, s, p, x)
  }

  /** The kernel drops both locks of a process that dies. */
  function Crashed(s: State, p: nat): State
    requires p < |s.procs|
  {
    With(s.(journalHolder := if s.journalHolder == Some(p) then None else s.journalHolder,
            opHolder := if s.opHolder == Some(p) then None else s.opHolder),
         p, Proc(Dead, 0, None))
  }

  // ---- when a step can be taken

  predicate AtJournalDoor(pr: Proc) {
    pr.pc.Opening? || (pr.pc.Writing? && pr.pc.section.Enter?) || (pr.pc.Scanning? && pr.pc.section.Enter?)
  }

  /** Waiting for another process's journal lock; the operation lock is never waited for. */
  predicate Blocked(s: State, p: nat)
    requires p < |s.procs|
  {
    AtJournalDoor(s.procs[p]) && s.procs[p].depth == 0 && s.journalHolder.Some?
  }

  predicate Busy(pr: Proc) { !pr.pc.Idle? && !pr.pc.Dead? }

  predicate FreshId(s: State, id: string) { id !in s.used && ':' !in id }

  predicate CanRun(s: State, p: nat, x: Choice) {
    p < |s.procs| && Busy(s.procs[p]) && !Blocked(s, p)
    && (s.procs[p].pc.Stamping? ==> FreshId(s, x.id))
  }

  predicate Enabled(s: State, e: Event) {
    match e
    case Begin(p, _) => p < |s.procs| && s.procs[p].pc.Idle?
    case Run(p, x) => CanRun(s, p, x)
    case Crash(p) => p < |s.procs| && !s.procs[p].pc.Dead?
    case Tick(now) => s.clock <= now
  }

  function Next(c: Config, s: State, e: Event): State
    requires Enabled(s, e)
  {
    match e
    case Begin(p, call) => Begun(s, p, call)
    case Run(p, x) => Moved(c, s, p, x)
    case Crash(p) => Crashed(s, p)
    case Tick(now) => s.(clock := now)
  }

  function Initial(n: nat, active: Option<nat>): State {
    State([], [], {}, 0, active, None, None, seq(n, _ => Proc(Idle, 0, None)))
  }

  /** The state after these events, if each of them could happen in turn. */
  function After(c: Config, n: nat, active: Option<nat>, events: seq<Event>): Option<State> {
    if events == [] then Some(Initial(n, active))
    else
      match After(c, n, active, events[..|events| - 1])
      case None => None
      case Some(s) => if Enabled(s, events[|events| - 1]) then Some(Next(c, s, events[|events| - 1])) else None
  }
}
