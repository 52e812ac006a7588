/** When a transaction that recovery has settled stays settled. */
module InterleavingSettled {
  import opened Wrappers
  import opened HashChain
  import opened Journal
  import opened Rollback
  import opened Interleaving
  import opened InterleavingInvariant
  import opened InterleavingSafety
  import opened InterleavingRaces

  // ---- an entry that no process is tied to

  /** The process may still update this transaction: it runs it, is updating it, or has it on its recovery list. */
  predicate Tied(pr: Proc, id: string) {
    id in Unsettled(pr) && !(pr.pc.Writing? && pr.pc.section.Leave? && pr.pc.after.ToIdle?)
  }

  /** The journal has a settled entry of this id, and no process is tied to it. */
  ghost predicate Closed(s: State, k: nat, e: Entry) {
    k < |s.book| && s.book[k] == e && !IsDangling(e) && e.id in s.used
    && forall p :: 0 <= p < |s.procs| ==> !Tied(s.procs[p], e.id)
  }

  /** No step on this id was written in between. */
  ghost predicate LeavesAlone(log: seq<Step>, more: seq<Step>, id: string) {
    log <= more && forall i :: |log| <= i < |more| ==> more[i].id != id
  }

  lemma OtherEntryKept(d: Digest, j: seq<Entry>, step: Step, k: nat)
    requires k < |j| && step.id != j[k].id
    ensures k < |Apply(d, j, step)| && Apply(d, j, step)[k] == j[k]
  {
  }

  lemma UntiedWriting(c: Config, s: State, q: nat, k: nat, e: Entry)
    requires Closed(s, k, e) && q < |s.procs| && ProcOk(s, q) && s.procs[q].pc.Writing?
    ensures var t := MoveWriting(c, s, q);
            !Tied(t.procs[q], e.id) && k < |t.book| && t.book[k] == e && LeavesAlone(s.log, t.log, e.id)
  {
    var pr := s.procs[q];
    assert !Tied(pr, e.id);
    match pr.pc.section
    case Enter =>
    case Read =>
    case Write(copy) =>
      assert pr.pc.step.id in Unsettled(pr);
      OtherEntryKept(c.digest, copy, pr.pc.step, k);
      if pr.pc.after.ToNext? { HeadOrTail(pr.todo.value, e.id); TailIds(pr.todo.value, e.id); }
    case Leave => ContinuedUntied(pr, s.clock, e.id);
  }

  lemma TailIds(todo: seq<Entry>, id: string)
    requires todo != [] && id !in Ids(todo)
    ensures id !in Ids(todo[1..])
  {
    assert forall e :: e in todo[1..] ==> e in todo;
  }

  lemma SettledNotListed(book: seq<Entry>, k: nat)
    requires DistinctIds(book) && k < |book| && !IsDangling(book[k])
    ensures book[k].id !in Ids(Dangling(book))
  {
    forall x | x in Dangling(book) ensures x.id != book[k].id {
      var i :| 0 <= i < |book| && book[i] == x;
    }
  }

  lemma ContinuedUntied(pr: Proc, now: nat, id: string)
    requires Shape(pr) && pr.pc.Writing? && pr.pc.section.Leave? && !Tied(pr, id)
    ensures !Tied(Continued(pr, now).(depth := pr.depth - 1), id)
  {
  }

  lemma UntiedRecovery(c: Config, s: State, q: nat, k: nat, e: Entry)
    requires Closed(s, k, e) && q < |s.procs| && ProcOk(s, q) && DistinctIds(s.book)
    requires s.procs[q].pc.Opening? || s.procs[q].pc.Scanning? || s.procs[q].pc.Treating? || s.procs[q].pc.Closing?
    ensures !Tied(MoveRecovery(c, s, q).procs[q], e.id)
  {
    var pr := s.procs[q];
    assert !Tied(pr, e.id);
    if pr.pc.Scanning? && pr.pc.section.Read? { SettledNotListed(s.book, k); }
    if pr.pc.Treating? && pr.todo.value != [] {
      assert pr.todo.value[0].id in Ids(pr.todo.value);
    }
  }

  lemma UntiedRollback(c: Config, s: State, q: nat, x: Choice, k: nat, e: Entry)
    requires Closed(s, k, e) && q < |s.procs| && ProcOk(s, q) && CanRun(s, q, x)
    requires !(s.procs[q].pc.Writing? || s.procs[q].pc.Opening? || s.procs[q].pc.Scanning? || s.procs[q].pc.Treating? || s.procs[q].pc.Closing?)
    ensures !Tied(MoveRollback(c, s, q, x).procs[q], e.id)
  {
    var pr := s.procs[q];
    assert !Tied(pr, e.id);
    if pr.todo.Some? && pr.todo.value != [] { assert pr.todo.value[0].id in Ids(pr.todo.value); }
  }

  lemma StaysClosedRun(c: Config, s: State, q: nat, x: Choice, k: nat, e: Entry)
    requires Inv(c, s) && CanRun(s, q, x) && Closed(s, k, e)
    ensures Closed(Moved(c, s, q, x), k, e) && LeavesAlone(s.log, Moved(c, s, q, x).log, e.id)
  {
    assert ProcOk(s, q);
    var t := Moved(c, s, q, x);
    RunSelf(c, s, q, x);
    if s.procs[q].pc.Writing? {
      UntiedWriting(c, s, q, k, e);
    } else {
      OnlyWritesTouchJournal(c, s, q, x);
      if s.procs[q].pc.Opening? || s.procs[q].pc.Scanning? || s.procs[q].pc.Treating? || s.procs[q].pc.Closing? {
        UntiedRecovery(c, s, q, k, e);
      } else {
        UntiedRollback(c, s, q, x, k, e);
      }
    }
  }

  lemma StaysClosed(c: Config, s: State, v: Event, k: nat, e: Entry)
    requires Inv(c, s) && Enabled(s, v) && Closed(s, k, e)
    requires v.Begin? && v.call.CallUpdate? ==> v.call.id != e.id
    ensures Closed(Interleaving.Next(c, s, v), k, e) && LeavesAlone(s.log, Interleaving.Next(c, s, v).log, e.id)
  {
    match v
    case Run(q, x) => StaysClosedRun(c, s, q, x, k, e);
    case Begin(q, _) => assert ProcOk(s, q);
    case Crash(_) =>
    case Tick(_) =>
  }

  /** The run goes on, without anybody asking for an update of this transaction. */
  ghost predicate Continues(c: Config, n: nat, active: Option<nat>, events: seq<Event>, more: seq<Event>, id: string) {
    && events <= more && After(c, n, active, more).Some?
    && forall i :: |events| <= i < |more| && more[i].Begin? && more[i].call.CallUpdate? ==> more[i].call.id != id
  }

  lemma {:induction false} SettledStays(c: Config, n: nat, active: Option<nat>, events: seq<Event>, more: seq<Event>, k: nat, e: Entry)
    requires Continues(c, n, active, events, more, e.id) && After(c, n, active, events).Some?
    requires Closed(After(c, n, active, events).value, k, e)
    ensures Closed(After(c, n, active, more).value, k, e)
    ensures LeavesAlone(After(c, n, active, events).value.log, After(c, n, active, more).value.log, e.id)
    decreases |more|
  {
    if |more| > |events| {
      var front := more[..|more| - 1];
      SettledStays(c, n, active, events, front, k, e);
      ReachableInv(c, n, active, front);
      StaysClosed(c, After(c, n, active, front).value, more[|more| - 1], k, e);
    } else {
      assert more == events;
    }
  }

  // ---- recovery's list holds only transactions that dangle

  ghost predicate Dangles(s: State, id: string) {
    exists i :: 0 <= i < |s.book| && s.book[i].id == id && IsDangling(s.book[i])
  }

  /** What recovery has yet to write about. */
  function Rest(pr: Proc): seq<Entry> {
    if pr.todo.None? then []
    else if pr.pc.Writing? && pr.pc.after.ToNext? && pr.pc.section.Leave? && pr.todo.value != [] then pr.todo.value[1..]
    else pr.todo.value
  }

  /** The transaction of a rollback. */
  function Own(pr: Proc): Option<string> {
    match pr.pc
    case Writing(step, _, after) => if after.ToApplying? || after.ToSwitch? || after.ToUnlock? then Some(step.id) else None
    case Switching(tx, _) => Some(tx)
    case Checking(tx, _) => Some(tx)
    case _ => None
  }

  ghost predicate ListOk(s: State, p: nat)
    requires p < |s.procs|
  {
    var pr := s.procs[p];
    && DistinctIds(Rest(pr)) && (forall e :: e in Rest(pr) ==> Dangles(s, e.id))
    && (Own(pr).Some? ==> Own(pr).value !in Ids(Rest(pr)))
  }

  lemma ListKeptByOthers(s: State, t: State, q: nat, p: nat)
    requires q < |s.procs| && p < |s.procs| && p != q && Frame(s, t, q) && ProcOk(s, p) && LocksOk(s, q) && ListOk(s, p)
    ensures ListOk(t, p)
  {
    if s.procs[p].todo.Some? { assert s.procs[p].depth > 0 && t.book == s.book; }
  }

  lemma DanglesStill(d: Digest, s: State, t: State, step: Step, id: string)
    requires t.book == Apply(d, s.book, step) && step.id != id && Dangles(s, id)
    ensures Dangles(t, id)
  {
    var i :| 0 <= i < |s.book| && s.book[i].id == id && IsDangling(s.book[i]);
    OtherEntryKept(d, s.book, step, i);
  }

  lemma TailDistinct(todo: seq<Entry>)
    requires todo != [] && DistinctIds(todo)
    ensures DistinctIds(todo[1..]) && todo[0].id !in Ids(todo[1..]) && forall e :: e in todo[1..] ==> e in todo
  {
  }

  lemma ListCarried(s: State, t: State, q: nat)
    requires q < |s.procs| && q < |t.procs| && t.book == s.book && ListOk(s, q) && Rest(t.procs[q]) == Rest(s.procs[q])
    requires Own(t.procs[q]).Some? ==> Own(t.procs[q]) == Own(s.procs[q])
    ensures ListOk(t, q)
  {
    forall e | e in Rest(t.procs[q]) ensures Dangles(t, e.id) { assert Dangles(s, e.id); }
  }

  lemma WritingRest(c: Config, s: State, q: nat)
    requires q < |s.procs| && Shape(s.procs[q]) && s.procs[q].pc.Writing? && !s.procs[q].pc.section.Write?
    ensures var t := MoveWriting(c, s, q);
            && t.book == s.book && q < |t.procs| && Rest(t.procs[q]) == Rest(s.procs[q])
            && (Own(t.procs[q]).Some? ==> Own(t.procs[q]) == Own(s.procs[q]))
  {
  }

  lemma ListWritten(d: Digest, s: State, t: State, q: nat)
    requires q < |s.procs| && q < |t.procs| && Shape(s.procs[q]) && ListOk(s, q)
    requires s.procs[q].pc.Writing? && s.procs[q].pc.section.Write?
    requires t.book == Apply(d, s.book, s.procs[q].pc.step) && t.procs[q] == s.procs[q].(pc := s.procs[q].pc.(section := Leave))
    ensures ListOk(t, q)
  {
    var pr := s.procs[q];
    if pr.todo.Some? && pr.todo.value != [] { TailDistinct(pr.todo.value); }
    forall e | e in Rest(t.procs[q]) ensures Dangles(t, e.id) {
      assert e.id in Ids(Rest(pr));
      DanglesStill(d, s, t, pr.pc.step, e.id);
    }
  }

  lemma ListWriting(c: Config, s: State, q: nat)
    requires q < |s.procs| && Shape(s.procs[q]) && CopyOk(s, q) && s.procs[q].pc.Writing? && ListOk(s, q)
    ensures ListOk(MoveWriting(c, s, q), q)
  {
    if s.procs[q].pc.section.Write? {
      ListWritten(c.digest, s, MoveWriting(c, s, q), q);
    } else {
      WritingRest(c, s, q);
      ListCarried(s, MoveWriting(c, s, q), q);
    }
  }

  lemma {:induction false} BookIds(d: Digest, log: seq<Step>, i: nat)
    requires i < |Journal.Run(d, log)|
    ensures Journal.Run(d, log)[i].id in StartIds(log)
  {
    var front, last := log[..|log| - 1], log[|log| - 1];
    assert log == front + [last];
    LogGrows(front, last);
    var j := Journal.Run(d, front);
    if i < |j| {
      BookIds(d, front, i);
    } else {
      assert last in Starts(log);
    }
  }

  lemma RollbackOwn(c: Config, s: State, q: nat, x: Choice)
    requires q < |s.procs| && ProcOk(s, q) && CanRun(s, q, x)
    requires !(s.procs[q].pc.Writing? || s.procs[q].pc.Opening? || s.procs[q].pc.Scanning? || s.procs[q].pc.Treating? || s.procs[q].pc.Closing?)
    ensures var t := MoveRollback(c, s, q, x);
            && t.book == s.book && Rest(t.procs[q]) == Rest(s.procs[q])
            && (Own(t.procs[q]).Some? ==> Own(t.procs[q]) == Own(s.procs[q]) || (Own(t.procs[q]) == Some(x.id) && FreshId(s, x.id)))
  {
  }

  lemma FreshNotListed(c: Config, s: State, q: nat, id: string)
    requires Inv(c, s) && q < |s.procs| && ListOk(s, q) && FreshId(s, id)
    ensures id !in Ids(Rest(s.procs[q]))
  {
    forall e | e in Rest(s.procs[q]) ensures e.id != id {
      var i :| 0 <= i < |s.book| && s.book[i].id == e.id && IsDangling(s.book[i]);
      BookIds(c.digest, s.log, i);
    }
  }

  lemma ListRollback(c: Config, s: State, q: nat, x: Choice)
    requires Inv(c, s) && CanRun(s, q, x) && ListOk(s, q)
    requires !(s.procs[q].pc.Writing? || s.procs[q].pc.Opening? || s.procs[q].pc.Scanning? || s.procs[q].pc.Treating? || s.procs[q].pc.Closing?)
    ensures ListOk(MoveRollback(c, s, q, x), q)
  {
    assert ProcOk(s, q);
    RollbackOwn(c, s, q, x);
    if FreshId(s, x.id) { FreshNotListed(c, s, q, x.id); }
    var t := MoveRollback(c, s, q, x);
    forall e | e in Rest(t.procs[q]) ensures Dangles(t, e.id) { assert Dangles(s, e.id); }
  }

  lemma ListRead(s: State, t: State, q: nat)
    requires q < |s.procs| && q < |t.procs| && t.book == s.book && DistinctIds(s.book)
    requires Rest(t.procs[q]) == Dangling(s.book) && Own(t.procs[q]).None?
    ensures ListOk(t, q)
  {
    DanglingDistinct(s.book);
    forall e | e in Rest(t.procs[q]) ensures Dangles(t, e.id) {
      var i :| 0 <= i < |s.book| && s.book[i] == e;
    }
  }

  lemma RecoveryRest(c: Config, s: State, q: nat)
    requires q < |s.procs| && Shape(s.procs[q])
    requires s.procs[q].pc.Opening? || s.procs[q].pc.Scanning? || s.procs[q].pc.Treating? || s.procs[q].pc.Closing?
    ensures var pr, t := s.procs[q], MoveRecovery(c, s, q);
            && t.book == s.book && q < |t.procs| && Own(t.procs[q]).None?
            && Rest(t.procs[q]) == if pr.pc.Scanning? && pr.pc.section.Read? then Dangling(s.book) else Rest(pr)
  {
  }

  lemma ListRecovery(c: Config, s: State, q: nat)
    requires q < |s.procs| && Shape(s.procs[q]) && DistinctIds(s.book) && ListOk(s, q)
    requires s.procs[q].pc.Opening? || s.procs[q].pc.Scanning? || s.procs[q].pc.Treating? || s.procs[q].pc.Closing?
    ensures ListOk(MoveRecovery(c, s, q), q)
  {
    RecoveryRest(c, s, q);
    if s.procs[q].pc.Scanning? && s.procs[q].pc.section.Read? {
      ListRead(s, MoveRecovery(c, s, q), q);
    } else {
      ListCarried(s, MoveRecovery(c, s, q), q);
    }
  }

  lemma ListRun(c: Config, s: State, q: nat, x: Choice)
    requires Inv(c, s) && CanRun(s, q, x) && ListOk(s, q)
    ensures ListOk(Moved(c, s, q, x), q)
  {
    assert ProcOk(s, q);
    var pc := s.procs[q].pc;
    if pc.Writing? {
      ListWriting(c, s, q);
    } else if pc.Opening? || pc.Scanning? || pc.Treating? || pc.Closing? {
      ListRecovery(c, s, q);
    } else {
      ListRollback(c, s, q, x);
    }
  }

  ghost predicate AllLists(s: State) { forall p :: 0 <= p < |s.procs| ==> ListOk(s, p) }

  lemma ListsKept(c: Config, s: State, v: Event)
    requires Inv(c, s) && Enabled(s, v) && AllLists(s)
    ensures AllLists(Interleaving.Next(c, s, v))
  {
    var t := Interleaving.Next(c, s, v);
    if v.Tick? {
      forall p | 0 <= p < |t.procs| ensures ListOk(t, p) { assert ListOk(s, p); }
      return;
    }
    var q := v.p;
    assert ProcOk(s, q);
    match v {
      case Run(_, x) =>
        RunSelf(c, s, q, x);
        ListRun(c, s, q, x);
      case Begin(_, call) => BeginSelf(s, q, call);
      case Crash(_) => CrashSelf(s, q);
    }
    forall p | 0 <= p < |t.procs| ensures ListOk(t, p) {
      if p != q {
        assert ProcOk(s, p);
        ListKeptByOthers(s, t, q, p);
      }
    }
  }

  lemma {:induction false} ReachableLists(c: Config, n: nat, active: Option<nat>, events: seq<Event>)
    requires After(c, n, active, events).Some?
    ensures AllLists(After(c, n, active, events).value)
  {
    if events != [] {
      var front := events[..|events| - 1];
      ReachableLists(c, n, active, front);
      ReachableInv(c, n, active, front);
      ListsKept(c, After(c, n, active, front).value, events[|events| - 1]);
    }
  }

  // ---- a process that is tied to an entry can write it again

  /** Another update of this transaction was written. */
  ghost predicate Rewritten(log: seq<Step>, more: seq<Step>, id: string) {
    log <= more && exists i :: |log| <= i < |more| && more[i].id == id
  }

  ghost predicate NoCalls(events: seq<Event>, more: seq<Event>) {
    events <= more && forall i :: |events| <= i < |more| ==> !more[i].Begin?
  }

  /** If need be the process that holds the journal lock dies. */
  lemma Unblock(c: Config, n: nat, active: Option<nat>, events: seq<Event>, q: nat) returns (more: seq<Event>)
    requires After(c, n, active, events).Some? && q < |After(c, n, active, events).value.procs|
    ensures NoCalls(events, more) && After(c, n, active, more).Some?
    ensures var s, t := After(c, n, active, events).value, After(c, n, active, more).value;
            && |t.procs| == |s.procs| && t.procs[q] == s.procs[q] && t.log == s.log && !Blocked(t, q)
  {
    more := events;
    var s := After(c, n, active, events).value;
    ReachableInv(c, n, active, events);
    assert ProcOk(s, q);
    if Blocked(s, q) {
      assert ProcOk(s, s.journalHolder.value);
      more := Extend(c, n, active, events, Crash(s.journalHolder.value));
    }
  }

  lemma WriteCopy(c: Config, n: nat, active: Option<nat>, events: seq<Event>, q: nat) returns (more: seq<Event>)
    requires After(c, n, active, events).Some? && q < |After(c, n, active, events).value.procs|
    requires var pc := After(c, n, active, events).value.procs[q].pc; pc.Writing? && pc.section.Write?
    ensures NoCalls(events, more) && After(c, n, active, more).Some?
    ensures var s := After(c, n, active, events).value;
            After(c, n, active, more).value.log == s.log + [s.procs[q].pc.step]
  {
    more := Extend(c, n, active, events, Run(q, NO_CHOICE));
  }

  lemma WriteAfterReading(c: Config, n: nat, active: Option<nat>, events: seq<Event>, q: nat) returns (more: seq<Event>)
    requires After(c, n, active, events).Some? && q < |After(c, n, active, events).value.procs|
    requires var pc := After(c, n, active, events).value.procs[q].pc; pc.Writing? && pc.section.Read?
    ensures NoCalls(events, more) && After(c, n, active, more).Some?
    ensures var s := After(c, n, active, events).value;
            After(c, n, active, more).value.log == s.log + [s.procs[q].pc.step]
  {
    more := Extend(c, n, active, events, Run(q, NO_CHOICE));
    more := WriteCopy(c, n, active, more, q);
  }

  lemma WriteAfterEntering(c: Config, n: nat, active: Option<nat>, events: seq<Event>, q: nat) returns (more: seq<Event>)
    requires After(c, n, active, events).Some? && q < |After(c, n, active, events).value.procs|
    requires var pc := After(c, n, active, events).value.procs[q].pc; pc.Writing? && pc.section.Enter?
    ensures NoCalls(events, more) && After(c, n, active, more).Some?
    ensures var s := After(c, n, active, events).value;
            After(c, n, active, more).value.log == s.log + [s.procs[q].pc.step]
  {
    more := Unblock(c, n, active, events, q);
    more := Extend(c, n, active, more, Run(q, NO_CHOICE));
    more := WriteAfterReading(c, n, active, more, q);
  }

  lemma WriteNow(c: Config, n: nat, active: Option<nat>, events: seq<Event>, q: nat) returns (more: seq<Event>)
    requires After(c, n, active, events).Some? && q < |After(c, n, active, events).value.procs|
    requires var pc := After(c, n, active, events).value.procs[q].pc; pc.Writing? && !pc.section.Leave?
    ensures NoCalls(events, more) && After(c, n, active, more).Some?
    ensures var s := After(c, n, active, events).value;
            After(c, n, active, more).value.log == s.log + [s.procs[q].pc.step]
  {
    match After(c, n, active, events).value.procs[q].pc.section
    case Enter => more := WriteAfterEntering(c, n, active, events, q);
    case Read => more := WriteAfterReading(c, n, active, events, q);
    case Write(_) => more := WriteCopy(c, n, active, events, q);
  }

  /** On the way to a write. */
  lemma OneStep(c: Config, n: nat, active: Option<nat>, events: seq<Event>, q: nat, x: Choice) returns (more: seq<Event>)
    requires After(c, n, active, events).Some?
    requires var s := After(c, n, active, events).value;
             CanRun(s, q, x) && !(s.procs[q].pc.Writing? && s.procs[q].pc.section.Write?)
    ensures NoCalls(events, more) && After(c, n, active, more) == Some(Moved(c, After(c, n, active, events).value, q, x))
    ensures After(c, n, active, more).value.log == After(c, n, active, events).value.log
  {
    more := Extend(c, n, active, events, Run(q, x));
    OnlyWritesTouchJournal(c, After(c, n, active, events).value, q, x);
  }

  lemma DriveSwitch(c: Config, n: nat, active: Option<nat>, events: seq<Event>, q: nat) returns (more: seq<Event>)
    requires After(c, n, active, events).Some? && q < |After(c, n, active, events).value.procs|
    requires var pc := After(c, n, active, events).value.procs[q].pc; pc.Switching? || pc.Checking?
    ensures NoCalls(events, more) && After(c, n, active, more).Some?
    ensures Rewritten(After(c, n, active, events).value.log, After(c, n, active, more).value.log,
                      After(c, n, active, events).value.procs[q].pc.tx)
  {
    more := OneStep(c, n, active, events, q, Choice("", Outcome(1, None)));
    var log := After(c, n, active, more).value.log;
    more := WriteNow(c, n, active, more, q);
    assert After(c, n, active, more).value.log[|log|].id == After(c, n, active, events).value.procs[q].pc.tx;
  }

  lemma DriveWriting(c: Config, n: nat, active: Option<nat>, events: seq<Event>, q: nat) returns (more: seq<Event>)
    requires After(c, n, active, events).Some? && q < |After(c, n, active, events).value.procs|
    requires var pc := After(c, n, active, events).value.procs[q].pc;
             pc.Writing? && (pc.section.Leave? ==> pc.after.ToApplying? || pc.after.ToSwitch?)
    ensures NoCalls(events, more) && After(c, n, active, more).Some?
    ensures Rewritten(After(c, n, active, events).value.log, After(c, n, active, more).value.log,
                      After(c, n, active, events).value.procs[q].pc.step.id)
  {
    ReachableInv(c, n, active, events);
    var s := After(c, n, active, events).value;
    assert ProcOk(s, q);
    if !s.procs[q].pc.section.Leave? {
      more := WriteNow(c, n, active, events, q);
      assert After(c, n, active, more).value.log[|s.log|].id == s.procs[q].pc.step.id;
    } else {
      more := OneStep(c, n, active, events, q, NO_CHOICE);
      if s.procs[q].pc.after.ToSwitch? {
        more := DriveSwitch(c, n, active, more, q);
      } else {
        more := WriteNow(c, n, active, more, q);
        assert After(c, n, active, more).value.log[|s.log|].id == s.procs[q].pc.step.id;
      }
    }
  }

  /** A settled entry is not on a list, so a process tied to it runs it or is updating it. */
  lemma TiedRuns(c: Config, s: State, q: nat, k: nat)
    requires Inv(c, s) && AllLists(s) && q < |s.procs| && k < |s.book| && !IsDangling(s.book[k]) && Tied(s.procs[q], s.book[k].id)
    ensures var pc := s.procs[q].pc;
            || ((pc.Switching? || pc.Checking?) && pc.tx == s.book[k].id)
            || (pc.Writing? && pc.step.id == s.book[k].id && (pc.section.Leave? ==> pc.after.ToApplying? || pc.after.ToSwitch?))
  {
    assert ProcOk(s, q) && ListOk(s, q);
    SettledNotOnList(s, q, k);
  }

  lemma SettledNotOnList(s: State, q: nat, k: nat)
    requires q < |s.procs| && ListOk(s, q) && DistinctIds(s.book) && k < |s.book| && !IsDangling(s.book[k])
    ensures s.book[k].id !in Ids(Rest(s.procs[q]))
  {
    forall e | e in Rest(s.procs[q]) ensures e.id != s.book[k].id {
      var i :| 0 <= i < |s.book| && s.book[i].id == e.id && IsDangling(s.book[i]);
    }
  }

  lemma Drive(c: Config, n: nat, active: Option<nat>, events: seq<Event>, q: nat, k: nat) returns (more: seq<Event>)
    requires After(c, n, active, events).Some?
    requires var s := After(c, n, active, events).value;
             q < |s.procs| && k < |s.book| && !IsDangling(s.book[k]) && Tied(s.procs[q], s.book[k].id)
    ensures NoCalls(events, more) && After(c, n, active, more).Some?
    ensures var s := After(c, n, active, events).value; Rewritten(s.log, After(c, n, active, more).value.log, s.book[k].id)
  {
    ReachableInv(c, n, active, events);
    ReachableLists(c, n, active, events);
    var s := After(c, n, active, events).value;
    TiedRuns(c, s, q, k);
    if s.procs[q].pc.Writing? {
      more := DriveWriting(c, n, active, events, q);
    } else {
      more := DriveSwitch(c, n, active, events, q);
    }
  }

  ghost predicate CanBeRewritten(c: Config, n: nat, active: Option<nat>, events: seq<Event>, id: string)
    requires After(c, n, active, events).Some?
  {
    exists more :: Continues(c, n, active, events, more, id)
                   && Rewritten(After(c, n, active, events).value.log, After(c, n, active, more).value.log, id)
  }

  /** A settled transaction can be written again, although nobody asks for it, if and only if a process is still tied to it. */
  lemma SettledExact(c: Config, n: nat, active: Option<nat>, events: seq<Event>, k: nat)
    requires After(c, n, active, events).Some?
    requires var s := After(c, n, active, events).value; k < |s.book| && !IsDangling(s.book[k])
    ensures var s := After(c, n, active, events).value;
            CanBeRewritten(c, n, active, events, s.book[k].id) <==> exists q :: 0 <= q < |s.procs| && Tied(s.procs[q], s.book[k].id)
  {
    var s := After(c, n, active, events).value;
    var e := s.book[k];
    ReachableInv(c, n, active, events);
    BookIds(c.digest, s.log, k);
    if q :| 0 <= q < |s.procs| && Tied(s.procs[q], e.id) {
      var more := Drive(c, n, active, events, q, k);
      assert Continues(c, n, active, events, more, e.id);
    } else {
      assert Closed(s, k, e);
      forall more | Continues(c, n, active, events, more, e.id)
        ensures !Rewritten(s.log, After(c, n, active, more).value.log, e.id)
      {
        SettledStays(c, n, active, events, more, k, e);
      }
    }
  }
}
