/** What rollback and recovery come to in the interleaved model. */
module InterleavingOutcomes {
  import opened Wrappers
  import opened HashChain
  import opened Journal
  import opened Rollback
  import opened Interleaving
  import opened InterleavingInvariant
  import opened InterleavingSafety
  import opened InterleavingRaces
  import opened InterleavingSettled

  /** Whenever recovery writes about a transaction, it marks it failed without more ado if and only if there is nothing
      to go back to; and it writes FAILED unless the earlier generation was found or restored. */
  lemma RecoveryMarksExactly(c: Config, n: nat, active: Option<nat>, events: seq<Event>, p: nat)
    requires After(c, n, active, events).Some? && p < |After(c, n, active, events).value.procs|
    requires var pc := After(c, n, active, events).value.procs[p].pc; pc.Writing? && pc.after.ToNext?
    ensures var pr := After(c, n, active, events).value.procs[p];
            && pr.todo.Some? && pr.todo.value != [] && pr.pc.step.Update? && pr.pc.step.id == pr.todo.value[0].id
            && (pr.pc.after.action == MarkedFailed <==> NoWayBack(pr.todo.value[0]))
            && pr.pc.step.state == if pr.pc.after.action.AlreadyAt? || pr.pc.after.action.RolledBackTo? then RolledBack else Failed
  {
    ReachableInv(c, n, active, events);
    assert ProcOk(After(c, n, active, events).value, p);
  }

  /** A rollback is committed only while the generation it was for is active. */
  lemma CommittedTruly(c: Config, n: nat, active: Option<nat>, events: seq<Event>, p: nat)
    requires After(c, n, active, events).Some? && p < |After(c, n, active, events).value.procs|
    requires var pc := After(c, n, active, events).value.procs[p].pc;
             pc.Writing? && pc.after.ToUnlock? && pc.step.Update? && pc.step.state == Committed
    ensures After(c, n, active, events).value.active == Some(After(c, n, active, events).value.procs[p].pc.after.g)
  {
    ReachableInv(c, n, active, events);
    var s := After(c, n, active, events).value;
    assert ProcOk(s, p) && Claims(s.procs[p], s.procs[p].pc.after.g);
  }

  // ---- an interrupted update is taken back

  /** Where process p is, with the machine around it. */
  ghost predicate Here(c: Config, n: nat, active: Option<nat>, events: seq<Event>, p: nat, pr: Proc, now: nat, act: Option<nat>,
                       op: Option<nat>)
  {
    match After(c, n, active, events)
    case None => false
    case Some(s) => p < |s.procs| && s.procs[p] == pr && s.clock == now && s.active == act && s.opHolder == op
  }

  /** From the head of recovery's list to the door of the operation lock. */
  lemma ToLock(c: Config, n: nat, active: Option<nat>, events: seq<Event>, p: nat, pr: Proc, now: nat, act: nat, g: nat)
    returns (more: seq<Event>)
    requires Here(c, n, active, events, p, pr, now, Some(act), None) && pr.pc.Treating? && pr.todo.Some? && pr.todo.value != []
    requires CanGoBack(pr.todo.value[0], g, c.history, Some(act), false, Outcome(0, Some(g)))
    ensures Here(c, n, active, more, p, pr.(pc := Locking(act, g)), now, Some(act), None)
  {
    more := Extend(c, n, active, events, Run(p, NO_CHOICE));
    more := Extend(c, n, active, more, Run(p, NO_CHOICE));
    more := Extend(c, n, active, more, Run(p, NO_CHOICE));
  }

  lemma ToStart(c: Config, n: nat, active: Option<nat>, events: seq<Event>, p: nat, pr: Proc, now: nat, act: nat, g: nat)
    returns (more: seq<Event>, id: string, details: Details)
    requires Here(c, n, active, events, p, pr, now, Some(act), None) && pr.pc == Locking(act, g)
    ensures Here(c, n, active, more, p, pr.(pc := Writing(Start(id, "rollback", now, details), Enter, ToApplying(id, g))), now,
                 Some(act), Some(p))
  {
    more := Extend(c, n, active, events, Run(p, NO_CHOICE));
    id := FreshIdExists(After(c, n, active, more).value);
    details := Details(Some(act), map["target_generation" := Number(g)]);
    more := Extend(c, n, active, more, Run(p, Choice(id, Outcome(0, None))));
  }

  lemma WriteThrough(c: Config, n: nat, active: Option<nat>, events: seq<Event>, p: nat, pr: Proc, now: nat, act: Option<nat>,
                     op: Option<nat>) returns (more: seq<Event>)
    requires Here(c, n, active, events, p, pr, now, act, op) && pr.pc.Writing? && pr.pc.section.Enter? && pr.depth > 0
    ensures Here(c, n, active, more, p,
                 Continued(pr.(depth := pr.depth + 1, pc := Writing(pr.pc.step, Leave, pr.pc.after)), now).(depth := pr.depth),
                 now, act, op)
  {
    more := ReadIn(c, n, active, events, p);
    more := WriteOut(c, n, active, more, p);
  }

  /** The nested rollback, from its first journal entry to its return. */
  lemma ThroughSwitch(c: Config, n: nat, active: Option<nat>, events: seq<Event>, p: nat, pr: Proc, now: nat, act: nat, g: nat,
                      id: string)
    returns (more: seq<Event>)
    requires Here(c, n, active, events, p, pr, now, Some(act), Some(p)) && pr.depth > 0 && pr.todo.Some? && pr.todo.value != []
    requires pr.pc == Switching(id, g)
    ensures Here(c, n, active, more, p,
                 Mark(pr.(pc := Unlocking(0, g)), RolledBackTo(HeadGeneration(pr)), true, now), now, Some(g), None)
  {
    more := Extend(c, n, active, events, Run(p, Choice("", Outcome(0, Some(g)))));
    more := Extend(c, n, active, more, Run(p, NO_CHOICE));
    more := WriteThrough(c, n, active, more, p, Settle(pr, id, 0, g, now), now, Some(g), Some(p));
    more := Extend(c, n, active, more, Run(p, NO_CHOICE));
  }

  lemma ToSwitching(c: Config, n: nat, active: Option<nat>, events: seq<Event>, p: nat, pr: Proc, now: nat, act: nat, g: nat)
    returns (more: seq<Event>, id: string)
    requires Here(c, n, active, events, p, pr, now, Some(act), None) && pr.pc == Locking(act, g) && pr.depth > 0
    ensures Here(c, n, active, more, p, pr.(pc := Switching(id, g)), now, Some(act), Some(p))
  {
    var details;
    more, id, details := ToStart(c, n, active, events, p, pr, now, act, g);
    var starting := pr.(pc := Writing(Start(id, "rollback", now, details), Enter, ToApplying(id, g)));
    more := WriteThrough(c, n, active, more, p, starting, now, Some(act), Some(p));
    var applying := pr.(pc := Writing(Update(id, Applying, now, NO_DETAILS), Enter, ToSwitch(id, g)));
    more := WriteThrough(c, n, active, more, p, applying, now, Some(act), Some(p));
  }

  lemma MarkedHere(c: Config, n: nat, active: Option<nat>, events: seq<Event>, p: nat, pr: Proc, now: nat, g: nat)
    returns (more: seq<Event>, i: nat)
    requires Here(c, n, active, events, p, pr, now, Some(g), None) && pr.pc.Writing? && pr.pc.section.Enter? && pr.depth > 0
    requires pr.todo.Some? && pr.todo.value != []
    requires pr.pc.step.Update? && pr.pc.step.id == pr.todo.value[0].id && pr.pc.step.state == RolledBack && pr.pc.after.ToNext?
    ensures After(c, n, active, more).Some? && After(c, n, active, more).value.active == Some(g)
    ensures var book := After(c, n, active, more).value.book;
            i < |book| && book[i].id == pr.todo.value[0].id && book[i].state == RolledBack
  {
    ReachableLists(c, n, active, events);
    var s := After(c, n, active, events).value;
    assert ListOk(s, p) && pr.todo.value[0] in Rest(pr);
    more := ReadIn(c, n, active, events, p);
    more := WriteOut(c, n, active, more, p);
    i := Find(s.book, pr.todo.value[0].id);
  }

  /** From any reachable state in which recovery comes to an interrupted update or rollback whose earlier generation is
      listed and not active, with the lock free: if the switch command reaches that generation, recovery can go on until
      the transaction is marked rolled back with that generation active. */
  lemma TakenBack(c: Config, n: nat, active: Option<nat>, events: seq<Event>, p: nat, g: nat) returns (more: seq<Event>, i: nat)
    requires After(c, n, active, events).Some?
    requires var s := After(c, n, active, events).value;
             && p < |s.procs| && s.procs[p].pc.Treating? && s.procs[p].todo.Some? && s.procs[p].todo.value != []
             && CanGoBack(s.procs[p].todo.value[0], g, c.history, s.active, s.opHolder.Some?, Outcome(0, Some(g)))
    ensures After(c, n, active, more).Some? && After(c, n, active, more).value.active == Some(g)
    ensures var e, book := After(c, n, active, events).value.procs[p].todo.value[0], After(c, n, active, more).value.book;
            i < |book| && book[i].id == e.id && book[i].state == RolledBack
  {
    ReachableInv(c, n, active, events);
    var s := After(c, n, active, events).value;
    var pr, now, act := s.procs[p], s.clock, s.active.value;
    assert ProcOk(s, p);
    more := ToLock(c, n, active, events, p, pr, now, act, g);
    var id;
    more, id := ToSwitching(c, n, active, more, p, pr.(pc := Locking(act, g)), now, act, g);
    more := ThroughSwitch(c, n, active, more, p, pr.(pc := Switching(id, g)), now, act, g, id);
    more, i := MarkedHere(c, n, active, more, p, Mark(pr.(pc := Unlocking(0, g)), RolledBackTo(HeadGeneration(pr)), true, now), now, g);
  }
}
