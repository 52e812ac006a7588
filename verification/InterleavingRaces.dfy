/** An interleaving in which recovery and a live rollback disagree about the same transaction. */
module InterleavingRaces {
  import opened Wrappers
  import opened HashChain
  import opened Journal
  import opened Rollback
  import opened Interleaving

  /** Continuing a run by one event. */
  lemma Extend(c: Config, n: nat, active: Option<nat>, events: seq<Event>, e: Event) returns (more: seq<Event>)
    requires After(c, n, active, events).Some? && Enabled(After(c, n, active, events).value, e)
    ensures more == events + [e] && After(c, n, active, more) == Some(Next(c, After(c, n, active, events).value, e))
  {
    more := events + [e];
    assert more[..|events|] == events;
  }

  const NO_CHOICE := Choice("", Outcome(0, None))

  /** Going in and taking a copy. */
  lemma ReadIn(c: Config, n: nat, active: Option<nat>, events: seq<Event>, p: nat) returns (more: seq<Event>)
    requires After(c, n, active, events).Some?
    requires var s := After(c, n, active, events).value;
             && p < |s.procs| && s.procs[p].pc.Writing? && s.procs[p].pc.section.Enter?
             && (s.procs[p].depth == 0 ==> s.journalHolder.None?)
    ensures more == events + [Run(p, NO_CHOICE), Run(p, NO_CHOICE)] && After(c, n, active, more).Some?
    ensures var s := After(c, n, active, events).value;
            var pr := s.procs[p];
            After(c, n, active, more).value
            == s.(journalHolder := Some(p),
                  procs := s.procs[p := pr.(depth := pr.depth + 1, pc := Writing(pr.pc.step, Write(s.book), pr.pc.after))])
  {
    more := Extend(c, n, active, events, Run(p, NO_CHOICE));
    more := Extend(c, n, active, more, Run(p, NO_CHOICE));
  }

  /** Writing the copy back and coming out. */
  lemma WriteOut(c: Config, n: nat, active: Option<nat>, events: seq<Event>, p: nat) returns (more: seq<Event>)
    requires After(c, n, active, events).Some?
    requires var s := After(c, n, active, events).value;
             p < |s.procs| && s.procs[p].pc.Writing? && s.procs[p].pc.section.Write? && s.procs[p].depth > 0
    ensures more == events + [Run(p, NO_CHOICE), Run(p, NO_CHOICE)] && After(c, n, active, more).Some?
    ensures var s := After(c, n, active, events).value;
            var pr := s.procs[p];
            After(c, n, active, more).value
            == s.(book := Apply(c.digest, pr.pc.section.copy, pr.pc.step), log := s.log + [pr.pc.step],
                  journalHolder := if pr.depth == 1 then None else s.journalHolder,
                  procs := s.procs[p := Continued(pr.(pc := Writing(pr.pc.step, Leave, pr.pc.after)), s.clock).(depth := pr.depth - 1)])
  {
    more := Extend(c, n, active, events, Run(p, NO_CHOICE));
    more := Extend(c, n, active, more, Run(p, NO_CHOICE));
  }

  function Setting(d: Digest): Config { Config(d, [1, 2]) }

  /** The one transaction of the story, as process 0 opens it. */
  function Opened(d: Digest, state: TxState): Entry {
    NewEntry(d, [], "a", "rollback", 0, Details(Some(2), map["target_generation" := Number(1)])).(state := state)
  }

  /** Where the two processes are, with process 1 in recovery when it has a list. */
  ghost predicate At(d: Digest, events: seq<Event>, book: seq<Entry>, active: nat, journalHolder: Option<nat>, opHolder: Option<nat>,
                     zero: Proc, one: Proc) {
    match After(Setting(d), 2, Some(2), events)
    case None => false
    case Some(s) =>
      && s.book == book && s.active == Some(active) && s.clock == 0 && s.used <= {"a"} && (opHolder.None? ==> s.used == {})
      && s.journalHolder == journalHolder && s.opHolder == opHolder && s.procs == [zero, one]
  }

  const IDLE := Proc(Idle, 0, None)

  function OpeningStep(): Step { Start("a", "rollback", 0, Details(Some(2), map["target_generation" := Number(1)])) }

  function ApplyingStep(): Step { Update("a", Applying, 0, NO_DETAILS) }

  lemma ReachLocking(d: Digest) returns (events: seq<Event>)
    ensures At(d, events, [], 2, None, None, Proc(Locking(2, 1), 0, None), IDLE)
  {
    var c := Setting(d);
    assert seq(2, _ => IDLE) == [IDLE, IDLE];
    events := Extend(c, 2, Some(2), [], Begin(0, CallRollback(Some(1))));
    events := Extend(c, 2, Some(2), events, Run(0, NO_CHOICE));
    events := Extend(c, 2, Some(2), events, Run(0, NO_CHOICE));
  }

  lemma ReachStarting(d: Digest) returns (events: seq<Event>)
    ensures At(d, events, [], 2, None, Some(0), Proc(Writing(OpeningStep(), Enter, ToApplying("a", 1)), 0, None), IDLE)
  {
    events := ReachLocking(d);
    events := Extend(Setting(d), 2, Some(2), events, Run(0, NO_CHOICE));
    events := Extend(Setting(d), 2, Some(2), events, Run(0, Choice("a", Outcome(0, Some(1)))));
  }

  lemma ReachApplying(d: Digest) returns (events: seq<Event>)
    ensures At(d, events, [Opened(d, Pending)], 2, None, Some(0), Proc(Writing(ApplyingStep(), Enter, ToSwitch("a", 1)), 0, None), IDLE)
  {
    events := ReachStarting(d);
    events := ReadIn(Setting(d), 2, Some(2), events, 0);
    ApplyToNone(d);
    events := WriteOut(Setting(d), 2, Some(2), events, 0);
  }

  /** Process 0 has the transaction applying and is about to switch from generation 2 to 1. */
  lemma ReachSwitch(d: Digest) returns (events: seq<Event>)
    ensures At(d, events, [Opened(d, Applying)], 2, None, Some(0), Proc(Switching("a", 1), 0, None), IDLE)
  {
    events := ReachApplying(d);
    events := ReadIn(Setting(d), 2, Some(2), events, 0);
    events := WriteOut(Setting(d), 2, Some(2), events, 0);
    ApplyToOne(d, Opened(d, Pending), Applying, NO_DETAILS);
    MergedNothing(Opened(d, Pending).details);
  }

  lemma ApplyToNone(d: Digest)
    ensures Apply(d, [], OpeningStep()) == [Opened(d, Pending)]
  {
    assert Find([], "a") == 0;
  }

  lemma MergedNothing(x: Details)
    ensures Merged(x, NO_DETAILS) == x
  {
    assert x.notes + map[] == x.notes;
  }

  lemma ApplyToOne(d: Digest, e: Entry, state: TxState, details: Details)
    ensures Apply(d, [e], Update(e.id, state, 0, details)) == [e.(state := state, updatedAt := 0, details := Merged(e.details, details))]
  {
    assert Find([e], e.id) == 0;
  }

  lemma ReachScan(d: Digest) returns (events: seq<Event>)
    ensures At(d, events, [Opened(d, Applying)], 2, Some(1), Some(0), Proc(Switching("a", 1), 0, None), Proc(Scanning(Read), 2, None))
  {
    events := ReachSwitch(d);
    events := Extend(Setting(d), 2, Some(2), events, Begin(1, CallRecover));
    events := Extend(Setting(d), 2, Some(2), events, Run(1, NO_CHOICE));
    events := Extend(Setting(d), 2, Some(2), events, Run(1, NO_CHOICE));
  }

  lemma ReachTreating(d: Digest) returns (events: seq<Event>)
    ensures At(d, events, [Opened(d, Applying)], 2, Some(1), Some(0), Proc(Switching("a", 1), 0, None),
               Proc(Treating, 1, Some([Opened(d, Applying)])))
  {
    events := ReachScan(d);
    assert [Opened(d, Applying)][..0] == [];
    assert Dangling([Opened(d, Applying)]) == [Opened(d, Applying)];
    events := Extend(Setting(d), 2, Some(2), events, Run(1, NO_CHOICE));
    events := Extend(Setting(d), 2, Some(2), events, Run(1, NO_CHOICE));
  }

  function VerdictStep(): Step { Update("a", RolledBack, 0, RecoveryNote(AlreadyAt(2))) }

  lemma ReachVerdict(d: Digest) returns (events: seq<Event>)
    ensures At(d, events, [Opened(d, Applying)], 2, Some(1), Some(0), Proc(Switching("a", 1), 0, None),
               Proc(Writing(VerdictStep(), Enter, ToNext(AlreadyAt(2), false)), 1, Some([Opened(d, Applying)])))
  {
    events := ReachTreating(d);
    var s := After(Setting(d), 2, Some(2), events).value;
    assert s.procs[0].pc.Switching? && !Quiet(s, 1);
    events := Extend(Setting(d), 2, Some(2), events, Run(1, NO_CHOICE));
  }

  /** Recovery is about to mark a transaction as rolled back to generation 2 while generation 1 is active. */
  lemma AlreadyAtCanBeStale(d: Digest) returns (events: seq<Event>)
    ensures At(d, events, [Opened(d, Applying)], 1, Some(1), Some(0), Proc(Checking("a", 1), 0, None),
               Proc(Writing(VerdictStep(), Write([Opened(d, Applying)]), ToNext(AlreadyAt(2), false)), 2, Some([Opened(d, Applying)])))
  {
    events := ReachVerdict(d);
    events := ReadIn(Setting(d), 2, Some(2), events, 1);
    events := Extend(Setting(d), 2, Some(2), events, Run(0, Choice("", Outcome(0, Some(1)))));
  }

  lemma ReachMarked(d: Digest) returns (events: seq<Event>)
    ensures At(d, events, [Marked(d)], 1, Some(1), Some(0), Proc(Checking("a", 1), 0, None), Proc(Treating, 1, Some([])))
  {
    events := AlreadyAtCanBeStale(d);
    events := WriteOut(Setting(d), 2, Some(2), events, 1);
    ApplyToOne(d, Opened(d, Applying), RolledBack, RecoveryNote(AlreadyAt(2)));
    assert [Opened(d, Applying)][1..] == [];
  }

  function Marked(d: Digest): Entry {
    var e := Opened(d, Applying);
    e.(state := RolledBack, details := Merged(e.details, RecoveryNote(AlreadyAt(2))))
  }

  lemma ReachSettling(d: Digest, events: seq<Event>) returns (more: seq<Event>)
    requires At(d, events, [Marked(d)], 1, Some(1), Some(0), Proc(Checking("a", 1), 0, None), Proc(Treating, 1, Some([])))
    ensures events <= more
    ensures At(d, more, [Marked(d)], 1, None, Some(0), Settle(Proc(Checking("a", 1), 0, None), "a", 0, 1, 0), IDLE)
  {
    more := Extend(Setting(d), 2, Some(2), events, Run(1, NO_CHOICE));
    more := Extend(Setting(d), 2, Some(2), more, Run(1, NO_CHOICE));
    more := Extend(Setting(d), 2, Some(2), more, Run(0, NO_CHOICE));
  }

  /** These events can happen, and leave the one transaction of the book in this state. */
  ghost predicate Leaves(d: Digest, events: seq<Event>, state: TxState) {
    match After(Setting(d), 2, Some(2), events)
    case None => false
    case Some(s) => |s.book| == 1 && s.book[0].id == "a" && s.book[0].state == state
  }

  /** The transaction that recovery settled is then committed by the process that was still running it. */
  lemma SettledCanChange(d: Digest) returns (events: seq<Event>, more: seq<Event>)
    ensures events <= more
    ensures Leaves(d, events, RolledBack) && Leaves(d, more, Committed)
  {
    events := ReachMarked(d);
    more := ReachSettling(d, events);
    more := ReadIn(Setting(d), 2, Some(2), more, 0);
    more := WriteOut(Setting(d), 2, Some(2), more, 0);
    ApplyToOne(d, Marked(d), Committed, Details(None, map["final_generation" := Number(1)]));
  }
}
