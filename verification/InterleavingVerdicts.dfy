/** When the verdicts of recovery can be trusted although other processes go on. */
module InterleavingVerdicts {
  import opened Wrappers
  import opened HashChain
  import opened Journal
  import opened Rollback
  import opened Interleaving
  import opened InterleavingInvariant
  import opened InterleavingSafety
  import opened InterleavingRaces

  // ---- "already at the earlier generation"

  /** Recovery has the earlier generation of its next transaction active. */
  predicate FindsActive(s: State, p: nat) {
    p < |s.procs| && s.procs[p].pc.Treating? && s.procs[p].todo.Some? && s.procs[p].todo.value != []
    && NeedsSwitchBack(s.procs[p].todo.value[0]) && s.active == Some(HeadGeneration(s.procs[p]))
  }

  /** It is about to write that down. */
  predicate WritesAlready(s: State, p: nat, g: nat, calm: bool) {
    p < |s.procs| && s.procs[p].pc.Writing? && s.procs[p].pc.section.Write? && s.procs[p].pc.after == ToNext(AlreadyAt(g), calm)
  }

  lemma VerdictBegins(c: Config, n: nat, active: Option<nat>, events: seq<Event>, p: nat) returns (more: seq<Event>)
    requires After(c, n, active, events).Some? && FindsActive(After(c, n, active, events).value, p)
    ensures var s := After(c, n, active, events).value;
            && more == events + [Run(p, NO_CHOICE)]
            && After(c, n, active, more) == Some(With(s, p, Mark(s.procs[p], AlreadyAt(HeadGeneration(s.procs[p])), Quiet(s, p), s.clock)))
  {
    more := Extend(c, n, active, events, Run(p, NO_CHOICE));
  }

  /** The switch command leaves no generation active. */
  lemma SwitchAway(c: Config, n: nat, active: Option<nat>, events: seq<Event>, q: nat) returns (more: seq<Event>)
    requires After(c, n, active, events).Some?
    requires var s := After(c, n, active, events).value; q < |s.procs| && s.procs[q].pc.Switching?
    ensures events <= more && After(c, n, active, more).Some?
    ensures var s, t := After(c, n, active, events).value, After(c, n, active, more).value;
            t.active == None && |t.procs| == |s.procs| && forall p :: 0 <= p < |s.procs| && p != q ==> t.procs[p] == s.procs[p]
  {
    more := Extend(c, n, active, events, Run(q, Choice("", Outcome(0, None))));
  }

  lemma Disturbed(c: Config, n: nat, active: Option<nat>, events: seq<Event>, p: nat, q: nat) returns (more: seq<Event>)
    requires After(c, n, active, events).Some? && FindsActive(After(c, n, active, events).value, p)
    requires var s := After(c, n, active, events).value; q < |s.procs| && q != p && s.procs[q].pc.Switching?
    ensures events + [Run(p, NO_CHOICE)] <= more && After(c, n, active, more).Some?
    ensures var s, t := After(c, n, active, events).value, After(c, n, active, more).value;
            WritesAlready(t, p, HeadGeneration(s.procs[p]), false) && t.active == None
  {
    ReachableInv(c, n, active, events);
    assert ProcOk(After(c, n, active, events).value, p);
    more := VerdictBegins(c, n, active, events, p);
    more := ReadIn(c, n, active, more, p);
    more := SwitchAway(c, n, active, more, q);
  }

  lemma Undisturbed(c: Config, n: nat, active: Option<nat>, more: seq<Event>, p: nat, g: nat)
    requires After(c, n, active, more).Some? && WritesAlready(After(c, n, active, more).value, p, g, true)
    ensures After(c, n, active, more).value.active == Some(g)
  {
    ReachableInv(c, n, active, more);
    var s := After(c, n, active, more).value;
    assert ProcOk(s, p) && Claims(s.procs[p], g);
  }

  /** The verdict of having found the earlier generation active is true whenever it comes to be written, whatever happens
      meanwhile, if and only if no other process was running the switch command at the time. */
  lemma AlreadyAtExact(c: Config, n: nat, active: Option<nat>, events: seq<Event>, p: nat)
    requires After(c, n, active, events).Some? && FindsActive(After(c, n, active, events).value, p)
    ensures var s := After(c, n, active, events).value;
            var g := HeadGeneration(s.procs[p]);
            Quiet(s, p) <==>
              forall more :: events + [Run(p, NO_CHOICE)] <= more && After(c, n, active, more).Some?
                             && WritesAlready(After(c, n, active, more).value, p, g, Quiet(s, p))
                             ==> After(c, n, active, more).value.active == Some(g)
  {
    var s := After(c, n, active, events).value;
    var g := HeadGeneration(s.procs[p]);
    if Quiet(s, p) {
      forall more | After(c, n, active, more).Some? && WritesAlready(After(c, n, active, more).value, p, g, true)
        ensures After(c, n, active, more).value.active == Some(g)
      {
        Undisturbed(c, n, active, more, p, g);
      }
    } else {
      var q :| 0 <= q < |s.procs| && q != p && s.procs[q].pc.Switching?;
      var more := Disturbed(c, n, active, events, p, q);
      assert After(c, n, active, more).value.active != Some(g);
    }
  }
}
