/** Validating and executing a rollback, and recovering dangling transactions, in one process. */
module Rollback {
  import opened Wrappers
  import opened HashChain
  import opened Journal
  import L = OperationLocks

  // ---- simulate_rollback

  datatype Reason = NoGenerations | ActiveUnknown | NotInHistory(g: int) | AlreadyActive(g: int) | NoPredecessor(active: nat)

  datatype Verdict = Rejected(reason: Reason) | Target(g: nat)

  function Below(history: seq<nat>, active: nat): (r: seq<nat>)
    ensures forall g :: g in r <==> g in history && g < active
  {
    if history == [] then []
    else
      assert history == history[..|history| - 1] + [history[|history| - 1]];
      Below(history[..|history| - 1], active) + (if history[|history| - 1] < active then [history[|history| - 1]] else [])
  }

  lemma {:induction false} BelowAscends(history: seq<nat>, active: nat)
    requires Ascending(history)
    ensures Ascending(Below(history, active))
  {
    if history != [] {
      var front, r := history[..|history| - 1], Below(history, active);
      BelowAscends(front, active);
      forall i | 0 <= i < |Below(front, active)| ensures Below(front, active)[i] <= history[|history| - 1] {
        assert Below(front, active)[i] in Below(front, active);
      }
    }
  }

  predicate Ascending(history: seq<nat>) {
    forall i, j :: 0 <= i < j < |history| ==> history[i] <= history[j]
  }

  function Simulate(history: seq<nat>, active: Option<nat>, target: Option<int>): Verdict {
    if history == [] then Rejected(NoGenerations)
    else match active
      case None => Rejected(ActiveUnknown)
      case Some(a) =>
        match target
        case Some(t) =>
          if t < 0 || t !in history then Rejected(NotInHistory(t))
          else if t == a then Rejected(AlreadyActive(t))
          else Target(t)
        case None =>
          var p := Below(history, a);
          if p == [] then Rejected(NoPredecessor(a)) else Target(p[|p| - 1])
  }

  /** An explicit target is accepted exactly when it is listed and not active; the default is the nearest listed
      generation below the active one. */
  lemma SimulateExact(history: seq<nat>, active: Option<nat>, target: Option<int>, g: nat)
    requires Ascending(history)
    ensures Simulate(history, active, target) == Target(g) <==>
            (active.Some? && g in history && g != active.value
             && match target
                case Some(t) => g == t
                case None => g < active.value && forall h :: h in history && h < active.value ==> h <= g)
  {
    if active.Some? && target.None? {
      var p := Below(history, active.value);
      BelowAscends(history, active.value);
      assert p != [] ==> p[|p| - 1] in p;
    }
  }

  /** Why a rollback is refused, the first reason that applies. */
  lemma RefusedExactly(history: seq<nat>, active: Option<nat>, target: Option<int>)
    ensures var v := Simulate(history, active, target);
            && (v == Rejected(NoGenerations) <==> history == [])
            && (v == Rejected(ActiveUnknown) <==> history != [] && active == None)
            && (v.Rejected? && v.reason.NotInHistory? <==>
                  history != [] && active.Some? && target.Some? && forall g :: g in history ==> g != target.value)
            && (v.Rejected? && v.reason.AlreadyActive? <==>
                  history != [] && active.Some? && target.Some? && target.value == active.value && active.value in history)
            && (v.Rejected? && v.reason.NoPredecessor? <==>
                  history != [] && active.Some? && target.None? && forall g :: g in history ==> g >= active.value)
  {
    if active.Some? && target.None? {
      var p := Below(history, active.value);
      if p != [] { assert p[0] in p; }
    }
  }

  // ---- the machine that rollback and recovery act on

  /** How the switch command ends: with a code, or in an exception, which counts as a code of 1. */
  datatype Outcome = Outcome(code: int, active: Option<nat>) | Raised(active: Option<nat>)

  function ExitCode(o: Outcome): int { match o case Outcome(code, _) => code case Raised(_) => 1 }

  function AbortReason(o: Outcome): string {
    if o.Raised? then "exception" else if o.code != 0 then "process failed" else "postcondition failed"
  }

  /** What the outside supplies at each step: a fresh id, the clock, and what the switch command does. */
  datatype World = World(ids: nat -> string, clock: nat -> nat, switch: nat -> Outcome)

  ghost predicate FreshIds(w: World, step: nat, j: seq<Entry>) {
    && (forall n, i :: step <= n && 0 <= i < |j| ==> j[i].id != w.ids(n))
    && (forall m, n :: 0 <= m < n ==> w.ids(m) != w.ids(n))
  }

  /** One more transaction, opened by a rollback and already settled; everything before it is as it was. */
  ghost predicate OneRollback(before: seq<Entry>, after: seq<Entry>, active: Option<nat>, ok: bool) {
    && |after| == |before| + 1 && after[..|before|] == before
    && after[|before|].operation == "rollback"
    && after[|before|].details.previousGeneration == active
    && after[|before|].state == (if ok then Committed else Failed)
  }

  /** The whole of a successful rollback. */
  ghost predicate Succeeds(history: seq<nat>, active: Option<nat>, target: Option<int>, dryRun: bool, busy: bool, outcome: Outcome) {
    && Simulate(history, active, target).Target?
    && (dryRun || (!busy && ExitCode(outcome) == 0 && outcome.active == Some(Simulate(history, active, target).g)))
  }

  lemma StartThenUpdate(d: Digest, j: seq<Entry>, e: Entry, id: string, s: TxState, now: nat, details: Details)
    requires e.id == id && forall i :: 0 <= i < |j| ==> j[i].id != id
    ensures Updated(j + [e], id, s, now, details)
         == j + [e.(state := s, updatedAt := now, details := Merged(e.details, details))]
  {
    var k := Find(j + [e], id);
    assert (j + [e])[|j|].id == id;
    assert k == |j| by { assert forall i :: 0 <= i < |j| ==> (j + [e])[i].id != id; }
  }

  datatype ReportLine = ReportLine(id: string, operation: string, action: Action)

  function StateFor(a: Action): TxState {
    if a.AlreadyAt? || a.RolledBackTo? then RolledBack else Failed
  }

  predicate NeedsSwitchBack(e: Entry) {
    (e.operation == "system_update" || e.operation == "rollback") && e.details.previousGeneration.Some?
    && e.details.previousGeneration.value != 0
  }

  /** The same transaction, brought to its end by recovery. */
  ghost predicate SettledFrom(before: Entry, after: Entry, action: Action) {
    && after.id == before.id && after.operation == before.operation && after.createdAt == before.createdAt
    && after.chainHash == before.chainHash && after.details.previousGeneration == before.details.previousGeneration
    && after.state == StateFor(action)
    && "recovery_action" in after.details.notes && after.details.notes["recovery_action"] == Did(action)
  }

  /** Recovery has nothing to go back to: the transaction is no update or rollback, or names no generation before it. */
  predicate NoWayBack(e: Entry) {
    (e.operation != "system_update" && e.operation != "rollback")
    || e.details.previousGeneration == None || e.details.previousGeneration == Some(0)
  }

  /** An interrupted update or rollback whose earlier generation g is listed and not active, with the lock free and a
      switch command that reaches g. */
  ghost predicate CanGoBack(e: Entry, g: nat, history: seq<nat>, active: Option<nat>, busy: bool, outcome: Outcome) {
    && (e.operation == "system_update" || e.operation == "rollback") && e.details.previousGeneration == Some(g) && g != 0
    && g in history && active.Some? && active != Some(g) && !busy && outcome == Outcome(0, Some(g))
  }

  ghost predicate MarkedExactly(before: seq<Entry>, report: seq<ReportLine>, k: nat) {
    k < |report| && k < |Dangling(before)| && (report[k].action == MarkedFailed <==> NoWayBack(Dangling(before)[k]))
  }

  /** Midway: the first k dangling transactions are settled, the others and all settled ones are untouched,
      and what recovery itself appended is settled. */
  ghost predicate Recovering(before: seq<Entry>, now: seq<Entry>, report: seq<ReportLine>) {
    && DistinctIds(now) && |before| <= |now| && |report| <= |Dangling(before)|
    && (forall i :: 0 <= i < |before| && !IsDangling(before[i]) ==> now[i] == before[i])
    && (forall i :: |before| <= i < |now| ==> now[i].operation == "rollback" && !IsDangling(now[i]))
    && (forall k :: 0 <= k < |report| ==> Reported(before, now, report, k))
    && (forall k :: |report| <= k < |Dangling(before)| ==> Waiting(before, now, k))
  }

  ghost predicate Reported(before: seq<Entry>, now: seq<Entry>, report: seq<ReportLine>, k: nat)
    requires k < |report| <= |Dangling(before)|
  {
    var e := Dangling(before)[k];
    var i := Find(before, e.id);
    && report[k].id == e.id && report[k].operation == e.operation
    && i < |before| && i < |now| && SettledFrom(e, now[i], report[k].action)
  }

  ghost predicate Waiting(before: seq<Entry>, now: seq<Entry>, k: nat)
    requires k < |Dangling(before)|
  {
    var e := Dangling(before)[k];
    var i := Find(before, e.id);
    i < |before| && i < |now| && now[i] == e
  }

  lemma {:induction false} DanglingDistinct(j: seq<Entry>)
    requires DistinctIds(j)
    ensures DistinctIds(Dangling(j))
  {
    if j != [] {
      var front, last := j[..|j| - 1], j[|j| - 1];
      DanglingDistinct(front);
      assert forall e :: e in front ==> exists i :: 0 <= i < |front| && front[i] == e;
      forall i | 0 <= i < |Dangling(front)| ensures Dangling(front)[i].id != last.id {
        assert Dangling(front)[i] in Dangling(front);
      }
    }
  }

  lemma DanglingPlace(j: seq<Entry>, k: nat)
    requires DistinctIds(j) && k < |Dangling(j)|
    ensures var i := Find(j, Dangling(j)[k].id);
            i < |j| && j[i] == Dangling(j)[k] && IsDangling(j[i])
  {
    var e := Dangling(j)[k];
    assert e in Dangling(j);
    var i :| 0 <= i < |j| && j[i] == e;
    FindAt(j, i);
  }

  lemma RecoveryStarts(j: seq<Entry>)
    requires DistinctIds(j)
    ensures Recovering(j, j, [])
  {
    forall k | 0 <= k < |Dangling(j)| ensures Waiting(j, j, k) { DanglingPlace(j, k); }
  }

  /** Appending a settled rollback disturbs nothing. */
  lemma RecoveryAppends(before: seq<Entry>, now: seq<Entry>, after: seq<Entry>, report: seq<ReportLine>)
    requires Recovering(before, now, report) && DistinctIds(after)
    requires |now| <= |after| && after[..|now|] == now
    requires forall i :: |now| <= i < |after| ==> after[i].operation == "rollback" && !IsDangling(after[i])
    ensures Recovering(before, after, report)
  {
    assert forall i :: 0 <= i < |now| ==> after[i] == now[i];
    forall k | 0 <= k < |report| ensures Reported(before, after, report, k) { assert Reported(before, now, report, k); }
    forall k | |report| <= k < |Dangling(before)| ensures Waiting(before, after, k) { assert Waiting(before, now, k); }
  }

  /** What settling the next dangling transaction writes, and where. */
  lemma SettledHere(before: seq<Entry>, now: seq<Entry>, report: seq<ReportLine>, action: Action, at: nat, details: Details)
    requires Recovering(before, now, report) && DistinctIds(before) && |report| < |Dangling(before)|
    requires details.previousGeneration.None? && "recovery_action" in details.notes && details.notes["recovery_action"] == Did(action)
    ensures var e := Dangling(before)[|report|];
            var i, after := Find(before, e.id), Updated(now, e.id, StateFor(action), at, details);
            && i < |before| && IsDangling(before[i]) && Has(now, e.id)
            && after == now[i := after[i]] && SettledFrom(e, after[i], action)
  {
    var n := |report|;
    var e := Dangling(before)[n];
    assert Waiting(before, now, n);
    FindAt(now, Find(before, e.id));
    DanglingPlace(before, n);
  }

  /** Settling the next dangling transaction. */
  lemma RecoverySettles(before: seq<Entry>, now: seq<Entry>, report: seq<ReportLine>, action: Action, i: nat, after: seq<Entry>)
    requires Recovering(before, now, report) && DistinctIds(before) && |report| < |Dangling(before)|
    requires i < |before| && i < |now| && |after| == |now| && after == now[i := after[i]]
    requires var e := Dangling(before)[|report|];
             i == Find(before, e.id) && IsDangling(before[i]) && SettledFrom(e, after[i], action) && now[i].id == e.id
    ensures var e := Dangling(before)[|report|];
            Recovering(before, after, report + [ReportLine(e.id, e.operation, action)])
  {
    var n := |report|;
    var e := Dangling(before)[n];
    var longer := report + [ReportLine(e.id, e.operation, action)];
    forall k | 0 <= k < |longer| ensures Reported(before, after, longer, k) {
      if k < n {
        assert Reported(before, now, report, k);
        OtherPlace(before, k, n);
      }
    }
    forall k | |longer| <= k < |Dangling(before)| ensures Waiting(before, after, k) {
      assert Waiting(before, now, k);
      OtherPlace(before, n, k);
    }
  }

  lemma UpdateKeepsFresh(w: World, step: nat, j: seq<Entry>, id: string, s: TxState, at: nat, details: Details)
    requires DistinctIds(j) && FreshIds(w, step, j)
    ensures DistinctIds(Updated(j, id, s, at, details)) && FreshIds(w, step, Updated(j, id, s, at, details))
  {
    var r := Updated(j, id, s, at, details);
    assert |r| == |j| && forall i :: 0 <= i < |j| ==> r[i].id == j[i].id;
  }

  lemma OtherPlace(j: seq<Entry>, k: nat, m: nat)
    requires DistinctIds(j) && k < m < |Dangling(j)|
    ensures Find(j, Dangling(j)[k].id) != Find(j, Dangling(j)[m].id)
  {
    DanglingDistinct(j);
    DanglingPlace(j, k);
    DanglingPlace(j, m);
  }

  /** After the last one, nothing dangles. */
  lemma RecoveryEnds(before: seq<Entry>, now: seq<Entry>, report: seq<ReportLine>)
    requires DistinctIds(before) && Recovering(before, now, report) && |report| == |Dangling(before)|
    ensures Dangling(now) == []
  {
    forall i | 0 <= i < |now| ensures !IsDangling(now[i]) {
      if i < |before| && IsDangling(before[i]) {
        assert before[i] in Dangling(before);
        var k :| 0 <= k < |Dangling(before)| && Dangling(before)[k] == before[i];
        assert Reported(before, now, report, k);
        FindAt(before, i);
      }
    }
    if Dangling(now) != [] { assert Dangling(now)[0] in Dangling(now); }
  }

  class Machine {
    const world: World
    const journal: TransactionJournal
    const lockFile: L.LockFile
    const history: seq<nat>
    var active: Option<nat>
    var step: nat

    ghost predicate Valid()
      reads this, journal
    {
      DistinctIds(journal.entries) && FreshIds(world, step, journal.entries)
    }

    constructor (world: World, journal: TransactionJournal, lockFile: L.LockFile, history: seq<nat>, active: Option<nat>)
      ensures this.world == world && this.journal == journal && this.lockFile == lockFile && this.history == history
      ensures this.active == active && step == 0
    {
      this.world, this.journal, this.lockFile, this.history, this.active, step := world, journal, lockFile, history, active, 0;
    }

    /** The transaction of a rollback, started and applying. */
    method OpenTransaction(target: nat) returns (id: string, ghost applying: Entry)
      requires Valid()
      modifies journal
      ensures id == world.ids(step) && applying.id == id && applying.operation == "rollback"
      ensures applying.details.previousGeneration == active
      ensures journal.entries == old(journal.entries) + [applying]
    {
      id := world.ids(step);
      var now := world.clock(step);
      var details := Details(active, map["target_generation" := Number(target)]);
      ghost var before := journal.entries;
      ghost var e := NewEntry(journal.digest, before, id, "rollback", now, details);
      StartAppends(journal.digest, before, id, "rollback", now, details);
      journal.StartTransaction(id, "rollback", now, details);
      StartThenUpdate(journal.digest, before, e, id, Applying, now, NO_DETAILS);
      var _ := journal.UpdateTransaction(id, Applying, now, NO_DETAILS);
      applying := e.(state := Applying, updatedAt := now, details := Merged(e.details, NO_DETAILS));
    }

    /** The journal after a rollback under the lock, settled according to its success. */
    method JournaledSwitch(target: nat) returns (ok: bool, code: int)
      requires Valid() && active.Some?
      modifies this, journal
      ensures Valid()
      ensures active == world.switch(old(step)).active && step == old(step) + 1
      ensures ok <==> ExitCode(world.switch(old(step))) == 0 && active == Some(target)
      ensures code == if ok then 0 else if ExitCode(world.switch(old(step))) != 0 then ExitCode(world.switch(old(step))) else 1
      ensures OneRollback(old(journal.entries), journal.entries, old(active), ok)
    {
      ghost var before := journal.entries;
      ghost var applying;
      var id, now;
      id, applying := OpenTransaction(target);
      now := world.clock(step);

      var outcome := world.switch(step);
      active := outcome.active;
      step := step + 1;

      ok := ExitCode(outcome) == 0 && active == Some(target);
      code := if ok then 0 else if ExitCode(outcome) != 0 then ExitCode(outcome) else 1;
      var note := Details(None, if ok then map["final_generation" := Number(target)]
                                else map["abort_reason" := Text(AbortReason(outcome))]);
      StartThenUpdate(journal.digest, before, applying, id, if ok then Committed else Failed, now, note);
      var _ := journal.UpdateTransaction(id, if ok then Committed else Failed, now, note);
      StillFresh(before, world, step - 1, journal.entries);
    }

    static lemma StillFresh(before: seq<Entry>, w: World, step: nat, after: seq<Entry>)
      requires DistinctIds(before) && FreshIds(w, step, before)
      requires |after| == |before| + 1 && after[..|before|] == before && after[|before|].id == w.ids(step)
      ensures DistinctIds(after) && FreshIds(w, step + 1, after)
    {
      assert forall i :: 0 <= i < |before| ==> after[i] == before[i];
    }

    /** A rollback refused or rehearsed changes nothing; one that ran leaves one settled transaction and the lock as it was. */
    method ExecuteRollback(target: Option<int>, dryRun: bool) returns (ok: bool, code: int)
      requires Valid()
      modifies this, journal, lockFile
      ensures Valid()
      ensures ok <==> Succeeds(history, old(active), target, dryRun, old(lockFile.state.holder).Some?, world.switch(old(step)))
      ensures ok ==> code == 0
      ensures ok && !dryRun ==> active == Some(Simulate(history, old(active), target).g)
      ensures lockFile.state.holder == old(lockFile.state.holder)
      ensures var ran := Simulate(history, old(active), target).Target? && !dryRun && old(lockFile.state.holder).None?;
              if ran then OneRollback(old(journal.entries), journal.entries, old(active), ok)
              else journal.entries == old(journal.entries) && active == old(active) && step == old(step)
                   && (!ok ==> code == if Simulate(history, old(active), target).Target? then 126 else 1)
    {
      var verdict := Simulate(history, active, target);
      if verdict.Rejected? { return false, 1; }
      if dryRun { return true, 0; }
      var lock := new L.OperationLock(lockFile);
      var got := lock.Acquire();
      if !got { return false, 126; }
      ok, code := JournaledSwitch(verdict.g);
      lock.Release();
    }

    /** What recovery does about one transaction; the entry itself is settled by the caller. */
    method Remedy(tx: Entry) returns (action: Action)
      requires Valid()
      modifies this, journal, lockFile
      ensures Valid()
      ensures journal.entries == old(journal.entries)
           || exists ok :: OneRollback(old(journal.entries), journal.entries, old(active), ok)
      ensures lockFile.state.holder == old(lockFile.state.holder)
      ensures action == MarkedFailed <==> !NeedsSwitchBack(tx)
      ensures action.AlreadyAt? || action.RolledBackTo? ==> active == tx.details.previousGeneration
      ensures action.AlreadyAt? <==> NeedsSwitchBack(tx) && old(active) == tx.details.previousGeneration
      ensures action.NeedsRollback? <==> NeedsSwitchBack(tx) && old(active).None?
      ensures action.RolledBackTo? <==>
              NeedsSwitchBack(tx) && old(active) != tx.details.previousGeneration
              && Succeeds(history, old(active), Some(tx.details.previousGeneration.value), false,
                          old(lockFile.state.holder).Some?, world.switch(old(step)))
      ensures NeedsSwitchBack(tx) ==> !action.MarkedFailed? && action.g == tx.details.previousGeneration.value
      ensures action == MarkedFailed <==> NoWayBack(tx)
      ensures forall g: nat :: CanGoBack(tx, g, history, old(active), old(lockFile.state.holder).Some?, world.switch(old(step)))
                ==> action == RolledBackTo(g) && active == Some(g)
    {
      if !NeedsSwitchBack(tx) { return MarkedFailed; }
      var g := tx.details.previousGeneration.value;
      if active.None? { return NeedsRollback(g); }
      if active == Some(g) { return AlreadyAt(g); }
      var ok, code := ExecuteRollback(Some(g), false);
      if ok { return RolledBackTo(g); }
      return FailedRollback(g, code);
    }

    /** The next dangling transaction, remedied and settled. */
    method RecoverOne(ghost before: seq<Entry>, ghost report: seq<ReportLine>, tx: Entry) returns (line: ReportLine)
      requires Valid() && DistinctIds(before) && Recovering(before, journal.entries, report)
      requires |report| < |Dangling(before)| && tx == Dangling(before)[|report|]
      modifies this, journal, lockFile
      ensures Valid() && Recovering(before, journal.entries, report + [line])
      ensures lockFile.state.holder == old(lockFile.state.holder)
      ensures line.id == tx.id && line.operation == tx.operation && (line.action == MarkedFailed <==> NoWayBack(tx))
      ensures forall g: nat :: CanGoBack(tx, g, history, old(active), old(lockFile.state.holder).Some?, world.switch(old(step)))
                ==> line.action == RolledBackTo(g) && active == Some(g)
      ensures StateFor(line.action) == RolledBack ==> active.Some? && active == tx.details.previousGeneration
    {
      ghost var now := journal.entries;
      var action := Remedy(tx);
      ghost var middle := journal.entries;
      if middle != now {
        ghost var ok :| OneRollback(now, middle, old(active), ok);
      }
      RecoveryAppends(before, now, middle, report);
      var note := Details(None, map["recovery_action" := Did(action)]);
      SettledHere(before, middle, report, action, world.clock(step), note);
      UpdateKeepsFresh(world, step, middle, tx.id, StateFor(action), world.clock(step), note);
      var _ := journal.UpdateTransaction(tx.id, StateFor(action), world.clock(step), note);
      RecoverySettles(before, middle, report, action, Find(before, tx.id), journal.entries);
      line := ReportLine(tx.id, tx.operation, action);
    }

    /** Every dangling transaction is brought to an end and reported, in order; settled ones are untouched; the
        rollbacks that recovery itself ran are settled too; and each one marked rolled back was marked while the
        active generation was the one it had started from. */
    method RecoverDanglingTransactions() returns (report: seq<ReportLine>, ghost moments: seq<Option<nat>>)
      requires Valid()
      modifies this, journal, lockFile
      ensures Valid()
      ensures Dangling(journal.entries) == []
      ensures Recovering(old(journal.entries), journal.entries, report) && |report| == |Dangling(old(journal.entries))|
      ensures lockFile.state.holder == old(lockFile.state.holder)
      ensures |moments| == |report| && forall k :: 0 <= k < |report| ==> MarkedTruly(old(journal.entries), report, moments, k)
      ensures forall k :: 0 <= k < |report| ==> MarkedExactly(old(journal.entries), report, k)
      ensures report != [] ==>
                forall g: nat :: CanGoBack(Dangling(old(journal.entries))[0], g, history, old(active),
                                           old(lockFile.state.holder).Some?, world.switch(old(step)))
                  ==> report[0].action == RolledBackTo(g) && moments[0] == Some(g)
      ensures |report| == 1 ==> moments[0] == active
      ensures Dangling(old(journal.entries)) == [] ==> report == [] && journal.entries == old(journal.entries) && active == old(active)
    {
      ghost var before := journal.entries;
      var dangling := journal.GetDangling();
      report, moments := [], [];
      RecoveryStarts(before);
      for k := 0 to |dangling|
        invariant Valid() && dangling == Dangling(before) && |report| == |moments| == k
        invariant Recovering(before, journal.entries, report)
        invariant lockFile.state.holder == old(lockFile.state.holder)
        invariant forall m :: 0 <= m < k ==> MarkedTruly(before, report, moments, m)
        invariant forall m :: 0 <= m < k ==> MarkedExactly(before, report, m)
        invariant k == 0 ==> journal.entries == before && active == old(active) && step == old(step)
        invariant k > 0 ==>
                    forall g: nat :: CanGoBack(dangling[0], g, history, old(active),
                                               old(lockFile.state.holder).Some?, world.switch(old(step)))
                      ==> report[0].action == RolledBackTo(g) && moments[0] == Some(g)
        invariant k == 1 ==> moments[0] == active
      {
        var line := RecoverOne(before, report, dangling[k]);
        MarksGrow(before, report, moments, line, active);
        ExactlyGrows(before, report, line);
        report := report + [line];
        moments := moments + [active];
      }
      RecoveryEnds(before, journal.entries, report);
    }
  }

  lemma MarksGrow(before: seq<Entry>, report: seq<ReportLine>, moments: seq<Option<nat>>, line: ReportLine, active: Option<nat>)
    requires |report| == |moments| < |Dangling(before)|
    requires forall m :: 0 <= m < |report| ==> MarkedTruly(before, report, moments, m)
    requires StateFor(line.action) == RolledBack ==> active.Some? && active == Dangling(before)[|report|].details.previousGeneration
    ensures forall m :: 0 <= m < |report| + 1 ==> MarkedTruly(before, report + [line], moments + [active], m)
  {
    forall m | 0 <= m < |report| + 1 ensures MarkedTruly(before, report + [line], moments + [active], m) {
      if m < |report| { assert MarkedTruly(before, report, moments, m); }
    }
  }

  lemma ExactlyGrows(before: seq<Entry>, report: seq<ReportLine>, line: ReportLine)
    requires |report| < |Dangling(before)| && (line.action == MarkedFailed <==> NoWayBack(Dangling(before)[|report|]))
    requires forall m :: 0 <= m < |report| ==> MarkedExactly(before, report, m)
    ensures forall m :: 0 <= m < |report| + 1 ==> MarkedExactly(before, report + [line], m)
  {
    forall m | 0 <= m < |report| + 1 ensures MarkedExactly(before, report + [line], m) {
      if m < |report| { assert MarkedExactly(before, report, m); }
    }
  }

  /** If the k-th reported transaction was marked rolled back, the machine was then where it had started from. */
  ghost predicate MarkedTruly(before: seq<Entry>, report: seq<ReportLine>, moments: seq<Option<nat>>, k: nat) {
    k < |report| && k < |moments| && k < |Dangling(before)|
    && (StateFor(report[k].action) == RolledBack ==>
          moments[k].Some? && moments[k] == Dangling(before)[k].details.previousGeneration)
  }

  /** An interrupted system update is taken back: marked rolled back, with the generation before it active again. */
  method UpdateTakenBack(m: Machine, ghost e: Entry, ghost g: nat) returns (report: seq<ReportLine>)
    requires m.Valid() && Dangling(m.journal.entries) == [e] && e.operation == "system_update"
    requires e.details.previousGeneration == Some(g) && g != 0 && g in m.history && m.active.Some? && m.active != Some(g)
    requires m.lockFile.state.holder.None? && m.world.switch(m.step) == Outcome(0, Some(g))
    modifies m, m.journal, m.lockFile
    ensures report == [ReportLine(e.id, "system_update", RolledBackTo(g))] && m.active == Some(g)
    ensures exists i :: 0 <= i < |m.journal.entries| && m.journal.entries[i].id == e.id && m.journal.entries[i].state == RolledBack
  {
    ghost var before := m.journal.entries;
    ghost var moments;
    report, moments := m.RecoverDanglingTransactions();
    assert CanGoBack(Dangling(before)[0], g, m.history, old(m.active), false, m.world.switch(old(m.step)));
    assert Reported(before, m.journal.entries, report, 0);
  }

  /** A second recovery finds nothing to do. */
  method RecoverTwice(m: Machine) returns (report: seq<ReportLine>)
    requires m.Valid()
    modifies m, m.journal, m.lockFile
    ensures report == [] && Dangling(m.journal.entries) == []
  {
    var _, _ := m.RecoverDanglingTransactions();
    var second, _ := m.RecoverDanglingTransactions();
    report := second;
  }
}
