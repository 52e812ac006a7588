/** The transaction journal: entries in insertion order, started, updated, checked and scanned. */
module Journal {
  import opened Wrappers
  import opened HashChain

  datatype TxState = Pending | Applying | Committed | RolledBack | Failed

  /** What recovery did about a dangling transaction. */
  datatype Action = MarkedFailed | NeedsRollback(g: nat) | AlreadyAt(g: nat) | RolledBackTo(g: nat) | FailedRollback(g: nat, code: int)

  datatype Value = Number(n: nat) | Text(s: string) | Did(a: Action)

  /** The details dictionary, with the one key that recovery reads set apart. */
  datatype Details = Details(previousGeneration: Option<nat>, notes: map<string, Value>)

  function Merged(before: Details, update: Details): Details {
    Details(if update.previousGeneration.Some? then update.previousGeneration else before.previousGeneration, before.notes + update.notes)
  }

  const NO_DETAILS := Details(None, map[])

  datatype Entry = Entry(id: string, operation: string, state: TxState, createdAt: nat, updatedAt: nat,
                         chainHash: Option<string>, details: Details)

  function LinkOf(e: Entry): Link { Link(e.id, e.operation, e.createdAt, e.chainHash) }

  function Links(j: seq<Entry>): (r: seq<Link>)
    ensures |r| == |j| && forall i :: 0 <= i < |j| ==> r[i] == LinkOf(j[i])
  {
    seq(|j|, i requires 0 <= i < |j| => LinkOf(j[i]))
  }

  /** The position of a transaction, or the length of the journal if it is not there. */
  function Find(j: seq<Entry>, id: string): (k: nat)
    ensures k <= |j| && (forall i :: 0 <= i < k ==> j[i].id != id) && (k < |j| ==> j[k].id == id)
    decreases |j|
  {
    if j == [] || j[0].id == id then 0
    else
      assert forall i :: 0 <= i < |j[1..]| ==> j[1..][i] == j[i + 1];
      1 + Find(j[1..], id)
  }

  ghost predicate Has(j: seq<Entry>, id: string) { Find(j, id) < |j| }

  ghost predicate DistinctIds(j: seq<Entry>) {
    forall i, k :: 0 <= i < k < |j| ==> j[i].id != j[k].id
  }

  lemma FindAt(j: seq<Entry>, k: nat)
    requires DistinctIds(j) && k < |j|
    ensures Find(j, j[k].id) == k
  {
  }

  function NewEntry(d: Digest, j: seq<Entry>, id: string, operation: string, now: nat, details: Details): Entry {
    var link := Linked(d, Links(j), id, operation, now);
    Entry(id, operation, Pending, now, now, link.chainHash, details)
  }

  /** An id that is already a key keeps its place in the dictionary and loses its old value. */
  function Started(d: Digest, j: seq<Entry>, id: string, operation: string, now: nat, details: Details): seq<Entry> {
    var k, e := Find(j, id), NewEntry(d, j, id, operation, now, details);
    if k < |j| then j[k := e] else j + [e]
  }

  function Updated(j: seq<Entry>, id: string, state: TxState, now: nat, details: Details): seq<Entry> {
    var k := Find(j, id);
    if k < |j| then j[k := j[k].(state := state, updatedAt := now, details := Merged(j[k].details, details))] else j
  }

  predicate IsDangling(e: Entry) { e.state == Applying || e.state == Pending }

  function Dangling(j: seq<Entry>): (r: seq<Entry>)
    ensures forall e :: e in r <==> e in j && IsDangling(e)
  {
    if j == [] then []
    else
      assert j == j[..|j| - 1] + [j[|j| - 1]];
      Dangling(j[..|j| - 1]) + (if IsDangling(j[|j| - 1]) then [j[|j| - 1]] else [])
  }

  lemma {:induction false} NothingDangles(j: seq<Entry>)
    requires forall e :: e in j ==> !IsDangling(e)
    ensures Dangling(j) == []
  {
    if j != [] { NothingDangles(j[..|j| - 1]); }
  }

  class TransactionJournal {
    const digest: Digest
    var entries: seq<Entry>

    constructor (digest: Digest)
      ensures this.digest == digest && entries == []
    {
      this.digest, entries := digest, [];
    }

    method StartTransaction(id: string, operation: string, now: nat, details: Details)
      modifies this
      ensures entries == Started(digest, old(entries), id, operation, now, details)
    {
      var lastChain := Seed();
      if entries != [] {
        ByTimeSorts(Links(entries));
        var sorted := ByTime(Links(entries));
        lastChain := match sorted[|sorted| - 1].chainHash case None => lastChain case Some(c) => c;
      }
      var chainHash := digest.h(Message(lastChain, id, operation, digest.iso(now)));
      var e := Entry(id, operation, Pending, now, now, Some(chainHash), details);
      var k := Find(entries, id);
      entries := if k < |entries| then entries[k := e] else entries + [e];
    }

    /** False stands for the KeyError of an unknown transaction. */
    method UpdateTransaction(id: string, state: TxState, now: nat, details: Details) returns (found: bool)
      modifies this
      ensures found <==> Has(old(entries), id)
      ensures entries == Updated(old(entries), id, state, now, details)
    {
      var k := Find(entries, id);
      if k == |entries| { return false; }
      var tx := entries[k];
      tx := tx.(state := state);
      tx := tx.(updatedAt := now);
      tx := tx.(details := Merged(tx.details, details));
      entries := entries[k := tx];
      return true;
    }

    method VerifyChainIntegrity() returns (ok: bool)
      ensures ok <==> ChainHolds(digest, ByTime(Links(entries)), Seed())
    {
      var sorted, last := ByTime(Links(entries)), Seed();
      for i := 0 to |sorted|
        invariant ChainHolds(digest, sorted, Seed()) <==> ChainHolds(digest, sorted[i..], last)
      {
        var e := sorted[i];
        assert sorted[i..][0] == e && sorted[i..][1..] == sorted[i + 1..];
        if e.chainHash.Some? {
          if e.chainHash.value != Expected(digest, last, e) { return false; }
          last := e.chainHash.value;
        }
      }
      return true;
    }

    method GetDangling() returns (dangling: seq<Entry>)
      ensures dangling == Dangling(entries)
    {
      dangling := [];
      for i := 0 to |entries|
        invariant dangling == Dangling(entries[..i])
      {
        assert entries[..i + 1][..i] == entries[..i];
        if entries[i].state == Applying || entries[i].state == Pending {
          dangling := dangling + [entries[i]];
        }
      }
      assert entries[..|entries|] == entries;
    }
  }

  // ---- the chain over whole runs

  datatype Step = Start(id: string, operation: string, now: nat, details: Details)
                | Update(id: string, state: TxState, now: nat, details: Details)

  function Apply(d: Digest, j: seq<Entry>, s: Step): seq<Entry> {
    match s
    case Start(id, op, now, details) => Started(d, j, id, op, now, details)
    case Update(id, state, now, details) => Updated(j, id, state, now, details)
  }

  function Run(d: Digest, steps: seq<Step>): seq<Entry> {
    if steps == [] then [] else Apply(d, Run(d, steps[..|steps| - 1]), steps[|steps| - 1])
  }

  function Starts(steps: seq<Step>): seq<Step> {
    if steps == [] then []
    else Starts(steps[..|steps| - 1]) + (if steps[|steps| - 1].Start? then [steps[|steps| - 1]] else [])
  }

  /** Every start draws an id of its own, written without a colon. */
  ghost predicate FreshStarts(steps: seq<Step>) {
    && (forall i :: 0 <= i < |Starts(steps)| ==> ':' !in Starts(steps)[i].id)
    && (forall i, k :: 0 <= i < k < |Starts(steps)| ==> Starts(steps)[i].id != Starts(steps)[k].id)
  }

  ghost predicate ClockMonotone(steps: seq<Step>) {
    forall i, k :: 0 <= i < k < |Starts(steps)| ==> Starts(steps)[i].now <= Starts(steps)[k].now
  }

  lemma UpdateKeepsLinks(j: seq<Entry>, id: string, state: TxState, now: nat, details: Details)
    ensures Links(Updated(j, id, state, now, details)) == Links(j)
  {
  }

  /** The entries of a run are its starts, in order. */
  ghost predicate Matches(j: seq<Entry>, starts: seq<Step>) {
    && |j| == |starts|
    && forall i :: 0 <= i < |j| ==> starts[i].Start? && j[i].id == starts[i].id && j[i].createdAt == starts[i].now
  }

  lemma StartAppends(d: Digest, j: seq<Entry>, id: string, operation: string, now: nat, details: Details)
    requires forall i :: 0 <= i < |j| ==> j[i].id != id
    ensures Started(d, j, id, operation, now, details) == j + [NewEntry(d, j, id, operation, now, details)]
    ensures Links(Started(d, j, id, operation, now, details)) == Links(j) + [Linked(d, Links(j), id, operation, now)]
  {
  }

  lemma {:induction false} RunBuilds(d: Digest, steps: seq<Step>)
    requires FreshStarts(steps)
    ensures Built(d, Links(Run(d, steps))) && Matches(Run(d, steps), Starts(steps))
  {
    if steps != [] {
      var front, s := steps[..|steps| - 1], steps[|steps| - 1];
      var j := Run(d, front);
      assert Starts(front) <= Starts(steps);
      assert FreshStarts(front) by {
        assert forall i :: 0 <= i < |Starts(front)| ==> Starts(front)[i] == Starts(steps)[i];
      }
      RunBuilds(d, front);
      match s
      case Start(id, op, now, details) =>
        assert Starts(steps)[|Starts(front)|] == s;
        StartAppends(d, j, id, op, now, details);
        BuiltGrows(d, Links(j), id, op, now);
      case Update(id, state, now, details) =>
        UpdateKeepsLinks(j, id, state, now, details);
    }
  }

  /** Over every run with fresh ids, the check passes exactly when no start read an earlier clock than one before it. */
  lemma ChainVerifiesIffClockMonotone(d: Digest, steps: seq<Step>)
    requires SoundDigest(d, Links(Run(d, steps))) && FreshStarts(steps)
    ensures ChainHolds(d, ByTime(Links(Run(d, steps))), Seed()) <==> ClockMonotone(steps)
  {
    RunBuilds(d, steps);
    var links := Links(Run(d, steps));
    assert ProperIds(links);
    VerifiesIffClockMonotone(d, links);
    assert InOrder(links) <==> ClockMonotone(steps);
  }

  function KeptEntries(j: seq<Entry>, ks: seq<nat>): (r: seq<Entry>)
    requires forall i :: 0 <= i < |ks| ==> ks[i] < |j|
    ensures |r| == |ks| && forall i :: 0 <= i < |ks| ==> r[i] == j[ks[i]]
  {
    seq(|ks|, i requires 0 <= i < |ks| => j[ks[i]])
  }

  /** Deleting entries is noticed unless nothing that came after them is left. */
  lemma DeletionNoticed(d: Digest, steps: seq<Step>, ks: seq<nat>)
    requires SoundDigest(d, Links(Run(d, steps))) && FreshStarts(steps) && ClockMonotone(steps)
    requires Increasing(ks, |Run(d, steps)|)
    ensures var j := Run(d, steps);
            ChainHolds(d, ByTime(Links(KeptEntries(j, ks))), Seed()) <==> KeptEntries(j, ks) <= j
  {
    RunBuilds(d, steps);
    var j := Run(d, steps);
    var links := Links(j);
    assert ProperIds(links) && InOrder(links);
    SurvivesOnlyTruncation(d, links, ks);
    assert Links(KeptEntries(j, ks)) == Kept(links, ks);
    if Kept(links, ks) <= links {
      PrefixIndexes(d, links, ks);
      AllAdjacent(ks);
      if ks != [] { assert ks[|ks| - 1] == |ks| - 1; }
    }
  }

  function Without(j: seq<Entry>, m: nat): seq<Entry>
    requires m < |j|
  {
    j[..m] + j[m + 1..]
  }

  lemma KeptWithout(j: seq<Entry>, m: nat) returns (ks: seq<nat>)
    requires DistinctIds(j) && m + 1 < |j|
    ensures Increasing(ks, |j|) && KeptEntries(j, ks) == Without(j, m) && !(Without(j, m) <= j)
  {
    ks := seq(|j| - 1, i requires 0 <= i < |j| - 1 => if i < m then i else i + 1);
    assert KeptEntries(j, ks) == Without(j, m);
    assert Without(j, m)[m] == j[m + 1] && j[m + 1].id != j[m].id;
  }

  /** Deleting any one entry but the last is noticed. */
  lemma DeletingOneNoticed(d: Digest, steps: seq<Step>, m: nat)
    requires SoundDigest(d, Links(Run(d, steps))) && FreshStarts(steps) && ClockMonotone(steps) && m + 1 < |Run(d, steps)|
    ensures !ChainHolds(d, ByTime(Links(Without(Run(d, steps), m))), Seed())
  {
    RunBuilds(d, steps);
    var ks := KeptWithout(Run(d, steps), m);
    DeletionNoticed(d, steps, ks);
  }

  /** New details win over old ones, which stay where there is nothing new. */
  lemma MergedExactly(before: Details, update: Details, key: string)
    ensures var m := Merged(before, update);
            && (key in update.notes ==> key in m.notes && m.notes[key] == update.notes[key])
            && (key in before.notes && key !in update.notes ==> key in m.notes && m.notes[key] == before.notes[key])
            && (key in m.notes ==> key in before.notes || key in update.notes)
            && m.previousGeneration == if update.previousGeneration == None then before.previousGeneration else update.previousGeneration
  {
  }

  /** A started transaction is pending, with its own id, operation, time and details; an updated one gets state and time,
      and keeps id, operation, creation time and chain hash. */
  lemma EntriesExactly(d: Digest, j: seq<Entry>, id: string, operation: string, now: nat, details: Details, state: TxState, i: nat)
    requires DistinctIds(j) && i < |j|
    ensures var e := NewEntry(d, j, id, operation, now, details);
            && e.id == id && e.operation == operation && e.state == Pending && e.createdAt == e.updatedAt == now && e.details == details
            && (!Has(j, id) ==> Started(d, j, id, operation, now, details) == j + [e])
    ensures var r := Updated(j, id, state, now, details);
            && |r| == |j| && r[i].id == j[i].id && r[i].operation == j[i].operation && r[i].createdAt == j[i].createdAt
            && r[i].chainHash == j[i].chainHash
            && (if j[i].id == id then r[i].state == state && r[i].updatedAt == now && r[i].details == Merged(j[i].details, details)
                else r[i] == j[i])
  {
    FindAt(j, i);
  }

  /** Rewriting states and details is not noticed: the chain does not cover them. */
  lemma StatesNotCovered(d: Digest, j: seq<Entry>, id: string, state: TxState, now: nat, details: Details)
    ensures ChainHolds(d, ByTime(Links(Updated(j, id, state, now, details))), Seed()) <==> ChainHolds(d, ByTime(Links(j)), Seed())
  {
    UpdateKeepsLinks(j, id, state, now, details);
  }

  // ---- runs that fail the check

  function StartAt(id: string, now: nat): Step { Start(id, "rollback", now, NO_DETAILS) }

  lemma {:induction false} StartsOnly(steps: seq<Step>)
    requires forall i :: 0 <= i < |steps| ==> steps[i].Start?
    ensures Starts(steps) == steps
  {
    if steps != [] {
      StartsOnly(steps[..|steps| - 1]);
      assert steps == steps[..|steps| - 1] + [steps[|steps| - 1]];
    }
  }

  /** Two starts under a clock that was set back. */
  lemma BackwardsRun()
    ensures var j := Run(SpellingDigest(), [StartAt("a", 5), StartAt("b", 3)]);
            !ChainHolds(SpellingDigest(), ByTime(Links(j)), Seed())
  {
    var steps := [StartAt("a", 5), StartAt("b", 3)];
    StartsOnly(steps);
    assert Starts(steps)[0].now > Starts(steps)[1].now;
    SpelledRun(steps);
  }

  lemma SpelledRun(steps: seq<Step>)
    requires FreshStarts(steps)
    ensures ChainHolds(SpellingDigest(), ByTime(Links(Run(SpellingDigest(), steps))), Seed()) <==> ClockMonotone(steps)
    ensures |Run(SpellingDigest(), steps)| == |Starts(steps)|
  {
    SpellingIsSound(Links(Run(SpellingDigest(), steps)));
    ChainVerifiesIffClockMonotone(SpellingDigest(), steps);
    RunBuilds(SpellingDigest(), steps);
  }

  lemma SpelledDeletion(steps: seq<Step>, m: nat)
    requires FreshStarts(steps) && ClockMonotone(steps) && m + 1 < |Run(SpellingDigest(), steps)|
    ensures !ChainHolds(SpellingDigest(), ByTime(Links(Without(Run(SpellingDigest(), steps), m))), Seed())
  {
    SpellingIsSound(Links(Run(SpellingDigest(), steps)));
    DeletingOneNoticed(SpellingDigest(), steps, m);
  }

  function ThreeStarts(): seq<Step> { [StartAt("a", 3), StartAt("b", 5), StartAt("c", 5)] }

  lemma ThreeStartsInOrder()
    ensures FreshStarts(ThreeStarts()) && ClockMonotone(ThreeStarts()) && |Starts(ThreeStarts())| == 3
  {
    StartsOnly(ThreeStarts());
  }

  /** Three starts in order, of which the middle entry is deleted. */
  lemma DeletionRun()
    ensures var j := Run(SpellingDigest(), ThreeStarts());
            && |j| == 3 && ChainHolds(SpellingDigest(), ByTime(Links(j)), Seed())
            && !ChainHolds(SpellingDigest(), ByTime(Links(Without(j, 1))), Seed())
  {
    ThreeStartsInOrder();
    SpelledRun(ThreeStarts());
    SpelledDeletion(ThreeStarts(), 1);
  }
}
