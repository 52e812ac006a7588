/** The hash chain that links the journal's transactions in the order of their creation times. */
module HashChain {
  import opened Wrappers

  /** What the chain covers of a journal entry. An entry may lack its chain hash. */
  datatype Link = Link(id: string, operation: string, createdAt: nat, chainHash: Option<string>)

  /** The digest of a text, in hexadecimal, and the text of a time stamp. */
  datatype Digest = Digest(h: string -> string, iso: nat -> string)

  function Seed(): string { seq(64, _ => '0') }

  function Message(last: string, id: string, operation: string, time: string): string {
    (last + ":") + (id + (":" + (operation + (":" + time))))
  }

  function Hashed(d: Digest, last: string, e: Link): string {
    Message(last, e.id, e.operation, d.iso(e.createdAt))
  }

  function Expected(d: Digest, last: string, e: Link): string { d.h(Hashed(d, last, e)) }

  // ---- ordering by creation time

  /** Behind every element that is not later. */
  function Insert(s: seq<Link>, e: Link): seq<Link> {
    if s == [] || s[|s| - 1].createdAt <= e.createdAt then s + [e]
    else Insert(s[..|s| - 1], e) + [s[|s| - 1]]
  }

  function ByTime(s: seq<Link>): seq<Link> {
    if s == [] then [] else Insert(ByTime(s[..|s| - 1]), s[|s| - 1])
  }

  ghost predicate InOrder(s: seq<Link>) {
    forall i, j :: 0 <= i < j < |s| ==> s[i].createdAt <= s[j].createdAt
  }

  function At(s: seq<Link>, t: nat): seq<Link> {
    if s == [] then [] else At(s[..|s| - 1], t) + (if s[|s| - 1].createdAt == t then [s[|s| - 1]] else [])
  }

  lemma {:induction false} InsertPermutes(s: seq<Link>, e: Link)
    ensures multiset(Insert(s, e)) == multiset(s) + multiset{e} && |Insert(s, e)| == |s| + 1
  {
    if s != [] && s[|s| - 1].createdAt > e.createdAt {
      InsertPermutes(s[..|s| - 1], e);
      assert s == s[..|s| - 1] + [s[|s| - 1]];
    }
  }

  lemma {:induction false} InsertBounded(s: seq<Link>, e: Link, t: nat)
    requires (forall i :: 0 <= i < |s| ==> s[i].createdAt <= t) && e.createdAt <= t
    ensures forall i :: 0 <= i < |Insert(s, e)| ==> Insert(s, e)[i].createdAt <= t
  {
    if s != [] && s[|s| - 1].createdAt > e.createdAt {
      InsertBounded(s[..|s| - 1], e, t);
    }
  }

  lemma {:induction false} InsertSorts(s: seq<Link>, e: Link)
    requires InOrder(s)
    ensures InOrder(Insert(s, e))
  {
    if s != [] && s[|s| - 1].createdAt > e.createdAt {
      InsertSorts(s[..|s| - 1], e);
      InsertBounded(s[..|s| - 1], e, s[|s| - 1].createdAt);
    }
  }

  lemma AtSnoc(s: seq<Link>, e: Link, t: nat)
    ensures At(s + [e], t) == At(s, t) + (if e.createdAt == t then [e] else [])
  {
    assert (s + [e])[..|s|] == s;
  }

  lemma {:induction false} InsertIsStable(s: seq<Link>, e: Link, t: nat)
    ensures At(Insert(s, e), t) == At(s, t) + (if e.createdAt == t then [e] else [])
  {
    if s == [] || s[|s| - 1].createdAt <= e.createdAt {
      AtSnoc(s, e, t);
    } else {
      InsertIsStable(s[..|s| - 1], e, t);
      AtSnoc(Insert(s[..|s| - 1], e), s[|s| - 1], t);
    }
  }

  lemma {:induction false} ByTimeIsStable(s: seq<Link>, t: nat)
    ensures At(ByTime(s), t) == At(s, t)
  {
    if s != [] {
      ByTimeIsStable(s[..|s| - 1], t);
      InsertIsStable(ByTime(s[..|s| - 1]), s[|s| - 1], t);
    }
  }

  /** With ByTimeIsStable: sorted, a permutation, and entries of one second keep their places. */
  lemma {:induction false} ByTimeSorts(s: seq<Link>)
    ensures InOrder(ByTime(s)) && multiset(ByTime(s)) == multiset(s) && |ByTime(s)| == |s|
  {
    if s != [] {
      ByTimeSorts(s[..|s| - 1]);
      InsertSorts(ByTime(s[..|s| - 1]), s[|s| - 1]);
      InsertPermutes(ByTime(s[..|s| - 1]), s[|s| - 1]);
      assert s == s[..|s| - 1] + [s[|s| - 1]];
    }
  }

  lemma {:induction false} ByTimeOfOrdered(s: seq<Link>)
    requires InOrder(s)
    ensures ByTime(s) == s
  {
    if s != [] { ByTimeOfOrdered(s[..|s| - 1]); }
  }

  lemma SortedEntry(s: seq<Link>, k: nat) returns (i: nat)
    requires k < |ByTime(s)|
    ensures i < |s| && s[i] == ByTime(s)[k]
  {
    ByTimeSorts(s);
    assert ByTime(s)[k] in multiset(ByTime(s));
    assert ByTime(s)[k] in multiset(s);
    i :| 0 <= i < |s| && s[i] == ByTime(s)[k];
  }

  lemma PlaceOf(s: seq<Link>, i: nat) returns (k: nat)
    requires i < |s|
    ensures k < |ByTime(s)| && ByTime(s)[k] == s[i]
  {
    ByTimeSorts(s);
    assert s[i] in multiset(s);
    assert s[i] in multiset(ByTime(s));
    k :| 0 <= k < |ByTime(s)| && ByTime(s)[k] == s[i];
  }

  // ---- building and checking

  function HashOr(e: Link, last: string): string {
    match e.chainHash case None => last case Some(c) => c
  }

  /** The hash of the latest entry, or the seed. */
  function LastChain(s: seq<Link>): string {
    ByTimeSorts(s);
    if s == [] then Seed() else HashOr(ByTime(s)[|s| - 1], Seed())
  }

  function Linked(d: Digest, s: seq<Link>, id: string, operation: string, now: nat): Link {
    var e := Link(id, operation, now, None);
    e.(chainHash := Some(Expected(d, LastChain(s), e)))
  }

  predicate ChainHolds(d: Digest, s: seq<Link>, last: string) {
    s == [] || (Accepts(d, last, s[0]) && ChainHolds(d, s[1..], HashOr(s[0], last)))
  }

  /** An entry without a hash is passed over. */
  predicate Accepts(d: Digest, last: string, e: Link) {
    e.chainHash == None || e.chainHash == Some(Expected(d, last, e))
  }

  predicate Carries(d: Digest, last: string, e: Link) {
    e.chainHash == Some(Expected(d, last, e))
  }

  /** Each entry was linked to the entries before it. */
  ghost predicate Built(d: Digest, s: seq<Link>) {
    forall i :: 0 <= i < |s| ==> LinkedAt(d, s, i)
  }

  ghost predicate LinkedAt(d: Digest, s: seq<Link>, i: nat)
    requires i < |s|
  {
    Carries(d, LastChain(s[..i]), s[i])
  }

  lemma BuiltGrows(d: Digest, s: seq<Link>, id: string, operation: string, now: nat)
    requires Built(d, s)
    ensures Built(d, s + [Linked(d, s, id, operation, now)])
  {
    var e := Linked(d, s, id, operation, now);
    var r := s + [e];
    assert Expected(d, LastChain(s), e.(chainHash := None)) == Expected(d, LastChain(s), e);
    forall i | 0 <= i < |r| ensures LinkedAt(d, r, i) {
      if i < |s| { assert LinkedAt(d, s, i); assert r[..i] == s[..i]; } else { assert r[..i] == s; }
    }
  }

  ghost predicate ProperIds(s: seq<Link>) {
    && (forall i :: 0 <= i < |s| ==> ':' !in s[i].id)
    && (forall i, j :: 0 <= i < j < |s| ==> s[i].id != s[j].id)
  }

  /** A value that an entry of this journal may be chained to. */
  ghost predicate IsLast(s: seq<Link>, last: string) {
    last == Seed() || exists i :: 0 <= i < |s| && s[i].chainHash == Some(last)
  }

  ghost predicate NoCollision(d: Digest, a: string, e: Link, b: string, f: Link) {
    Expected(d, a, e) == Expected(d, b, f) ==> Hashed(d, a, e) == Hashed(d, b, f)
  }

  /** Hexadecimal text, no collision among the texts that building and checking this journal can hash, and none of them
      hashed to the seed. */
  ghost predicate SoundDigest(d: Digest, s: seq<Link>) {
    && (forall x :: ':' !in d.h(x))
    && (forall i, a :: 0 <= i < |s| && IsLast(s, a) ==> Expected(d, a, s[i]) != Seed())
    && (forall i, j, a, b :: 0 <= i < |s| && 0 <= j < |s| && IsLast(s, a) && IsLast(s, b) ==> NoCollision(d, a, s[i], b, s[j]))
  }

  ghost predicate Chain(d: Digest, s: seq<Link>) {
    SoundDigest(d, s) && Built(d, s) && ProperIds(s)
  }

  // ---- distinct hashes

  lemma FirstColon(a: string, x: string)
    requires ':' !in a
    ensures var l := a + (":" + x);
            l[|a|] == ':' && l[..|a|] == a && forall i :: 0 <= i < |a| ==> l[i] != ':'
  {
  }

  lemma ColonFree(a: string, b: string, x: string, y: string)
    requires ':' !in a && ':' !in b && a + (":" + x) == b + (":" + y)
    ensures a == b
  {
    FirstColon(a, x);
    FirstColon(b, y);
  }

  lemma ColonSplit(a: string, b: string, x: string, y: string)
    requires ':' !in a && ':' !in b && a + (":" + x) == b + (":" + y)
    ensures a == b && x == y
  {
    ColonFree(a, b, x, y);
    assert (a + (":" + x))[|a| + 1..] == x && (b + (":" + y))[|b| + 1..] == y;
  }

  lemma MessageParts(last: string, id: string, operation: string, time: string)
    ensures Message(last, id, operation, time) == last + (":" + (id + (":" + (operation + (":" + time)))))
  {
  }

  /** What was hashed shows the hash it was chained to and the id. */
  lemma HashedNames(d: Digest, last: string, e: Link, last2: string, f: Link)
    requires ':' !in last && ':' !in last2 && ':' !in e.id && ':' !in f.id && Hashed(d, last, e) == Hashed(d, last2, f)
    ensures last == last2 && e.id == f.id
  {
    var restE, restF := e.operation + (":" + d.iso(e.createdAt)), f.operation + (":" + d.iso(f.createdAt));
    MessageParts(last, e.id, e.operation, d.iso(e.createdAt));
    MessageParts(last2, f.id, f.operation, d.iso(f.createdAt));
    ColonSplit(last, last2, e.id + (":" + restE), f.id + (":" + restF));
    ColonFree(e.id, f.id, restE, restF);
  }

  lemma SeedFree()
    ensures ':' !in Seed()
  {
  }

  lemma HashShape(d: Digest, s: seq<Link>, i: nat)
    requires Built(d, s) && i < |s|
    ensures s[i].chainHash.Some? && IsLast(s, s[i].chainHash.value)
    ensures s[i].chainHash.value == Expected(d, LastChain(s[..i]), s[i])
  {
    assert LinkedAt(d, s, i);
  }

  lemma LastChainIsLast(d: Digest, s: seq<Link>, n: nat)
    requires Built(d, s) && n <= |s|
    ensures IsLast(s, LastChain(s[..n]))
  {
    if n > 0 {
      ByTimeSorts(s[..n]);
      var i := SortedEntry(s[..n], n - 1);
      HashShape(d, s, i);
    }
  }

  lemma HashIsNotSeed(d: Digest, s: seq<Link>, i: nat)
    requires Chain(d, s) && i < |s|
    ensures s[i].chainHash.Some? && s[i].chainHash.value != Seed()
  {
    HashShape(d, s, i);
    LastChainIsLast(d, s, i);
  }

  lemma LastIsColonFree(d: Digest, s: seq<Link>, last: string)
    requires Chain(d, s) && IsLast(s, last)
    ensures ':' !in last
  {
    SeedFree();
    if i :| 0 <= i < |s| && s[i].chainHash == Some(last) { HashShape(d, s, i); }
  }

  /** A stored hash pins down both the entry that carries it and the hash it was chained to. */
  lemma HashNames(d: Digest, s: seq<Link>, i: nat, last: string, n: nat)
    requires Chain(d, s) && i < |s| && n < |s| && IsLast(s, last)
    requires s[i].chainHash == Some(Expected(d, last, s[n]))
    ensures s[i].id == s[n].id && last == LastChain(s[..i])
  {
    HashShape(d, s, i);
    LastChainIsLast(d, s, i);
    LastIsColonFree(d, s, last);
    LastIsColonFree(d, s, LastChain(s[..i]));
    HashedNames(d, LastChain(s[..i]), s[i], last, s[n]);
  }

  lemma HashesDiffer(d: Digest, s: seq<Link>, i: nat, j: nat)
    requires Chain(d, s) && i < |s| && j < |s| && s[i].chainHash == s[j].chainHash
    ensures i == j
  {
    LastChainIsLast(d, s, j);
    HashShape(d, s, j);
    HashNames(d, s, i, LastChain(s[..j]), j);
  }

  // ---- what a passing check says about neighbors

  function ChainAt(s: seq<Link>, k: nat, last: string): string
    requires k <= |s|
  {
    if k == 0 then last else HashOr(s[k - 1], last)
  }

  ghost predicate AllHashed(s: seq<Link>) {
    forall i :: 0 <= i < |s| ==> s[i].chainHash.Some?
  }

  ghost predicate Follows(d: Digest, s: seq<Link>, k: nat, last: string)
    requires k < |s|
  {
    Carries(d, ChainAt(s, k, last), s[k])
  }

  lemma {:induction false} HoldsPointwise(d: Digest, s: seq<Link>, last: string)
    requires AllHashed(s)
    ensures ChainHolds(d, s, last) <==> forall k :: 0 <= k < |s| ==> Follows(d, s, k, last)
  {
    if s != [] {
      var t, c := s[1..], HashOr(s[0], last);
      HoldsPointwise(d, t, c);
      forall k | 0 <= k < |t| ensures Follows(d, t, k, c) <==> Follows(d, s, k + 1, last) { }
      assert Follows(d, s, 0, last) <==> Accepts(d, last, s[0]);
      assert (forall k :: 0 <= k < |s| ==> Follows(d, s, k, last)) <==>
             (Follows(d, s, 0, last) && forall k :: 0 <= k < |t| ==> Follows(d, t, k, c)) by {
        if Follows(d, s, 0, last) && forall k :: 0 <= k < |t| ==> Follows(d, t, k, c) {
          forall k | 0 <= k < |s| ensures Follows(d, s, k, last) {
            if k > 0 { assert Follows(d, t, k - 1, c); }
          }
        }
      }
    }
  }

  /** In order of time the latest entry is the last, so each entry carries on from its neighbor. */
  lemma OrderedChainAt(s: seq<Link>, n: nat)
    requires InOrder(s) && n <= |s|
    ensures LastChain(s[..n]) == ChainAt(s, n, Seed())
  {
    ByTimeOfOrdered(s[..n]);
  }

  /** No property of the digest is needed for a journal in order of time to pass. */
  lemma OrderedHolds(d: Digest, s: seq<Link>)
    requires Built(d, s) && InOrder(s)
    ensures ChainHolds(d, ByTime(s), Seed())
  {
    ByTimeOfOrdered(s);
    forall k | 0 <= k < |s| ensures Follows(d, s, k, Seed()) && s[k].chainHash.Some? {
      OrderedChainAt(s, k);
      assert LinkedAt(d, s, k);
    }
    HoldsPointwise(d, s, Seed());
  }

  lemma SortedAllHashed(d: Digest, s: seq<Link>)
    requires Chain(d, s)
    ensures AllHashed(ByTime(s))
  {
    forall k | 0 <= k < |ByTime(s)| ensures ByTime(s)[k].chainHash.Some? {
      var i := SortedEntry(s, k);
      HashShape(d, s, i);
    }
  }

  /** The latest of the entries before n is at least as late as any of them. */
  lemma LatestBefore(s: seq<Link>, n: nat, m: nat)
    requires m < n <= |s|
    ensures |ByTime(s[..n])| == n && ByTime(s[..n])[n - 1].createdAt >= s[m].createdAt
  {
    ByTimeSorts(s[..n]);
    var i := PlaceOf(s[..n], m);
  }

  lemma LatestHash(s: seq<Link>, n: nat) returns (m: nat)
    requires 0 < n <= |s|
    ensures m < n && |ByTime(s[..n])| == n && ByTime(s[..n])[n - 1] == s[m] && LastChain(s[..n]) == HashOr(s[m], Seed())
  {
    ByTimeSorts(s[..n]);
    m := SortedEntry(s[..n], n - 1);
  }

  lemma PreviousHash(s: seq<Link>, k: nat) returns (j: nat)
    requires 0 < k < |ByTime(s)|
    ensures j < |s| && ChainAt(ByTime(s), k, Seed()) == HashOr(s[j], Seed()) && s[j].createdAt <= ByTime(s)[k].createdAt
  {
    ByTimeSorts(s);
    j := SortedEntry(s, k - 1);
  }

  /** If the check accepts entry n in position k, its neighbor there is the entry it was chained to. */
  lemma NeighborIsLatest(d: Digest, s: seq<Link>, n: nat, k: nat)
    requires Chain(d, s) && 0 < n < |s|
    requires k < |ByTime(s)| && ByTime(s)[k] == s[n] && Follows(d, ByTime(s), k, Seed())
    ensures |ByTime(s[..n])| == n && ByTime(s[..n])[n - 1].createdAt <= s[n].createdAt
  {
    var m := LatestHash(s, n);
    HashIsNotSeed(d, s, m);
    var last := ChainAt(ByTime(s), k, Seed());
    if k == 0 {
      HashNames(d, s, n, last, n);
    } else {
      var j := PreviousHash(s, k);
      HashShape(d, s, j);
      HashNames(d, s, n, last, n);
      HashesDiffer(d, s, j, m);
    }
  }

  /** An entry whose clock went backwards breaks the chain for good. */
  lemma BackwardsFails(d: Digest, s: seq<Link>, m: nat, n: nat)
    requires Chain(d, s) && m < n < |s| && s[n].createdAt < s[m].createdAt
    ensures !ChainHolds(d, ByTime(s), Seed())
  {
    SortedAllHashed(d, s);
    HoldsPointwise(d, ByTime(s), Seed());
    var k := PlaceOf(s, n);
    if Follows(d, ByTime(s), k, Seed()) {
      NeighborIsLatest(d, s, n, k);
    }
    LatestBefore(s, n, m);
  }

  /** The check passes exactly when the clock never ran backwards between two starts. */
  lemma VerifiesIffClockMonotone(d: Digest, s: seq<Link>)
    requires Chain(d, s)
    ensures ChainHolds(d, ByTime(s), Seed()) <==> InOrder(s)
  {
    if InOrder(s) {
      OrderedHolds(d, s);
    } else {
      var m, n :| 0 <= m < n < |s| && s[n].createdAt < s[m].createdAt;
      BackwardsFails(d, s, m, n);
    }
  }

  // ---- deleting entries

  ghost predicate Increasing(ks: seq<nat>, n: nat) {
    && (forall i :: 0 <= i < |ks| ==> ks[i] < n)
    && (forall i, j :: 0 <= i < j < |ks| ==> ks[i] < ks[j])
  }

  function Kept(s: seq<Link>, ks: seq<nat>): (r: seq<Link>)
    requires forall i :: 0 <= i < |ks| ==> ks[i] < |s|
    ensures |r| == |ks| && forall i :: 0 <= i < |ks| ==> r[i] == s[ks[i]]
  {
    seq(|ks|, i requires 0 <= i < |ks| => s[ks[i]])
  }

  lemma KeptOrdered(d: Digest, s: seq<Link>, ks: seq<nat>)
    requires Chain(d, s) && InOrder(s) && Increasing(ks, |s|)
    ensures ByTime(Kept(s, ks)) == Kept(s, ks) && AllHashed(Kept(s, ks))
  {
    var r := Kept(s, ks);
    forall i, j | 0 <= i < j < |r| ensures r[i].createdAt <= r[j].createdAt {
      assert ks[i] < ks[j];
    }
    ByTimeOfOrdered(r);
    forall i | 0 <= i < |r| ensures r[i].chainHash.Some? { HashShape(d, s, ks[i]); }
  }

  /** The entry before the k-th kept one, in the full journal. */
  ghost predicate Adjacent(ks: seq<nat>, k: nat)
    requires k < |ks|
  {
    ks[k] == if k == 0 then 0 else ks[k - 1] + 1
  }

  /** The hash that entry n was chained to is the seed only for the first entry and else its neighbor's. */
  lemma ChainedTo(d: Digest, s: seq<Link>, n: nat)
    requires Chain(d, s) && InOrder(s) && n < |s|
    ensures s[n].chainHash == Some(Expected(d, ChainAt(s, n, Seed()), s[n]))
    ensures n > 0 ==> ChainAt(s, n, Seed()) != Seed() && s[n - 1].chainHash == Some(ChainAt(s, n, Seed()))
  {
    OrderedChainAt(s, n);
    assert LinkedAt(d, s, n);
    if n > 0 { HashIsNotSeed(d, s, n - 1); }
  }

  lemma KeptChainAt(d: Digest, s: seq<Link>, ks: seq<nat>, k: nat)
    requires Chain(d, s) && Increasing(ks, |s|) && k < |ks|
    ensures var last := ChainAt(Kept(s, ks), k, Seed());
            && IsLast(s, last)
            && (k == 0 ==> last == Seed())
            && (k > 0 ==> ks[k - 1] < ks[k] && last != Seed() && s[ks[k - 1]].chainHash == Some(last))
  {
    if k > 0 {
      HashShape(d, s, ks[k - 1]);
      HashIsNotSeed(d, s, ks[k - 1]);
    }
  }

  /** The check accepts a kept entry exactly when the entry kept before it is also its neighbor in the full journal. */
  lemma KeptStep(d: Digest, s: seq<Link>, ks: seq<nat>, k: nat)
    requires Chain(d, s) && InOrder(s) && Increasing(ks, |s|) && k < |ks|
    ensures Follows(d, Kept(s, ks), k, Seed()) <==> Adjacent(ks, k)
  {
    var n, last := ks[k], ChainAt(Kept(s, ks), k, Seed());
    ChainedTo(d, s, n);
    KeptChainAt(d, s, ks, k);
    CarriesOnlyItsOwn(d, s, n, last);
    if n > 0 && k > 0 { SameHashSamePlace(d, s, n - 1, ks[k - 1]); }
    NeighborsAgree(s, ks, k, last, ChainAt(s, n, Seed()));
  }

  lemma NeighborsAgree(s: seq<Link>, ks: seq<nat>, k: nat, last: string, proper: string)
    requires Increasing(ks, |s|) && k < |ks|
    requires if k == 0 then last == Seed() else last != Seed() && s[ks[k - 1]].chainHash == Some(last)
    requires if ks[k] == 0 then proper == Seed() else proper != Seed() && s[ks[k] - 1].chainHash == Some(proper)
    requires ks[k] > 0 && k > 0 ==> (s[ks[k] - 1].chainHash == s[ks[k - 1]].chainHash <==> ks[k] - 1 == ks[k - 1])
    ensures last == proper <==> Adjacent(ks, k)
  {
    assert k > 0 ==> ks[k - 1] < ks[k];
  }

  lemma SameHashSamePlace(d: Digest, s: seq<Link>, i: nat, j: nat)
    requires Chain(d, s) && i < |s| && j < |s|
    ensures s[i].chainHash == s[j].chainHash <==> i == j
  {
    if s[i].chainHash == s[j].chainHash { HashesDiffer(d, s, i, j); }
  }

  lemma CarriesOnlyItsOwn(d: Digest, s: seq<Link>, n: nat, last: string)
    requires Chain(d, s) && InOrder(s) && n < |s| && IsLast(s, last)
    ensures Carries(d, last, s[n]) <==> last == ChainAt(s, n, Seed())
  {
    OrderedChainAt(s, n);
    assert LinkedAt(d, s, n);
    if Carries(d, last, s[n]) { HashNames(d, s, n, last, n); }
  }

  lemma {:induction false} AllAdjacent(ks: seq<nat>)
    requires forall k :: 0 <= k < |ks| ==> Adjacent(ks, k)
    ensures forall k :: 0 <= k < |ks| ==> ks[k] == k
  {
    if ks != [] {
      var front, n := ks[..|ks| - 1], |ks| - 1;
      forall k | 0 <= k < |front| ensures Adjacent(front, k) { assert Adjacent(ks, k); }
      AllAdjacent(front);
      assert forall k :: 0 <= k < |front| ==> front[k] == ks[k];
      assert Adjacent(ks, n);
    }
  }

  lemma AdjacentArePrefix(s: seq<Link>, ks: seq<nat>)
    requires Increasing(ks, |s|) && forall k :: 0 <= k < |ks| ==> Adjacent(ks, k)
    ensures Kept(s, ks) <= s
  {
    AllAdjacent(ks);
    if ks != [] { assert ks[|ks| - 1] == |ks| - 1; }
    assert |ks| <= |s|;
  }

  lemma KeptHolds(d: Digest, s: seq<Link>, ks: seq<nat>)
    requires Chain(d, s) && InOrder(s) && Increasing(ks, |s|)
    ensures ChainHolds(d, ByTime(Kept(s, ks)), Seed()) <==> forall k :: 0 <= k < |ks| ==> Adjacent(ks, k)
  {
    KeptOrdered(d, s, ks);
    HoldsPointwise(d, Kept(s, ks), Seed());
    forall k | 0 <= k < |ks| ensures Follows(d, Kept(s, ks), k, Seed()) <==> Adjacent(ks, k) {
      KeptStep(d, s, ks, k);
    }
  }

  /** After deletions the check passes exactly when only entries at the end are gone. */
  lemma SurvivesOnlyTruncation(d: Digest, s: seq<Link>, ks: seq<nat>)
    requires Chain(d, s) && InOrder(s) && Increasing(ks, |s|)
    ensures ChainHolds(d, ByTime(Kept(s, ks)), Seed()) <==> Kept(s, ks) <= s
  {
    KeptHolds(d, s, ks);
    if Kept(s, ks) <= s {
      PrefixIndexes(d, s, ks);
    } else if forall k :: 0 <= k < |ks| ==> Adjacent(ks, k) {
      AdjacentArePrefix(s, ks);
    }
  }

  lemma PrefixIndexes(d: Digest, s: seq<Link>, ks: seq<nat>)
    requires Chain(d, s) && Increasing(ks, |s|) && Kept(s, ks) <= s
    ensures forall k :: 0 <= k < |ks| ==> Adjacent(ks, k)
  {
    forall k | 0 <= k < |ks| ensures ks[k] == k {
      assert Kept(s, ks)[k] == s[k];
      HashesDiffer(d, s, ks[k], k);
    }
  }

  /** Dropping every chain hash also passes, whatever else was changed. */
  lemma {:induction false} UnhashedPasses(d: Digest, s: seq<Link>, last: string)
    requires forall i :: 0 <= i < |s| ==> s[i].chainHash.None?
    ensures ChainHolds(d, s, last)
  {
    if s != [] { UnhashedPasses(d, s[1..], last); }
  }

  // ---- a digest that is sound for every journal

  function Spelled(s: string): (r: string)
    ensures ':' !in r && |r| == 2 * |s|
  {
    if s == [] then [] else (if s[0] == ':' then [';', '1'] else [s[0], '0']) + Spelled(s[1..])
  }

  lemma {:induction false} SpelledInjective(s: string, t: string)
    requires Spelled(s) == Spelled(t)
    ensures s == t
  {
    assert |s| == |t|;
    if s != [] {
      assert Spelled(s)[0] == Spelled(t)[0] && Spelled(s)[1] == Spelled(t)[1];
      assert Spelled(s)[2..] == Spelled(s[1..]) && Spelled(t)[2..] == Spelled(t[1..]);
      SpelledInjective(s[1..], t[1..]);
      assert s == [s[0]] + s[1..] && t == [t[0]] + t[1..];
    }
  }

  function SpellingDigest(): Digest { Digest(x => ['x'] + Spelled(x), _ => "now") }

  lemma SpellingIsSound(s: seq<Link>)
    ensures SoundDigest(SpellingDigest(), s)
  {
    var d := SpellingDigest();
    forall i, a | 0 <= i < |s| && IsLast(s, a) ensures Expected(d, a, s[i]) != Seed() {
      assert Expected(d, a, s[i])[0] == 'x';
    }
    forall i, j, a, b | 0 <= i < |s| && 0 <= j < |s| && IsLast(s, a) && IsLast(s, b) ensures NoCollision(d, a, s[i], b, s[j]) {
      var x, y := Hashed(d, a, s[i]), Hashed(d, b, s[j]);
      if d.h(x) == d.h(y) {
        assert d.h(x)[1..] == Spelled(x) && d.h(y)[1..] == Spelled(y);
        SpelledInjective(x, y);
      }
    }
  }
}
