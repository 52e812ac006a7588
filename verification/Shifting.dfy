/** Inserting blanks into a row of fixed length and deleting from it, once and n times. */
module Shifting {
  function Repeat<T>(x: T, n: nat): (r: seq<T>)
    ensures |r| == n && forall i :: 0 <= i < n ==> r[i] == x
  {
    seq(n, _ => x)
  }

  function Min(a: int, b: int): int { if a <= b then a else b }

  /** Insert and truncate to the old length. */
  function InsertOnce<T>(s: seq<T>, at: nat, x: T): (r: seq<T>)
    requires at < |s|
    ensures |r| == |s|
  {
    (s[..at] + [x] + s[at..])[..|s|]
  }

  /** Remove and append a blank. */
  function DeleteOnce<T>(s: seq<T>, at: nat, x: T): (r: seq<T>)
    requires at < |s|
    ensures |r| == |s|
  {
    s[..at] + s[at + 1..] + [x]
  }

  function InsertTimes<T>(s: seq<T>, at: nat, x: T, n: nat): (r: seq<T>)
    requires at < |s|
    ensures |r| == |s|
  {
    if n == 0 then s else InsertOnce(InsertTimes(s, at, x, n - 1), at, x)
  }

  function DeleteTimes<T>(s: seq<T>, at: nat, x: T, n: nat): (r: seq<T>)
    requires at < |s|
    ensures |r| == |s|
  {
    if n == 0 then s else DeleteOnce(DeleteTimes(s, at, x, n - 1), at, x)
  }

  lemma {:induction false} InsertTimesAt<T>(s: seq<T>, at: nat, x: T, n: nat, i: nat)
    requires at < |s| && i < |s|
    ensures InsertTimes(s, at, x, n)[i] == if i < at then s[i] else if i < at + n then x else s[i - n]
  {
    if n > 0 {
      InsertTimesAt(s, at, x, n - 1, i);
      if i > at { InsertTimesAt(s, at, x, n - 1, i - 1); }
    }
  }

  lemma {:induction false} DeleteTimesAt<T>(s: seq<T>, at: nat, x: T, n: nat, i: nat)
    requires at < |s| && i < |s|
    ensures DeleteTimes(s, at, x, n)[i] == if i < at then s[i] else if i + n < |s| then s[i + n] else x
  {
    if n > 0 {
      DeleteTimesAt(s, at, x, n - 1, i);
      if i + 1 < |s| { DeleteTimesAt(s, at, x, n - 1, i + 1); }
    }
  }

  /** What is before the place stays; what is behind it moves by n, as far as there is room. */
  lemma InsertTimesClosed<T>(s: seq<T>, at: nat, x: T, n: nat)
    requires at < |s|
    ensures var k := Min(n, |s| - at);
            InsertTimes(s, at, x, n) == s[..at] + Repeat(x, k) + s[at..|s| - k]
  {
    var k := Min(n, |s| - at);
    var r, closed := InsertTimes(s, at, x, n), s[..at] + Repeat(x, k) + s[at..|s| - k];
    assert |r| == |closed|;
    forall i | 0 <= i < |s| ensures r[i] == closed[i] {
      InsertTimesAt(s, at, x, n, i);
    }
  }

  lemma DeleteTimesClosed<T>(s: seq<T>, at: nat, x: T, n: nat)
    requires at < |s|
    ensures var k := Min(n, |s| - at);
            DeleteTimes(s, at, x, n) == s[..at] + s[at + k..] + Repeat(x, k)
  {
    var k := Min(n, |s| - at);
    var r, closed := DeleteTimes(s, at, x, n), s[..at] + s[at + k..] + Repeat(x, k);
    assert |r| == |closed|;
    forall i | 0 <= i < |s| ensures r[i] == closed[i] {
      DeleteTimesAt(s, at, x, n, i);
    }
  }

  /** Deleting after inserting at the same place restores everything that was not pushed off the end. */
  lemma DeleteUndoesInsert<T>(s: seq<T>, at: nat, x: T, n: nat)
    requires at < |s|
    ensures var k := Min(n, |s| - at);
            DeleteTimes(InsertTimes(s, at, x, n), at, x, n) == s[..|s| - k] + Repeat(x, k)
  {
    var k := Min(n, |s| - at);
    InsertTimesClosed(s, at, x, n);
    var t := s[..at] + Repeat(x, k) + s[at..|s| - k];
    DeleteTimesClosed(t, at, x, n);
    assert t[..at] == s[..at] && t[at + k..] == s[at..|s| - k];
    assert s[..at] + s[at..|s| - k] == s[..|s| - k];
  }
}
