/** The exclusive operation lock: a non-blocking flock on a descriptor opened for the purpose. */
module OperationLocks {
  import opened Wrappers

  /** The kernel's view of the lock file: the descriptor that owns the lock, and the next free number. */
  datatype Kernel = Kernel(holder: Option<nat>, next: nat)

  /** A lock object's own fields. */
  datatype Handle = Handle(fd: Option<nat>, locked: bool)

  // ---- the two operations on values

  /** A new descriptor is opened each time; a refused one is closed again and forgotten, locked is left as it was. */
  function Acquired(h: Handle, k: Kernel): (Handle, Kernel) {
    if k.holder.None? then (Handle(Some(k.next), true), Kernel(Some(k.next), k.next + 1))
    else (Handle(None, h.locked), Kernel(k.holder, k.next + 1))
  }

  function Released(h: Handle, k: Kernel): (Handle, Kernel) {
    if h.locked && h.fd.Some? then
      (Handle(None, false), if k.holder == h.fd then k.(holder := None) else k)
    else (h, k)
  }

  // ---- the object

  class LockFile {
    var state: Kernel

    constructor ()
      ensures state == Kernel(None, 0)
    {
      state := Kernel(None, 0);
    }
  }

  class OperationLock {
    const file: LockFile
    var fd: Option<nat>
    var locked: bool

    constructor (file: LockFile)
      ensures this.file == file && fd == None && !locked
    {
      this.file, fd, locked := file, None, false;
    }

    function View(): Handle
      reads this
    {
      Handle(fd, locked)
    }

    /** False stands for ConcurrentOperationError. */
    method Acquire() returns (ok: bool)
      modifies this, file
      ensures ok <==> old(file.state.holder).None?
      ensures (View(), file.state) == Acquired(old(View()), old(file.state))
    {
      fd := Some(file.state.next);
      file.state := file.state.(next := file.state.next + 1);
      if file.state.holder.None? {
        file.state := file.state.(holder := fd);
        locked := true;
        return true;
      }
      fd := None;
      return false;
    }

    method Release()
      modifies this, file
      ensures (View(), file.state) == Released(old(View()), old(file.state))
    {
      if locked && fd.Some? {
        if file.state.holder == fd {
          file.state := file.state.(holder := None);
        }
        fd := None;
        locked := false;
      }
    }
  }

  // ---- whole runs of one object among others

  /** What happens to the lock file: the object acquires or releases, another descriptor takes the lock or gives it up. */
  datatype Op = Acquire | Release | OtherTakes | OtherGives

  /** other is the descriptor of the other holder, if there is one. */
  datatype World = World(h: Handle, k: Kernel, other: Option<nat>)

  function Next(w: World, op: Op): World {
    match op
    case Acquire => var (h, k) := Acquired(w.h, w.k); World(h, k, w.other)
    case Release => var (h, k) := Released(w.h, w.k); World(h, k, w.other)
    case OtherTakes =>
      if w.k.holder.None? then World(w.h, Kernel(Some(w.k.next), w.k.next + 1), Some(w.k.next)) else w
    case OtherGives =>
      if w.other.Some? then World(w.h, w.k.(holder := None), None) else w
  }

  function Run(ops: seq<Op>): World {
    if ops == [] then World(Handle(None, false), Kernel(None, 0), None)
    else Next(Run(ops[..|ops| - 1]), ops[|ops| - 1])
  }

  /** The object holds the lock and can release it. */
  ghost predicate Held(w: World) { w.k.holder.Some? && w.h == Handle(w.k.holder, true) && w.other.None? }

  /** The object does not hold the lock, and knows it: the lock is free, or another descriptor holds it. */
  ghost predicate NotHeld(w: World) { w.h == Handle(None, false) && w.k.holder == w.other }

  /** The lock is held by a descriptor that the object has forgotten. */
  ghost predicate Leaked(w: World) { w.k.holder.Some? && w.h.fd.None? && w.other.None? }

  /** An acquire while the object itself holds the lock. */
  ghost predicate ReacquiredAt(ops: seq<Op>, i: nat) {
    i < |ops| && ops[i] == Acquire && Held(Run(ops[..i]))
  }

  lemma StepHolds(w: World, op: Op)
    requires Held(w) || NotHeld(w) || Leaked(w)
    ensures Leaked(Next(w, op)) <==> Leaked(w) || (op == Acquire && Held(w))
    ensures !Leaked(Next(w, op)) ==> Held(Next(w, op)) || NotHeld(Next(w, op))
    ensures !(Leaked(w) && Held(w))
  {
  }

  /** Among any other holders, the lock is leaked, and then for good, if and only if the object acquired it once while
      holding it; otherwise the object holds the lock exactly when its fields say so. */
  lemma {:induction false} LeakedIffReacquired(ops: seq<Op>)
    ensures Leaked(Run(ops)) <==> exists i :: 0 <= i < |ops| && ReacquiredAt(ops, i)
    ensures !Leaked(Run(ops)) ==> Held(Run(ops)) || NotHeld(Run(ops))
  {
    if ops != [] {
      var n := |ops| - 1;
      var front := ops[..n];
      LeakedIffReacquired(front);
      StepHolds(Run(front), ops[n]);
      forall i | 0 <= i < n ensures ReacquiredAt(ops, i) <==> ReacquiredAt(front, i) { assert front[..i] == ops[..i]; }
      if i :| 0 <= i < n && ReacquiredAt(front, i) { assert ReacquiredAt(ops, i); }
      assert ReacquiredAt(ops, n) <==> (ops[n] == Acquire && Held(Run(front)));
    }
  }

  lemma LeakingRun()
    ensures Leaked(Run([Acquire, Acquire, Release]))
  {
    var ops := [Acquire, Acquire, Release];
    assert ops[..1] == [Acquire] && [Acquire][..0] == [];
    assert ReacquiredAt(ops, 1);
    LeakedIffReacquired(ops);
  }

  /** Being refused and trying again is harmless. */
  lemma ContendedRun()
    ensures Held(Run([OtherTakes, Acquire, OtherGives, Acquire])) && NotHeld(Run([OtherTakes, Acquire, OtherGives, Acquire, Release]))
  {
    var a, b, c := [OtherTakes], [OtherTakes, Acquire], [OtherTakes, Acquire, OtherGives];
    var d, e := [OtherTakes, Acquire, OtherGives, Acquire], [OtherTakes, Acquire, OtherGives, Acquire, Release];
    assert Run([]) == World(Handle(None, false), Kernel(None, 0), None);
    assert a[..0] == [] && Run(a) == World(Handle(None, false), Kernel(Some(0), 1), Some(0));
    assert b[..1] == a && Run(b) == World(Handle(None, false), Kernel(Some(0), 2), Some(0));
    assert c[..2] == b && Run(c) == World(Handle(None, false), Kernel(None, 2), None);
    assert d[..3] == c && Run(d) == World(Handle(Some(2), true), Kernel(Some(2), 3), None);
    assert e[..4] == d && Run(e) == World(Handle(None, false), Kernel(None, 3), None);
  }
}
