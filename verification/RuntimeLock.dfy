/** The runtime lock of the data directory: the lock object itself, and every interleaving of servers,
    factory resets, offline restores and crashes that use it. */
module RuntimeLock {
  import opened Options

  // ---------------------------------------------------------------- the lock object

  /** The kernel side of flock: which open handle, if any, holds the lock file exclusively. */
  class LockFile {
    var holder: Option<nat>
    var handles: nat

    constructor ()
      ensures holder == None && handles == 0
    {
      holder, handles := None, 0;
    }
  }

  class Lock {
    const file: LockFile
    const handle: nat
    var released: bool

    /** The kernel holds the lock for this handle exactly until the first release; a handle number is
        never used again. */
    ghost predicate Valid()
      reads this, file
    {
      handle < file.handles && (released <==> file.holder != Some(handle))
    }

    constructor (file: LockFile, handle: nat)
      requires file.holder == Some(handle) && handle < file.handles
      ensures Valid() && this.file == file && this.handle == handle && !released
    {
      this.file, this.handle, this.released := file, handle, false;
    }

    /** Releasing again, even after another process took the lock, changes nothing. */
    method Release()
      requires Valid()
      modifies this`released, file`holder
      ensures Valid() && released
      ensures file.holder == if old(file.holder) == Some(handle) then None else old(file.holder)
    {
      if released { return; }
      released := true;
      file.holder := None;
    }
  }

  /** Exclusive and non-blocking: refused exactly when some handle holds the lock. */
  method AcquireRuntimeLock(file: LockFile) returns (lock: Lock?)
    modifies file
    ensures lock == null <==> old(file.holder).Some?
    ensures lock == null ==> file.holder == old(file.holder)
    ensures lock != null ==>
              fresh(lock) && lock.file == file && lock.Valid() && !lock.released && file.holder == Some(lock.handle)
    ensures lock != null ==> lock.handle >= old(file.handles)
  {
    var handle := file.handles;
    file.handles := file.handles + 1;
    if file.holder.Some? { return null; }
    file.holder := Some(handle);
    lock := new Lock(file, handle);
  }

  // ---------------------------------------------------------------- interleavings

  type Pid = nat

  /** "Open(g)": a server has generation g of the database file open.  "Closing": the server holds the
      lock with no connection, before its first open, after its close, or inside a factory reset.
      "Abandoned(g)": its close failed, so that it holds a connection to generation g and no lock. */
  datatype Phase = Idle | Closing | Open(generation: nat) | Restoring | Abandoned(generation: nat)

  datatype Event =
    | StartServer(p: Pid) | OpenDb(p: Pid) | CloseDb(p: Pid)
    | CloseFailed(p: Pid)    // the close raises, and the lock is released all the same
    | StartRestore(p: Pid) | Refused(p: Pid)
    | ReplaceDb(p: Pid)      // an offline restore's rename, or a factory reset deleting the closed file
    | ReleaseLock(p: Pid)
    | Crash(p: Pid)

  datatype System = System(holder: Option<Pid>, phases: map<Pid, Phase>, generation: nat) {
    function PhaseOf(p: Pid): Phase { if p in phases then phases[p] else Idle }

    function Become(p: Pid, phase: Phase): System { this.(phases := phases[p := phase]) }
  }

  const START := System(None, map[], 0)

  predicate Enabled(s: System, e: Event) {
    match e
    case StartServer(p) => s.PhaseOf(p) == Idle && s.holder == None
    case StartRestore(p) => s.PhaseOf(p) == Idle && s.holder == None
    case Refused(p) => s.PhaseOf(p) == Idle && s.holder.Some?
    case OpenDb(p) => s.PhaseOf(p) == Closing
    case CloseDb(p) => s.PhaseOf(p).Open?
    case CloseFailed(p) => s.PhaseOf(p).Open?
    case ReplaceDb(p) => s.PhaseOf(p) == Restoring || s.PhaseOf(p) == Closing
    case ReleaseLock(p) => s.PhaseOf(p) == Restoring || s.PhaseOf(p) == Closing
    case Crash(p) => true
  }

  function Apply(s: System, e: Event): System
    requires Enabled(s, e)
  {
    match e
    case StartServer(p) => s.(holder := Some(p)).Become(p, Closing)
    case StartRestore(p) => s.(holder := Some(p)).Become(p, Restoring)
    case Refused(_) => s
    case OpenDb(p) => s.Become(p, Open(s.generation))
    case CloseDb(p) => s.Become(p, Closing)
    case CloseFailed(p) => s.(holder := None).Become(p, Abandoned(s.PhaseOf(p).generation))
    case ReplaceDb(p) => s.(generation := s.generation + 1)
    case ReleaseLock(p) => s.(holder := None).Become(p, Idle)
    case Crash(p) => s.(holder := if s.holder == Some(p) then None else s.holder).Become(p, Idle)
  }

  /** "run" is a possible interleaving; states[i] is the system before its i-th event. */
  ghost predicate IsRun(states: seq<System>, run: seq<Event>) {
    && |states| == |run| + 1 && states[0] == START
    && forall i :: 0 <= i < |run| ==> Enabled(states[i], run[i]) && states[i + 1] == Apply(states[i], run[i])
  }

  /** The process works under the lock. */
  predicate Active(s: System, p: Pid) { s.PhaseOf(p) != Idle && !s.PhaseOf(p).Abandoned? }

  ghost predicate Owned(s: System) {
    && (forall p: Pid :: Active(s, p) <==> s.holder == Some(p))
    && (forall p: Pid :: s.PhaseOf(p).Open? ==> s.PhaseOf(p).generation == s.generation)
  }

  lemma OwnedStep(s: System, e: Event)
    requires Owned(s) && Enabled(s, e)
    ensures Owned(Apply(s, e))
  {
    var next := Apply(s, e);
    assert Active(s, e.p) <==> s.holder == Some(e.p);
    forall p: Pid
      ensures next.PhaseOf(p) == if p == e.p then next.PhaseOf(e.p) else s.PhaseOf(p)
      ensures Active(s, p) <==> s.holder == Some(p)
    {
    }
  }

  lemma {:induction false} OwnedAlways(states: seq<System>, run: seq<Event>, i: nat)
    requires IsRun(states, run) && i <= |run|
    ensures Owned(states[i])
  {
    if i > 0 {
      OwnedAlways(states, run, i - 1);
      OwnedStep(states[i - 1], run[i - 1]);
    }
  }

  /** At most one process owns the data directory, and an open database is the current file: a connection to
      anything else was abandoned by a close that failed. */
  lemma SingleOwner(states: seq<System>, run: seq<Event>, i: nat, p: Pid, q: Pid)
    requires IsRun(states, run) && i <= |run|
    ensures Active(states[i], p) && Active(states[i], q) ==> p == q
    ensures states[i].PhaseOf(p).Open? ==> states[i].PhaseOf(p).generation == states[i].generation
  {
    OwnedAlways(states, run, i);
    assert Active(states[i], p) <==> states[i].holder == Some(p);
    assert Active(states[i], q) <==> states[i].holder == Some(q);
  }

  /** The server has let go of its connection: closed it, failed to, or died. */
  predicate LetsGo(e: Event, p: Pid) { e == CloseDb(p) || e == CloseFailed(p) || e == Crash(p) }

  lemma {:induction false} StaysOpen(states: seq<System>, run: seq<Event>, i: nat, k: nat, p: Pid)
    requires IsRun(states, run) && i < k <= |run| && run[i] == OpenDb(p)
    requires forall j :: i < j < k ==> !LetsGo(run[j], p)
    ensures states[k].PhaseOf(p).Open?
  {
    if k > i + 1 {
      StaysOpen(states, run, i, k - 1, p);
      assert !LetsGo(run[k - 1], p);
      assert Enabled(states[k - 1], run[k - 1]) && states[k] == Apply(states[k - 1], run[k - 1]);
    }
  }

  /** Between a server's open and any later replacement of the database file the server has closed it,
      failed to close it, or died. */
  lemma NeverReplacedWhileOpen(states: seq<System>, run: seq<Event>, i: nat, k: nat, p: Pid, q: Pid)
    requires IsRun(states, run) && i < k < |run| && run[i] == OpenDb(p) && run[k] == ReplaceDb(q)
    ensures exists j :: i < j < k && LetsGo(run[j], p)
  {
    if forall j :: i < j < k ==> !LetsGo(run[j], p) {
      StaysOpen(states, run, i, k, p);
      SingleOwner(states, run, k, p, q);
      assert false;
    }
  }

  /** A start by an idle process either takes the lock or is refused, and never both. */
  lemma StartsOrIsRefused(s: System, p: Pid)
    requires s.PhaseOf(p) == Idle
    ensures Enabled(s, StartServer(p)) <==> !Enabled(s, Refused(p))
    ensures Enabled(s, StartRestore(p)) <==> !Enabled(s, Refused(p))
    ensures Enabled(s, Refused(p)) ==> Apply(s, Refused(p)) == s
  {
  }

  /** A factory reset under one lock: the server closes its database, deletes the file and opens a new one. */
  lemma FactoryReset()
    ensures var run := [StartServer(0), OpenDb(0), CloseDb(0), ReplaceDb(0), OpenDb(0)];
            exists states: seq<System> :: IsRun(states, run) && states[5].PhaseOf(0) == Open(1)
  {
    var run := [StartServer(0), OpenDb(0), CloseDb(0), ReplaceDb(0), OpenDb(0)];
    var s1 := Apply(START, run[0]);
    var s2 := Apply(s1, run[1]);
    var s3 := Apply(s2, run[2]);
    var s4 := Apply(s3, run[3]);
    var states := [START, s1, s2, s3, s4, Apply(s4, run[4])];
    assert IsRun(states, run);
  }

  /** A server that has let go of the lock leaves it to a restore, which leaves it free again. */
  lemma RestoreAfterServer()
    ensures var run := [StartServer(0), ReleaseLock(0), StartRestore(1), ReplaceDb(1), ReleaseLock(1)];
            exists states: seq<System> ::
              IsRun(states, run) && states[3].holder == Some(1) && states[5].holder == None
              && states[5].PhaseOf(0) == states[5].PhaseOf(1) == Idle && states[5].generation == 1
  {
    var run := [StartServer(0), ReleaseLock(0), StartRestore(1), ReplaceDb(1), ReleaseLock(1)];
    var s1 := Apply(START, run[0]);
    var s2 := Apply(s1, run[1]);
    var s3 := Apply(s2, run[2]);
    var s4 := Apply(s3, run[3]);
    var states := [START, s1, s2, s3, s4, Apply(s4, run[4])];
    assert IsRun(states, run);
  }

  /** A process can die at any time; what it held is free at once, and what others hold is not. */
  lemma CrashFreesLock(s: System, p: Pid)
    ensures Enabled(s, Crash(p))
    ensures var after := Apply(s, Crash(p));
            && after.PhaseOf(p) == Idle && after.generation == s.generation
            && (after.holder == None <==> s.holder in {None, Some(p)})
            && (after.holder != None ==> after.holder == s.holder)
            && forall q: Pid :: q != p ==> after.PhaseOf(q) == s.PhaseOf(q)
  {
  }

  /** The lock is not lost either: while its owner lives and has not released it, every other attempt
      to start a server or a restore is refused. */
  lemma OthersRefused(states: seq<System>, run: seq<Event>, i: nat, p: Pid)
    requires IsRun(states, run) && i < |run| && Active(states[i], p)
    ensures forall q: Pid :: run[i] != StartServer(q) && run[i] != StartRestore(q)
  {
    OwnedAlways(states, run, i);
    assert states[i].holder == Some(p);
    assert Enabled(states[i], run[i]);
  }

  /** An abandoned connection reads an outdated file exactly if the database has been replaced since. */
  lemma {:induction false} AbandonedOutdated(states: seq<System>, run: seq<Event>, i: nat, k: nat, p: Pid)
    requires IsRun(states, run) && i < k <= |run| && run[i] == CloseFailed(p)
    requires forall j :: i < j < k ==> run[j] != Crash(p)
    ensures states[k].PhaseOf(p).Abandoned? && states[k].PhaseOf(p).generation <= states[k].generation
    ensures states[k].PhaseOf(p).generation != states[k].generation <==> exists j :: i < j < k && run[j].ReplaceDb?
  {
    OwnedAlways(states, run, i);
    assert Enabled(states[k - 1], run[k - 1]) && states[k] == Apply(states[k - 1], run[k - 1]);
    if k > i + 1 {
      AbandonedOutdated(states, run, i, k - 1, p);
      assert run[k - 1] != Crash(p);
    }
  }

  /** Such a run: a server fails to close, and a restore takes the freed lock and replaces the file. */
  lemma AbandonedOutlives()
    ensures var run := [StartServer(0), OpenDb(0), CloseFailed(0), StartRestore(1), ReplaceDb(1)];
            exists states: seq<System> ::
              IsRun(states, run) && states[5].PhaseOf(0) == Abandoned(0) && states[5].generation == 1
  {
    var run := [StartServer(0), OpenDb(0), CloseFailed(0), StartRestore(1), ReplaceDb(1)];
    var s1 := Apply(START, run[0]);
    var s2 := Apply(s1, run[1]);
    var s3 := Apply(s2, run[2]);
    var s4 := Apply(s3, run[3]);
    var states := [START, s1, s2, s3, s4, Apply(s4, run[4])];
    assert IsRun(states, run);
  }
}
