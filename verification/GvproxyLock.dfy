/** The installation of gvproxy by processes that share a cache directory. */
module GvproxyLock {
  import opened Bytes

  datatype File = Absent | Partial | Complete

  /** A path returned to a process, and what was there at that moment. */
  datatype Return = Return(p: int, file: File)

  /** Where a process is in ensureGvproxy, downloadGvproxy or waitForCachedGvproxy. */
  datatype Pc =
    | Idle
    | Opening                  // about to create the lock file
    | Refused                  // could not create it, about to look for the binary
    | WaitingForFile           // head of the polling loop
    | WaitingForLock           // saw no binary, about to look for the lock file
    | Rechecking               // holds the lock, about to look for the binary
    | Fetching | Writing | Renaming
    | Releasing(ok: bool)      // in the finally block
    | Done(ok: bool)
    | Crashed

  /**
   * The files in the cache directory, the processes, and two records: the paths returned, and
   * how often a file was renamed to the path. The lock file itself is empty; its owner is
   * recorded here only to speak about it.
   */
  datatype World = World(out: File, lock: Option<int>, tmp: map<int, File>, pc: map<int, Pc>,
                         returned: seq<Return>, renames: nat)

  datatype Step =
    | Spawn(p: int) | Ensure(p: int) | MkdirFails(p: int)
    | Open(p: int) | OpenFails(p: int) | LookAgain(p: int)
    | PollFile(p: int) | PollLock(p: int) | TimesOut(p: int)
    | Recheck(p: int) | Fetch(p: int) | WriteSome(p: int) | WriteAll(p: int) | Rename(p: int) | Fail(p: int)
    | Unlink(p: int) | UnlinkFails(p: int) | Crash(p: int)

  // The steps are the file accesses and awaits of any number of processes, their failures and crashes.

  predicate Terminated(pc: Pc) { pc.Done? || pc.Crashed? }

  /** Between taking the lock and giving it back. */
  predicate Holding(pc: Pc) {
    pc.Rechecking? || pc.Fetching? || pc.Writing? || pc.Renaming? || pc.Releasing?
  }

  predicate Installing(pc: Pc) { pc.Fetching? || pc.Writing? || pc.Renaming? }

  predicate Enabled(w: World, s: Step) {
    if s.Spawn? then s.p !in w.pc || Terminated(w.pc[s.p])  // a process id may come again
    else s.p in w.pc && EnabledAt(w, s)
  }

  predicate EnabledAt(w: World, s: Step)
    requires !s.Spawn? && s.p in w.pc
  {
    match s
    case Ensure(p) => !w.pc[p].Crashed?
    case MkdirFails(p) => w.pc[p] == Opening
    case Open(p) => w.pc[p] == Opening
    case OpenFails(p) => w.pc[p] == Opening
    case LookAgain(p) => w.pc[p] == Refused
    case PollFile(p) => w.pc[p] == WaitingForFile
    case PollLock(p) => w.pc[p] == WaitingForLock
    case TimesOut(p) => w.pc[p] == WaitingForFile
    case Recheck(p) => w.pc[p] == Rechecking
    case Fetch(p) => w.pc[p] == Fetching
    case WriteSome(p) => w.pc[p] == Writing
    case WriteAll(p) => w.pc[p] == Writing
    case Rename(p) => w.pc[p] == Renaming
    case Fail(p) => Installing(w.pc[p])
    case Unlink(p) => w.pc[p].Releasing?
    case UnlinkFails(p) => w.pc[p].Releasing?
    case Crash(p) => !Terminated(w.pc[p])
  }

  function At(w: World, p: int, pc: Pc): World { w.(pc := w.pc[p := pc]) }

  function Deliver(w: World, p: int): World { w.(returned := w.returned + [Return(p, w.out)]) }

  function Next(w: World, s: Step): World
    requires Enabled(w, s)
  {
    match s
    case Spawn(p) => At(w, p, Idle)
    case Ensure(p) =>
      // An install in flight, or one that failed, is shared by later calls of the same process.
      if w.out != Absent then Deliver(w, p) else if w.pc[p] == Idle then At(w, p, Opening) else w
    case MkdirFails(p) => At(w, p, Done(false))
    case Open(p) => if w.lock.None? then At(w, p, Rechecking).(lock := Some(p)) else At(w, p, Refused)
    case OpenFails(p) => At(w, p, Refused)
    case LookAgain(p) =>
      if w.out != Absent then At(Deliver(w, p), p, Done(true)) else At(w, p, WaitingForFile)
    case PollFile(p) =>
      if w.out != Absent then At(Deliver(w, p), p, Done(true)) else At(w, p, WaitingForLock)
    case PollLock(p) => At(w, p, if w.lock.None? then Opening else WaitingForFile)
    case TimesOut(p) => At(w, p, Done(false))
    case Recheck(p) => At(w, p, if w.out != Absent then Releasing(true) else Fetching)
    case Fetch(p) => At(w, p, Writing)
    case WriteSome(p) => w.(tmp := w.tmp[p := Partial])
    case WriteAll(p) => At(w, p, Renaming).(tmp := w.tmp[p := Complete])
    case Rename(p) =>
      if p in w.tmp && w.tmp[p] != Absent
      then At(w, p, Releasing(true)).(out := w.tmp[p], tmp := w.tmp[p := Absent], renames := w.renames + 1)
      else At(w, p, Releasing(false))
    case Fail(p) => At(w, p, Releasing(false))
    case Unlink(p) =>
      var v := At(w, p, Done(w.pc[p].ok)).(lock := None);
      if w.pc[p].ok then Deliver(v, p) else v
    case UnlinkFails(p) =>
      var v := At(w, p, Done(w.pc[p].ok));
      if w.pc[p].ok then Deliver(v, p) else v
    case Crash(p) => At(w, p, Crashed)
  }

  predicate Legal(w: World, steps: seq<Step>)
    decreases |steps|
  {
    steps == [] || (Enabled(w, steps[0]) && Legal(Next(w, steps[0]), steps[1..]))
  }

  function After(w: World, steps: seq<Step>): World
    requires Legal(w, steps)
    decreases |steps|
  {
    if steps == [] then w else After(Next(w, steps[0]), steps[1..])
  }

  const START := World(Absent, None, map[], map[], [], 0)

  // ---------- Safety ----------

  ghost predicate LockHeld(w: World) {
    forall p :: p in w.pc && Holding(w.pc[p]) ==> w.lock == Some(p)
  }

  /** The binary is absent while it is being installed, and whole from then on. */
  ghost predicate FilesAgree(w: World) {
    && (forall p :: p in w.pc && Installing(w.pc[p]) ==> w.out == Absent)
    && (forall p :: p in w.pc && w.pc[p] == Renaming ==> p in w.tmp && w.tmp[p] == Complete)
    && (forall p :: p in w.pc && w.pc[p] == Releasing(true) ==> w.out == Complete)
    && w.out != Partial
    && w.renames == (if w.out == Complete then 1 else 0)
    && Handed(w)
  }

  /** Paths are returned to the whole binary, and whoever succeeded has been given one. */
  ghost predicate Handed(w: World) {
    && (forall r :: r in w.returned ==> r.file == Complete)
    && (forall p :: p in w.pc && w.pc[p] == Done(true) ==> Return(p, Complete) in w.returned)
  }

  ghost predicate Consistent(w: World) { LockHeld(w) && FilesAgree(w) }

  lemma NextKeepsFiles(w: World, s: Step)
    requires Consistent(w) && Enabled(w, s)
    ensures FilesAgree(Next(w, s))
    ensures w.out == Complete ==> Next(w, s).out == Complete
  {
    hide FilesAgree, LockHeld, Next;
    if s.Rename? {
      RenameKeepsFiles(w, s.p);
    } else if s.WriteSome? || s.WriteAll? {
      WriteKeepsFiles(w, s);
    } else if s.Unlink? || s.UnlinkFails? || s.Ensure? || s.LookAgain? || s.PollFile? {
      ReturnKeepsFiles(w, s);
    } else {
      MoveKeepsFiles(w, s);
    }
  }

  lemma NextKeepsConsistent(w: World, s: Step)
    requires Consistent(w) && Enabled(w, s)
    ensures Consistent(Next(w, s))
    ensures w.out == Complete ==> Next(w, s).out == Complete
  {
    hide FilesAgree;
    NextKeepsFiles(w, s);
  }

  // ---------- The steps, by the files they touch ----------

  /** The only one that holds the lock puts the whole file in place. */
  lemma RenameKeepsFiles(w: World, p: int)
    requires Consistent(w) && Enabled(w, Rename(p))
    ensures FilesAgree(Next(w, Rename(p)))
    ensures w.out == Complete ==> Next(w, Rename(p)).out == Complete
  {
    assert forall q :: q in w.pc && q != p ==> !Holding(w.pc[q]);
  }

  lemma WriteKeepsFiles(w: World, s: Step)
    requires FilesAgree(w) && Enabled(w, s) && (s.WriteSome? || s.WriteAll?)
    ensures FilesAgree(Next(w, s)) && Next(w, s).out == w.out
  {
  }

  lemma ReturnKeepsFiles(w: World, s: Step)
    requires FilesAgree(w) && Enabled(w, s)
    requires s.Unlink? || s.UnlinkFails? || s.Ensure? || s.LookAgain? || s.PollFile?
    ensures FilesAgree(Next(w, s)) && Next(w, s).out == w.out
  {
  }

  /** The steps that touch no file but the lock. */
  lemma MoveKeepsFiles(w: World, s: Step)
    requires FilesAgree(w) && Enabled(w, s)
    requires !(s.Rename? || s.WriteSome? || s.WriteAll?)
    requires !(s.Unlink? || s.UnlinkFails? || s.Ensure? || s.LookAgain? || s.PollFile?)
    ensures FilesAgree(Next(w, s)) && Next(w, s).out == w.out
  {
    hide Handed;
    MoveKeepsHanded(w, s);
  }

  lemma MoveKeepsHanded(w: World, s: Step)
    requires Handed(w) && Enabled(w, s)
    requires !(s.Unlink? || s.UnlinkFails? || s.Ensure? || s.LookAgain? || s.PollFile?)
    ensures Handed(Next(w, s))
  {
  }

  // ---------- Runs ----------

  lemma {:induction false} RunKeepsConsistent(w: World, steps: seq<Step>)
    requires Consistent(w) && Legal(w, steps)
    ensures Consistent(After(w, steps))
    ensures w.out == Complete ==> After(w, steps).out == Complete
    decreases |steps|
  {
    if steps != [] {
      NextKeepsConsistent(w, steps[0]);
      RunKeepsConsistent(Next(w, steps[0]), steps[1..]);
    }
  }
}
