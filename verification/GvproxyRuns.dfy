/** What holds over all runs of the gvproxy install. */
module GvproxyRuns {
  import opened Bytes
  import opened GvproxyLock

  // ---------- Safety ----------

  /**
   * In every run from an empty cache: one process at most is between taking and giving back
   * the lock, the binary is put in place once at most, a path is only ever returned when the
   * whole binary is there, and whoever is done with success has been given it.
   */
  lemma EveryRunIsSafe(steps: seq<Step>)
    requires Legal(START, steps)
    ensures var w := After(START, steps);
            && (forall p, q :: p in w.pc && q in w.pc && Holding(w.pc[p]) && Holding(w.pc[q]) ==> p == q)
            && w.renames <= 1 && w.out != Partial
            && (forall r :: r in w.returned ==> r.file == Complete)
            && (forall p :: p in w.pc && w.pc[p] == Done(true) ==> Return(p, Complete) in w.returned)
  {
    RunKeepsConsistent(START, steps);
  }

  // ---------- Returned paths ----------

  predicate Succeeded(w: World, p: int) { p in w.pc && w.pc[p] == Done(true) }

  /** A step returns a path to one process at most, its own, and then the whole binary is there. */
  lemma StepReturns(w: World, s: Step)
    requires Consistent(w) && Enabled(w, s)
    ensures Next(w, s).returned == w.returned || Next(w, s).returned == w.returned + [Return(s.p, Complete)]
  {
    hide FilesAgree;
    ReturnedIsComplete(w, s);
  }

  lemma ReturnedIsComplete(w: World, s: Step)
    requires Consistent(w) && Enabled(w, s)
    ensures w.out != Partial && (!s.Spawn? && w.pc[s.p] == Releasing(true) ==> w.out == Complete)
  {
  }

  /** The very step with which a process ends in success gives it the path. */
  lemma SuccessIsHanded(w: World, s: Step, p: int)
    requires Consistent(w) && Enabled(w, s) && !Succeeded(w, p) && Succeeded(Next(w, s), p)
    ensures s.p == p && Next(w, s).returned == w.returned + [Return(p, Complete)]
  {
    hide FilesAgree;
    ReturnedIsComplete(w, s);
  }

  /** A process that looks for the binary gets the path exactly when the binary is there. */
  lemma LookingReturnsIff(w: World, s: Step)
    requires Consistent(w) && Enabled(w, s) && (s.Ensure? || s.LookAgain? || s.PollFile?)
    ensures Next(w, s).returned == w.returned + [Return(s.p, Complete)] <==> w.out == Complete
    ensures w.out == Complete && !s.Ensure? ==> Succeeded(Next(w, s), s.p)
  {
    hide FilesAgree;
    ReturnedIsComplete(w, s);
    assert |w.returned + [Return(s.p, Complete)]| > |w.returned|;
  }

  /** Whose lock file cannot be created waits, and a process gives up for three reasons only. */
  lemma GivesUpIff(w: World, s: Step)
    requires Enabled(w, s) && s.p in w.pc && w.pc[s.p] != Done(false)
    ensures Next(w, s).pc[s.p] == Done(false) <==>
            s.MkdirFails? || s.TimesOut? || ((s.Unlink? || s.UnlinkFails?) && w.pc[s.p] == Releasing(false))
    ensures s.OpenFails? || (s.Open? && w.lock.Some?) ==> Next(w, s).pc[s.p] == Refused
  {
  }

  /** A crash can leave a partial file, but beside the path; a rename leaves none. */
  lemma TemporaryFiles(w: World, p: int)
    requires Consistent(w) && p in w.pc
    ensures w.pc[p] == Writing ==>
              var v := Next(Next(w, WriteSome(p)), Crash(p)); v.tmp == w.tmp[p := Partial] && v.out == w.out
    ensures w.pc[p] == Renaming ==>
              var v := Next(w, Rename(p)); v.out == Complete && v.tmp == w.tmp[p := Absent]
  {
  }

  // ---------- The orphaned lock ----------

  /** The lock file is there, and the process that created it is not going to remove it. */
  predicate Orphaned(w: World) {
    w.lock.Some? && !(w.lock.value in w.pc && Holding(w.pc[w.lock.value]))
  }

  /** Some continuation puts the binary in place. */
  ghost predicate CanInstall(w: World) {
    exists steps :: Legal(w, steps) && After(w, steps).out == Complete
  }

  lemma OrphanedStays(w: World, s: Step)
    requires Consistent(w) && Orphaned(w) && w.out == Absent && Enabled(w, s)
    ensures Orphaned(Next(w, s)) && Next(w, s).out == Absent && Next(w, s).returned == w.returned
  {
  }

  /** With no binary and an orphaned lock, no continuation installs the binary or returns a path. */
  lemma {:induction false} OrphanedBlocksForever(w: World, steps: seq<Step>)
    requires Consistent(w) && Orphaned(w) && w.out == Absent && Legal(w, steps)
    ensures After(w, steps).out == Absent && After(w, steps).returned == w.returned
    decreases |steps|
  {
    if steps != [] {
      OrphanedStays(w, steps[0]);
      NextKeepsConsistent(w, steps[0]);
      OrphanedBlocksForever(Next(w, steps[0]), steps[1..]);
    }
  }

  lemma PrependStep(w: World, s: Step)
    requires Enabled(w, s) && CanInstall(Next(w, s))
    ensures CanInstall(w)
  {
    var rest :| Legal(Next(w, s), rest) && After(Next(w, s), rest).out == Complete;
    assert ([s] + rest)[1..] == rest;
    assert Legal(w, [s] + rest) && After(w, [s] + rest).out == Complete;
  }

  lemma InstalledCanInstall(w: World)
    requires w.out == Complete
    ensures CanInstall(w)
  {
    assert Legal(w, []) && After(w, []).out == Complete;
  }

  /** A process that is installing can finish. */
  lemma HolderCanInstall(w: World, p: int)
    requires p in w.pc && (Installing(w.pc[p]) || (w.pc[p] == Rechecking && w.out == Absent))
    requires w.pc[p] == Renaming ==> p in w.tmp && w.tmp[p] == Complete
    ensures CanInstall(w)
    decreases match w.pc[p] { case Rechecking => 3 case Fetching => 2 case Writing => 1 case _ => 0 }
  {
    var s := match w.pc[p] {
      case Rechecking => Recheck(p)
      case Fetching => Fetch(p)
      case Writing => WriteAll(p)
      case _ => Rename(p)
    };
    if s.Rename? {
      InstalledCanInstall(Next(w, s));
    } else {
      HolderCanInstall(Next(w, s), p);
    }
    PrependStep(w, s);
  }

  lemma FreshId(ids: set<int>) returns (p: int)
    ensures forall i :: i in ids ==> i < p
  {
    p := 0;
    var todo := ids;
    while exists i :: i in todo
      invariant forall i :: i in ids ==> i in todo || i < p
      decreases todo
    {
      var i :| i in todo;
      todo := todo - {i};
      if i >= p { p := i + 1; }
    }
  }

  /** With the lock free, a new process can install the binary. */
  lemma NewcomerCanInstall(w: World)
    requires w.lock.None? && w.out == Absent
    ensures CanInstall(w)
  {
    var p := FreshId(w.pc.Keys);
    var w1 := Next(w, Spawn(p));
    var w2 := Next(w1, Ensure(p));
    var w3 := Next(w2, Open(p));
    HolderCanInstall(w3, p);
    PrependStep(w2, Open(p));
    PrependStep(w1, Ensure(p));
    PrependStep(w, Spawn(p));
  }

  /** The binary can still be installed exactly when it is there or the lock is not orphaned. */
  lemma CanInstallIff(w: World)
    requires Consistent(w)
    ensures CanInstall(w) <==> w.out == Complete || !Orphaned(w)
  {
    if w.out == Complete {
      InstalledCanInstall(w);
    } else if Orphaned(w) {
      forall steps | Legal(w, steps)
        ensures After(w, steps).out == Absent
      {
        OrphanedBlocksForever(w, steps);
      }
    } else if w.lock.None? {
      NewcomerCanInstall(w);
    } else {
      var p := w.lock.value;
      if w.pc[p].Releasing? {
        NewcomerCanInstall(Next(w, Unlink(p)));
        PrependStep(w, Unlink(p));
      } else {
        HolderCanInstall(w, p);
      }
    }
  }

  // ---------- Waiters ----------

  /** Waiting for another process to finish. */
  predicate Waits(pc: Pc) { pc.Refused? || pc.WaitingForFile? || pc.WaitingForLock? }

  /** On the way to a path: waiting, about to try the lock, or installing. */
  predicate OnTheWay(pc: Pc) {
    Waits(pc) || pc.Opening? || (Holding(pc) && pc != Releasing(false))
  }

  predicate StepsOf(steps: seq<Step>, who: set<int>) { forall s :: s in steps ==> s.p in who }

  ghost predicate ReturnsTo(w: World, p: int, who: set<int>, steps: seq<Step>) {
    && Legal(w, steps) && StepsOf(steps, who) && |After(w, steps).returned| > |w.returned|
    && After(w, steps).returned[|After(w, steps).returned| - 1] == Return(p, Complete)
  }

  /** Some continuation by the processes of `who` alone ends with a path returned to p. */
  ghost predicate CanReturnTo(w: World, p: int, who: set<int>) {
    exists steps :: ReturnsTo(w, p, who, steps)
  }

  lemma ReturnsAtOnce(w: World, s: Step, p: int, who: set<int>)
    requires Enabled(w, s) && s.p in who && Next(w, s).returned == w.returned + [Return(p, Complete)]
    ensures CanReturnTo(w, p, who)
  {
    hide Enabled, Next;
    var steps := FirstStep(w, s, Next(w, s), []);
    assert ReturnsTo(w, p, who, steps);
  }

  lemma PrependReturn(w: World, s: Step, p: int, who: set<int>)
    requires Consistent(w) && Enabled(w, s) && s.p in who && CanReturnTo(Next(w, s), p, who)
    ensures CanReturnTo(w, p, who)
  {
    hide Consistent, Enabled, Next;
    var rest :| ReturnsTo(Next(w, s), p, who, rest);
    var steps := FirstStep(w, s, Next(w, s), rest);
    StepReturns(w, s);
    assert ReturnsTo(w, p, who, steps);
  }

  /** The process to move: the holder of the lock while the binary is absent, else p itself. */
  function Mover(w: World, p: int): int {
    if w.out == Absent && w.lock.Some? then w.lock.value else p
  }

  function Helpful(pc: Pc, p: int): Step {
    match pc
    case Rechecking => Recheck(p)
    case Fetching => Fetch(p)
    case Writing => WriteAll(p)
    case Renaming => Rename(p)
    case Releasing(_) => Unlink(p)
    case Refused => LookAgain(p)
    case WaitingForFile => PollFile(p)
    case WaitingForLock => PollLock(p)
    case _ => Open(p)
  }

  function ToRelease(pc: Pc): nat {
    match pc
    case Rechecking => 5
    case Fetching => 4
    case Writing => 3
    case Renaming => 2
    case Releasing(_) => 1
    case _ => 0
  }

  /** A bound on the helpful steps until p has its path. */
  function Remaining(w: World, p: int): nat
    requires p in w.pc
  {
    if Holding(w.pc[p]) then ToRelease(w.pc[p])
    else if w.out != Absent then
      if w.pc[p].WaitingForLock? then 8 else if w.pc[p].Opening? then 7 else 1
    else if w.lock.None? then
      (match w.pc[p] case Opening => 7 case WaitingForLock => 8 case WaitingForFile => 9 case _ => 10)
    else if w.lock.value in w.pc then 20 + ToRelease(w.pc[w.lock.value])
    else 0
  }

  ghost predicate Hopeful(w: World, p: int) {
    p in w.pc && OnTheWay(w.pc[p]) && (w.out == Complete || !Orphaned(w))
  }

  /** Moving the holder, with the binary absent and p another process. */
  lemma HolderMoves(w: World, p: int, q: int)
    requires Consistent(w) && Hopeful(w, p) && w.out == Absent && w.lock == Some(q) && q != p
    ensures q in w.pc && Enabled(w, Helpful(w.pc[q], q))
    ensures var v := Next(w, Helpful(w.pc[q], q));
            p in v.pc && Hopeful(v, p) && Remaining(v, p) < Remaining(w, p)
  {
  }

  /** Moving p itself, which holds the lock. */
  lemma InstallerMoves(w: World, p: int)
    requires Consistent(w) && Hopeful(w, p) && Holding(w.pc[p])
    ensures Enabled(w, Helpful(w.pc[p], p))
    ensures var v := Next(w, Helpful(w.pc[p], p));
            v.returned == w.returned + [Return(p, Complete)]
            || (p in v.pc && Hopeful(v, p) && Remaining(v, p) < Remaining(w, p))
  {
  }

  /** Moving p itself, which waits or is about to try the lock. */
  lemma WaiterMoves(w: World, p: int)
    requires Consistent(w) && Hopeful(w, p) && Mover(w, p) == p && !Holding(w.pc[p])
    ensures Enabled(w, Helpful(w.pc[p], p))
    ensures var v := Next(w, Helpful(w.pc[p], p));
            v.returned == w.returned + [Return(p, Complete)]
            || (p in v.pc && Hopeful(v, p) && Remaining(v, p) < Remaining(w, p))
  {
  }

  lemma LockStays(w: World, s: Step, who: set<int>)
    requires Enabled(w, s) && s.p in who && (w.lock.Some? ==> w.lock.value in who)
    ensures Next(w, s).lock.Some? ==> Next(w, s).lock.value in who
  {
  }

  lemma {:induction false} HopefulReturns(w: World, p: int, who: set<int>)
    requires p in w.pc && p in who && Consistent(w) && Hopeful(w, p) && (w.lock.Some? ==> w.lock.value in who)
    ensures CanReturnTo(w, p, who)
    decreases Remaining(w, p)
  {
    hide Consistent, Enabled, Next, Hopeful, CanReturnTo;
    var q := Mover(w, p);
    if q != p {
      HolderMoves(w, p, q);
    } else if Holding(w.pc[p]) {
      InstallerMoves(w, p);
    } else {
      WaiterMoves(w, p);
    }
    var s := Helpful(w.pc[q], q);
    var v := Next(w, s);
    if v.returned == w.returned + [Return(p, Complete)] {
      ReturnsAtOnce(w, s, p, who);
    } else {
      LockStays(w, s, who);
      NextKeepsConsistent(w, s);
      HopefulReturns(v, p, who);
      PrependReturn(w, s, p, who);
    }
  }

  /** p and whoever the lock names. */
  function WithHolder(w: World, p: int): set<int> {
    if w.lock.Some? then {p, w.lock.value} else {p}
  }

  /**
   * A waiting process can still be given its path, by its own steps and those of the lock's
   * holder alone, exactly when the binary is there or the lock is not orphaned.
   */
  lemma WaiterCanReturnIff(w: World, p: int)
    requires Consistent(w) && p in w.pc && Waits(w.pc[p])
    ensures CanReturnTo(w, p, WithHolder(w, p)) <==> w.out == Complete || !Orphaned(w)
  {
    if w.out == Complete || !Orphaned(w) {
      HopefulReturns(w, p, WithHolder(w, p));
    } else {
      forall steps | Legal(w, steps)
        ensures !ReturnsTo(w, p, WithHolder(w, p), steps)
      {
        OrphanedBlocksForever(w, steps);
      }
    }
  }

  /** The lock becomes orphaned exactly by the crash of its holder, or by a failed unlink, which goes unreported. */
  lemma OrphanedByStepIff(w: World, s: Step)
    requires Consistent(w) && !Orphaned(w) && Enabled(w, s)
    ensures Orphaned(Next(w, s)) <==> s.UnlinkFails? || (s.Crash? && Holding(w.pc[s.p]))
  {
  }

  /** A first process that crashes while it holds the lock: nobody installs the binary any more. */
  lemma FirstHolderCrashes()
    ensures exists steps :: Legal(START, steps) && Orphaned(After(START, steps)) && !CanInstall(After(START, steps))
  {
    var w3 := World(Absent, Some(1), map[], map[1 := Rechecking], [], 0);
    var w4 := w3.(pc := map[1 := Crashed]);
    var toCrash := FirstStep(w3, Crash(1), w4, []);
    var toOpen := FirstStep(w3.(lock := None, pc := map[1 := Opening]), Open(1), w3, toCrash);
    var toEnsure := FirstStep(w3.(lock := None, pc := map[1 := Idle]), Ensure(1),
                              w3.(lock := None, pc := map[1 := Opening]), toOpen);
    var steps := FirstStep(START, Spawn(1), w3.(lock := None, pc := map[1 := Idle]), toEnsure);
    StartIsConsistent();
    RunKeepsConsistent(START, steps);
    CanInstallIff(w4);
  }

  lemma FirstStep(w: World, s: Step, next: World, rest: seq<Step>) returns (steps: seq<Step>)
    requires Enabled(w, s) && next == Next(w, s) && Legal(next, rest)
    ensures steps == [s] + rest && Legal(w, steps) && After(w, steps) == After(next, rest)
  {
    steps := [s] + rest;
    assert steps[1..] == rest;
  }

  lemma StartIsConsistent()
    ensures Consistent(START)
  {
  }
}
