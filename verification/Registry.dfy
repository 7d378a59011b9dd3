/** The VM registry: a record per pid, and a tree of name pins. */
module Registry {
  import opened Bytes

  /** A path-shaped name, as the components below `names/`. */
  type Name = seq<string>

  /** A process as the operating system knows it: its pid may be used again later. */
  datatype Process = Process(pid: int, startedAt: int)

  datatype Entry = Entry(pid: int, name: Option<Name>, startedAt: int) {
    function Proc(): Process { Process(pid, startedAt) }
  }

  /**
   * The registry on disk. A vm directory without a readable meta.json maps to None. A pin
   * holds what its file says; content that is not a number counts as 0.
   */
  datatype Store = Store(vms: map<int, Option<Entry>>, pins: map<Name, int>, dirs: set<Name>)

  const EMPTY := Store(map[], map[], {})

  // ---------- The tree of names ----------

  predicate Above(d: Name, n: Name) { 1 <= |d| < |n| && d <= n }

  /** mkdir -p of the parent of n. */
  function Parents(n: Name): set<Name> { set i | 1 <= i < |n| :: n[..i] }

  /** Some directory on the way to n is a pin. */
  predicate Blocked(s: Store, n: Name) { exists i :: 1 <= i < |n| && n[..i] in s.pins }

  predicate IsEmptyDir(s: Store, d: Name) {
    && d in s.dirs
    && (forall p :: p in s.pins ==> !Above(d, p))
    && (forall e :: e in s.dirs ==> !Above(d, e))
  }

  /** rmdir upwards from d until a directory is not empty. */
  function PrunedDirs(s: Store, d: Name): set<Name>
    decreases |d|
  {
    if |d| == 0 || !IsEmptyDir(s, d) then s.dirs
    else PrunedDirs(s.(dirs := s.dirs - {d}), d[..|d| - 1])
  }

  /** The names form a tree: pins are leaves and every parent is a directory. */
  ghost predicate Tree(s: Store) {
    && [] !in s.pins && [] !in s.dirs
    && (forall p :: p in s.pins ==> p !in s.dirs)
    && (forall p, i :: p in s.pins && 1 <= i < |p| ==> p[..i] in s.dirs)
    && (forall d, i :: d in s.dirs && 1 <= i < |d| ==> d[..i] in s.dirs)
  }

  // ---------- Operations ----------

  function ReadEntry(s: Store, pid: int): Option<Entry> { if pid in s.vms then s.vms[pid] else None }

  /** validatePid: the recorded process is still running. */
  predicate Alive(alive: set<Process>, e: Entry) { e.Proc() in alive }

  predicate PinIsStale(s: Store, alive: set<Process>, held: int) {
    held <= 0 || ReadEntry(s, held).None? || !Alive(alive, ReadEntry(s, held).value)
  }

  datatype Claim = Claimed | Refused | Threw

  /**
   * What claiming a name comes to. A pin right above the name refuses it and one further
   * up makes mkdir throw; a live pin or a directory in use refuses it.
   */
  function ClaimOutcome(s: Store, alive: set<Process>, name: Name): Claim {
    if Blocked(s, name) then if |name| > 1 && name[..|name| - 1] in s.pins then Refused else Threw
    else
      var s' := s.(dirs := s.dirs + Parents(name));
      if name in s.dirs then if IsEmptyDir(s', name) then Claimed else Refused
      else if name in s.pins && !PinIsStale(s, alive, s.pins[name]) then Refused
      else Claimed
  }

  function ClaimStore(s: Store, alive: set<Process>, name: Name, pid: int): Store {
    match ClaimOutcome(s, alive, name)
    case Threw => s
    case Refused => if Blocked(s, name) then s else s.(dirs := s.dirs + Parents(name))
    case Claimed =>
      Store(if name in s.pins && s.pins[name] > 0 then s.vms - {s.pins[name]} else s.vms,
            s.pins[name := pid],
            s.dirs + Parents(name) - {name})
  }

  /** writeEntry, for a name that has been claimed or is free. */
  function Written(s: Store, e: Entry): Store {
    var vms := s.vms[e.pid := Some(e)];
    match e.name
    case None => s.(vms := vms)
    case Some(name) => Store(vms, s.pins[name := e.pid], s.dirs + Parents(name))
  }

  function Removed(s: Store, pid: int): Store {
    var s' := s.(vms := s.vms - {pid});
    match ReadEntry(s, pid)
    case Some(Entry(_, Some(name), _)) =>
      if name == [] then s'
      else
        var pins := s.pins - {name};
        Store(s'.vms, pins, PrunedDirs(s'.(pins := pins), name[..|name| - 1]))
    case _ => s'
  }

  /** boot: claim the name if there is one, and write the entry unless the name was refused. */
  function Registered(s: Store, alive: set<Process>, e: Entry): Store {
    match e.name
    case None => Written(s, e)
    case Some(name) =>
      var s' := ClaimStore(s, alive, name, e.pid);
      if ClaimOutcome(s, alive, name) == Claimed then Written(s', e) else s'
  }

  predicate LiveAt(s: Store, alive: set<Process>, pid: int) {
    ReadEntry(s, pid).Some? && Alive(alive, ReadEntry(s, pid).value)
  }

  /** The name is pinned to a live entry. */
  predicate HeldLive(s: Store, alive: set<Process>, name: Name) {
    name in s.pins && s.pins[name] > 0 && LiveAt(s, alive, s.pins[name])
  }

  /** The name of a dead entry among these pids, which list() removes. */
  predicate NameOfDead(s: Store, alive: set<Process>, among: set<int>, n: Name) {
    exists pid :: pid in among && !LiveAt(s, alive, pid) && NameAt(s, pid) == Some(n)
  }

  function NameAt(s: Store, pid: int): Option<Name> {
    match ReadEntry(s, pid) case Some(e) => e.name case None => None
  }

  function Listed(s: Store, alive: set<Process>): Store {
    var vms := map pid | pid in s.vms && LiveAt(s, alive, pid) :: s.vms[pid];
    var pins := map n | n in s.pins && !NameOfDead(s, alive, s.vms.Keys, n)
                        && s.pins[n] in vms && s.pins[n] > 0 :: s.pins[n];
    Store(vms, pins, set d | d in s.dirs && exists p :: p in pins && Above(d, p))
  }

  // ---------- What every operation keeps ----------

  /**
   * Entries are filed under their pid, and every named entry's pin holds exactly its pid.
   */
  ghost predicate Inv(s: Store) {
    && Tree(s)
    && (forall pid :: pid in s.vms && s.vms[pid].Some? ==> s.vms[pid].value.pid == pid && pid > 0)
    && (forall pid :: pid in s.vms && s.vms[pid].Some? && s.vms[pid].value.name.Some? ==>
          Pinned(s, s.vms[pid].value.name.value, pid))
  }

  predicate Pinned(s: Store, n: Name, pid: int) { n != [] && n in s.pins && s.pins[n] == pid }

  /** Two entries of one name. */
  predicate SameName(s: Store, p: int, q: int) {
    && ReadEntry(s, p).Some? && ReadEntry(s, q).Some?
    && ReadEntry(s, p).value.name.Some? && ReadEntry(s, p).value.name == ReadEntry(s, q).value.name
  }

  /** No pin lies below another. */
  lemma PinsArePrefixFree(s: Store, n: Name, n': Name)
    requires Inv(s) && n' in s.pins && Above(n, n')
    ensures n !in s.pins
  {
    assert n == n'[..|n|];
  }

  predicate ValidEntry(e: Entry) { e.pid > 0 && e.name != Some([]) }

  lemma ParentsComplete(n: Name, i: int)
    requires 1 <= i < |n|
    ensures n[..i] in Parents(n)
  {
  }

  lemma ClaimKeepsTree(s: Store, alive: set<Process>, name: Name, pid: int)
    requires Tree(s) && name != []
    ensures Tree(ClaimStore(s, alive, name, pid))
  {
    if !Blocked(s, name) {
      AddParents(s, name);
      if ClaimOutcome(s, alive, name) == Claimed {
        PlacePin(s.(dirs := s.dirs + Parents(name)), name, pid);
      }
    }
  }

  lemma AddParents(s: Store, name: Name)
    requires Tree(s) && !Blocked(s, name)
    ensures Tree(s.(dirs := s.dirs + Parents(name)))
    ensures name !in Parents(name)
  {
    forall d, i | d in Parents(name) && 1 <= i < |d|
      ensures d[..i] in Parents(name)
    {
      assert d[..i] == name[..i];
    }
  }

  lemma PlacePin(s: Store, name: Name, pid: int)
    requires Tree(s) && name != [] && Parents(name) <= s.dirs
    requires name in s.dirs ==> IsEmptyDir(s, name)
    ensures Tree(s.(pins := s.pins[name := pid], dirs := s.dirs - {name}))
  {
    forall i | 1 <= i < |name|
      ensures name[..i] in s.dirs - {name}
    {
      ParentsComplete(name, i);
    }
    forall p, i | (p in s.pins || p in s.dirs) && 1 <= i < |p|
      ensures p[..i] != name || p == name || name !in s.dirs
    {
      assert p[..i] == name ==> Above(name, p);
    }
  }

  /** Claiming takes away stale records only: every live entry stays, with its pin. */
  lemma ClaimSparesLive(s: Store, alive: set<Process>, name: Name, pid: int, other: int)
    requires Inv(s) && LiveAt(s, alive, other)
    ensures var s' := ClaimStore(s, alive, name, pid);
            && ReadEntry(s', other) == ReadEntry(s, other)
            && (s.vms[other].value.name.Some? ==>
                  Pinned(s', s.vms[other].value.name.value, other)
                  && (s.vms[other].value.name != Some(name) || ClaimOutcome(s, alive, name) != Claimed))
  {
  }

  /** The pins and entries of everyone else survive a successful claim. */
  lemma ClaimKeepsOthers(s: Store, alive: set<Process>, name: Name, pid: int)
    requires Inv(s) && ClaimOutcome(s, alive, name) == Claimed && name != []
    ensures var s' := ClaimStore(s, alive, name, pid);
            forall p :: ReadEntry(s', p).Some? && ReadEntry(s', p).value.name.Some? ==>
              s'.vms[p].value.name.value != name && Pinned(s', s'.vms[p].value.name.value, p)
  {
    var s' := ClaimStore(s, alive, name, pid);
    forall p | ReadEntry(s', p).Some? && ReadEntry(s', p).value.name.Some?
      ensures s'.vms[p].value.name.value != name && Pinned(s', s'.vms[p].value.name.value, p)
    {
      assert ReadEntry(s, p) == ReadEntry(s', p);
      var n := s.vms[p].value.name.value;
      assert Pinned(s, n, p);
    }
  }

  /** Booting keeps the invariant, with no assumption on the pid: it may have been used before. */
  lemma RegisteredKeepsInv(s: Store, alive: set<Process>, e: Entry)
    requires Inv(s) && ValidEntry(e)
    ensures Inv(Registered(s, alive, e))
  {
    match e.name
    case None =>
    case Some(name) =>
      ClaimKeepsTree(s, alive, name, e.pid);
      if ClaimOutcome(s, alive, name) == Claimed {
        ClaimKeepsOthers(s, alive, name, e.pid);
        var s' := ClaimStore(s, alive, name, e.pid);
        AddParents(s, name);
        assert Registered(s, alive, e) == s'.(vms := s'.vms[e.pid := Some(e)]);
      }
  }

  lemma EmptyDirGoes(s: Store, d: Name)
    requires Tree(s) && IsEmptyDir(s, d)
    ensures Tree(s.(dirs := s.dirs - {d}))
  {
    var s' := s.(dirs := s.dirs - {d});
    forall p, i | (p in s.pins || p in s'.dirs) && 1 <= i < |p|
      ensures p[..i] in s'.dirs
    {
      assert p[..i] == d ==> Above(d, p);
    }
  }

  lemma {:induction false} PrunedKeepsTree(s: Store, d: Name)
    requires Tree(s)
    ensures Tree(s.(dirs := PrunedDirs(s, d)))
    decreases |d|
  {
    if |d| > 0 && IsEmptyDir(s, d) {
      EmptyDirGoes(s, d);
      PrunedKeepsTree(s.(dirs := s.dirs - {d}), d[..|d| - 1]);
    }
  }

  /** Removing an entry takes its own pin and nobody else's. */
  lemma RemovedKeepsInv(s: Store, pid: int)
    requires Inv(s)
    ensures Inv(Removed(s, pid))
    ensures forall p :: p != pid ==> ReadEntry(Removed(s, pid), p) == ReadEntry(s, p)
  {
    if ReadEntry(s, pid).Some? && s.vms[pid].value.name.Some? {
      var name := s.vms[pid].value.name.value;
      var s' := Store(s.vms - {pid}, s.pins - {name}, s.dirs);
      PrunedKeepsTree(s', name[..|name| - 1]);
    }
  }

  lemma ListedKeepsInv(s: Store, alive: set<Process>)
    requires Inv(s)
    ensures Inv(Listed(s, alive))
  {
    var s' := Listed(s, alive);
    forall pid | pid in s'.vms && s'.vms[pid].Some? && s'.vms[pid].value.name.Some?
      ensures Pinned(s', s'.vms[pid].value.name.value, pid)
    {
      var n := s'.vms[pid].value.name.value;
      assert Pinned(s, n, pid);
      forall p | NameAt(s, p) == Some(n)
        ensures p == pid
      {
        assert Pinned(s, n, p);
      }
    }
    forall p, i | p in s'.pins && 1 <= i < |p|
      ensures p[..i] in s'.dirs
    {
      assert Above(p[..i], p);
    }
    forall d, i | d in s'.dirs && 1 <= i < |d|
      ensures d[..i] in s'.dirs
    {
      var p :| p in s'.pins && Above(d, p);
      assert Above(d[..i], p);
    }
  }

  // ---------- Every run ----------

  datatype Step =
    | Boot(entry: Entry)
    | Exit(pid: int)         // the exit cleanup, or gc, removes an entry
    | List
    | FindByPid(pid: int)
    | ProcessStarts(proc: Process)
    | ProcessDies(proc: Process)

  datatype World = World(store: Store, alive: set<Process>)

  /** findEntry by pid: a dead entry is removed. */
  function FoundByPid(s: Store, alive: set<Process>, pid: int): Store {
    if ReadEntry(s, pid).Some? && !LiveAt(s, alive, pid) then Removed(s, pid) else s
  }

  function Next(w: World, step: Step): World {
    match step
    case Boot(e) => if ValidEntry(e) then w.(store := Registered(w.store, w.alive, e)) else w
    case Exit(pid) => w.(store := Removed(w.store, pid))
    case List => w.(store := Listed(w.store, w.alive))
    case FindByPid(pid) => w.(store := FoundByPid(w.store, w.alive, pid))
    case ProcessStarts(p) => w.(alive := w.alive + {p})
    case ProcessDies(p) => w.(alive := w.alive - {p})
  }

  function Run(w: World, steps: seq<Step>): World
    decreases |steps|
  {
    if steps == [] then w else Run(Next(w, steps[0]), steps[1..])
  }

  lemma NextKeepsInv(w: World, step: Step)
    requires Inv(w.store)
    ensures Inv(Next(w, step).store)
  {
    hide Registered, Removed, Listed, Inv;
    match step {
      case Boot(e) => if ValidEntry(e) { RegisteredKeepsInv(w.store, w.alive, e); }
      case Exit(pid) => RemovedKeepsInv(w.store, pid);
      case List => ListedKeepsInv(w.store, w.alive);
      case FindByPid(pid) => RemovedKeepsInv(w.store, pid);
      case _ =>
    }
  }

  lemma {:induction false} RunKeepsInv(w: World, steps: seq<Step>)
    requires Inv(w.store)
    ensures Inv(Run(w, steps).store)
    decreases |steps|
  {
    hide Next, Inv;
    if steps != [] {
      NextKeepsInv(w, steps[0]);
      RunKeepsInv(Next(w, steps[0]), steps[1..]);
    }
  }

  /**
   * Over every run: each named entry's pin holds exactly its pid, no two entries share a
   * name, and no pin's name extends another's.
   */
  lemma RegistryIsConsistent(alive: set<Process>, steps: seq<Step>)
    ensures var s := Run(World(EMPTY, alive), steps).store;
            && Inv(s)
            && (forall p, q :: SameName(s, p, q) ==> p == q)
            && (forall n, n' :: n in s.pins && n' in s.pins ==> !Above(n, n'))
  {
    RunKeepsInv(World(EMPTY, alive), steps);
    var s := Run(World(EMPTY, alive), steps).store;
    forall n, n' | n in s.pins && n' in s.pins
      ensures !Above(n, n')
    {
      if Above(n, n') {
        PinsArePrefixFree(s, n, n');
      }
    }
  }

  /** After list() exactly the live entries are left, each with its pin, and every pin has a live owner. */
  lemma ListLeavesLiveOnly(s: Store, alive: set<Process>)
    requires Inv(s)
    ensures var s' := Listed(s, alive);
            && (forall pid :: pid in s'.vms <==> LiveAt(s, alive, pid))
            && (forall pid :: pid in s'.vms ==> s'.vms[pid] == s.vms[pid])
            && (forall n :: n in s'.pins <==> HeldLive(s, alive, n))
            && (forall n :: n in s'.pins ==> s'.pins[n] == s.pins[n])
            && (forall d :: d in s'.dirs ==> exists p :: p in s'.pins && Above(d, p))
  {
  }

  /** A name whose only holder is a stale pin, with no pin above it, can be claimed; a name held live cannot. */
  lemma StaleNameCanBeClaimed(s: Store, alive: set<Process>, name: Name)
    requires Inv(s) && name in s.pins
    ensures ClaimOutcome(s, alive, name) == Claimed <==> PinIsStale(s, alive, s.pins[name])
  {
    forall i | 1 <= i < |name|
      ensures name[..i] !in s.pins
    {
      PinsArePrefixFree(s, name[..i], name);
    }
  }

  // ---------- What can be claimed, and what booting and removing do ----------

  /** No pin above the name, nothing below it, and no live owner. */
  ghost predicate Claimable(s: Store, alive: set<Process>, name: Name) {
    && (forall p :: p in s.pins ==> !Above(p, name))
    && (forall n :: n in s.pins || n in s.dirs ==> !Above(name, n))
    && !HeldLive(s, alive, name)
  }

  /**
   * A name can be claimed exactly when it is free in the tree and not held live. A pin
   * further up than its parent makes claiming it throw.
   */
  lemma ClaimedIff(s: Store, alive: set<Process>, name: Name)
    requires Tree(s) && name != []
    ensures ClaimOutcome(s, alive, name) == Claimed <==> Claimable(s, alive, name)
    ensures ClaimOutcome(s, alive, name) == Threw <==> exists p :: p in s.pins && Above(p, name) && |p| + 1 < |name|
  {
    if Blocked(s, name) {
      BlockedBy(s, name);
    } else {
      PinAboveBlocks(s, name);
      FreeBelow(s, name);
    }
  }

  lemma BlockedBy(s: Store, name: Name)
    requires Tree(s) && name != [] && Blocked(s, name)
    ensures !(forall p :: p in s.pins ==> !Above(p, name))
    ensures !(|name| > 1 && name[..|name| - 1] in s.pins) <==>
            exists p :: p in s.pins && Above(p, name) && |p| + 1 < |name|
  {
    var i :| 1 <= i < |name| && name[..i] in s.pins;
    assert Above(name[..i], name);
    forall p | p in s.pins && Above(p, name) && |p| + 1 < |name|
      ensures name[..|name| - 1] !in s.pins
    {
      assert name[..|name| - 1][..|p|] == p;
    }
  }

  lemma PinAboveBlocks(s: Store, name: Name)
    ensures (exists p :: p in s.pins && Above(p, name)) ==> Blocked(s, name)
  {
    if exists p :: p in s.pins && Above(p, name) {
      var p :| p in s.pins && Above(p, name);
      assert name[..|p|] == p;
    }
  }

  /** With nothing above it pinned, what keeps a name from being claimed is what lies below it, or a live pin. */
  lemma FreeBelow(s: Store, name: Name)
    requires Tree(s) && name != []
    ensures name in s.dirs ==>
              (IsEmptyDir(s.(dirs := s.dirs + Parents(name)), name) <==>
               forall n :: n in s.pins || n in s.dirs ==> !Above(name, n))
    ensures name !in s.dirs ==> forall n :: n in s.pins || n in s.dirs ==> !Above(name, n)
  {
    forall n | (n in s.pins || n in s.dirs) && Above(name, n)
      ensures name in s.dirs
    {
      assert n[..|name|] == name;
    }
  }

  /**
   * Booting takes effect exactly when the entry has no name or one that can be claimed:
   * entry and pin are there, the entry the stale pin belonged to is gone, and the parents of
   * the name are directories. Otherwise nothing changes.
   */
  lemma BootTakesEffectIff(s: Store, alive: set<Process>, e: Entry)
    requires Inv(s) && ValidEntry(e)
    ensures var s' := Registered(s, alive, e);
            if e.name.None? then s' == s.(vms := s.vms[e.pid := Some(e)])
            else if Claimable(s, alive, e.name.value) then Booted(s, e, e.name.value, s')
            else s' == s
  {
    if e.name.Some? {
      var name := e.name.value;
      ClaimedIff(s, alive, name);
      ParentsAreAbove(name);
      if !Blocked(s, name) {
        AddParents(s, name);
        assert name in s.pins || name in s.dirs ==> Parents(name) <= s.dirs;
      }
    }
  }

  lemma ParentsAreAbove(name: Name)
    ensures forall d :: d in Parents(name) <==> Above(d, name)
  {
    forall d | Above(d, name)
      ensures d in Parents(name)
    {
      assert d == name[..|d|];
    }
  }

  ghost predicate Booted(s: Store, e: Entry, name: Name, s': Store) {
    && ReadEntry(s', e.pid) == Some(e) && s'.pins == s.pins[name := e.pid]
    && (forall p :: p != e.pid ==>
          (p in s'.vms <==> p in s.vms && !(name in s.pins && p > 0 && s.pins[name] == p))
          && (p in s'.vms ==> s'.vms[p] == s.vms[p]))
    && (forall d :: d in s'.dirs <==> (d in s.dirs && d != name) || Above(d, name))
  }

  /** A written entry is there under its pid, its name pinned to it, below directories. */
  lemma WrittenIsPinned(s: Store, e: Entry)
    requires ValidEntry(e)
    ensures var s' := Written(s, e);
            && ReadEntry(s', e.pid) == Some(e) && s'.vms - {e.pid} == s.vms - {e.pid}
            && match e.name
               case None => s'.pins == s.pins && s'.dirs == s.dirs
               case Some(name) =>
                 Pinned(s', name, e.pid) && s'.pins == s.pins[name := e.pid]
                 && forall d :: d in s'.dirs <==> d in s.dirs || Above(d, name)
  {
    if e.name.Some? {
      ParentsAreAbove(e.name.value);
    }
  }

  /** Looking up a pid leaves a live entry alone, and nothing of a dead one. */
  lemma FoundByPidLeavesLive(s: Store, alive: set<Process>, pid: int)
    ensures ReadEntry(FoundByPid(s, alive, pid), pid) == if LiveAt(s, alive, pid) then ReadEntry(s, pid) else None
    ensures LiveAt(s, alive, pid) || ReadEntry(s, pid).None? ==> FoundByPid(s, alive, pid) == s
  {
  }

  /**
   * Removing a named entry: it is gone with its pin, and so are exactly those directories
   * above the name that are left with nothing.
   */
  lemma RemovedLeaves(s: Store, pid: int, name: Name)
    requires Inv(s) && NameAt(s, pid) == Some(name)
    ensures var s' := Removed(s, pid);
            && s'.vms == s.vms - {pid} && s'.pins == s.pins - {name}
            && forall d :: d in s'.dirs <==> d in s.dirs && !(Above(d, name) && OnlyLedTo(s, d, name))
  {
    assert Pinned(s, name, pid);
    var parent := name[..|name| - 1];
    var s' := Store(s.vms - {pid}, s.pins - {name}, s.dirs);
    forall i | 1 <= i <= |parent|
      ensures parent[..i] in s.dirs
    {
      assert parent[..i] == name[..i];
    }
    PrunedIsEmptied(s', parent);
    forall d | d in s.dirs
      ensures Above(d, name) && OnlyLedTo(s, d, name) <==> d <= parent && Emptied(s', d, parent)
    {
      assert d <= parent <==> Above(d, name);
    }
  }

  /** Nothing lies below d but the name itself and directories on the way to it. */
  ghost predicate OnlyLedTo(s: Store, d: Name, name: Name) {
    && (forall p :: p in s.pins && Above(d, p) ==> p == name)
    && (forall e :: e in s.dirs && Above(d, e) ==> Above(e, name))
  }

  /** No pin lies below d, and no directory but those down to `to`. */
  ghost predicate Emptied(s: Store, d: Name, to: Name) {
    && (forall p :: p in s.pins ==> !Above(d, p))
    && (forall e :: e in s.dirs && Above(d, e) ==> e <= to)
  }

  lemma {:induction false} PrunedIsEmptied(s: Store, d: Name)
    requires [] !in s.dirs && forall i :: 1 <= i <= |d| ==> d[..i] in s.dirs
    ensures forall x :: x in PrunedDirs(s, d) <==> x in s.dirs && !(x <= d && Emptied(s, x, d))
    decreases |d|
  {
    if |d| > 0 {
      assert d[..|d|] == d;
      if IsEmptyDir(s, d) {
        var up, s' := d[..|d| - 1], s.(dirs := s.dirs - {d});
        forall i | 1 <= i <= |up|
          ensures up[..i] in s'.dirs
        {
          assert up[..i] == d[..i];
        }
        PrunedIsEmptied(s', up);
        forall x | x in s.dirs && x != d
          ensures x <= d && Emptied(s, x, d) <==> x <= up && Emptied(s', x, up)
        {
          OneLess(s, x, d);
        }
      } else {
        NotEmptied(s, d);
      }
    }
  }

  lemma OneLess(s: Store, x: Name, d: Name)
    requires d != [] && x != d
    ensures x <= d <==> x <= d[..|d| - 1]
    ensures Emptied(s, x, d) <==> Emptied(s.(dirs := s.dirs - {d}), x, d[..|d| - 1])
  {
    OneUp(x, d);
    forall e | e in s.dirs && e != d
      ensures e <= d <==> e <= d[..|d| - 1]
    {
      OneUp(e, d);
    }
  }

  lemma OneUp(e: Name, d: Name)
    requires d != [] && e != d
    ensures e <= d <==> e <= d[..|d| - 1]
  {
  }

  lemma NotEmptied(s: Store, d: Name)
    requires d in s.dirs && !IsEmptyDir(s, d)
    ensures forall x :: 1 <= |x| && x <= d ==> !Emptied(s, x, d)
  {
  }

  // ---------- Orphan pins ----------

  /** Every pin belongs to the entry it points to. */
  ghost predicate NoOrphans(s: Store) {
    forall n :: n in s.pins ==> ReadEntry(s, s.pins[n]).Some? && s.vms[s.pins[n]].value.name == Some(n)
  }

  /**
   * Booting leaves no orphan pin behind exactly when it does not overwrite an entry that
   * holds another name.
   */
  lemma BootLeavesNoOrphanIff(s: Store, alive: set<Process>, e: Entry)
    requires Inv(s) && NoOrphans(s) && ValidEntry(e)
    requires e.name.Some? ==> ClaimOutcome(s, alive, e.name.value) == Claimed
    ensures NoOrphans(Registered(s, alive, e)) <==>
            !(ReadEntry(s, e.pid).Some? && s.vms[e.pid].value.name.Some? && s.vms[e.pid].value.name != e.name)
  {
    var s' := Registered(s, alive, e);
    if ReadEntry(s, e.pid).Some? && s.vms[e.pid].value.name.Some? && s.vms[e.pid].value.name != e.name {
      var n := s.vms[e.pid].value.name.value;
      assert Pinned(s, n, e.pid);
      assert n in s'.pins && s'.pins[n] == e.pid;
    }
  }

  lemma RemovedLeavesNoOrphan(s: Store, pid: int)
    requires Inv(s) && NoOrphans(s)
    ensures NoOrphans(Removed(s, pid))
  {
  }

  lemma ListedLeavesNoOrphan(s: Store, alive: set<Process>)
    requires Inv(s) && NoOrphans(s)
    ensures NoOrphans(Listed(s, alive))
  {
  }

  /** The boot overwrites an entry that holds another name. */
  predicate Clobbers(w: World, step: Step) {
    && step.Boot? && ValidEntry(step.entry)
    && (step.entry.name.Some? ==> ClaimOutcome(w.store, w.alive, step.entry.name.value) == Claimed)
    && NameAt(w.store, step.entry.pid).Some? && NameAt(w.store, step.entry.pid) != step.entry.name
  }

  lemma NextLeavesNoOrphanIff(w: World, step: Step)
    requires Inv(w.store) && NoOrphans(w.store)
    ensures NoOrphans(Next(w, step).store) <==> !Clobbers(w, step)
  {
    hide Registered, Removed, Listed, Inv, NoOrphans, ClaimOutcome, ClaimStore;
    match step {
      case Boot(e) =>
        if ValidEntry(e) {
          if e.name.Some? && ClaimOutcome(w.store, w.alive, e.name.value) != Claimed {
            RefusedLeavesNoOrphan(w.store, w.alive, e);
          } else {
            BootLeavesNoOrphanIff(w.store, w.alive, e);
          }
        }
      case Exit(pid) => RemovedLeavesNoOrphan(w.store, pid);
      case List => ListedLeavesNoOrphan(w.store, w.alive);
      case FindByPid(pid) => RemovedLeavesNoOrphan(w.store, pid);
      case _ =>
    }
  }

  lemma RefusedLeavesNoOrphan(s: Store, alive: set<Process>, e: Entry)
    requires NoOrphans(s) && e.name.Some? && ClaimOutcome(s, alive, e.name.value) != Claimed
    ensures NoOrphans(Registered(s, alive, e))
  {
  }

  predicate NeverClobbers(w: World, steps: seq<Step>)
    decreases |steps|
  {
    steps == [] || (!Clobbers(w, steps[0]) && NeverClobbers(Next(w, steps[0]), steps[1..]))
  }

  /** At every moment of the run every pin belongs to the entry it points to. */
  ghost predicate NeverOrphans(w: World, steps: seq<Step>)
    decreases |steps|
  {
    NoOrphans(w.store) && (steps == [] || NeverOrphans(Next(w, steps[0]), steps[1..]))
  }

  lemma {:induction false} RunLeavesNoOrphanIff(w: World, steps: seq<Step>)
    requires Inv(w.store) && NoOrphans(w.store)
    ensures NeverOrphans(w, steps) <==> NeverClobbers(w, steps)
    decreases |steps|
  {
    hide Next, Inv, NoOrphans, Clobbers;
    if steps != [] {
      NextLeavesNoOrphanIff(w, steps[0]);
      NextKeepsInv(w, steps[0]);
      if !Clobbers(w, steps[0]) {
        RunLeavesNoOrphanIff(Next(w, steps[0]), steps[1..]);
      } else {
        OrphanedNow(Next(w, steps[0]), steps[1..]);
      }
    }
  }

  lemma OrphanedNow(w: World, steps: seq<Step>)
    requires !NoOrphans(w.store)
    ensures !NeverOrphans(w, steps)
  {
  }

  /**
   * From an empty registry on, pins and named entries correspond one to one throughout a
   * run exactly when no boot overwrites an entry of another name; boots with a pid that has
   * no entry never do.
   */
  lemma PinsBelongToEntriesIff(alive: set<Process>, steps: seq<Step>)
    ensures NeverOrphans(World(EMPTY, alive), steps) <==> NeverClobbers(World(EMPTY, alive), steps)
  {
    RunLeavesNoOrphanIff(World(EMPTY, alive), steps);
  }

  // ---------- findEntry by name ----------

  /** A pin that is stale is unlinked, but the entry it points to is kept. */
  function FoundByName(s: Store, alive: set<Process>, n: Name): Store {
    if n in s.pins && PinIsStale(s, alive, s.pins[n]) then s.(pins := s.pins - {n}) else s
  }

  /**
   * Looking a name up keeps the invariant exactly when it does not drop the pin of an
   * entry that is still recorded under that name.
   */
  lemma FindByNameKeepsInvIff(s: Store, alive: set<Process>, n: Name)
    requires Inv(s)
    ensures Inv(FoundByName(s, alive, n)) <==>
            !(n in s.pins && PinIsStale(s, alive, s.pins[n])
              && ReadEntry(s, s.pins[n]).Some? && s.vms[s.pins[n]].value.name == Some(n))
  {
    var s' := FoundByName(s, alive, n);
    if n in s.pins && ReadEntry(s, s.pins[n]).Some? && s.vms[s.pins[n]].value.name == Some(n) {
      assert Pinned(s, n, s.pins[n]);
    }
  }

  /**
   * What the kept entry does later: a name is looked up after its VM has died and taken
   * over by another VM, and listing the registry then drops the new VM's pin.
   */
  lemma LookupCanCostTheNextOwnerItsPin()
    ensures var first, next := Entry(5, Some(["n"]), 100), Entry(7, Some(["n"]), 200);
            var alive := {next.Proc()};
            var s := Registered(EMPTY, {first.Proc()}, first);
            var s' := Listed(Registered(FoundByName(s, alive, ["n"]), alive, next), alive);
            LiveAt(s', alive, 7) && s'.vms[7] == Some(next) && !Pinned(s', ["n"], 7)
  {
    var first, next := Entry(5, Some(["n"]), 100), Entry(7, Some(["n"]), 200);
    var alive := {next.Proc()};
    var s := Registered(EMPTY, {first.Proc()}, first);
    assert s.vms == map[5 := Some(first)] && s.pins == map[["n"] := 5];
    var s1 := FoundByName(s, alive, ["n"]);
    var s2 := Registered(s1, alive, next);
    assert s2.vms[5] == Some(first) && s2.vms[7] == Some(next);
    assert NameAt(s2, 5) == Some(["n"]);
    assert NameOfDead(s2, alive, s2.vms.Keys, ["n"]);
  }

  // ---------- The operations, step by step ----------

  predicate Below(d: Name, n: Name) { |d| < |n| && d <= n }

  ghost predicate HasPin(s: Store, d: Name) { exists p :: p in s.pins && Above(d, p) }

  /** Directories that have gone hold no pin. */
  ghost predicate Shrunk(s: Store, s': Store) {
    s'.dirs <= s.dirs && forall d :: d in s.dirs && HasPin(s', d) ==> d in s'.dirs
  }

  lemma {:induction false} PrunedShrinks(s: Store, d: Name)
    ensures Shrunk(s, s.(dirs := PrunedDirs(s, d)))
    decreases |d|
  {
    if |d| > 0 && IsEmptyDir(s, d) {
      PrunedShrinks(s.(dirs := s.dirs - {d}), d[..|d| - 1]);
    }
  }

  /** How far list() has come: the dead entries outside `todo` are gone, with their pins. */
  ghost predicate Partly(s: Store, alive: set<Process>, todo: set<int>, s': Store) {
    && Tree(s')
    && s'.vms == (map pid | pid in s.vms && (pid in todo || LiveAt(s, alive, pid)) :: s.vms[pid])
    && s'.pins == (map n | n in s.pins && !NameOfDead(s, alive, s.vms.Keys - todo, n) :: s.pins[n])
    && Shrunk(s, s')
  }

  lemma NothingDone(s: Store, alive: set<Process>)
    requires Inv(s)
    ensures Partly(s, alive, s.vms.Keys, s)
  {
  }

  lemma StillThere(s: Store, alive: set<Process>, todo: set<int>, s': Store, pid: int)
    requires Partly(s, alive, todo, s') && pid in todo && pid in s.vms
    ensures ReadEntry(s', pid) == ReadEntry(s, pid)
  {
  }

  lemma FewerPins(s: Store, alive: set<Process>, todo: set<int>, s': Store, s'': Store)
    requires Partly(s, alive, todo, s') && s'' == s'.(pins := s''.pins) && s''.pins.Keys <= s'.pins.Keys
    ensures Tree(s'')
  {
  }

  lemma PartlyRemoved(s: Store, alive: set<Process>, todo: set<int>, s': Store, pid: int)
    requires Inv(s) && Partly(s, alive, todo + {pid}, s') && pid in s.vms && pid !in todo && !LiveAt(s, alive, pid)
    ensures Partly(s, alive, todo, Removed(s', pid))
  {
    hide PrunedDirs, IsEmptyDir;
    var s'' := Removed(s', pid);
    assert ReadEntry(s', pid) == ReadEntry(s, pid);
    PinsAfterOne(s, alive, todo, pid);
    if NameAt(s, pid).Some? {
      var name := NameAt(s, pid).value;
      assert Pinned(s, name, pid);
      var base := Store(s'.vms - {pid}, s'.pins - {name}, s'.dirs);
      PrunedShrinks(base, name[..|name| - 1]);
      PrunedKeepsTree(base, name[..|name| - 1]);
      PinsOnlyShrink(s, s', s'');
    }
  }

  lemma PinsOnlyShrink(s: Store, s': Store, s'': Store)
    requires Shrunk(s, s') && s''.pins.Keys <= s'.pins.Keys && Shrunk(s'.(pins := s''.pins), s'')
    ensures Shrunk(s, s'')
  {
    forall d | d in s.dirs && HasPin(s'', d)
      ensures d in s''.dirs
    {
      assert HasPin(s', d);
      assert HasPin(s'.(pins := s''.pins), d);
    }
  }

  lemma PinsAfterOne(s: Store, alive: set<Process>, todo: set<int>, pid: int)
    requires pid in s.vms && pid !in todo && !LiveAt(s, alive, pid)
    ensures forall n :: NameOfDead(s, alive, s.vms.Keys - todo, n) <==>
                        NameOfDead(s, alive, s.vms.Keys - (todo + {pid}), n) || NameAt(s, pid) == Some(n)
  {
  }

  lemma PartlyKept(s: Store, alive: set<Process>, todo: set<int>, s': Store, pid: int)
    requires Partly(s, alive, todo + {pid}, s') && pid in s.vms && pid !in todo && LiveAt(s, alive, pid)
    ensures Partly(s, alive, todo, s')
  {
    forall n
      ensures NameOfDead(s, alive, s.vms.Keys - todo, n) <==> NameOfDead(s, alive, s.vms.Keys - (todo + {pid}), n)
    {
    }
  }

  /** When nothing is left to do, unlinking stale pins and sweeping gives what list() leaves. */
  lemma PartlyDone(s: Store, alive: set<Process>, todo: set<int>, s': Store, s'': Store)
    requires Inv(s) && Partly(s, alive, todo, s') && forall pid :: pid !in todo
    requires s''.vms == s'.vms
    requires s''.pins == map n | n in s'.pins && !PinIsStale(s', alive, s'.pins[n]) :: s'.pins[n]
    requires forall d :: d in s''.dirs <==> d in s'.dirs && (Below([], d) ==> HasPin(s'', d))
    ensures s'' == Listed(s, alive)
  {
    var goal := Listed(s, alive);
    assert forall n :: NameOfDead(s, alive, s.vms.Keys - todo, n) <==> NameOfDead(s, alive, s.vms.Keys, n);
    assert s''.vms == goal.vms;
    assert s''.pins == goal.pins;
    forall d | d in s.dirs && HasPin(s'', d)
      ensures d in s'.dirs
    {
      assert HasPin(s', d);
    }
    assert forall d :: d in s'.dirs ==> d != [];
    assert s''.dirs == goal.dirs;
  }

  /** d lies below `dir`, but not in a child still to be swept. */
  predicate Swept(dir: Name, todo: set<Name>, d: Name) {
    Below(dir, d) && d[..|dir| + 1] !in todo
  }

  /** What is left of the directories of s once those below `dir`, but outside `todo`, are swept. */
  ghost predicate SweptSoFar(s: Store, dir: Name, todo: set<Name>, dirs: set<Name>) {
    forall d :: d in dirs <==> d in s.dirs && (Swept(dir, todo, d) ==> HasPin(s, d))
  }

  lemma OnlySwept(s: Store, dir: Name, todo: set<Name>, dirs: set<Name>)
    requires SweptSoFar(s, dir, todo, dirs)
    ensures dirs <= s.dirs
  {
  }

  lemma AllSwept(s: Store, dir: Name, todo: set<Name>, dirs: set<Name>)
    requires SweptSoFar(s, dir, todo, dirs) && forall c :: c !in todo
    ensures forall d :: d in dirs <==> d in s.dirs && (Below(dir, d) ==> HasPin(s, d))
  {
    forall d
      ensures Swept(dir, todo, d) <==> Below(dir, d)
    {
    }
  }

  lemma ChildrenInTree(s: Store, dir: Name, todo: set<Name>)
    requires Tree(s) && forall c :: c in todo <==> c in s.dirs && |c| == |dir| + 1 && dir <= c
    ensures SweptSoFar(s, dir, todo, s.dirs)
  {
    forall d | d in s.dirs && Below(dir, d)
      ensures d[..|dir| + 1] in todo
    {
      if |d| == |dir| + 1 {
        assert d[..|dir| + 1] == d;
      }
      assert dir <= d[..|dir| + 1];
    }
  }

  lemma FewerBelow(dirs: set<Name>, dirs': set<Name>, dir: Name, c: Name)
    requires dirs' <= dirs && c in dirs && Below(dir, c)
    ensures (set d | d in dirs' && Below(c, d)) < (set d | d in dirs && Below(dir, d))
  {
    var inner, outer := set d | d in dirs' && Below(c, d), set d | d in dirs && Below(dir, d);
    assert c in outer && c !in inner;
  }

  /** A swept child is empty exactly when there is no pin under it. */
  lemma SweptChild(s: Store, dir: Name, todo: set<Name>, c: Name, before: set<Name>, after: set<Name>)
    requires SweptSoFar(s, dir, todo + {c}, before) && c !in todo && c in s.dirs && |c| == |dir| + 1 && dir <= c
    requires forall d :: d in after <==> d in before && (Below(c, d) ==> HasPin(s, d))
    ensures c in after && (IsEmptyDir(s.(dirs := after), c) <==> !HasPin(s, c))
    ensures SweptSoFar(s, dir, todo, if HasPin(s, c) then after else after - {c})
  {
    assert c[..|dir| + 1] == c;
    forall e | e in after && Above(c, e)
      ensures HasPin(s, c)
    {
      assert Below(c, e);
      var p :| p in s.pins && Above(e, p);
      assert Above(c, p);
    }
    forall d | d in before
      ensures Swept(dir, todo, d) <==> Swept(dir, todo + {c}, d) || d == c || Below(c, d)
    {
      if d != c && Below(dir, d) {
        assert Below(c, d) <==> d[..|dir| + 1] == c;
      }
    }
  }

  datatype Attempt = Done | Retry | Refuse

  class VmRegistry {
    var vms: map<int, Option<Entry>>
    var pins: map<Name, int>
    var dirs: set<Name>

    constructor ()
      ensures View() == EMPTY
    {
      vms, pins, dirs := map[], map[], {};
    }

    function View(): Store
      reads this
    {
      Store(vms, pins, dirs)
    }

    method ClaimName(name: Name, pid: int, alive: set<Process>) returns (c: Claim)
      requires Tree(View()) && name != []
      modifies this
      ensures c == Claimed <==> Claimable(old(View()), alive, name)
      ensures c == ClaimOutcome(old(View()), alive, name)
      ensures View() == ClaimStore(old(View()), alive, name, pid)
    {
      ClaimedIff(View(), alive, name);
      hide Claimable;
      // ensurePinParent
      if Blocked(View(), name) {
        return if |name| > 1 && name[..|name| - 1] in pins then Refused else Threw;
      }
      AddParents(View(), name);
      dirs := dirs + Parents(name);
      ghost var start := View();
      var attempt := 0;
      while attempt < 2
        invariant 0 <= attempt <= 2 && Tree(View())
        invariant attempt == 0 ==> View() == start
        invariant attempt > 0 ==>
                    && ClaimOutcome(old(View()), alive, name) == Claimed
                    && name !in pins && name !in dirs
                    && View().(pins := pins[name := pid]) == ClaimStore(old(View()), alive, name, pid)
        invariant attempt < 2
      {
        var result := ClaimPinOnce(name, pid, alive);
        if result == Done {
          return Claimed;
        }
        if result == Refuse {
          return Refused;
        }
        attempt := attempt + 1;
      }
      return Refused;
    }

    method ClaimPinOnce(name: Name, pid: int, alive: set<Process>) returns (a: Attempt)
      requires Tree(View()) && name != []
      modifies this
      ensures Tree(View()) || a == Done
      ensures var s := old(View());
              if name in s.dirs then
                if IsEmptyDir(s, name) then a == Retry && View() == s.(dirs := s.dirs - {name})
                else a == Refuse && View() == s
              else if name in s.pins then
                if PinIsStale(s, alive, s.pins[name]) then
                  a == Retry && View() == s.(pins := s.pins - {name},
                                            vms := if s.pins[name] > 0 then s.vms - {s.pins[name]} else s.vms)
                else a == Refuse && View() == s
              else a == Done && View() == s.(pins := s.pins[name := pid])
    {
      if name in dirs {
        if IsEmptyDir(View(), name) {
          EmptyDirGoes(View(), name);
          dirs := dirs - {name};
          return Retry;
        }
        return Refuse;
      }
      if name in pins {
        var held := pins[name];
        if held > 0 && !PinIsStale(View(), alive, held) {
          return Refuse;
        }
        pins := pins - {name};
        if held > 0 {
          vms := vms - {held};
        }
        return Retry;
      }
      pins := pins[name := pid];
      return Done;
    }

    method WriteEntry(e: Entry)
      modifies this
      ensures View() == Written(old(View()), e)
    {
      vms := vms[e.pid := Some(e)];
      if e.name.Some? {
        dirs := dirs + Parents(e.name.value);
        pins := pins[e.name.value := e.pid];
      }
    }

    method RemoveEntry(pid: int)
      modifies this
      ensures View() == Removed(old(View()), pid)
    {
      var entry := ReadEntry(View(), pid);
      vms := vms - {pid};
      if entry.Some? && entry.value.name.Some? && entry.value.name.value != [] {
        var name := entry.value.name.value;
        pins := pins - {name};
        PruneEmptyParents(name[..|name| - 1]);
      }
    }

    method PruneEmptyParents(dir: Name)
      modifies this`dirs
      ensures dirs == PrunedDirs(old(View()), dir)
    {
      var cur := dir;
      while |cur| > 0
        invariant PrunedDirs(View(), cur) == PrunedDirs(old(View()), dir)
        decreases |cur|
      {
        if !IsEmptyDir(View(), cur) {
          return;
        }
        dirs := dirs - {cur};
        cur := cur[..|cur| - 1];
      }
    }
  
    /** Claim the name, if any, then write the entry: what boot does with a new VM. */
    method Register(e: Entry, alive: set<Process>) returns (ok: bool)
      requires Inv(View()) && ValidEntry(e)
      modifies this
      ensures View() == Registered(old(View()), alive, e) && Inv(View())
      ensures ok <==> e.name.None? || Claimable(old(View()), alive, e.name.value)
      ensures ok ==> ReadEntry(View(), e.pid) == Some(e) && (e.name.Some? ==> Pinned(View(), e.name.value, e.pid))
      ensures !ok ==> View() == old(View())
      ensures forall pid :: LiveAt(old(View()), alive, pid) && pid != e.pid ==>
                            ReadEntry(View(), pid) == ReadEntry(old(View()), pid)
    {
      RegisteredKeepsInv(View(), alive, e);
      BootTakesEffectIff(View(), alive, e);
      if e.name.Some? {
        var claim := ClaimName(e.name.value, e.pid, alive);
        if claim != Claimed {
          return false;
        }
      }
      WriteEntry(e);
      return true;
    }

    method FindEntryByName(name: Name, alive: set<Process>) returns (found: Option<Entry>)
      modifies this`pins
      ensures View() == FoundByName(old(View()), alive, name)
      ensures found.Some? <==> name in old(pins) && !PinIsStale(old(View()), alive, old(pins)[name])
      ensures found.Some? ==> found == ReadEntry(old(View()), old(pins)[name]) && Alive(alive, found.value)
    {
      if name !in pins {
        return None;
      }
      if PinIsStale(View(), alive, pins[name]) {
        pins := pins - {name};
        return None;
      }
      return ReadEntry(View(), pins[name]);
    }

    method FindEntryByPid(pid: int, alive: set<Process>) returns (found: Option<Entry>)
      modifies this
      ensures View() == FoundByPid(old(View()), alive, pid)
      ensures found == if LiveAt(old(View()), alive, pid) then ReadEntry(old(View()), pid) else None
    {
      found := ReadEntry(View(), pid);
      if found.Some? && !Alive(alive, found.value) {
        RemoveEntry(pid);
        return None;
      }
    }

    /** Returns the live entries; everything dead, stale or empty is gone afterwards. */
    method ListEntries(alive: set<Process>) returns (out: seq<Entry>)
      requires Inv(View())
      modifies this
      ensures View() == Listed(old(View()), alive)
      ensures forall e :: e in out <==> LiveAt(old(View()), alive, e.pid) && ReadEntry(old(View()), e.pid) == Some(e)
      ensures forall i, j :: 0 <= i < j < |out| ==> out[i].pid != out[j].pid
    {
      out := [];
      var todo := vms.Keys;
      ghost var start := View();
      NothingDone(start, alive);
      hide Inv, Tree, Partly, Listed, Removed;
      while exists pid :: pid in todo
        invariant todo <= start.vms.Keys
        invariant Partly(start, alive, todo, View())
        invariant forall e :: e in out <==>
                    e.pid !in todo && LiveAt(start, alive, e.pid) && ReadEntry(start, e.pid) == Some(e)
        invariant forall i, j :: 0 <= i < j < |out| ==> out[i].pid != out[j].pid
        decreases todo
      {
        var pid :| pid in todo;
        assert (todo - {pid}) + {pid} == todo;
        todo := todo - {pid};
        StillThere(start, alive, todo + {pid}, View(), pid);
        var entry := ReadEntry(View(), pid);
        if entry.Some? && Alive(alive, entry.value) {
          PartlyKept(start, alive, todo, View(), pid);
          out := out + [entry.value];
        } else {
          PartlyRemoved(start, alive, todo, View(), pid);
          RemoveEntry(pid);
        }
      }
      ghost var pruned := View();
      PruneStaleNamePins(alive);
      FewerPins(start, alive, todo, pruned, View());
      SweepEmptyPinDirs([]);
      PartlyDone(start, alive, todo, pruned, View());
    }

    /** Unlink every pin without a live owner. */
    method PruneStaleNamePins(alive: set<Process>)
      modifies this`pins
      ensures pins == map n | n in old(pins) && !PinIsStale(old(View()), alive, old(pins)[n]) :: old(pins)[n]
    {
      var todo := pins.Keys;
      ghost var start := View();
      while exists n :: n in todo
        invariant todo <= start.pins.Keys
        invariant pins == map n | n in start.pins && (n in todo || !PinIsStale(start, alive, start.pins[n])) :: start.pins[n]
        decreases todo
      {
        var n :| n in todo;
        todo := todo - {n};
        if PinIsStale(View(), alive, pins[n]) {
          pins := pins - {n};
        }
      }
    }

    /** Remove, bottom up, every directory below `dir` under which no pin is left. */
    method SweepEmptyPinDirs(dir: Name)
      requires Tree(View())
      modifies this`dirs
      ensures Tree(View())
      ensures forall d :: d in dirs <==> d in old(dirs) && (Below(dir, d) ==> HasPin(old(View()), d))
      decreases set d | d in dirs && Below(dir, d)
    {
      hide Tree, SweptSoFar, IsEmptyDir;
      ghost var start := View();
      var todo := set c | c in dirs && |c| == |dir| + 1 && dir <= c;
      ChildrenInTree(start, dir, todo);
      while exists c :: c in todo
        invariant Tree(View())
        invariant forall c :: c in todo ==> c in start.dirs && |c| == |dir| + 1 && dir <= c
        invariant SweptSoFar(start, dir, todo, dirs)
        decreases todo
      {
        var c :| c in todo;
        ghost var before := dirs;
        assert (todo - {c}) + {c} == todo;
        todo := todo - {c};
        OnlySwept(start, dir, todo + {c}, dirs);
        FewerBelow(start.dirs, dirs, dir, c);
        SweepEmptyPinDirs(c);
        SweptChild(start, dir, todo, c, before, dirs);
        if IsEmptyDir(View(), c) {
          EmptyDirGoes(View(), c);
          dirs := dirs - {c};
        }
      }
      AllSwept(start, dir, todo, dirs);
    }
  }
}
