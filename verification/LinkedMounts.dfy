/** The linked-mount discovery of run-access.ts. */
module LinkedMounts {
  import opened Bytes
  import opened LinkTargets

  const MAX_SCANNED_ENTRIES := 250_000

  // ---------- Covering ----------

  /** path.relative, when it does not lead out of the base. */
  function Relative(base: Path, path: Path): Option<Path> {
    if base == [] then Some(path)
    else if path == [] || path[0] != base[0] then None
    else Relative(base[1..], path[1..])
  }

  lemma {:induction false} RelativeIsTail(base: Path, path: Path)
    ensures Relative(base, path).Some? ==> path == base + Relative(base, path).value
    ensures forall tail :: path == base + tail ==> Relative(base, path) == Some(tail)
  {
    if base != [] && path != [] && path[0] == base[0] {
      RelativeIsTail(base[1..], path[1..]);
      assert base == [base[0]] + base[1..] && path == [path[0]] + path[1..];
      forall tail | path == base + tail
        ensures Relative(base, path) == Some(tail)
      {
        assert path[1..] == base[1..] + tail;
      }
    } else if base == [] {
      assert forall tail: Path :: base + tail == tail;
    } else {
      assert forall tail :: path == base + tail ==> path[0] == base[0];
    }
  }

  /** mappingRelative: the path below the mount, when it is the same on host and guest. */
  function MappingRelative(m: Mount, canonical: Path, guest: Path): Option<Path> {
    var hostRelative, guestRelative := Relative(m.canonical, canonical), Relative(m.guest, guest);
    if hostRelative.Some? && hostRelative == guestRelative then guestRelative else None
  }

  predicate Covers(m: Mount, canonical: Path, guest: Path) { MappingRelative(m, canonical, guest).Some? }

  predicate CoversMount(m: Mount, child: Mount) { Covers(m, child.canonical, child.guest) }

  /** A path covered by a mount is what the mount's own paths are, extended by one and the same tail. */
  lemma CoversIsCommonTail(m: Mount, canonical: Path, guest: Path)
    ensures Covers(m, canonical, guest) <==>
            exists tail: Path :: canonical == m.canonical + tail && guest == m.guest + tail
  {
    RelativeIsTail(m.canonical, canonical);
    RelativeIsTail(m.guest, guest);
  }

  lemma CoversItself(m: Mount)
    ensures CoversMount(m, m)
  {
    CoversIsCommonTail(m, m.canonical, m.guest);
    var none: Path := [];
    assert m.canonical == m.canonical + none && m.guest == m.guest + none;
  }

  /** Covering is transitive, so a mount may be replaced by one that covers it. */
  lemma CoversTransitive(a: Mount, b: Mount, canonical: Path, guest: Path)
    requires CoversMount(a, b) && Covers(b, canonical, guest)
    ensures Covers(a, canonical, guest)
  {
    CoversIsCommonTail(a, b.canonical, b.guest);
    CoversIsCommonTail(b, canonical, guest);
    CoversIsCommonTail(a, canonical, guest);
    var s: Path :| b.canonical == a.canonical + s && b.guest == a.guest + s;
    var t: Path :| canonical == b.canonical + t && guest == b.guest + t;
    assert canonical == a.canonical + (s + t) && guest == a.guest + (s + t);
  }

  // ---------- What there is to find ----------

  /** p leads from `host` down through real directories. */
  predicate Descends(fs: FileSystem, host: Path, p: Path)
    decreases |p|
  {
    p == [] ||
    (fs.readdir(host).Some? && DirEnt(p[0], Dir) in fs.readdir(host).value && Descends(fs, host + [p[0]], p[1..]))
  }

  /** The link `name` in the directory p below a mount point. */
  predicate LinkAt(fs: FileSystem, host: Path, guest: Path, p: Path, name: string, l: LinkRef) {
    && Descends(fs, host, p)
    && fs.readdir(host + p).Some? && DirEnt(name, Link(Some(l.target))) in fs.readdir(host + p).value
    && l.host == host + p + [name] && l.guest == guest + p + [name]
  }

  ghost predicate LinkUnder(fs: FileSystem, host: Path, guest: Path, l: LinkRef) {
    exists p, name :: LinkAt(fs, host, guest, p, name, l)
  }

  /** A link under a directory is an entry of it, or lies under one of its subdirectories. */
  lemma LinkCases(fs: FileSystem, host: Path, guest: Path, l: LinkRef) returns (name: string, here: bool)
    requires LinkUnder(fs, host, guest, l)
    ensures fs.readdir(host).Some?
    ensures here ==> DirEnt(name, Link(Some(l.target))) in fs.readdir(host).value
                     && l == LinkRef(host + [name], guest + [name], l.target)
    ensures !here ==> DirEnt(name, Dir) in fs.readdir(host).value
                      && LinkUnder(fs, host + [name], guest + [name], l)
  {
    var p, n :| LinkAt(fs, host, guest, p, n, l);
    if p == [] {
      assert host + p == host && guest + p == guest;
      name, here := n, true;
    } else {
      name, here := p[0], false;
      assert host + [p[0]] + p[1..] == host + p && guest + [p[0]] + p[1..] == guest + p;
      assert LinkAt(fs, host + [p[0]], guest + [p[0]], p[1..], n, l);
    }
  }

  // ---------- The search ----------

  /** The kept mounts without those the candidate covers. */
  function Uncovered(mounts: seq<Mount>, candidate: Mount): seq<Mount> {
    if mounts == [] then []
    else if CoversMount(candidate, mounts[0]) then Uncovered(mounts[1..], candidate)
    else [mounts[0]] + Uncovered(mounts[1..], candidate)
  }

  lemma {:induction false} UncoveredContents(mounts: seq<Mount>, candidate: Mount, m: Mount)
    ensures m in Uncovered(mounts, candidate) <==> m in mounts && !CoversMount(candidate, m)
  {
    if mounts != [] {
      UncoveredContents(mounts[1..], candidate, m);
      assert m in mounts <==> m == mounts[0] || m in mounts[1..];
    }
  }

  /** One splice of addLinkedMount, of the mounts of which those from index + 1 on have been looked at. */
  lemma SpliceIsUncovered(was: seq<Mount>, candidate: Mount, index: nat)
    requires index < |was|
    ensures var mounts := was[..index + 1] + Uncovered(was[index + 1..], candidate);
            was[..index] + Uncovered(was[index..], candidate) ==
              if CoversMount(candidate, mounts[index]) then mounts[..index] + mounts[index + 1..] else mounts
  {
    assert was[index..][1..] == was[index + 1..];
    assert was[..index + 1] == was[..index] + [was[index]];
  }

  /** Neither the root nor a kept mount covers another kept mount. */
  ghost predicate Independent(root: Mount, mounts: seq<Mount>) {
    && (forall i :: 0 <= i < |mounts| ==> !CoversMount(root, mounts[i]))
    && (forall i, j :: 0 <= i < |mounts| && 0 <= j < |mounts| && i != j ==> !CoversMount(mounts[i], mounts[j]))
  }

  ghost predicate Reachable(root: Mount, mounts: seq<Mount>, canonical: Path, guest: Path) {
    Covers(root, canonical, guest) || exists m :: m in mounts && Covers(m, canonical, guest)
  }

  ghost predicate MountReachable(root: Mount, mounts: seq<Mount>, m: Mount) {
    Reachable(root, mounts, m.canonical, m.guest)
  }

  lemma {:induction false} UncoveredKeepsIndependence(root: Mount, mounts: seq<Mount>, candidate: Mount)
    requires Independent(root, mounts)
    ensures Independent(root, Uncovered(mounts, candidate))
  {
    if mounts != [] {
      var rest := mounts[1..];
      UncoveredKeepsIndependence(root, rest, candidate);
      var r := Uncovered(rest, candidate);
      forall m | m in r
        ensures !CoversMount(mounts[0], m) && !CoversMount(m, mounts[0])
      {
        UncoveredContents(rest, candidate, m);
        var k :| 0 <= k < |rest| && rest[k] == m;
        assert mounts[k + 1] == m;
      }
      var all := [mounts[0]] + r;
      assert forall i :: 0 < i < |all| ==> all[i] == r[i - 1] && all[i] in r;
    }
  }

  lemma UncoveredIndependent(root: Mount, mounts: seq<Mount>, candidate: Mount)
    requires Independent(root, mounts) && !MountReachable(root, mounts, candidate)
    ensures Independent(root, Uncovered(mounts, candidate) + [candidate])
  {
    UncoveredKeepsIndependence(root, mounts, candidate);
    var kept := Uncovered(mounts, candidate);
    var r := kept + [candidate];
    forall i | 0 <= i < |kept|
      ensures !CoversMount(candidate, r[i]) && !CoversMount(r[i], candidate)
    {
      UncoveredContents(mounts, candidate, kept[i]);
    }
  }

  /** Whatever was reachable stays reachable when a candidate takes the place of what it covers. */
  lemma ReplacedReachable(root: Mount, mounts: seq<Mount>, candidate: Mount, canonical: Path, guest: Path)
    requires Reachable(root, mounts, canonical, guest)
    ensures Reachable(root, Uncovered(mounts, candidate) + [candidate], canonical, guest)
  {
    var kept := Uncovered(mounts, candidate);
    if !Covers(root, canonical, guest) {
      var m :| m in mounts && Covers(m, canonical, guest);
      UncoveredContents(mounts, candidate, m);
      if CoversMount(candidate, m) {
        CoversTransitive(candidate, m, canonical, guest);
        assert candidate in kept + [candidate];
      } else {
        assert m in kept + [candidate];
      }
    }
  }

  // ---------- Where mounts come from ----------

  /** A link of `from` leads to a target outside the root that m was made for. */
  ghost predicate LedTo(fs: FileSystem, root: Mount, from: Mount, l: LinkRef, m: Mount) {
    && LinkUnder(fs, from.host, from.guest, l)
    && Resolved(fs, l).Some?
    && !Covers(root, Resolved(fs, l).value.canonical, Resolved(fs, l).value.guest)
    && MadeFor(fs, Resolved(fs, l).value, root.writable, m)
  }

  /** m is the root, or is found from the root by following n links in turn. */
  ghost predicate Derived(fs: FileSystem, root: Mount, m: Mount, n: nat)
    decreases n
  {
    if n == 0 then m == root
    else exists from, l :: Derived(fs, root, from, n - 1) && LedTo(fs, root, from, l, m)
  }

  ghost predicate FromRoot(fs: FileSystem, root: Mount, m: Mount) { exists n: nat :: Derived(fs, root, m, n) }

  lemma FollowLink(fs: FileSystem, root: Mount, from: Mount, l: LinkRef, m: Mount)
    requires FromRoot(fs, root, from) && LedTo(fs, root, from, l, m)
    ensures FromRoot(fs, root, m)
  {
    var n: nat :| Derived(fs, root, from, n);
    assert Derived(fs, root, m, n + 1);
  }

  lemma {:induction false} DescendsFurther(fs: FileSystem, host: Path, p: Path, name: string)
    requires Descends(fs, host, p)
    requires fs.readdir(host + p).Some? && DirEnt(name, Dir) in fs.readdir(host + p).value
    ensures Descends(fs, host, p + [name])
    decreases |p|
  {
    if p == [] {
      assert host + p == host && p + [name] == [name];
    } else {
      assert host + p == (host + [p[0]]) + p[1..];
      DescendsFurther(fs, host + [p[0]], p[1..], name);
      assert (p + [name])[1..] == p[1..] + [name];
    }
  }

  /** A link is settled when it is reported, or a mount covers its target or a mount that shows it. */
  ghost predicate Settled(fs: FileSystem, root: Mount, mounts: seq<Mount>, unresolved: seq<LinkRef>, l: LinkRef) {
    match Resolved(fs, l)
    case None => l in unresolved
    case Some(t) =>
      || Reachable(root, mounts, t.canonical, t.guest)
      || exists m :: MadeFor(fs, t, root.writable, m) && MountReachable(root, mounts, m)
  }

  ghost predicate LinksSeen(fs: FileSystem, host: Path, guest: Path, seen: set<LinkRef>) {
    forall l :: LinkUnder(fs, host, guest, l) ==> l in seen
  }

  ghost predicate EntrySeen(fs: FileSystem, host: Path, guest: Path, e: DirEnt, seen: set<LinkRef>) {
    match e.kind
    case Link(None) => true
    case Link(Some(target)) => LinkRef(host + [e.name], guest + [e.name], target) in seen
    case Dir => LinksSeen(fs, host + [e.name], guest + [e.name], seen)
    case OtherFile => true
  }

  ghost predicate AllEntriesSeen(fs: FileSystem, host: Path, guest: Path, es: seq<DirEnt>, seen: set<LinkRef>) {
    forall e :: e in es ==> EntrySeen(fs, host, guest, e, seen)
  }

  lemma OneMoreEntrySeen(fs: FileSystem, host: Path, guest: Path, es: seq<DirEnt>, i: nat,
                         before: set<LinkRef>, after: set<LinkRef>)
    requires i < |es| && AllEntriesSeen(fs, host, guest, es[..i], before)
    requires before <= after && EntrySeen(fs, host, guest, es[i], after)
    ensures AllEntriesSeen(fs, host, guest, es[..i + 1], after)
  {
    forall e | e in es[..i + 1]
      ensures EntrySeen(fs, host, guest, e, after)
    {
      assert e != es[i] ==> e in es[..i];
      assert e != es[i] ==> EntrySeen(fs, host, guest, e, before);
    }
  }

  /** A directory's links have been seen once those of each of its entries have. */
  lemma EntriesSeen(fs: FileSystem, host: Path, guest: Path, seen: set<LinkRef>)
    requires fs.readdir(host).Some? ==> AllEntriesSeen(fs, host, guest, fs.readdir(host).value, seen)
    ensures LinksSeen(fs, host, guest, seen)
  {
    forall l | LinkUnder(fs, host, guest, l)
      ensures l in seen
    {
      var name, here := LinkCases(fs, host, guest, l);
      assert here ==> EntrySeen(fs, host, guest, DirEnt(name, Link(Some(l.target))), seen);
      assert !here ==> EntrySeen(fs, host, guest, DirEnt(name, Dir), seen);
    }
  }

  /** What was enqueued since is still in the queue. */
  ghost predicate NewAreQueued(before: set<Mount>, after: set<Mount>, queue: seq<Mount>) {
    before <= after && forall m :: m in after ==> m in before || m in queue
  }

  function Key(m: Mount): (Path, Path) { (m.canonical, m.guest) }

  datatype Plan = Plan(mounts: seq<Mount>, unresolved: seq<LinkRef>)

  /** The mounts after addLinkedMount. */
  ghost function Added(root: Mount, mounts: seq<Mount>, candidate: Mount): seq<Mount> {
    if MountReachable(root, mounts, candidate) then mounts else Uncovered(mounts, candidate) + [candidate]
  }

  /** The plan after one more link. */
  ghost function AfterLink(fs: FileSystem, root: Mount, plan: Plan, l: LinkRef): Plan {
    match Resolved(fs, l)
    case None => Plan(plan.mounts, plan.unresolved + [l])
    case Some(t) =>
      if Reachable(root, plan.mounts, t.canonical, t.guest) then plan
      else Plan(Added(root, plan.mounts, MountFor(fs, t, root.writable)), plan.unresolved)
  }

  ghost predicate AllReachable(fs: FileSystem, root: Mount, mounts: seq<Mount>, enqueued: set<Mount>) {
    forall m :: m in enqueued ==> FromRoot(fs, root, m) && MountReachable(root, mounts, m)
  }

  ghost predicate AllSettled(fs: FileSystem, root: Mount, plan: Plan, seen: set<LinkRef>) {
    forall l :: l in seen ==> Settled(fs, root, plan.mounts, plan.unresolved, l)
  }

  ghost predicate LinkFromRoot(fs: FileSystem, root: Mount, l: LinkRef) {
    exists m :: FromRoot(fs, root, m) && LinkUnder(fs, m.host, m.guest, l)
  }

  ghost predicate Reported(fs: FileSystem, root: Mount, unresolved: seq<LinkRef>) {
    forall l :: l in unresolved ==> LinkFromRoot(fs, root, l) && Resolved(fs, l) == None
  }

  ghost predicate AllEnqueued(mounts: seq<Mount>, enqueued: set<Mount>) { forall m :: m in mounts ==> m in enqueued }

  /** What holds of the mounts and the links seen so far, at every moment of the search. */
  ghost predicate Sound(fs: FileSystem, root: Mount, plan: Plan, seen: set<LinkRef>, enqueued: set<Mount>) {
    && root in enqueued
    && Independent(root, plan.mounts)
    && AllEnqueued(plan.mounts, enqueued)
    && AllReachable(fs, root, plan.mounts, enqueued)
    && AllSettled(fs, root, plan, seen)
    && Reported(fs, root, plan.unresolved)
  }

  /** No queued mount has the key of a scanned one, nor two queued ones the same key. */
  ghost predicate Fresh(queue: seq<Mount>, scanned: set<(Path, Path)>, enqueued: set<Mount>) {
    && (forall m :: m in queue ==> m in enqueued && Key(m) !in scanned)
    && (forall k :: k in scanned ==> exists m :: m in enqueued && Key(m) == k)
    && (forall i, j :: 0 <= i < j < |queue| ==> Key(queue[i]) != Key(queue[j]))
  }

  lemma AddKeepsMountReachable(root: Mount, mounts: seq<Mount>, candidate: Mount, m: Mount)
    requires MountReachable(root, mounts, m) || m == candidate
    ensures MountReachable(root, Uncovered(mounts, candidate) + [candidate], m)
  {
    if m == candidate {
      assert candidate in Uncovered(mounts, candidate) + [candidate];
      CoversItself(candidate);
    } else {
      ReplacedReachable(root, mounts, candidate, m.canonical, m.guest);
    }
  }

  lemma AddKeepsSettled(fs: FileSystem, root: Mount, plan: Plan, candidate: Mount, l: LinkRef)
    requires Settled(fs, root, plan.mounts, plan.unresolved, l)
    ensures Settled(fs, root, Uncovered(plan.mounts, candidate) + [candidate], plan.unresolved, l)
  {
    var resolved := Resolved(fs, l);
    if resolved.Some? {
      var t := resolved.value;
      if Reachable(root, plan.mounts, t.canonical, t.guest) {
        ReplacedReachable(root, plan.mounts, candidate, t.canonical, t.guest);
      } else {
        var m :| MadeFor(fs, t, root.writable, m) && MountReachable(root, plan.mounts, m);
        ReplacedReachable(root, plan.mounts, candidate, m.canonical, m.guest);
      }
    }
  }

  lemma AddKeepsReachable(fs: FileSystem, root: Mount, mounts: seq<Mount>, enqueued: set<Mount>, candidate: Mount)
    requires AllReachable(fs, root, mounts, enqueued) && FromRoot(fs, root, candidate)
    ensures AllReachable(fs, root, Uncovered(mounts, candidate) + [candidate], enqueued + {candidate})
  {
    forall m | m in enqueued + {candidate}
      ensures MountReachable(root, Uncovered(mounts, candidate) + [candidate], m)
    {
      AddKeepsMountReachable(root, mounts, candidate, m);
    }
  }

  lemma AddKeepsAllSettled(fs: FileSystem, root: Mount, plan: Plan, seen: set<LinkRef>, candidate: Mount)
    requires AllSettled(fs, root, plan, seen)
    ensures AllSettled(fs, root, Plan(Uncovered(plan.mounts, candidate) + [candidate], plan.unresolved), seen)
  {
    forall l | l in seen
      ensures Settled(fs, root, Uncovered(plan.mounts, candidate) + [candidate], plan.unresolved, l)
    {
      AddKeepsSettled(fs, root, plan, candidate, l);
    }
  }

  lemma AddKeepsEnqueued(mounts: seq<Mount>, enqueued: set<Mount>, candidate: Mount)
    requires AllEnqueued(mounts, enqueued)
    ensures AllEnqueued(Uncovered(mounts, candidate) + [candidate], enqueued + {candidate})
  {
    forall m | m in Uncovered(mounts, candidate) + [candidate]
      ensures m in enqueued + {candidate}
    {
      UncoveredContents(mounts, candidate, m);
    }
  }

  lemma AddKeepsSound(fs: FileSystem, root: Mount, plan: Plan, seen: set<LinkRef>, enqueued: set<Mount>,
                      candidate: Mount)
    requires Sound(fs, root, plan, seen, enqueued)
    requires FromRoot(fs, root, candidate) && !MountReachable(root, plan.mounts, candidate)
    ensures Sound(fs, root, Plan(Uncovered(plan.mounts, candidate) + [candidate], plan.unresolved), seen,
                  enqueued + {candidate})
  {
    UncoveredIndependent(root, plan.mounts, candidate);
    AddKeepsEnqueued(plan.mounts, enqueued, candidate);
    AddKeepsReachable(fs, root, plan.mounts, enqueued, candidate);
    AddKeepsAllSettled(fs, root, plan, seen, candidate);
  }

  /** Being covered depends on the key alone, so a mount not covered has a new key. */
  lemma AddKeepsFresh(fs: FileSystem, root: Mount, plan: Plan, seen: set<LinkRef>, enqueued: set<Mount>,
                      queue: seq<Mount>, scanned: set<(Path, Path)>, candidate: Mount)
    requires Sound(fs, root, plan, seen, enqueued) && Fresh(queue, scanned, enqueued)
    requires !MountReachable(root, plan.mounts, candidate)
    ensures Fresh(queue + [candidate], scanned, enqueued + {candidate})
  {
    NewKey(fs, root, plan, enqueued, candidate);
    hide *;
    FreshGrows(queue, scanned, enqueued, candidate);
  }

  lemma FreshGrows(queue: seq<Mount>, scanned: set<(Path, Path)>, enqueued: set<Mount>, candidate: Mount)
    requires Fresh(queue, scanned, enqueued) && forall m :: m in enqueued ==> Key(m) != Key(candidate)
    ensures Fresh(queue + [candidate], scanned, enqueued + {candidate})
  {
    hide Key;
    assert forall i :: 0 <= i < |queue| ==> queue[i] in queue;
  }

  lemma NewKey(fs: FileSystem, root: Mount, plan: Plan, enqueued: set<Mount>, candidate: Mount)
    requires AllReachable(fs, root, plan.mounts, enqueued) && !MountReachable(root, plan.mounts, candidate)
    ensures forall m :: m in enqueued ==> Key(m) != Key(candidate)
  {
  }

  lemma SeeKeepsSound(fs: FileSystem, root: Mount, plan: Plan, seen: set<LinkRef>, enqueued: set<Mount>, l: LinkRef)
    requires Sound(fs, root, plan, seen, enqueued) && Settled(fs, root, plan.mounts, plan.unresolved, l)
    ensures Sound(fs, root, plan, seen + {l}, enqueued)
  {
  }

  lemma ReportKeepsSound(fs: FileSystem, root: Mount, plan: Plan, seen: set<LinkRef>, enqueued: set<Mount>,
                         l: LinkRef)
    requires Sound(fs, root, plan, seen, enqueued)
    requires LinkFromRoot(fs, root, l) && Resolved(fs, l) == None
    ensures Sound(fs, root, Plan(plan.mounts, plan.unresolved + [l]), seen + {l}, enqueued)
  {
    forall k | k in seen + {l}
      ensures Settled(fs, root, plan.mounts, plan.unresolved + [l], k)
    {
      assert k != l ==> Settled(fs, root, plan.mounts, plan.unresolved, k);
    }
  }

  ghost predicate ScannedOrQueued(fs: FileSystem, enqueued: set<Mount>, queue: seq<Mount>, seen: set<LinkRef>) {
    forall m :: m in enqueued ==> m in queue || LinksSeen(fs, m.host, m.guest, seen)
  }

  lemma StartIsSound(fs: FileSystem, root: Mount)
    ensures Sound(fs, root, Plan([], []), {}, {root}) && Fresh([root], {}, {root})
    ensures ScannedOrQueued(fs, {root}, [root], {})
  {
    assert Derived(fs, root, root, 0);
    CoversItself(root);
  }

  lemma QueuedFromRoot(fs: FileSystem, root: Mount, plan: Plan, seen: set<LinkRef>, enqueued: set<Mount>,
                       queue: seq<Mount>, scanned: set<(Path, Path)>)
    requires Sound(fs, root, plan, seen, enqueued) && Fresh(queue, scanned, enqueued) && |queue| > 0
    ensures FromRoot(fs, root, queue[0])
  {
  }

  lemma PopKeepsFresh(queue: seq<Mount>, scanned: set<(Path, Path)>, enqueued: set<Mount>)
    requires Fresh(queue, scanned, enqueued) && |queue| > 0
    ensures Key(queue[0]) !in scanned
    ensures Fresh(queue[1..], scanned + {Key(queue[0])}, enqueued)
  {
    assert forall i :: 0 <= i < |queue| ==> queue[i] in queue;
  }

  /** A scan of the mount at the head of the queue. */
  lemma ScanKeepsScannedOrQueued(fs: FileSystem, before: set<Mount>, after: set<Mount>, queue: seq<Mount>,
                                 later: seq<Mount>, seen0: set<LinkRef>, seen: set<LinkRef>)
    requires ScannedOrQueued(fs, before, queue, seen0) && |queue| > 0
    requires queue[1..] <= later && seen0 <= seen && NewAreQueued(before, after, later)
    requires LinksSeen(fs, queue[0].host, queue[0].guest, seen)
    ensures ScannedOrQueued(fs, after, later, seen)
  {
    forall m | m in after && m !in later
      ensures LinksSeen(fs, m.host, m.guest, seen)
    {
      assert m in before && m !in queue[1..];
      assert m in queue ==> m == queue[0];
      assert m !in queue ==> LinksSeen(fs, m.host, m.guest, seen0);
    }
  }

  // ---------- The budget ----------

  /** How many entries have been counted after an entry with all that lies below it, at most one too many. */
  ghost function EntryAfter(fs: FileSystem, host: Path, e: DirEnt, used: nat): (n: nat)
    requires used <= MAX_SCANNED_ENTRIES
    ensures used < n <= MAX_SCANNED_ENTRIES + 1
    decreases MAX_SCANNED_ENTRIES - used, 0, 0
  {
    if used < MAX_SCANNED_ENTRIES && e.kind == Dir then EntriesAfter(fs, host + [e.name], used + 1) else used + 1
  }

  ghost function EntriesAfter(fs: FileSystem, host: Path, used: nat): (n: nat)
    requires used <= MAX_SCANNED_ENTRIES
    ensures used <= n <= MAX_SCANNED_ENTRIES + 1
    decreases MAX_SCANNED_ENTRIES - used, 2, 0
  {
    match fs.readdir(host)
    case None => used
    case Some(es) => ListingAfter(fs, host, es, used)
  }

  ghost function ListingAfter(fs: FileSystem, host: Path, es: seq<DirEnt>, used: nat): (n: nat)
    requires used <= MAX_SCANNED_ENTRIES
    ensures used <= n <= MAX_SCANNED_ENTRIES + 1
    decreases MAX_SCANNED_ENTRIES - used, 1, |es|
  {
    if es == [] then used
    else
      var n := EntryAfter(fs, host, es[0], used);
      if n > MAX_SCANNED_ENTRIES then n else ListingAfter(fs, host, es[1..], n)
  }

  /** The paths of all entries below a directory, in the order of the scan, down to some depth. */
  ghost function Entries(fs: FileSystem, host: Path, depth: nat): seq<Path>
    decreases depth, 1, 0
  {
    if fs.readdir(host).None? then [] else Listed(fs, host, fs.readdir(host).value, depth)
  }

  ghost function Listed(fs: FileSystem, host: Path, es: seq<DirEnt>, depth: nat): seq<Path>
    decreases depth, 0, |es|
  {
    if es == [] then []
    else
      var path := host + [es[0].name];
      [path] + (if es[0].kind == Dir && depth > 0 then Entries(fs, path, depth - 1) else [])
      + Listed(fs, host, es[1..], depth)
  }

  function AtMost(n: nat, max: nat): nat { if n <= max then n else max }

  /** The scan counts each entry below a directory once, and stops one above the limit. */
  lemma {:induction false} BudgetCountsEntries(fs: FileSystem, host: Path, used: nat, depth: nat)
    requires used <= MAX_SCANNED_ENTRIES && depth >= MAX_SCANNED_ENTRIES - used
    ensures EntriesAfter(fs, host, used) == AtMost(used + |Entries(fs, host, depth)|, MAX_SCANNED_ENTRIES + 1)
    decreases depth, 1, 0
  {
    if fs.readdir(host).Some? {
      BudgetCountsListed(fs, host, fs.readdir(host).value, used, depth);
    }
  }

  lemma {:induction false} BudgetCountsListed(fs: FileSystem, host: Path, es: seq<DirEnt>, used: nat, depth: nat)
    requires used <= MAX_SCANNED_ENTRIES && depth >= MAX_SCANNED_ENTRIES - used
    ensures ListingAfter(fs, host, es, used) == AtMost(used + |Listed(fs, host, es, depth)|, MAX_SCANNED_ENTRIES + 1)
    decreases depth, 0, |es|
  {
    if es != [] {
      if es[0].kind == Dir && used < MAX_SCANNED_ENTRIES {
        BudgetCountsEntries(fs, host + [es[0].name], used + 1, depth - 1);
      }
      var n := EntryAfter(fs, host, es[0], used);
      if n <= MAX_SCANNED_ENTRIES {
        BudgetCountsListed(fs, host, es[1..], n, depth);
      }
    }
  }

  /** The entries of all these mounts, at most one too many. */
  ghost function TotalEntries(fs: FileSystem, mounts: seq<Mount>): (n: nat)
    ensures n <= MAX_SCANNED_ENTRIES + 1
  {
    if mounts == [] then 0
    else
      var n := TotalEntries(fs, mounts[..|mounts| - 1]);
      if n > MAX_SCANNED_ENTRIES then n else EntriesAfter(fs, mounts[|mounts| - 1].host, n)
  }

  ghost function AllEntries(fs: FileSystem, mounts: seq<Mount>): seq<Path> {
    if mounts == [] then []
    else AllEntries(fs, mounts[..|mounts| - 1]) + Entries(fs, mounts[|mounts| - 1].host, MAX_SCANNED_ENTRIES)
  }

  /** So the budget holds out exactly when the mounts searched have no more entries than it allows. */
  lemma {:induction false} TotalCountsEntries(fs: FileSystem, mounts: seq<Mount>)
    ensures TotalEntries(fs, mounts) == AtMost(|AllEntries(fs, mounts)|, MAX_SCANNED_ENTRIES + 1)
  {
    if mounts != [] {
      TotalCountsEntries(fs, mounts[..|mounts| - 1]);
      var n := TotalEntries(fs, mounts[..|mounts| - 1]);
      if n <= MAX_SCANNED_ENTRIES {
        BudgetCountsEntries(fs, mounts[|mounts| - 1].host, n, MAX_SCANNED_ENTRIES);
      }
    }
  }

  lemma TotalOfOneMore(fs: FileSystem, mounts: seq<Mount>, m: Mount)
    requires TotalEntries(fs, mounts) <= MAX_SCANNED_ENTRIES
    ensures TotalEntries(fs, mounts + [m]) == EntriesAfter(fs, m.host, TotalEntries(fs, mounts))
  {
    assert (mounts + [m])[..|mounts|] == mounts;
  }

  /** The mounts searched, in turn: found from the root, and no two of the same place. */
  ghost predicate Searched(fs: FileSystem, root: Mount, done: seq<Mount>) {
    && (forall m :: m in done ==> FromRoot(fs, root, m))
    && (forall i, j :: 0 <= i < j < |done| ==> Key(done[i]) != Key(done[j]))
  }

  /** `done` are the mounts whose keys are in `scanned`, and with the queue all there are. */
  ghost predicate Trail(fs: FileSystem, root: Mount, done: seq<Mount>, scanned: set<(Path, Path)>,
                        enqueued: set<Mount>, queue: seq<Mount>)
  {
    && Searched(fs, root, done)
    && (forall m :: m in done ==> Key(m) in scanned)
    && (forall m :: m in enqueued ==> m in done || m in queue)
  }

  lemma TrailIsSearched(fs: FileSystem, root: Mount, done: seq<Mount>, scanned: set<(Path, Path)>,
                        enqueued: set<Mount>, queue: seq<Mount>)
    requires Trail(fs, root, done, scanned, enqueued, queue)
    ensures Searched(fs, root, done)
  {
  }

  lemma TrailGrows(fs: FileSystem, root: Mount, done: seq<Mount>, scanned: set<(Path, Path)>, before: set<Mount>,
                   queue: seq<Mount>, after: set<Mount>, later: seq<Mount>)
    requires Trail(fs, root, done, scanned, before, queue) && |queue| > 0 && Key(queue[0]) !in scanned
    requires FromRoot(fs, root, queue[0]) && queue[1..] <= later && NewAreQueued(before, after, later)
    ensures Trail(fs, root, done + [queue[0]], scanned + {Key(queue[0])}, after, later)
  {
    hide FromRoot;
    forall m | m in after
      ensures m in done + [queue[0]] || m in later
    {
      assert m in queue ==> m == queue[0] || m in queue[1..];
    }
  }

  /** What the search achieves: a closed set of mounts, none of which is redundant or unaccounted for. */
  ghost predicate Complete(fs: FileSystem, root: Mount, plan: Plan) {
    && Independent(root, plan.mounts)
    && (forall m :: m in plan.mounts ==> FromRoot(fs, root, m))
    && (forall m, l :: m in [root] + plan.mounts && LinkUnder(fs, m.host, m.guest, l)
                       ==> Settled(fs, root, plan.mounts, plan.unresolved, l))
    && Reported(fs, root, plan.unresolved)
  }

  lemma SoundIsComplete(fs: FileSystem, root: Mount, plan: Plan, seen: set<LinkRef>, enqueued: set<Mount>)
    requires Sound(fs, root, plan, seen, enqueued) && ScannedOrQueued(fs, enqueued, [], seen)
    ensures Complete(fs, root, plan)
  {
    forall m, l | m in [root] + plan.mounts && LinkUnder(fs, m.host, m.guest, l)
      ensures Settled(fs, root, plan.mounts, plan.unresolved, l)
    {
      assert m in enqueued && l in seen;
    }
  }

  /** Where a kept mount comes from: a link leads to what it was made for, and it shows that to the guest. */
  ghost predicate FoundBy(fs: FileSystem, root: Mount, from: Mount, l: LinkRef, m: Mount) {
    && FromRoot(fs, root, from) && LinkUnder(fs, from.host, from.guest, l)
    && Resolved(fs, l).Some? && MadeFor(fs, Resolved(fs, l).value, root.writable, m)
    && !Covers(root, Resolved(fs, l).value.canonical, Resolved(fs, l).value.guest)
    && (Orderly(fs) ==> Shows(m, Resolved(fs, l).value))
  }

  lemma KeptIsFound(fs: FileSystem, root: Mount, mounts: seq<Mount>, m: Mount)
    requires Independent(root, mounts) && m in mounts && FromRoot(fs, root, m)
    ensures exists from, l :: FoundBy(fs, root, from, l, m)
  {
    hide MadeFor, Resolved, Orderly, Shows;
    CoversItself(root);
    var n: nat :| Derived(fs, root, m, n);
    var from, l :| Derived(fs, root, from, n - 1) && LedTo(fs, root, from, l, m);
    if Orderly(fs) {
      LinkIsBelow(fs, from, l);
      LinkIsShown(fs, l, root.writable, m);
    }
    assert FoundBy(fs, root, from, l, m);
  }

  lemma LinkIsBelow(fs: FileSystem, from: Mount, l: LinkRef)
    requires LinkUnder(fs, from.host, from.guest, l)
    ensures l.host != [] && fs.readdir(Parent(l.host)).Some?
  {
    var p, name :| LinkAt(fs, from.host, from.guest, p, name, l);
    assert Parent(l.host) == from.host + p;
  }

  /** discoverLinkedMounts with its working state: what its closures share. */
  class Discovery {
    const fs: FileSystem
    const root: Mount
    var mounts: seq<Mount>
    var queue: seq<Mount>
    var unresolved: seq<LinkRef>
    var scanned: set<(Path, Path)>
    var entries: nat
    ghost var seen: set<LinkRef>
    ghost var enqueued: set<Mount>
    ghost var done: seq<Mount>

    constructor (fs: FileSystem, root: Mount)
      ensures this.fs == fs && this.root == root
      ensures mounts == [] && queue == [root] && unresolved == [] && scanned == {} && entries == 0
      ensures seen == {} && enqueued == {root} && done == []
    {
      this.fs, this.root := fs, root;
      mounts, queue, unresolved, scanned, entries := [], [root], [], {}, 0;
      seen, enqueued, done := {}, {root}, [];
    }

    ghost predicate Inv()
      reads this
    {
      Sound(fs, root, Plan(mounts, unresolved), seen, enqueued) && Fresh(queue, scanned, enqueued)
    }

    /** The splices of addLinkedMount, from the last mount to the first. */
    method DropCovered(candidate: Mount)
      modifies this`mounts
      ensures mounts == Uncovered(old(mounts), candidate)
    {
      ghost var was := mounts;
      var index := |mounts| - 1;
      assert mounts == was[..index + 1] + Uncovered(was[index + 1..], candidate) by {
        assert was[..|was|] == was && was[|was|..] == [];
      }
      while index >= 0
        invariant -1 <= index < |was|
        invariant mounts == was[..index + 1] + Uncovered(was[index + 1..], candidate)
      {
        SpliceIsUncovered(was, candidate, index);
        if CoversMount(candidate, mounts[index]) {
          mounts := mounts[..index] + mounts[index + 1..];
        }
        index := index - 1;
      }
      assert mounts == Uncovered(was, candidate) by {
        assert was[..0] == [] && was[0..] == was;
      }
    }

    method AddLinkedMount(candidate: Mount)
      requires Inv() && FromRoot(fs, root, candidate)
      modifies this`mounts, this`queue, this`enqueued
      ensures Inv()
      ensures MountReachable(root, mounts, candidate)
      ensures mounts == Added(root, old(mounts), candidate)
      ensures if MountReachable(root, old(mounts), candidate)
              then queue == old(queue) && enqueued == old(enqueued)
              else queue == old(queue) + [candidate] && enqueued == old(enqueued) + {candidate}
    {
      hide Sound, Fresh;
      if CoversMount(root, candidate) || exists m :: m in mounts && CoversMount(m, candidate) { return; }
      AddKeepsSound(fs, root, Plan(mounts, unresolved), seen, enqueued, candidate);
      AddKeepsFresh(fs, root, Plan(mounts, unresolved), seen, enqueued, queue, scanned, candidate);
      AddKeepsMountReachable(root, mounts, candidate, candidate);
      DropCovered(candidate);
      mounts := mounts + [candidate];
      queue := queue + [candidate];
      enqueued := enqueued + {candidate};
    }

    /** The callback of scanMount, for a link of the mount `from`. */
    method OnLink(l: LinkRef, ghost from: Mount)
      requires Inv() && FromRoot(fs, root, from) && LinkUnder(fs, from.host, from.guest, l)
      modifies this`mounts, this`queue, this`unresolved, this`seen, this`enqueued
      ensures Inv() && seen == old(seen) + {l} && old(enqueued) <= enqueued
      ensures old(queue) <= queue && NewAreQueued(old(enqueued), enqueued, queue)
      ensures Plan(mounts, unresolved) == AfterLink(fs, root, old(Plan(mounts, unresolved)), l)
    {
      hide Sound, Fresh;
      var resolved := Resolved(fs, l);
      if resolved.None? {
        assert LinkFromRoot(fs, root, l);
        ReportKeepsSound(fs, root, Plan(mounts, unresolved), seen, enqueued, l);
        unresolved := unresolved + [l];
        seen := seen + {l};
        return;
      }
      var t := resolved.value;
      if !(Covers(root, t.canonical, t.guest) || exists m :: m in mounts && Covers(m, t.canonical, t.guest)) {
        var candidate := MountFor(fs, t, root.writable);
        FollowLink(fs, root, from, l, candidate);
        AddLinkedMount(candidate);
      }
      SeeKeepsSound(fs, root, Plan(mounts, unresolved), seen, enqueued, l);
      seen := seen + {l};
    }

    /** One entry of scanDirectory, of the directory p below `from`. */
    method ScanEntry(hostDir: Path, guestDir: Path, e: DirEnt, ghost from: Mount, ghost p: Path) returns (ok: bool)
      requires Inv() && FromRoot(fs, root, from)
      requires Descends(fs, from.host, p) && hostDir == from.host + p && guestDir == from.guest + p
      requires fs.readdir(hostDir).Some? && e in fs.readdir(hostDir).value
      requires entries <= MAX_SCANNED_ENTRIES
      modifies this`mounts, this`queue, this`unresolved, this`seen, this`enqueued, this`entries
      decreases MAX_SCANNED_ENTRIES - entries, 0
      ensures Inv() && old(seen) <= seen && old(queue) <= queue
      ensures NewAreQueued(old(enqueued), enqueued, queue)
      ensures ok == (entries <= MAX_SCANNED_ENTRIES) && entries == EntryAfter(fs, hostDir, e, old(entries))
      ensures ok ==> EntrySeen(fs, hostDir, guestDir, e, seen)
    {
      hide Sound, Fresh, FromRoot, LinksSeen;
      entries := entries + 1;
      if entries > MAX_SCANNED_ENTRIES { return false; }
      var hostPath, guestPath := hostDir + [e.name], guestDir + [e.name];
      match e.kind {
        case Link(Some(target)) =>
          var l := LinkRef(hostPath, guestPath, target);
          assert LinkAt(fs, from.host, from.guest, p, e.name, l);
          OnLink(l, from);
        case Dir =>
          DescendsFurther(fs, from.host, p, e.name);
          assert from.host + (p + [e.name]) == hostPath && from.guest + (p + [e.name]) == guestPath;
          ok := ScanDirectory(hostPath, guestPath, from, p + [e.name]);
          return;
        case _ =>
      }
      ok := true;
    }

    /** scanDirectory; false when the scan is given up. */
    method ScanDirectory(hostDir: Path, guestDir: Path, ghost from: Mount, ghost p: Path) returns (ok: bool)
      requires Inv() && FromRoot(fs, root, from)
      requires Descends(fs, from.host, p) && hostDir == from.host + p && guestDir == from.guest + p
      requires entries <= MAX_SCANNED_ENTRIES
      modifies this`mounts, this`queue, this`unresolved, this`seen, this`enqueued, this`entries
      decreases MAX_SCANNED_ENTRIES - entries, 1
      ensures Inv() && old(seen) <= seen && old(queue) <= queue
      ensures NewAreQueued(old(enqueued), enqueued, queue)
      ensures ok == (entries <= MAX_SCANNED_ENTRIES) && entries == EntriesAfter(fs, hostDir, old(entries))
      ensures entries == old(entries) ==> queue == old(queue)
      ensures ok ==> LinksSeen(fs, hostDir, guestDir, seen)
    {
      hide Sound, Fresh, FromRoot, LinksSeen, EntrySeen, Descends;
      var listing := fs.readdir(hostDir);
      if listing.None? {
        EntriesSeen(fs, hostDir, guestDir, seen);
        return true;
      }
      assert AllEntriesSeen(fs, hostDir, guestDir, listing.value[..0], seen);
      assert listing.value[0..] == listing.value;
      for i := 0 to |listing.value|
        invariant Inv() && old(seen) <= seen && old(queue) <= queue
        invariant NewAreQueued(old(enqueued), enqueued, queue)
        invariant old(entries) + i <= entries <= MAX_SCANNED_ENTRIES
        invariant i == 0 ==> queue == old(queue)
        invariant ListingAfter(fs, hostDir, listing.value[i..], entries) == EntriesAfter(fs, hostDir, old(entries))
        invariant AllEntriesSeen(fs, hostDir, guestDir, listing.value[..i], seen)
      {
        ghost var before := seen;
        assert listing.value[i..][1..] == listing.value[i + 1..];
        ok := ScanEntry(hostDir, guestDir, listing.value[i], from, p);
        if !ok { return; }
        OneMoreEntrySeen(fs, hostDir, guestDir, listing.value, i, before, seen);
      }
      assert listing.value[..|listing.value|] == listing.value;
      EntriesSeen(fs, hostDir, guestDir, seen);
      ok := true;
    }
 
    ghost predicate Progress()
      reads this
    {
      && Inv() && ScannedOrQueued(fs, enqueued, queue, seen)
      && Trail(fs, root, done, scanned, enqueued, queue) && entries == TotalEntries(fs, done)
    }

    /** One round of the worklist loop. */
    method ScanNext() returns (ok: bool)
      requires Progress() && |queue| > 0 && entries <= MAX_SCANNED_ENTRIES
      modifies this
      ensures ok == (entries <= MAX_SCANNED_ENTRIES)
      ensures ok ==> Progress()
      ensures Searched(fs, root, done) && entries == TotalEntries(fs, done)
      ensures entries > old(entries) || (entries == old(entries) && |queue| < |old(queue)|)
    {
      hide Sound, Fresh, LinksSeen, FromRoot, ScannedOrQueued, EntriesAfter, TotalEntries, NewAreQueued, Trail, Searched;
      ghost var before, seen0, scanned0 := enqueued, seen, scanned;
      QueuedFromRoot(fs, root, Plan(mounts, unresolved), seen, enqueued, queue, scanned);
      PopKeepsFresh(queue, scanned, enqueued);
      var current := queue[0];
      queue := queue[1..];
      ok := true;
      if Key(current) !in scanned {
        assert current.host + [] == current.host && current.guest + [] == current.guest;
        scanned := scanned + {Key(current)};
        TotalOfOneMore(fs, done, current);
        ok := ScanDirectory(current.host, current.guest, current, []);
        TrailGrows(fs, root, done, scanned0, before, old(queue), enqueued, queue);
        done := done + [current];
        TrailIsSearched(fs, root, done, scanned, enqueued, queue);
        if ok {
          ScanKeepsScannedOrQueued(fs, before, enqueued, old(queue), queue, seen0, seen);
        }
      }
    }

    /** The worklist loop; no mount is scanned twice, and the budget bounds the search. */
    method Discover() returns (r: Option<Plan>)
      requires mounts == [] && queue == [root] && unresolved == [] && scanned == {} && entries == 0
      requires seen == {} && enqueued == {root} && done == []
      modifies this
      ensures !fs.Present(root.host) ==> r == Some(Plan([], []))
      ensures fs.Present(root.host) ==> (r.Some? <==> entries <= MAX_SCANNED_ENTRIES)
      ensures fs.Present(root.host) && r.Some? ==>
                r.value == Plan(mounts, unresolved) && Inv() && ScannedOrQueued(fs, enqueued, [], seen)
                && Trail(fs, root, done, scanned, enqueued, [])
      ensures fs.Present(root.host) ==> Searched(fs, root, done) && entries == TotalEntries(fs, done)
    {
      if !fs.Present(root.host) { return Some(Plan([], [])); }
      StartIsSound(fs, root);
      assert Trail(fs, root, [], {}, {root}, [root]) && TotalEntries(fs, []) == 0;
      hide Sound, Fresh, LinksSeen, FromRoot, ScannedOrQueued, EntriesAfter, TotalEntries, NewAreQueued, Trail, Searched;
      while |queue| > 0
        invariant Progress() && entries <= MAX_SCANNED_ENTRIES
        decreases MAX_SCANNED_ENTRIES - entries, |queue|
      {
        var ok := ScanNext();
        if !ok { return None; }
      }
      assert queue == [];
      TrailIsSearched(fs, root, done, scanned, enqueued, queue);
      r := Some(Plan(mounts, unresolved));
    }
  }

  /** The plan for a root: complete, unless the budget runs out. */
  method DiscoverLinkedMounts(fs: FileSystem, root: Mount) returns (r: Option<Plan>)
    ensures !fs.Present(root.host) ==> r == Some(Plan([], []))
    ensures fs.Present(root.host) && r.Some? ==> Complete(fs, root, r.value)
    ensures r.Some? ==> forall m :: m in r.value.mounts ==> exists from, l :: FoundBy(fs, root, from, l, m)
    ensures fs.Present(root.host) ==>
              exists done :: Searched(fs, root, done)
                             && (r.Some? <==> |AllEntries(fs, done)| <= 250_000)
                             && (r.Some? ==> forall m :: m in [root] + r.value.mounts ==> m in done)
  {
    var d := new Discovery(fs, root);
    r := d.Discover();
    if fs.Present(root.host) && r.Some? {
      SoundIsComplete(fs, root, r.value, d.seen, d.enqueued);
      forall m | m in r.value.mounts
        ensures exists from, l :: FoundBy(fs, root, from, l, m)
      {
        KeptIsFound(fs, root, r.value.mounts, m);
      }
    }
    TotalCountsEntries(fs, d.done);
    assert fs.Present(root.host) ==>
        Searched(fs, root, d.done) && (r.Some? <==> |AllEntries(fs, d.done)| <= 250_000)
        && (r.Some? ==> forall m :: m in [root] + r.value.mounts ==> m in d.done);
  }
}
