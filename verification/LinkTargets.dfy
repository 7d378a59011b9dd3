/** What a symbolic link leads to, and the mount that shows it to the guest. */
module LinkTargets {
  import opened Bytes

  /** An absolute normalized path, as its components. */
  type Path = seq<string>

  datatype Mount = Mount(host: Path, guest: Path, writable: bool, canonical: Path)

  /** What a link resolves to on the host, and where the guest looks for it. */
  datatype Target = Target(host: Path, canonical: Path, guest: Path, directory: bool)

  /** A link whose target cannot be read any more is Link(None). */
  datatype Kind = Link(target: Option<string>) | Dir | OtherFile

  datatype DirEnt = DirEnt(name: string, kind: Kind)

  /** A link found, on the host and as the guest sees it, and its text. */
  datatype LinkRef = LinkRef(host: Path, guest: Path, target: string)

  /** The file system, which does not change during a scan; only what exists has a real path. */
  datatype FileSystem = FileSystem(
    readdir: Path -> Option<seq<DirEnt>>,
    realpath: Path -> Option<Path>,
    isDirectory: Path -> bool)
  {
    predicate Present(p: Path) { realpath(p).Some? }
  }

  // ---------- Paths ----------

  function Parent(p: Path): Path { if p == [] then [] else p[..|p| - 1] }

  predicate IsAbsolute(text: string) { text != "" && text[0] == '/' }

  /** The parts between the slashes. */
  function Parts(text: string): (parts: seq<string>)
    ensures parts != []
  {
    if text == "" then [""] else Extended(Parts(text[..|text| - 1]), text[|text| - 1])
  }

  /** A slash begins a new part, any other character belongs to the last one. */
  function Extended(parts: seq<string>, c: char): (r: seq<string>)
    requires parts != []
    ensures r != []
  {
    var front, last := parts[..|parts| - 1], parts[|parts| - 1];
    if c == '/' then front + [last] + [""] else front + [last + [c]]
  }

  /** One part of a path: empty and `.` stay, `..` goes up, which at the root stays as well. */
  function Walked(p: Path, part: string): Path {
    if part == "" || part == "." then p
    else if part == ".." then Parent(p)
    else p + [part]
  }

  /** path.resolve, and path.posix.normalize of an absolute path. */
  function Walk(base: Path, parts: seq<string>): Path {
    if parts == [] then base else Walked(Walk(base, parts[..|parts| - 1]), parts[|parts| - 1])
  }

  predicate Proper(part: string) { part != "" && part != "." && part != ".." }

  /** Walking on is walking the rest from there. */
  lemma {:induction false} WalkComposes(base: Path, a: seq<string>, b: seq<string>)
    ensures Walk(base, a + b) == Walk(Walk(base, a), b)
    decreases |b|
  {
    if b == [] {
      assert a + b == a;
    } else {
      var n := |b| - 1;
      WalkComposes(base, a, b[..n]);
      assert (a + b)[..|a| + n] == a + b[..n];
    }
  }

  /** Names are appended, and a name with the `..` after it, a `.` or an empty part can be left out. */
  lemma WalkIsNormal(base: Path, a: seq<string>, name: string, dot: string, b: seq<string>)
    requires Proper(name) && (dot == "" || dot == ".")
    ensures Walk(base, a + [name]) == Walk(base, a) + [name]
    ensures Walk(base, a + [".."]) == Parent(Walk(base, a))
    ensures Walk(base, a + [dot] + b) == Walk(base, a + b)
    ensures Walk(base, a + [name] + [".."] + b) == Walk(base, a + b)
  {
    var p := Walk(base, a);
    OnePart(base, a, name);
    OnePart(base, a, "..");
    OnePart(base, a, dot);
    OnePart(base, a + [name], "..");
    WalkComposes(base, a, b);
    WalkComposes(base, a + [dot], b);
    WalkComposes(base, a + [name] + [".."], b);
    assert Parent(p + [name]) == p;
  }

  lemma OnePart(base: Path, a: seq<string>, part: string)
    ensures Walk(base, a + [part]) == Walked(Walk(base, a), part)
  {
    assert (a + [part])[..|a|] == a;
  }

  /** The parts have no slash in them, and joined by slashes they are the text. */
  lemma {:induction false} PartsMakeUpText(text: string)
    ensures Joined(Parts(text)) == text
    ensures forall part :: part in Parts(text) ==> '/' !in part
  {
    if text == "" {
      assert Joined([""]) == "";
    } else {
      var n := |text| - 1;
      assert text == text[..n] + [text[n]];
      hide Joined, Extended;
      PartsMakeUpText(text[..n]);
      ExtendedJoins(Parts(text[..n]), text[n]);
      ExtendedHasNoSlash(Parts(text[..n]), text[n]);
    }
  }

  lemma ExtendedHasNoSlash(parts: seq<string>, c: char)
    requires parts != [] && forall part :: part in parts ==> '/' !in part
    ensures forall part :: part in Extended(parts, c) ==> '/' !in part
  {
  }

  lemma ExtendedJoins(parts: seq<string>, c: char)
    requires parts != []
    ensures Joined(Extended(parts, c)) == Joined(parts) + [c]
  {
    hide Joined;
    var front, last := parts[..|parts| - 1], parts[|parts| - 1];
    assert front + [last] == parts;
    if c == '/' {
      JoinedMore(front + [last], "");
      assert Joined(parts) + "/" + "" == Joined(parts) + [c];
    } else {
      LastGrows(front, last, c);
    }
  }

  function Joined(parts: seq<string>): string
    requires parts != []
  {
    if |parts| == 1 then parts[0] else Joined(parts[..|parts| - 1]) + "/" + parts[|parts| - 1]
  }

  lemma LastGrows(front: seq<string>, last: string, c: char)
    ensures Joined(front + [last + [c]]) == Joined(front + [last]) + [c]
  {
    if front != [] {
      JoinedMore(front, last);
      JoinedMore(front, last + [c]);
      Regroup(Joined(front) + "/", last, [c]);
    } else {
      assert Joined([last + [c]]) == last + [c];
      assert front + [last + [c]] == [last + [c]] && front + [last] == [last];
    }
  }

  lemma Regroup(a: string, b: string, c: string)
    ensures a + (b + c) == a + b + c
  {
  }

  lemma JoinedMore(parts: seq<string>, last: string)
    requires parts != []
    ensures Joined(parts + [last]) == Joined(parts) + "/" + last
  {
    assert (parts + [last])[..|parts|] == parts;
  }

  /** How far up a relative path leads in all. */
  function Ups(parts: seq<string>): nat {
    if parts == [] then 0
    else
      var n := |parts| - 1;
      if parts[n] == ".." && Names(parts[..n]) == [] then Ups(parts[..n]) + 1 else Ups(parts[..n])
  }

  /** The names it ends with after that. */
  function Names(parts: seq<string>): Path {
    if parts == [] then [] else Walked(Names(parts[..|parts| - 1]), parts[|parts| - 1])
  }

  function Up(base: Path, n: nat): Path { base[..if n <= |base| then |base| - n else 0] }

  /** From any base, a relative path leads as far up as it can and then down the same names. */
  lemma {:induction false} WalkIsUpThenDown(base: Path, parts: seq<string>)
    ensures Walk(base, parts) == Up(base, Ups(parts)) + Names(parts)
  {
    hide Walked, Up;
    if parts == [] {
      NoneUp(base);
    } else {
      WalkIsUpThenDown(base, parts[..|parts| - 1]);
      OneMorePart(base, Ups(parts[..|parts| - 1]), Names(parts[..|parts| - 1]), parts[|parts| - 1]);
    }
  }

  lemma NoneUp(base: Path)
    ensures Up(base, 0) + [] == base
  {
  }

  lemma OneMorePart(base: Path, n: nat, names: Path, part: string)
    ensures Walked(Up(base, n) + names, part) ==
            if part == ".." && names == [] then Up(base, n + 1) + Walked(names, part)
            else Up(base, n) + Walked(names, part)
  {
  }

  // ---------- Targets ----------

  /** What a text leads to from a directory. */
  function Lead(dir: Path, text: string): Path { Walk(if IsAbsolute(text) then [] else dir, Parts(text)) }

  /** resolveLinkTarget: nothing, when there is nothing there on the host. */
  function Resolved(fs: FileSystem, l: LinkRef): Option<Target> {
    var host := Lead(Parent(l.host), l.target);
    match fs.realpath(host)
    case None => None
    case Some(canonical) => Some(Target(host, canonical, Lead(Parent(l.guest), l.target), fs.isDirectory(host)))
  }

  /** canonicalPath: the real path of as much as exists, and the rest as it is. */
  function Canonical(fs: FileSystem, p: Path): Path
    decreases |p|
  {
    if fs.Present(p) then fs.realpath(p).value
    else if p == [] then []
    else Canonical(fs, Parent(p)) + [p[|p| - 1]]
  }

  /** dir is the directory of p, which at the root is the root itself. */
  ghost predicate IsDirname(dir: Path, p: Path) {
    (p == [] && dir == []) || exists name :: p == dir + [name]
  }

  /** m shows a target: a directory itself, a file through its directory, on the host and in the guest alike. */
  ghost predicate MadeFor(fs: FileSystem, t: Target, writable: bool, m: Mount) {
    && m.writable == writable && m.canonical == Canonical(fs, m.host)
    && (t.directory ==> m.host == t.host && m.guest == t.guest)
    && (!t.directory ==> IsDirname(m.host, t.host) && IsDirname(m.guest, t.guest))
  }

  /** linkedMountForTarget. */
  function MountFor(fs: FileSystem, t: Target, writable: bool): (m: Mount)
    ensures MadeFor(fs, t, writable, m)
  {
    var host := if t.directory then t.host else Parent(t.host);
    assert forall p: Path :: p != [] ==> p == Parent(p) + [p[|p| - 1]];
    Mount(host, if t.directory then t.guest else Parent(t.guest), writable, Canonical(fs, host))
  }

  // ---------- What the guest sees ----------

  /** The mount puts the target where the guest looks for it: at its own path, or one name below. */
  ghost predicate Shows(m: Mount, t: Target) {
    exists tail: Path ::
      t.host == m.host + tail && t.guest == m.guest + tail && |tail| == if t.directory then 0 else 1
  }

  predicate SameName(p: Path, q: Path) { p != [] && q != [] && p[|p| - 1] == q[|q| - 1] }

  /** A file is shown exactly when it has the same name on the host and in the guest. */
  lemma ShowsIff(fs: FileSystem, t: Target, writable: bool, m: Mount)
    requires MadeFor(fs, t, writable, m)
    ensures Shows(m, t) <==> t.directory || SameName(t.host, t.guest)
  {
    if t.directory {
      var none: Path := [];
      assert t.host == m.host + none && t.guest == m.guest + none;
    } else if SameName(t.host, t.guest) {
      var tail: Path := [t.host[|t.host| - 1]];
      assert t.host == m.host + tail && t.guest == m.guest + tail;
    }
  }

  /** Everything above what can be listed is a directory. */
  ghost predicate Orderly(fs: FileSystem) {
    forall p, i :: fs.readdir(p).Some? && 0 <= i <= |p| ==> fs.isDirectory(p[..i])
  }

  /** The two sides of a target end in the same names, or the target lies above the link, where directories are. */
  lemma SidesAgree(fs: FileSystem, l: LinkRef)
    requires Orderly(fs) && l.host != [] && fs.readdir(Parent(l.host)).Some?
    requires Resolved(fs, l).Some?
    ensures Resolved(fs, l).value.directory || SameName(Resolved(fs, l).value.host, Resolved(fs, l).value.guest)
  {
    var parts := Parts(l.target);
    var dir: Path := if IsAbsolute(l.target) then [] else Parent(l.host);
    var guestDir: Path := if IsAbsolute(l.target) then [] else Parent(l.guest);
    WalkIsUpThenDown(dir, parts);
    WalkIsUpThenDown(guestDir, parts);
    hide Walk, Parts, Names, Ups;
    if Names(parts) == [] {
      var k := if Ups(parts) <= |dir| then |dir| - Ups(parts) else 0;
      assert Lead(Parent(l.host), l.target) == dir[..k] == Parent(l.host)[..k];
      assert fs.isDirectory(Parent(l.host)[..k]);
    } else {
      var name := Names(parts)[|Names(parts)| - 1];
      assert (Up(dir, Ups(parts)) + Names(parts))[|Up(dir, Ups(parts))| + |Names(parts)| - 1] == name;
      assert (Up(guestDir, Ups(parts)) + Names(parts))[|Up(guestDir, Ups(parts))| + |Names(parts)| - 1] == name;
    }
  }

  /** Whatever a link in a readable directory leads to, the mount made for it shows it. */
  lemma LinkIsShown(fs: FileSystem, l: LinkRef, writable: bool, m: Mount)
    requires Orderly(fs) && l.host != [] && fs.readdir(Parent(l.host)).Some?
    requires Resolved(fs, l).Some? && MadeFor(fs, Resolved(fs, l).value, writable, m)
    ensures Shows(m, Resolved(fs, l).value)
  {
    hide Resolved, MadeFor;
    SidesAgree(fs, l);
    ShowsIff(fs, Resolved(fs, l).value, writable, m);
  }

  /** An absolute target has the same path in the guest as on the host. */
  lemma AbsoluteTargetIsShared(fs: FileSystem, l: LinkRef)
    requires IsAbsolute(l.target) && Resolved(fs, l).Some?
    ensures Resolved(fs, l).value.guest == Resolved(fs, l).value.host
  {
  }

  /** A relative target that stays below a mount lies at the same place below it on the host and in the guest. */
  lemma RelativeTargetIsMapped(fs: FileSystem, m: Mount, l: LinkRef, p: Path, name: string)
    requires l.host == m.host + p + [name] && l.guest == m.guest + p + [name]
    requires !IsAbsolute(l.target) && Ups(Parts(l.target)) <= |p| && Resolved(fs, l).Some?
    ensures var tail := Up(p, Ups(Parts(l.target))) + Names(Parts(l.target));
            Resolved(fs, l).value.host == m.host + tail && Resolved(fs, l).value.guest == m.guest + tail
  {
    var n, names := Ups(Parts(l.target)), Names(Parts(l.target));
    assert Parent(l.host) == m.host + p && Parent(l.guest) == m.guest + p;
    WalkIsUpThenDown(m.host + p, Parts(l.target));
    WalkIsUpThenDown(m.guest + p, Parts(l.target));
    hide Walk, Parts, Ups, Names;
    UpWithin(m.host, p, n);
    UpWithin(m.guest, p, n);
    Associative(m.host, Up(p, n), names);
    Associative(m.guest, Up(p, n), names);
  }

  lemma UpWithin(base: Path, p: Path, n: nat)
    requires n <= |p|
    ensures Up(base + p, n) == base + Up(p, n)
  {
  }

  /** The real path of the longest part that exists, and the rest behind it. */
  lemma {:induction false} CanonicalIsReal(fs: FileSystem, p: Path, k: nat)
    requires k <= |p| && fs.Present(p[..k]) && forall i :: k < i <= |p| ==> !fs.Present(p[..i])
    ensures Canonical(fs, p) == fs.realpath(p[..k]).value + p[k..]
    decreases |p| - k
  {
    assert p[..|p|] == p;
    if k < |p| {
      var up := Parent(p);
      assert up[..k] == p[..k] && forall i :: k < i <= |up| ==> up[..i] == p[..i];
      CanonicalIsReal(fs, up, k);
      assert up[k..] + [p[|p| - 1]] == p[k..];
    }
  }

  /** The mount made for a directory stands at the directory's real path, and so covers it. */
  lemma DirectoryMountIsReal(fs: FileSystem, l: LinkRef, writable: bool, m: Mount)
    requires Resolved(fs, l).Some? && Resolved(fs, l).value.directory
    requires MadeFor(fs, Resolved(fs, l).value, writable, m)
    ensures m.canonical == Resolved(fs, l).value.canonical && m.guest == Resolved(fs, l).value.guest
  {
    var host := Resolved(fs, l).value.host;
    assert host[..|host|] == host;
    CanonicalIsReal(fs, host, |host|);
  }
}
