/** The tiny initramfs that mkinitramfs.ts puts together for a boot. */
module TinyInitramfs {
  import opened Bytes
  import opened Newc
  import opened Strings

  /** A file name of plain characters. */
  function Name(s: string): (b: Buffer)
    requires forall i :: 0 <= i < |s| ==> ' ' <= s[i] < 128 as char
    ensures 0 !in b && b == Ascii(s)
  {
    Ascii(s)
  }

  function Plain(name: Buffer, mode: int, data: Buffer): Entry { Entry(Meta(0, mode, 0, 0, 1, 0, 0, 0), name, data) }

  const DIR := 0x41ed       // 040755
  const PROGRAM := 0x81ed   // 0100755
  const FILE := 0x81a4      // 0100644
  const CONSOLE := 0x2180   // 020600
  const SHARED_DIR := 0x43ff // 041777

  const ROOT: Buffer := Name(".")
  const INIT: Buffer := Name("init")
  const CONFIG: Buffer := Name("machinen-config.json")
  const ETC: Buffer := Name("etc")
  const SBIN: Buffer := Name("sbin")
  const DEV: Buffer := Name("dev")
  const BOOT_EPOCH: Buffer := Name("machinen-boot-epoch")
  const MOUNT_GUEST: Buffer := Name("machinen-mountdisk-guest")
  const SUPERVISOR: Buffer := Name("machinen-supervisor")
  const RESTORE: Buffer := Name("machinen-restore")
  const CONSOLE_NAME: Buffer := Name("console")
  const TMP: Buffer := Name("tmp")

  function In(dir: Buffer, name: Buffer): Buffer { dir + [47] + name }

  /** What packTinyBundle gathers; an init that cannot be read and an empty mount are left out. */
  datatype Bundle = Bundle(init: Option<Buffer>, config: Buffer, epoch: Buffer, mountGuest: Option<Buffer>,
                           supervisor: Buffer, restore: Buffer)

  const END := Plain(TRAILER, 0, [])

  function InitEntries(b: Bundle): seq<Entry> {
    var root := [] + [Plain(ROOT, DIR, [])];
    if b.init.Some? then root + [Plain(INIT, PROGRAM, b.init.value)] else root
  }

  function HeadEntries(b: Bundle): seq<Entry> {
    var withEtc := InitEntries(b) + [Plain(CONFIG, FILE, b.config)] + [Plain(ETC, DIR, [])]
                   + [Plain(In(ETC, BOOT_EPOCH), FILE, b.epoch)];
    if b.mountGuest.Some? && b.mountGuest.value != []
    then withEtc + [Plain(In(ETC, MOUNT_GUEST), FILE, b.mountGuest.value + [10])]
    else withEtc
  }

  function TailEntries(b: Bundle): seq<Entry> {
    [Plain(SBIN, DIR, []),
     Plain(In(SBIN, SUPERVISOR), PROGRAM, b.supervisor),
     Plain(In(SBIN, RESTORE), PROGRAM, b.restore),
     Plain(DEV, DIR, []),
     Entry(Meta(0, CONSOLE, 0, 0, 1, 0, 5, 1), In(DEV, CONSOLE_NAME), []),
     Plain(TMP, SHARED_DIR, [])]
  }

  function TinyEntries(b: Bundle): seq<Entry> { HeadEntries(b) + TailEntries(b) }

  /** Nothing the bundle holds is too large for the format. */
  predicate Fits(b: Bundle) {
    && (b.init.Some? ==> IsU32(|b.init.value|)) && IsU32(|b.config|) && IsU32(|b.epoch|)
    && (b.mountGuest.Some? ==> IsU32(|b.mountGuest.value| + 1)) && IsU32(|b.supervisor|) && IsU32(|b.restore|)
  }

  lemma EntriesFit(b: Bundle)
    requires Fits(b)
    ensures AllRepresentable(TinyEntries(b) + [END])
    ensures forall e :: e in TinyEntries(b) ==> e.name != TRAILER
  {
    forall e | e in TinyEntries(b) + [END]
      ensures Representable(e) && (e in TinyEntries(b) ==> e.name != TRAILER)
    {
      if e in HeadEntries(b) {
        HeadFits(b, e);
      } else if e in TailEntries(b) {
        TailFits(b, e);
      }
    }
  }

  lemma HeadFits(b: Bundle, e: Entry)
    requires Fits(b) && e in HeadEntries(b)
    ensures Representable(e) && e.name[0] != 84
  {
  }

  lemma TailFits(b: Bundle, e: Entry)
    requires Fits(b) && e in TailEntries(b)
    ensures Representable(e) && e.name[0] != 84
  {
  }

  /** tinyBundleEntries: the parts in the order they are pushed. */
  method TinyBundleEntries(b: Bundle) returns (parts: seq<Buffer>)
    ensures Flatten(parts) == WrittenAll(TinyEntries(b) + [END])
  {
    hide Written, WrittenAll, Flatten, Plain;
    ghost var es: seq<Entry>;
    parts, es := PushHead(b);
    parts, es := PushEntry(parts, es, Plain(SBIN, DIR, []));
    parts, es := PushEntry(parts, es, Plain(In(SBIN, SUPERVISOR), PROGRAM, b.supervisor));
    parts, es := PushEntry(parts, es, Plain(In(SBIN, RESTORE), PROGRAM, b.restore));
    parts, es := PushEntry(parts, es, Plain(DEV, DIR, []));
    parts, es := PushEntry(parts, es, Entry(Meta(0, CONSOLE, 0, 0, 1, 0, 5, 1), In(DEV, CONSOLE_NAME), []));
    parts, es := PushEntry(parts, es, Plain(TMP, SHARED_DIR, []));
    assert es == HeadEntries(b) + TailEntries(b);
    parts, es := PushEntry(parts, es, END);
  }

  method PushHead(b: Bundle) returns (parts: seq<Buffer>, ghost es: seq<Entry>)
    ensures es == HeadEntries(b) && Flatten(parts) == WrittenAll(es)
  {
    hide Written, WrittenAll, Flatten, Plain, In;
    parts, es := PushInit(b);
    parts, es := PushEntry(parts, es, Plain(CONFIG, FILE, b.config));
    parts, es := PushEntry(parts, es, Plain(ETC, DIR, []));
    parts, es := PushEntry(parts, es, Plain(In(ETC, BOOT_EPOCH), FILE, b.epoch));
    if b.mountGuest.Some? && b.mountGuest.value != [] {
      parts, es := PushEntry(parts, es, Plain(In(ETC, MOUNT_GUEST), FILE, b.mountGuest.value + [10]));
    }
  }

  method PushInit(b: Bundle) returns (parts: seq<Buffer>, ghost es: seq<Entry>)
    ensures es == InitEntries(b) && Flatten(parts) == WrittenAll(es)
  {
    parts, es := PushEntry([], [], Plain(ROOT, DIR, []));
    hide Written, WrittenAll, Flatten, Plain;
    if b.init.Some? {
      parts, es := PushEntry(parts, es, Plain(INIT, PROGRAM, b.init.value));
    }
  }

  method PushEntry(parts: seq<Buffer>, ghost es: seq<Entry>, e: Entry)
    returns (pushed: seq<Buffer>, ghost longer: seq<Entry>)
    requires Flatten(parts) == WrittenAll(es)
    ensures longer == es + [e] && Flatten(pushed) == WrittenAll(longer)
  {
    pushed, longer := parts + [Written(e)], es + [e];
    FlattenPush(parts, Written(e));
    WrittenAllPush(es, e);
  }

  /** The image reads back as the bundle's files. */
  method PackTinyBundle(b: Bundle) returns (image: Buffer)
    ensures Fits(b) ==> ReadArchive(image, 0) == Some(TinyEntries(b))
  {
    var parts := TinyBundleEntries(b);
    image := Flatten(parts);
    if Fits(b) {
      EntriesFit(b);
      ClosedArchiveReadsBackIff(TinyEntries(b), END);
    }
  }

  // ---------- What the image holds ----------

  /** At this place there is a file of this path, mode and content. */
  predicate HoldsAt(es: seq<Entry>, i: int, path: Buffer, mode: int, data: Buffer) {
    0 <= i < |es| && es[i].name == path && es[i].meta.mode == mode && es[i].data == data
  }

  /** It is there, and if it lies in a directory, that comes before it. */
  ghost predicate Holds(es: seq<Entry>, path: Buffer, mode: int, data: Buffer) {
    exists i :: HoldsAt(es, i, path, mode, data)
  }

  ghost predicate HoldsIn(es: seq<Entry>, dir: Buffer, name: Buffer, mode: int, data: Buffer) {
    exists i, j :: i < j && HoldsAt(es, i, dir, 0x41ed, []) && HoldsAt(es, j, In(dir, name), mode, data)
  }

  /** The files of a bundle with their modes and contents, each directory before what lies in it, and nothing else. */
  lemma BundleHolds(b: Bundle)
    ensures var es := TinyEntries(b);
            && Holds(es, ROOT, 0x41ed, [])
            && (b.init.Some? ==> Holds(es, INIT, 0x81ed, b.init.value))
            && Holds(es, CONFIG, 0x81a4, b.config)
            && HoldsIn(es, ETC, BOOT_EPOCH, 0x81a4, b.epoch)
            && (b.mountGuest.Some? && b.mountGuest.value != [] ==>
                  HoldsIn(es, ETC, MOUNT_GUEST, 0x81a4, b.mountGuest.value + [10]))
            && HoldsIn(es, SBIN, SUPERVISOR, 0x81ed, b.supervisor)
            && HoldsIn(es, SBIN, RESTORE, 0x81ed, b.restore)
            && HoldsIn(es, DEV, CONSOLE_NAME, 0x2180, [])
            && Holds(es, TMP, 0x43ff, [])
            && |es| == 10 + (if b.init.Some? then 1 else 0)
                       + (if b.mountGuest.Some? && b.mountGuest.value != [] then 1 else 0)
  {
    var es, k, n := TinyEntries(b), if b.init.Some? then 2 else 1, |HeadEntries(b)|;
    HeadPlaces(b, k);
    TailPlaces(b, n);
    hide Name, In, TinyEntries, HeadEntries, TailEntries;
    assert HoldsAt(es, 0, ROOT, 0x41ed, []);
    assert HoldsAt(es, k + 1, ETC, 0x41ed, []);
    assert HoldsAt(es, n, SBIN, 0x41ed, []);
    assert HoldsAt(es, n + 3, DEV, 0x41ed, []);
  }

  lemma HeadPlaces(b: Bundle, k: int)
    requires k == if b.init.Some? then 2 else 1
    ensures var es := TinyEntries(b);
            && HoldsAt(es, 0, ROOT, 0x41ed, [])
            && (b.init.Some? ==> HoldsAt(es, 1, INIT, 0x81ed, b.init.value))
            && HoldsAt(es, k, CONFIG, 0x81a4, b.config)
            && HoldsAt(es, k + 1, ETC, 0x41ed, [])
            && HoldsAt(es, k + 2, In(ETC, BOOT_EPOCH), 0x81a4, b.epoch)
            && (if b.mountGuest.Some? && b.mountGuest.value != []
                then |HeadEntries(b)| == k + 4
                     && HoldsAt(es, k + 3, In(ETC, MOUNT_GUEST), 0x81a4,
                                b.mountGuest.value + [10])
                else |HeadEntries(b)| == k + 3)
  {
    hide Name, In;
  }

  lemma TailPlaces(b: Bundle, n: nat)
    requires n == |HeadEntries(b)|
    ensures var es := TinyEntries(b);
            && |es| == n + 6
            && HoldsAt(es, n, SBIN, 0x41ed, [])
            && HoldsAt(es, n + 1, In(SBIN, SUPERVISOR), 0x81ed, b.supervisor)
            && HoldsAt(es, n + 2, In(SBIN, RESTORE), 0x81ed, b.restore)
            && HoldsAt(es, n + 3, DEV, 0x41ed, [])
            && HoldsAt(es, n + 4, In(DEV, CONSOLE_NAME), 0x2180, [])
            && es[n + 4].meta.rmajor == 5 && es[n + 4].meta.rminor == 1
            && HoldsAt(es, n + 5, TMP, 0x43ff, [])
  {
    hide Name, In, HeadEntries;
  }
}
