/**
 * The archive writer of firecracker-nested/run.ts. Unlike the initramfs writer it checks the
 * names and the numbers it is about to write, and it counts the inodes of its entries itself.
 */
module FirecrackerArchive {
  import opened Bytes
  import opened Newc

  datatype File = File(name: Buffer, mode: int, data: Buffer)

  datatype Error = InvalidName(name: Buffer) | InodeTooLarge | ModeOutOfRange | SizeTooLarge | NameTooLong

  /** The first check an entry fails. */
  function Rejection(ino: int, f: File): Option<Error> {
    if f.name == [] || 47 in f.name || 0 in f.name then Some(InvalidName(f.name))
    else if !IsU32(ino) then Some(InodeTooLarge)
    else if !IsU32(f.mode) then Some(ModeOutOfRange)
    else if !IsU32(|f.data|) then Some(SizeTooLarge)
    else if !IsU32(|f.name| + 1) then Some(NameTooLong)
    else None
  }

  function EntryOf(ino: int, f: File): Entry { Entry(Meta(ino, f.mode, 0, 0, 1, 0, 0, 0), f.name, f.data) }

  /** The files with their inode numbers, counted from `ino`. */
  function Numbered(files: seq<File>, ino: int): seq<Entry> {
    if files == [] then [] else [EntryOf(ino, files[0])] + Numbered(files[1..], ino + 1)
  }

  const END := File(TRAILER, 0, [])

  /** What goes wrong first, over all files and the trailer. */
  function FirstRejection(files: seq<File>, ino: int): Option<Error> {
    if files == [] then Rejection(ino, END)
    else if Rejection(ino, files[0]).Some? then Rejection(ino, files[0])
    else FirstRejection(files[1..], ino + 1)
  }

  lemma AcceptedIsRepresentable(ino: int, f: File)
    requires Rejection(ino, f) == None
    ensures Representable(EntryOf(ino, f))
  {
  }

  /** appendNewcEntry: five chunks, or an error and none. */
  method AppendNewcEntry(chunks: seq<Buffer>, ino: int, f: File) returns (r: Result<seq<Buffer>, Error>)
    ensures match Rejection(ino, f)
            case Some(e) => r == Err(e)
            case None => r.Ok? && chunks <= r.value && Flatten(r.value) == Flatten(chunks) + Written(EntryOf(ino, f))
  {
    var rejection := Rejection(ino, f);
    if rejection.Some? { return Err(rejection.value); }
    var e := EntryOf(ino, f);
    var nameBytes := f.name + [0];
    var header := Header(e.meta, |f.data|, |nameBytes|);
    var padding, tail := Zeros(Pad4(|header| + |nameBytes|)), Zeros(Pad4(|f.data|));
    var five := [header, nameBytes, padding, f.data, tail];
    FlattenAppend(chunks, five);
    FiveChunks(header, nameBytes, padding, f.data, tail);
    r := Ok(chunks + five);
  }

  lemma FiveChunks(a: Buffer, b: Buffer, c: Buffer, d: Buffer, e: Buffer)
    ensures Flatten([a, b, c, d, e]) == a + b + c + d + e
  {
    FlattenPush([a, b, c, d], e);
    FlattenPush([a, b, c], d);
    FlattenPush([a, b], c);
    FlattenPush([a], b);
    assert [a, b, c, d] + [e] == [a, b, c, d, e];
    assert [a, b, c] + [d] == [a, b, c, d];
    assert [a, b] + [c] == [a, b, c];
    assert [a] + [b] == [a, b];
    assert Flatten([a]) == a + Flatten([]);
  }

  /** The archive is written exactly when every entry and the trailer pass the checks. */
  method MakeNewcArchive(files: seq<File>) returns (r: Result<Buffer, Error>)
    ensures match FirstRejection(files, 1)
            case Some(e) => r == Err(e)
            case None => r == Ok(WrittenAll(Numbered(files + [END], 1)))
  {
    hide Rejection, Written, Representable, WrittenAll;
    var chunks: seq<Buffer> := [];
    assert Flatten(chunks) + WrittenAll(Numbered(files + [END], 1)) == WrittenAll(Numbered(files + [END], 1));
    for i := 0 to |files|
      invariant FirstRejection(files[i..], i + 1) == FirstRejection(files, 1)
      invariant Flatten(chunks) + WrittenAll(Numbered(files[i..] + [END], i + 1))
             == WrittenAll(Numbered(files + [END], 1))
    {
      NextFile(files, i);
      var appended := AppendNewcEntry(chunks, i + 1, files[i]);
      if appended.Err? { return Err(appended.error); }
      MoveAcross(Flatten(chunks), EntryOf(i + 1, files[i]), Numbered(files[i + 1..] + [END], i + 2));
      chunks := appended.value;
    }
    var closed := AppendNewcEntry(chunks, |files| + 1, END);
    if closed.Err? { return Err(closed.error); }
    JustTheEnd(|files| + 1);
    assert files[|files|..] + [END] == [END];
    r := Ok(Flatten(closed.value));
  }

  lemma JustTheEnd(ino: int)
    ensures WrittenAll(Numbered([END], ino)) == Written(EntryOf(ino, END))
  {
    hide Written;
    assert Numbered([END], ino) == [EntryOf(ino, END)] + Numbered([], ino + 1);
    assert WrittenAll([EntryOf(ino, END)]) == Written(EntryOf(ino, END)) + WrittenAll([]);
  }

  lemma NextFile(files: seq<File>, i: nat)
    requires i < |files|
    ensures Numbered(files[i..] + [END], i + 1)
         == [EntryOf(i + 1, files[i])] + Numbered(files[i + 1..] + [END], i + 2)
    ensures FirstRejection(files[i..], i + 1)
         == if Rejection(i + 1, files[i]).Some? then Rejection(i + 1, files[i]) else FirstRejection(files[i + 1..], i + 2)
  {
    hide Rejection;
    assert files[i..][1..] == files[i + 1..];
    assert (files[i..] + [END])[1..] == files[i + 1..] + [END];
  }

  lemma MoveAcross(done: Buffer, e: Entry, rest: seq<Entry>)
    ensures done + WrittenAll([e] + rest) == done + Written(e) + WrittenAll(rest)
  {
    hide Written;
    assert ([e] + rest)[1..] == rest;
  }

  lemma {:induction false} NumberedAt(files: seq<File>, ino: int)
    ensures |Numbered(files, ino)| == |files|
    ensures forall i :: 0 <= i < |files| ==> Numbered(files, ino)[i] == EntryOf(ino + i, files[i])
  {
    if files != [] {
      NumberedAt(files[1..], ino + 1);
    }
  }

  lemma {:induction false} NumberedPush(files: seq<File>, ino: int, f: File)
    ensures Numbered(files + [f], ino) == Numbered(files, ino) + [EntryOf(ino + |files|, f)]
  {
    hide EntryOf;
    if files == [] {
      assert files + [f] == [f];
      assert Numbered([f], ino) == [EntryOf(ino, f)] + Numbered([], ino + 1);
    } else {
      NumberedPush(files[1..], ino + 1, f);
      assert (files + [f])[1..] == files[1..] + [f];
    }
  }

  lemma {:induction false} NumberedFits(files: seq<File>, ino: int)
    requires FirstRejection(files, ino) == None
    ensures AllRepresentable(Numbered(files, ino))
    ensures Representable(EntryOf(ino + |files|, END))
  {
    hide Rejection, Representable, EntryOf;
    if files == [] {
      AcceptedIsRepresentable(ino, END);
    } else {
      AcceptedIsRepresentable(ino, files[0]);
      NumberedFits(files[1..], ino + 1);
    }
  }

  /** An archive that is written reads back exactly when no file is named like the trailer. */
  lemma ArchiveReadsBackIff(files: seq<File>)
    requires FirstRejection(files, 1) == None
    ensures ReadArchive(WrittenAll(Numbered(files + [END], 1)), 0) == Some(Numbered(files, 1))
            <==> forall f :: f in files ==> f.name != TRAILER
  {
    hide Rejection, Representable, Written, ReadArchive;
    NumberedFits(files, 1);
    NumberedPush(files, 1, END);
    NumberedAt(files, 1);
    var es := Numbered(files, 1);
    ClosedArchiveReadsBackIff(es, EntryOf(1 + |files|, END));
    assert forall i :: 0 <= i < |files| ==> es[i].name == files[i].name && es[i] in es && files[i] in files;
  }

  /** What an entry must be like for the writer to take it. */
  predicate Acceptable(ino: int, f: File) {
    && f.name != [] && '/' as int !in f.name && 0 !in f.name
    && IsU32(ino) && IsU32(f.mode) && |f.data| < 0x1_0000_0000 && |f.name| + 1 < 0x1_0000_0000
  }

  /** The archive is written exactly when every file is acceptable under its number, and the trailer has one. */
  lemma {:induction false} WrittenIff(files: seq<File>, ino: int)
    ensures FirstRejection(files, ino) == None <==>
            (forall i :: 0 <= i < |files| ==> Acceptable(ino + i, files[i])) && IsU32(ino + |files|)
  {
    if files != [] {
      WrittenIff(files[1..], ino + 1);
      assert Rejection(ino, files[0]) == None <==> Acceptable(ino + 0, files[0]);
      if forall i :: 0 <= i < |files[1..]| ==> Acceptable(ino + 1 + i, files[1..][i]) {
        forall i | 0 < i < |files|
          ensures Acceptable(ino + i, files[i])
        {
          assert files[1..][i - 1] == files[i];
        }
      }
      if forall i :: 0 <= i < |files| ==> Acceptable(ino + i, files[i]) {
        forall i | 0 <= i < |files[1..]|
          ensures Acceptable(ino + 1 + i, files[1..][i])
        {
          assert files[1..][i] == files[i + 1];
        }
      }
    }
  }

  /** The entries read back carry the files' names, modes and data, and are numbered from 1. */
  lemma ArchiveHoldsFiles(files: seq<File>)
    requires FirstRejection(files, 1) == None && forall f :: f in files ==> f.name != TRAILER
    ensures var back := ReadArchive(WrittenAll(Numbered(files + [END], 1)), 0);
            && back.Some? && |back.value| == |files|
            && forall i :: 0 <= i < |files| ==>
                 && back.value[i].name == files[i].name && back.value[i].data == files[i].data
                 && back.value[i].meta == Meta(1 + i, files[i].mode, 0, 0, 1, 0, 0, 0)
  {
    hide Rejection, Written, ReadArchive;
    ArchiveReadsBackIff(files);
    NumberedAt(files, 1);
  }
}
