/**
 * The newc cpio format as mkinitramfs.ts writes it, and a reader of it: hexadecimal fields,
 * names and data padded to four bytes, and the trailer that ends an archive for every reader.
 */
module Newc {
  import opened Bytes

  // ---------- Hexadecimal fields ----------

  function HexDigit(d: int): byte
    requires 0 <= d < 16
  {
    if d < 10 then 48 + d else 87 + d
  }

  function HexValue(b: byte): Option<int> {
    if 48 <= b <= 57 then Some(b - 48)
    else if 97 <= b <= 102 then Some(b - 87)
    else if 65 <= b <= 70 then Some(b - 55)
    else None
  }

  /** value.toString(16) */
  function HexOf(v: int): (s: Buffer)
    requires 0 <= v
    ensures |s| > 0
    decreases v
  {
    if v < 16 then [HexDigit(v)] else HexOf(v / 16) + [HexDigit(v % 16)]
  }

  function ToString16(v: int): Buffer { if v < 0 then [45] + HexOf(-v) else HexOf(v) }

  /** "00..0" */
  function ZeroDigits(n: nat): (s: Buffer)
    ensures |s| == n
  {
    if n == 0 then [] else ZeroDigits(n - 1) + [48]
  }

  function PadStart(s: Buffer, n: nat): Buffer {
    if |s| >= n then s else ZeroDigits(n - |s|) + s
  }

  function HexField(v: int): Buffer { PadStart(ToString16(v), 8) }

  function ParseHex(s: Buffer): Option<int>
    decreases |s|
  {
    if s == [] then Some(0)
    else
      match (ParseHex(s[..|s| - 1]), HexValue(s[|s| - 1]))
      case (Some(p), Some(d)) => Some(16 * p + d)
      case _ => None
  }

  function Pow16(k: nat): int { if k == 0 then 1 else 16 * Pow16(k - 1) }

  lemma {:induction false} HexLength(v: int, k: nat)
    requires 0 <= v && k > 0
    ensures |HexOf(v)| <= k <==> v < Pow16(k)
    decreases v
  {
    if v < 16 {
      Pow16Grows(k);
    } else if k == 1 {
      assert Pow16(1) == 16 * Pow16(0);
    } else {
      HexLength(v / 16, k - 1);
    }
  }

  lemma {:induction false} Pow16Grows(k: nat)
    requires k > 0
    ensures Pow16(k) >= 16
  {
    if k == 1 {
      assert Pow16(1) == 16 * Pow16(0);
    } else {
      Pow16Grows(k - 1);
    }
  }

  lemma {:induction false} ParseHexOf(v: int)
    requires 0 <= v
    ensures ParseHex(HexOf(v)) == Some(v)
    decreases v
  {
    if v < 16 {
      var s := HexOf(v);
      assert s[..0] == [] && ParseHex(s[..0]) == Some(0);
    } else {
      ParseHexOf(v / 16);
      assert HexOf(v)[..|HexOf(v)| - 1] == HexOf(v / 16);
    }
  }

  lemma {:induction false} ParseHexZeros(n: nat, s: Buffer)
    ensures ParseHex(ZeroDigits(n) + s) == ParseHex(s)
    decreases n + |s|
  {
    var z := ZeroDigits(n);
    if s != [] {
      ParseHexZeros(n, s[..|s| - 1]);
      assert (z + s)[..|z + s| - 1] == z + s[..|s| - 1];
    } else {
      assert z + s == z;
      if n > 0 {
        ParseHexZeros(n - 1, []);
        assert ZeroDigits(n - 1) + [] == ZeroDigits(n - 1);
        assert z[..n - 1] == ZeroDigits(n - 1);
      }
    }
  }

  lemma {:induction false} ParseHexNone(s: Buffer, i: nat)
    requires i < |s| && HexValue(s[i]) == None
    ensures ParseHex(s) == None
    decreases |s|
  {
    if i < |s| - 1 {
      ParseHexNone(s[..|s| - 1], i);
    }
  }

  /** A field of the header holds a number exactly when it is a 32-bit one; the writer does not check. */
  lemma FieldHoldsIff(v: int)
    ensures |HexField(v)| == 8 && ParseHex(HexField(v)) == Some(v) <==> 0 <= v < 0x1_0000_0000
  {
    if v < 0 {
      var s := ToString16(v);
      if |s| >= 8 {
        ParseHexNone(s, 0);
      } else {
        ParseHexZeros(8 - |s|, s);
        ParseHexNone(s, 0);
      }
    } else {
      HexLength(v, 8);
      assert Pow16(8) == 0x1_0000_0000;
      ParseHexOf(v);
      if |HexOf(v)| < 8 {
        ParseHexZeros(8 - |HexOf(v)|, HexOf(v));
      }
    }
  }

  function HexFields(vs: seq<int>): Buffer { if vs == [] then [] else HexField(vs[0]) + HexFields(vs[1..]) }

  function ReadFields(s: Buffer): Option<seq<int>>
    decreases |s|
  {
    if |s| < 8 then Some([])
    else
      match (ParseHex(s[..8]), ReadFields(s[8..]))
      case (Some(v), Some(vs)) => Some([v] + vs)
      case _ => None
  }

  lemma FirstField(field: Buffer, rest: Buffer)
    requires |field| == 8
    ensures (field + rest)[..8] == field && (field + rest)[8..] == rest
  {
  }

  predicate IsU32(v: int) { 0 <= v < 0x1_0000_0000 }

  predicate AllU32(vs: seq<int>) { vs == [] || (IsU32(vs[0]) && AllU32(vs[1..])) }

  lemma {:induction false} FieldsRoundTrip(vs: seq<int>)
    requires AllU32(vs)
    ensures |HexFields(vs)| == 8 * |vs| && ReadFields(HexFields(vs)) == Some(vs)
  {
    if vs != [] {
      FieldHoldsIff(vs[0]);
      FieldsRoundTrip(vs[1..]);
      FirstField(HexField(vs[0]), HexFields(vs[1..]));
      assert [vs[0]] + vs[1..] == vs;
    }
  }

  // ---------- Entries ----------

  datatype Meta = Meta(ino: int, mode: int, uid: int, gid: int, nlink: int, mtime: int, rmajor: int, rminor: int)

  datatype Entry = Entry(meta: Meta, name: Buffer, data: Buffer)

  /** "070701" */
  const MAGIC: Buffer := [48, 55, 48, 55, 48, 49]

  /** "TRAILER!!!" */
  const TRAILER: Buffer := [84, 82, 65, 73, 76, 69, 82, 33, 33, 33]

  function Fields(m: Meta, fileSize: int, nameSize: int): seq<int> {
    [m.ino, m.mode, m.uid, m.gid, m.nlink, m.mtime, fileSize, 0, 0, m.rmajor, m.rminor, nameSize, 0]
  }

  function Header(m: Meta, fileSize: int, nameSize: int): Buffer {
    MAGIC + HexFields(Fields(m, fileSize, nameSize))
  }

  function Pad4(length: nat): (p: nat)
    ensures p < 4 && (length + p) % 4 == 0
  {
    (4 - length % 4) % 4
  }

  function Padded(s: Buffer): Buffer { s + Zeros(Pad4(|s|)) }

  /** newc: header and name padded together, then the data padded. */
  function Written(e: Entry): Buffer {
    Padded(Header(e.meta, |e.data|, |e.name| + 1) + (e.name + [0])) + e.data + Zeros(Pad4(|e.data|))
  }

  /** What the format can hold. */
  predicate Representable(e: Entry) {
    && IsU32(e.meta.ino) && IsU32(e.meta.mode) && IsU32(e.meta.uid) && IsU32(e.meta.gid)
    && IsU32(e.meta.nlink) && IsU32(e.meta.mtime) && IsU32(e.meta.rmajor) && IsU32(e.meta.rminor)
    && IsU32(|e.data|) && IsU32(|e.name| + 1) && 0 !in e.name
  }

  datatype Found = Found(entry: Entry, next: nat) | Malformed

  function Align4(n: nat): nat { n + Pad4(n) }

  /** The C string at the start of a buffer. */
  function UpToNul(s: Buffer): Buffer { if s == [] || s[0] == 0 then [] else [s[0]] + UpToNul(s[1..]) }

  /** A reader of the format: the entry that starts at an offset of the archive. */
  function ReadEntry(s: Buffer, at: nat): (f: Found)
    ensures f.Found? ==> at < f.next
  {
    if at + 110 > |s| || s[at..at + 6] != MAGIC then Malformed
    else
      match ReadFields(s[at + 6..at + 110])
      case None => Malformed
      case Some(v) => if |v| != 13 then Malformed else ReadBody(s, at, v)
  }

  /** The name and the data of the entry whose header is v. */
  function ReadBody(s: Buffer, at: nat, v: seq<int>): (f: Found)
    requires at + 110 <= |s| && |v| == 13
    ensures f.Found? ==> at < f.next
  {
    if v[11] < 1 || v[6] < 0 then Malformed
    else
      var nameEnd := at + 110 + v[11];
      var dataStart := Align4(nameEnd);
      var dataEnd := dataStart + v[6];
      if dataEnd > |s| || s[nameEnd - 1] != 0 then Malformed
      else
        Found(Entry(Meta(v[0], v[1], v[2], v[3], v[4], v[5], v[9], v[10]),
                    UpToNul(s[at + 110..nameEnd]), s[dataStart..dataEnd]),
              Align4(dataEnd))
  }

  /** All entries up to the trailer. */
  function ReadArchive(s: Buffer, at: nat): Option<seq<Entry>>
    decreases |s| - at
  {
    match ReadEntry(s, at)
    case Malformed => None
    case Found(e, next) =>
      if e.name == TRAILER then Some([])
      else
        match ReadArchive(s, next)
        case None => None
        case Some(rest) => Some([e] + rest)
  }

  lemma {:induction false} UpToNulOfName(name: Buffer)
    requires 0 !in name
    ensures UpToNul(name + [0]) == name
  {
    if name != [] {
      UpToNulOfName(name[1..]);
      assert (name + [0])[1..] == name[1..] + [0];
    }
  }

  lemma FieldsAreU32(m: Meta, fileSize: int, nameSize: int)
    requires IsU32(m.ino) && IsU32(m.mode) && IsU32(m.uid) && IsU32(m.gid) && IsU32(m.nlink) && IsU32(m.mtime)
    requires IsU32(m.rmajor) && IsU32(m.rminor) && IsU32(fileSize) && IsU32(nameSize)
    ensures AllU32(Fields(m, fileSize, nameSize))
  {
    var f := Fields(m, fileSize, nameSize);
    AllU32FromEach(f, 0);
  }

  lemma {:induction false} AllU32FromEach(vs: seq<int>, i: nat)
    requires i <= |vs| && forall j :: 0 <= j < |vs| ==> IsU32(vs[j])
    ensures AllU32(vs[i..])
    decreases |vs| - i
  {
    if i < |vs| {
      AllU32FromEach(vs, i + 1);
      assert vs[i..][1..] == vs[i + 1..];
    }
  }

  lemma HeaderParts(m: Meta, fileSize: int, nameSize: int)
    requires AllU32(Fields(m, fileSize, nameSize))
    ensures var h := Header(m, fileSize, nameSize);
            |h| == 110 && h[..6] == MAGIC && ReadFields(h[6..]) == Some(Fields(m, fileSize, nameSize))
  {
    var fs := Fields(m, fileSize, nameSize);
    FieldsRoundTrip(fs);
    assert (MAGIC + HexFields(fs))[6..] == HexFields(fs);
  }

  lemma SliceOfSlice(s: Buffer, at: nat, w: Buffer, i: nat, j: nat)
    requires at + |w| <= |s| && s[at..at + |w|] == w && i <= j <= |w|
    ensures s[at + i..at + j] == w[i..j]
  {
    forall k: nat | k < j - i
      ensures s[at + i..at + j][k] == w[i..j][k]
    {
      assert s[at..at + |w|][i + k] == s[at + (i + k)];
    }
  }

  lemma PaddedParts(h: Buffer, name: Buffer, data: Buffer)
    ensures var w, n := Padded(h + name) + data + Zeros(Pad4(|data|)), |h| + |name|;
            && |w| == Align4(Align4(n) + |data|)
            && w[0..|h|] == h && w[|h|..n] == name && w[Align4(n)..Align4(n) + |data|] == data
  {
    hide Zeros, Pad4;
    ConcatParts(h, name, Zeros(Pad4(|h + name|)), data, Zeros(Pad4(|data|)));
  }

  lemma ConcatParts(h: Buffer, name: Buffer, z1: Buffer, data: Buffer, z2: Buffer)
    ensures var w, n := h + name + z1 + data + z2, |h| + |name|;
            && w[0..|h|] == h && w[|h|..n] == name && w[n + |z1|..n + |z1| + |data|] == data
  {
    var front := h + name + z1;
    FrontOf(front, data, z2);
    FrontOf(h, name, z1);
    SliceOfSlice(front + data + z2, 0, front, 0, |h|);
    SliceOfSlice(front + data + z2, 0, front, |h|, |h| + |name|);
  }

  lemma FrontOf(a: Buffer, b: Buffer, c: Buffer)
    ensures (a + b + c)[0..|a|] == a && (a + b + c)[|a|..|a| + |b|] == b
  {
  }

  lemma WrittenParts(e: Entry)
    requires Representable(e)
    ensures var w, h, n := Written(e), Header(e.meta, |e.data|, |e.name| + 1), 111 + |e.name|;
            && |h| == 110 && h[..6] == MAGIC && ReadFields(h[6..]) == Some(Fields(e.meta, |e.data|, |e.name| + 1))
            && |w| == Align4(Align4(n) + |e.data|)
            && w[0..110] == h && w[110..n] == e.name + [0] && w[Align4(n)..Align4(n) + |e.data|] == e.data
  {
    FieldsAreU32(e.meta, |e.data|, |e.name| + 1);
    HeaderParts(e.meta, |e.data|, |e.name| + 1);
    PaddedParts(Header(e.meta, |e.data|, |e.name| + 1), e.name + [0], e.data);
  }

  lemma {:induction false} FieldStands(vs: seq<int>, i: nat)
    requires AllU32(vs) && i < |vs|
    ensures 8 * i + 8 <= |HexFields(vs)| && ParseHex(HexFields(vs)[8 * i..8 * i + 8]) == Some(vs[i])
  {
    hide *;
    if i == 0 {
      FirstStands(vs);
    } else {
      FieldFurther(vs, i);
      FieldStands(vs[1..], i - 1);
    }
  }

  lemma FirstStands(vs: seq<int>)
    requires AllU32(vs) && vs != []
    ensures 8 <= |HexFields(vs)| && ParseHex(HexFields(vs)[0..8]) == Some(vs[0])
  {
    FieldHoldsIff(vs[0]);
    hide ParseHex, HexField;
    FirstField(HexField(vs[0]), HexFields(vs[1..]));
    assert HexFields(vs)[0..8] == HexFields(vs)[..8];
  }

  lemma FieldFurther(vs: seq<int>, i: nat)
    requires AllU32(vs) && 0 < i < |vs|
    ensures AllU32(vs[1..]) && vs[1..][i - 1] == vs[i]
    ensures 8 * i + 8 <= |HexFields(vs)| && 8 * i <= |HexFields(vs[1..])|
    ensures HexFields(vs)[8 * i..8 * i + 8] == HexFields(vs[1..])[8 * (i - 1)..8 * (i - 1) + 8]
  {
    FieldHoldsIff(vs[0]);
    FieldsRoundTrip(vs[1..]);
    hide ParseHex, HexField;
    FieldMoves(HexField(vs[0]), HexFields(vs[1..]), i);
  }

  lemma FieldMoves(first: Buffer, rest: Buffer, i: nat)
    requires |first| == 8 && i > 0 && 8 * i <= |rest|
    ensures (first + rest)[8 * i..8 * i + 8] == rest[8 * (i - 1)..8 * (i - 1) + 8]
  {
  }

  lemma HeaderFieldStands(e: Entry, i: nat)
    requires Representable(e) && i < 13
    ensures |Written(e)| >= 110
    ensures ParseHex(Written(e)[6 + 8 * i..14 + 8 * i]) == Some(Fields(e.meta, |e.data|, |e.name| + 1)[i])
  {
    var fs := Fields(e.meta, |e.data|, |e.name| + 1);
    var h := Header(e.meta, |e.data|, |e.name| + 1);
    WrittenParts(e);
    FieldsAreU32(e.meta, |e.data|, |e.name| + 1);
    FieldStands(fs, i);
    hide Written, HexFields, ParseHex, AllU32, Representable, Fields, ReadFields;
    FieldWithin(Written(e), h, HexFields(fs), i);
  }

  lemma FieldWithin(w: Buffer, h: Buffer, fields: Buffer, i: nat)
    requires h == MAGIC + fields && |w| >= |h| && w[0..|h|] == h && 8 * i + 8 <= |fields|
    ensures w[6 + 8 * i..14 + 8 * i] == fields[8 * i..8 * i + 8]
  {
    SliceOfSlice(w, 0, h, 6 + 8 * i, 14 + 8 * i);
    assert h[6..6 + |fields|] == fields;
    SliceOfSlice(h, 6, fields, 8 * i, 8 * i + 8);
  }

  /** The fields of the header by their offsets, in hexadecimal digits. */
  lemma HeaderOffsets(e: Entry)
    requires Representable(e)
    ensures var w, m := Written(e), e.meta;
            && |w| >= 110 && w[..6] == [48, 55, 48, 55, 48, 49]
            && ParseHex(w[6..14]) == Some(m.ino) && ParseHex(w[14..22]) == Some(m.mode)
            && ParseHex(w[22..30]) == Some(m.uid) && ParseHex(w[30..38]) == Some(m.gid)
            && ParseHex(w[38..46]) == Some(m.nlink) && ParseHex(w[46..54]) == Some(m.mtime)
            && ParseHex(w[54..62]) == Some(|e.data|)
            && ParseHex(w[78..86]) == Some(m.rmajor) && ParseHex(w[86..94]) == Some(m.rminor)
            && ParseHex(w[94..102]) == Some(|e.name| + 1)
            && ParseHex(w[62..70]) == ParseHex(w[70..78]) == ParseHex(w[102..110]) == Some(0)
  {
    var w := Written(e);
    WrittenParts(e);
    FieldAt(e, 0, 6, 14);
    FieldAt(e, 1, 14, 22);
    FieldAt(e, 2, 22, 30);
    FieldAt(e, 3, 30, 38);
    FieldAt(e, 4, 38, 46);
    FieldAt(e, 5, 46, 54);
    FieldAt(e, 6, 54, 62);
    FieldAt(e, 7, 62, 70);
    FieldAt(e, 8, 70, 78);
    FieldAt(e, 9, 78, 86);
    FieldAt(e, 10, 86, 94);
    FieldAt(e, 11, 94, 102);
    FieldAt(e, 12, 102, 110);
    hide Written, Header, ParseHex, ReadFields, Representable;
    assert w[..6] == w[0..110][..6];
  }

  lemma FieldAt(e: Entry, i: nat, lo: nat, hi: nat)
    requires Representable(e) && i < 13 && lo == 6 + 8 * i && hi == 14 + 8 * i
    ensures |Written(e)| >= 110 && ParseHex(Written(e)[lo..hi]) == Some(Fields(e.meta, |e.data|, |e.name| + 1)[i])
  {
    HeaderFieldStands(e, i);
  }

  /** What is between the parts of an entry is zero. */
  lemma PaddingIsZero(e: Entry)
    requires Representable(e)
    ensures var w, n := Written(e), 111 + |e.name|;
            && (forall i :: n <= i < Align4(n) && i < |w| ==> w[i] == 0)
            && (forall i :: Align4(n) + |e.data| <= i < |w| ==> w[i] == 0)
  {
    var h, name := Header(e.meta, |e.data|, |e.name| + 1), e.name + [0];
    WrittenParts(e);
    assert |h + name| == 111 + |e.name|;
    hide Header, ReadFields, Representable;
    ZerosStand(h + name, Zeros(Pad4(|h + name|)), e.data, Zeros(Pad4(|e.data|)));
  }

  lemma ZerosStand(a: Buffer, z: Buffer, b: Buffer, y: Buffer)
    requires (forall i :: 0 <= i < |z| ==> z[i] == 0) && (forall i :: 0 <= i < |y| ==> y[i] == 0)
    ensures var w := a + z + b + y;
            && (forall i :: |a| <= i < |a| + |z| ==> w[i] == 0)
            && (forall i :: |a| + |z| + |b| <= i < |w| ==> w[i] == 0)
  {
  }

  lemma AlignShift(at: nat, n: nat)
    requires at % 4 == 0
    ensures Align4(at + n) == at + Align4(n)
  {
  }

  lemma BodyParts(s: Buffer, at: nat, e: Entry)
    requires Representable(e) && at % 4 == 0
    requires at + |Written(e)| <= |s| && s[at..at + |Written(e)|] == Written(e)
    ensures var n := 111 + |e.name|;
            && Align4(at + n) == at + Align4(n) && Align4(at + Align4(n) + |e.data|) == at + |Written(e)|
            && at + Align4(n) + |e.data| <= |s|
            && s[at + 110..at + n] == e.name + [0]
            && s[at + Align4(n)..at + Align4(n) + |e.data|] == e.data
  {
    WrittenParts(e);
    PartsWithin(s, at, Written(e), e.name + [0], e.data);
  }

  lemma PartsWithin(s: Buffer, at: nat, w: Buffer, name: Buffer, data: Buffer)
    requires at % 4 == 0 && at + |w| <= |s| && s[at..at + |w|] == w
    requires var n := 110 + |name|;
             |w| == Align4(Align4(n) + |data|) && w[110..n] == name && w[Align4(n)..Align4(n) + |data|] == data
    ensures var n := 110 + |name|;
            && Align4(at + n) == at + Align4(n) && Align4(at + Align4(n) + |data|) == at + |w|
            && at + Align4(n) + |data| <= |s|
            && s[at + 110..at + n] == name
            && s[at + Align4(n)..at + Align4(n) + |data|] == data
  {
    var n := 110 + |name|;
    SliceOfSlice(s, at, w, 110, n);
    SliceOfSlice(s, at, w, Align4(n), Align4(n) + |data|);
    AlignShift(at, n);
    AlignShift(at, Align4(n) + |data|);
  }

  /** The reader's arithmetic, given what stands where. */
  lemma BodyReads(s: Buffer, at: nat, e: Entry, n: nat, next: nat)
    requires n == 111 + |e.name| && at + 110 <= |s| && 0 !in e.name
    requires Align4(at + n) == at + Align4(n) && Align4(at + Align4(n) + |e.data|) == next
    requires at + Align4(n) + |e.data| <= |s|
    requires s[at + 110..at + n] == e.name + [0]
    requires s[at + Align4(n)..at + Align4(n) + |e.data|] == e.data
    ensures ReadBody(s, at, Fields(e.meta, |e.data|, |e.name| + 1)) == Found(e, next)
  {
    UpToNulOfName(e.name);
    assert s[at + n - 1] == 0 by {
      assert s[at + 110..at + n][|e.name|] == (e.name + [0])[|e.name|];
    }
  }

  lemma HeadReads(s: Buffer, at: nat, h: Buffer, fs: seq<int>)
    requires |h| == 110 && |fs| == 13 && at + 110 <= |s| && s[at..at + 110] == h
    requires h[..6] == MAGIC && ReadFields(h[6..]) == Some(fs)
    ensures ReadEntry(s, at) == ReadBody(s, at, fs)
  {
    SliceOfSlice(s, at, h, 0, 6);
    SliceOfSlice(s, at, h, 6, 110);
    assert h[0..6] == h[..6] && h[6..110] == h[6..];
  }

  /** The reader finds an entry where the writer put it, at any aligned place of any archive. */
  lemma EntryRoundTrip(s: Buffer, at: nat, e: Entry)
    requires Representable(e) && at % 4 == 0
    requires at + |Written(e)| <= |s| && s[at..at + |Written(e)|] == Written(e)
    ensures ReadEntry(s, at) == Found(e, at + |Written(e)|) && |Written(e)| % 4 == 0
  {
    hide Written, Header, ReadEntry, ReadBody, ReadFields, HexFields;
    WrittenParts(e);
    BodyParts(s, at, e);
    SliceOfSlice(s, at, Written(e), 0, 110);
    BodyReads(s, at, e, 111 + |e.name|, at + |Written(e)|);
    HeadReads(s, at, Header(e.meta, |e.data|, |e.name| + 1), Fields(e.meta, |e.data|, |e.name| + 1));
  }

  /** Entries one after the other, and a trailer. */
  function WrittenAll(es: seq<Entry>): Buffer { if es == [] then [] else Written(es[0]) + WrittenAll(es[1..]) }

  function UntilTrailer(es: seq<Entry>): seq<Entry> {
    if es == [] || es[0].name == TRAILER then [] else [es[0]] + UntilTrailer(es[1..])
  }

  predicate AllRepresentable(es: seq<Entry>) { forall e :: e in es ==> Representable(e) }

  /** From an archive the reader recovers, in order, what was written before the first trailer. */
  lemma {:induction false} ArchiveRoundTrip(before: Buffer, es: seq<Entry>, after: Buffer)
    requires AllRepresentable(es) && |before| % 4 == 0
    requires exists e :: e in es && e.name == TRAILER
    ensures ReadArchive(before + WrittenAll(es) + after, |before|) == Some(UntilTrailer(es))
    decreases |es|
  {
    hide Written, ReadEntry, Representable;
    var w, rest := Written(es[0]), WrittenAll(es[1..]);
    var s := before + WrittenAll(es) + after;
    Regroup(before, w, rest, after);
    EntryRoundTrip(s, |before|, es[0]);
    if es[0].name != TRAILER {
      assert exists e :: e in es[1..] && e.name == TRAILER by {
        var t :| t in es && t.name == TRAILER;
        assert t in es[1..];
      }
      ArchiveRoundTrip(before + w, es[1..], after);
    }
  }

  lemma Regroup(before: Buffer, w: Buffer, rest: Buffer, after: Buffer)
    ensures var s := before + (w + rest) + after;
            && |s| >= |before| + |w|
            && s[|before|..|before| + |w|] == w
            && s == before + w + rest + after
  {
  }

  lemma {:induction false} UntilTrailerOfPlain(es: seq<Entry>, t: Entry)
    requires t.name == TRAILER
    ensures UntilTrailer(es + [t]) == es <==> forall e :: e in es ==> e.name != TRAILER
  {
    if es != [] {
      UntilTrailerOfPlain(es[1..], t);
      assert (es + [t])[1..] == es[1..] + [t];
      assert forall e :: e in es <==> e == es[0] || e in es[1..];
    }
  }

  lemma {:induction false} WrittenAllPush(es: seq<Entry>, e: Entry)
    ensures WrittenAll(es + [e]) == WrittenAll(es) + Written(e)
  {
    hide Written;
    if es == [] {
      assert WrittenAll([e]) == Written(e) + WrittenAll([]);
    } else {
      WrittenAllPush(es[1..], e);
      assert (es + [e])[1..] == es[1..] + [e];
      assert Written(es[0]) + (WrittenAll(es[1..]) + Written(e)) == Written(es[0]) + WrittenAll(es[1..]) + Written(e);
    }
  }

  /** An archive closed by a trailer reads back as its entries exactly when none is named like the trailer. */
  lemma ClosedArchiveReadsBackIff(es: seq<Entry>, t: Entry)
    requires AllRepresentable(es + [t]) && t.name == TRAILER
    ensures ReadArchive(WrittenAll(es + [t]), 0) == Some(es) <==> forall e :: e in es ==> e.name != TRAILER
  {
    hide Written, ReadArchive, Representable;
    assert t in es + [t];
    var empty: Buffer := [];
    ArchiveRoundTrip(empty, es + [t], empty);
    assert empty + WrittenAll(es + [t]) + empty == WrittenAll(es + [t]);
    UntilTrailerOfPlain(es, t);
  }
}
