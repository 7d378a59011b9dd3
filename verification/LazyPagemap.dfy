/** The pagemap rewriter of lazy-pagemap.ts. */
module LazyPagemap {
  import opened Bytes
  import opened JsNumber
  import opened Protobuf

  const PAGE_SIZE := 4096

  // pagemap_entry field numbers
  const VADDR := 1
  const COMPAT_NR_PAGES := 2
  const FLAGS := 4
  const NR_PAGES := 5

  /** A half-open address range [lo, hi). */
  datatype VmaRange = VmaRange(lo: int, hi: int)

  // ---------- What an entry says ----------

  function Value(lv: map<nat, nat>, num: nat, default: nat): nat {
    if num in lv then lv[num] else default
  }

  /** `n & PE_LAZY` and `n & PE_PRESENT`: bits 1 and 2. */
  predicate HasLazy(n: nat) { n / 2 % 2 == 1 }

  predicate HasPresent(n: nat) { n / 4 % 2 == 1 }

  predicate InLazyRange(vaddr: nat, len: nat, ranges: seq<VmaRange>) {
    exists i :: 0 <= i < |ranges| && vaddr >= ranges[i].lo && vaddr + len <= ranges[i].hi
  }

  function FlagsNumber(lv: map<nat, nat>): nat { ToNumber(Value(lv, FLAGS, 0)) }

  function PageCount(lv: map<nat, nat>): nat {
    Value(lv, NR_PAGES, Value(lv, COMPAT_NR_PAGES, 0))
  }

  predicate AlreadyLazy(lv: map<nat, nat>) { HasLazy(FlagsNumber(lv)) }

  /** Present, not yet lazy, and all its pages inside one range. */
  predicate Eligible(lv: map<nat, nat>, ranges: seq<VmaRange>) {
    && !AlreadyLazy(lv)
    && HasPresent(FlagsNumber(lv))
    && VADDR in lv
    && InLazyRange(lv[VADDR], PageCount(lv) * PAGE_SIZE, ranges)
  }

  /** `n | PE_LAZY` in JavaScript: a signed 32-bit result. */
  function OrLazy(n: nat): int {
    var u := n % 0x1_0000_0000;
    var w := if HasLazy(u) then u else u + 2;
    if w < 0x8000_0000 then w else w - 0x1_0000_0000
  }

  /** Adding the missing bit 1 leaves the bits around it alone. */
  lemma AddLazy(u: nat)
    requires !HasLazy(u)
    ensures HasLazy(u + 2) && HasPresent(u + 2) == HasPresent(u)
    ensures u % 4 < 2
  {
    var q, r := u / 4, u % 4;
    BitsAbove(q, r);
    assert u == 4 * q + r && u + 2 == 4 * q + (r + 2);
  }

  /** Bits 1 and 2 of a number depend on the low bits only. */
  lemma BitsAbove(q: nat, r: nat)
    ensures (4 * q + r) / 2 == 2 * q + r / 2
    ensures (2 * q + r / 2) % 2 == r / 2 % 2
    ensures (4 * q + r) / 4 == q + r / 4
  {
  }

  lemma LowBits(k: nat, u: nat)
    ensures HasLazy(8 * k + u) == HasLazy(u) && HasPresent(8 * k + u) == HasPresent(u)
  {
    BitsAbove(2 * k, u);
    assert 2 * k % 2 == 0;
  }

  /** The low 32 bits have the same two bits. */
  lemma LowHalf(n: nat)
    ensures HasLazy(n % 0x1_0000_0000) == HasLazy(n) && HasPresent(n % 0x1_0000_0000) == HasPresent(n)
  {
    var k, u := 0x2000_0000 * (n / 0x1_0000_0000), n % 0x1_0000_0000;
    assert n == 8 * k + u;
    LowBits(k, u);
  }

  /** Below a multiple of four, so is the number with the missing bit added. */
  lemma StaysBelow(u: nat, q: nat)
    requires u % 4 < 2
    ensures u + 2 < 4 * q <==> u < 4 * q
  {
  }

  /** `| PE_LAZY` by cases: what it does to the low half, and when the result is not negative. */
  lemma OrLazyCases(n: nat)
    ensures var u := n % 0x1_0000_0000;
            && (OrLazy(n) >= 0 <==> u < 0x8000_0000)
            && (OrLazy(n) >= 0 ==> OrLazy(n) == if HasLazy(n) then u else u + 2)
            && OrLazy(n) < 0x8000_0000
            && (OrLazy(n) >= 0 ==> HasLazy(OrLazy(n)) && HasPresent(OrLazy(n)) == HasPresent(n))
  {
    LowHalf(n);
    if !HasLazy(n) {
      AddLazy(n % 0x1_0000_0000);
      StaysBelow(n % 0x1_0000_0000, 0x2000_0000);
      StaysBelow(n % 0x1_0000_0000, 0x4000_0000);
    }
  }

  /**
   * On a flags word without the bit, `| PE_LAZY` adds 2 and disturbs no other bit exactly
   * when the word is below 2^31. With bit 31 of the low half set it turns negative, which
   * the varint writer refuses; above 2^32 it drops the high half.
   */
  lemma OrLazyAddsOnlyLazyIffBelowTwo31(flags: nat)
    requires !HasLazy(ToNumber(flags))
    ensures OrLazy(ToNumber(flags)) == flags + 2 <==> flags < 0x8000_0000
  {
    OrLazyCases(ToNumber(flags));
  }

  /** Once or-ed in, the bit is there and PE_PRESENT is as before. */
  lemma OrLazySetsBit(n: nat)
    requires OrLazy(n) >= 0
    ensures OrLazy(n) < 0x8000_0000
    ensures HasLazy(ToNumber(OrLazy(n)))
    ensures HasPresent(ToNumber(OrLazy(n))) == HasPresent(n)
  {
    OrLazyCases(n);
  }

  // ---------- Reading an entry ----------

  /** What parsePagemapEntryFields remembers: last values, and where the last flags value stands. */
  datatype Summary = Summary(values: map<nat, nat>, span: Span)

  const NOTHING := Summary(map[], NoSpan)

  function Absorb(acc: Summary, f: Field, start: int, len: int): Summary {
    match f
    case OpaqueField(_, _, _, _) => acc
    case VarintField(num, value) =>
      Summary(acc.values[num := value], if num == FLAGS then Span(start, len) else acc.span)
  }

  /** Left-to-right reading of the fields of msg from pos on. */
  function Summarize(msg: Buffer, pos: nat, acc: Summary): Result<Summary, Error>
    decreases |msg| - pos
  {
    if pos >= |msg| then Ok(acc)
    else
      var t := TokenAt(msg, pos);
      if t.NoToken? then Err(t.error)
      else Summarize(msg, pos + t.size, Absorb(acc, t.field, pos + t.tag, t.size - t.tag))
  }

  /** The left-to-right reading computes exactly the last-one-wins view of the decoded fields. */
  lemma {:induction false} SummarizeIsLastOneWins(msg: Buffer, pos: nat, acc: Summary)
    ensures !Decode(msg, pos).Readable() ==> Summarize(msg, pos, acc) == Err(Decode(msg, pos).FirstError())
    ensures Decode(msg, pos).Readable() ==>
              var last := LastSpan(msg, pos, FLAGS);
              Summarize(msg, pos, acc) == Ok(Summary(acc.values + Decode(msg, pos).LastValues(),
                                                     if last.Span? then last else acc.span))
    decreases |msg| - pos
  {
    hide TokenAt;
    if pos >= |msg| {
      assert acc.values + map[] == acc.values;
    } else if TokenAt(msg, pos).Token? {
      var t := TokenAt(msg, pos);
      var acc' := Absorb(acc, t.field, pos + t.tag, t.size - t.tag);
      SummarizeIsLastOneWins(msg, pos + t.size, acc');
      if t.field.VarintField? {
        LaterWins(acc.values, t.field.num, t.field.value, Decode(msg, pos + t.size).LastValues());
      }
    }
  }

  lemma LaterWins(m: map<nat, nat>, num: nat, value: nat, later: map<nat, nat>)
    ensures m[num := value] + later == m + (map[num := value] + later)
  {
  }

  class EntryFields {
    var flagsValPos: int
    var flagsValLen: int
    var flags: nat
    var vaddr: Option<nat>
    var nrPages: Option<nat>
    var compatNrPages: Option<nat>

    constructor ()
      ensures Holds(NOTHING)
    {
      flagsValPos, flagsValLen, flags := -1, 0, 0;
      vaddr, nrPages, compatNrPages := None, None, None;
    }

    ghost predicate Holds(s: Summary)
      reads this
    {
      && vaddr == Slot(s.values, VADDR)
      && nrPages == Slot(s.values, NR_PAGES)
      && compatNrPages == Slot(s.values, COMPAT_NR_PAGES)
      && flags == FlagsNumber(s.values)
      && (if s.span.Span? then flagsValPos == s.span.start && flagsValLen == s.span.len
          else flagsValPos == -1 && flagsValLen == 0)
    }

    method Apply(field: nat, value: nat, valueStart: nat, valueNext: nat, ghost acc: Summary)
      requires Holds(acc)
      modifies this
      ensures Holds(Absorb(acc, VarintField(field, value), valueStart, valueNext - valueStart))
    {
      if field == VADDR {
        vaddr := Some(value);
      } else if field == COMPAT_NR_PAGES {
        compatNrPages := Some(value);
      } else if field == FLAGS {
        flagsValPos := valueStart;
        flagsValLen := valueNext - valueStart;
        flags := ToNumber(value);
      } else if field == NR_PAGES {
        nrPages := Some(value);
      }
    }
  }

  function Slot(lv: map<nat, nat>, num: nat): Option<nat> {
    if num in lv then Some(lv[num]) else None
  }

  method ReadPagemapEntryField(msg: Buffer, pos: nat, fields: EntryFields, ghost acc: Summary)
    returns (r: Result<nat, Error>)
    requires pos < |msg| && fields.Holds(acc)
    modifies fields
    ensures var t := TokenAt(msg, pos);
            if t.NoToken? then r == Err(t.error)
            else r == Ok(pos + t.size) && fields.Holds(Absorb(acc, t.field, pos + t.tag, t.size - t.tag))
  {
    var tag := ReadVarint(msg, pos);
    if tag.Unreadable? {
      return Err(tag.error);
    }
    if tag.value % 8 != 0 {
      var next := SkipField(msg, tag.next, tag.value % 8);
      return if next.Ok? then Ok(next.value) else Err(next.error);
    }
    var value := ReadVarint(msg, tag.next);
    if value.Unreadable? {
      return Err(value.error);
    }
    fields.Apply(tag.value / 8, value.value, tag.next, value.next, acc);
    return Ok(value.next);
  }

  method ParsePagemapEntryFields(msg: Buffer) returns (r: Result<EntryFields, Error>)
    ensures match Summarize(msg, 0, NOTHING)
            case Err(e) => r == Err(e)
            case Ok(s) => r.Ok? && fresh(r.value) && r.value.Holds(s)
  {
    hide TokenAt, Absorb;
    var fields := new EntryFields();
    var pos: nat := 0;
    ghost var acc := NOTHING;
    while pos < |msg|
      invariant fields.Holds(acc)
      invariant Summarize(msg, 0, NOTHING) == Summarize(msg, pos, acc)
      decreases |msg| - pos
    {
      var next := ReadPagemapEntryField(msg, pos, fields, acc);
      if next.Err? {
        return Err(next.error);
      }
      ghost var t := TokenAt(msg, pos);
      acc := Absorb(acc, t.field, pos + t.tag, t.size - t.tag);
      pos := next.value;
    }
    return Ok(fields);
  }

  method VaddrInLazyRange(vaddr: nat, len: nat, ranges: seq<VmaRange>) returns (b: bool)
    ensures b <==> InLazyRange(vaddr, len, ranges)
  {
    var hi := vaddr + len;
    for i := 0 to |ranges|
      invariant forall j :: 0 <= j < i ==> !(vaddr >= ranges[j].lo && hi <= ranges[j].hi)
    {
      if vaddr >= ranges[i].lo && hi <= ranges[i].hi {
        return true;
      }
    }
    return false;
  }

  // ---------- Rewriting an entry ----------

  datatype EntryRewrite = EntryRewrite(out: Buffer, changed: bool, alreadyLazy: bool)

  /** The outcome of rewriting one entry message. */
  function RewrittenEntry(msg: Buffer, ranges: seq<VmaRange>): (r: Result<EntryRewrite, Error>)
    ensures r.Ok? ==> |r.value.out| <= |msg|
  {
    var fs := Decode(msg);
    if !fs.Readable() then Err(fs.FirstError())
    else
      var lv := fs.LastValues();
      if !Eligible(lv, ranges) then Ok(EntryRewrite(msg, false, AlreadyLazy(lv)))
      else if OrLazy(FlagsNumber(lv)) < 0 then Err(NegativeVarint)
      else
        SpanOfEligible(msg, ranges);
        Ok(EntryRewrite(Overwrite(msg, LastSpan(msg, 0, FLAGS), OrLazy(FlagsNumber(lv))), true, false))
  }

  /** An eligible entry has a flags field, and the new flags never need more bytes than the old ones took. */
  lemma SpanOfEligible(msg: Buffer, ranges: seq<VmaRange>)
    requires Decode(msg).Readable() && Eligible(Decode(msg).LastValues(), ranges)
    requires OrLazy(FlagsNumber(Decode(msg).LastValues())) >= 0
    ensures Decode(msg).Has(FLAGS)
    ensures var sp := LastSpan(msg, 0, FLAGS);
            && sp.Span? && 0 <= sp.start <= sp.start + sp.len <= |msg|
            && |EncodedVarint(OrLazy(FlagsNumber(Decode(msg).LastValues())))| <= sp.len
  {
    HasIsLastValue(Decode(msg), FLAGS);
    assert !HasPresent(0);
    SpanWhenValue(msg, 0, FLAGS);
    SpanHoldsValue(msg, 0, FLAGS);
    NewFlagsFit(msg, LastSpan(msg, 0, FLAGS).start);
  }

  lemma NewFlagsFit(buf: Buffer, pos: nat)
    requires Varint(buf, pos).Read? && OrLazy(ToNumber(Varint(buf, pos).value)) >= 0
    ensures pos + |EncodedVarint(OrLazy(ToNumber(Varint(buf, pos).value)))| <= Varint(buf, pos).next
  {
    var v, n := Varint(buf, pos).value, Varint(buf, pos).next - pos;
    if n >= 5 {
      EncodedLength(OrLazy(ToNumber(v)), 5);
    } else {
      VarintBound(buf, pos);
      PowersOf7(n);
      OrLazyIsLowBit(v);
      SameLengthUpToLowDigit(buf, pos, OrLazy(v));
    }
  }

  /** A number that differs from the one read in its low seven bits only needs no more bytes. */
  lemma SameLengthUpToLowDigit(buf: Buffer, pos: nat, w: nat)
    requires Varint(buf, pos).Read? && w < 0x1_0000_0000 && w / 0x80 == Varint(buf, pos).value / 0x80
    ensures pos + |EncodedVarint(w)| <= Varint(buf, pos).next
  {
    assert w % 0x1_0000_0000 == w;
    if w >= 0x80 {
      assert buf[pos] >= 0x80;
      EncodeIsShortest(buf, pos + 1, w / 0x80, 1);
    }
  }

  lemma OrLazyIsLowBit(v: nat)
    requires v < 0x1000_0000
    ensures OrLazy(v) / 0x80 == v / 0x80
  {
    OrLazyCases(v);
    if !HasLazy(v) {
      var q, d := v / 0x80, v % 0x80;
      assert v == 0x80 * q + d;
      LowDigitHasRoom(q, d);
    }
  }

  lemma LowDigitHasRoom(q: nat, d: nat)
    requires d < 0x80 && !HasLazy(0x80 * q + d)
    ensures (0x80 * q + d + 2) / 0x80 == q
  {
    LowBits(0x10 * q, d);
    AddLazy(d);
    StaysBelow(d, 0x20);
  }

  lemma PowersOf7(n: nat)
    requires n < 5
    ensures ShiftLeft(1, 7 * n) <= 0x1000_0000
  {
    ShiftDigit(1, 0);
    ShiftDigit(1, 7);
    ShiftDigit(1, 14);
    ShiftDigit(1, 21);
    ShiftDigit(0x80, 0);
    ShiftDigit(0x80, 7);
    ShiftDigit(0x80, 14);
    ShiftDigit(0x4000, 0);
    ShiftDigit(0x4000, 7);
    ShiftDigit(0x20_0000, 0);
  }

  method RewriteEntry(msg: Buffer, ranges: seq<VmaRange>) returns (r: Result<EntryRewrite, Error>)
    ensures r == RewrittenEntry(msg, ranges)
  {
    var parsed := ParsePagemapEntryFields(msg);
    SummarizeIsLastOneWins(msg, 0, NOTHING);
    if parsed.Err? {
      return Err(parsed.error);
    }
    var fields := parsed.value;
    ghost var lv := Decode(msg).LastValues();
    assert map[] + lv == lv;
    if fields.flags / 2 % 2 != 0 {
      return Ok(EntryRewrite(msg, false, true));
    }
    var should := EntryShouldBecomeLazy(fields, ranges, Summary(lv, LastSpan(msg, 0, FLAGS)));
    if !should {
      return Ok(EntryRewrite(msg, false, false));
    }
    if OrLazy(fields.flags) >= 0 {
      SpanOfEligible(msg, ranges);
    }
    var newFlags := EncodeVarint(OrLazy(fields.flags));
    if newFlags.Err? {
      return Err(newFlags.error);
    }
    var out := msg[..fields.flagsValPos] + newFlags.value + msg[fields.flagsValPos + fields.flagsValLen..];
    return Ok(EntryRewrite(out, true, false));
  }

  method EntryShouldBecomeLazy(fields: EntryFields, ranges: seq<VmaRange>, ghost s: Summary) returns (b: bool)
    requires fields.Holds(s) && !AlreadyLazy(s.values)
    ensures b <==> Eligible(s.values, ranges)
  {
    if fields.flags / 4 % 2 == 0 || fields.vaddr.None? {
      return false;
    }
    var pages := match fields.nrPages
      case Some(n) => n
      case None => match fields.compatNrPages case Some(n) => n case None => 0;
    if |ranges| == 0 {
      return false;
    }
    b := VaddrInLazyRange(fields.vaddr.value, pages * PAGE_SIZE, ranges);
  }

  // ---------- Framing ----------

  /** One message and where the next one starts. */
  datatype FrameRead = Frame(msg: Buffer, next: int) | NoFrame(error: Error)

  function FrameAt(input: Buffer, pos: nat): (r: FrameRead)
    ensures r.Frame? ==> pos + 4 <= r.next <= |input| && |r.msg| == r.next - pos - 4 < 0x1_0000_0000
  {
    if pos + 4 > |input| then NoFrame(MissingSizePrefix)
    else
      var size := ReadU32LE(input, pos);
      if pos + 4 + size > |input| then NoFrame(TruncatedMessage)
      else Frame(input[pos + 4..pos + 4 + size], pos + 4 + size)
  }

  function Framed(msg: Buffer): Buffer
    requires |msg| < 0x1_0000_0000
  {
    WriteU32LE(|msg|) + msg
  }

  lemma FrameRoundTrip(before: Buffer, msg: Buffer, after: Buffer)
    requires |msg| < 0x1_0000_0000
    ensures FrameAt(before + Framed(msg) + after, |before|) == Frame(msg, |before + Framed(msg)|)
  {
    var s, prefix := before + Framed(msg) + after, WriteU32LE(|msg|);
    assert s == before + prefix + (msg + after) == before + prefix + msg + after;
    Middle(before, prefix, msg + after);
    Middle(before + prefix, msg, after);
    U32RoundTrip(|msg|, s, |before|);
  }

  lemma FrameCanonical(input: Buffer, pos: nat)
    requires FrameAt(input, pos).Frame?
    ensures Framed(FrameAt(input, pos).msg) == input[pos..FrameAt(input, pos).next]
  {
    U32Canonical(input, pos);
  }

  /** The messages of an image body from pos on, or up to where the framing breaks. */
  datatype Messages = Done | Broken(error: Error) | Msg(msg: Buffer, rest: Messages) {
    predicate Whole() {
      match this
      case Done => true
      case Broken(_) => false
      case Msg(_, rest) => rest.Whole()
    }
  }

  function MessagesAt(input: Buffer, pos: nat): Messages
    decreases |input| - pos
  {
    if pos >= |input| then Done
    else
      var f := FrameAt(input, pos);
      if f.NoFrame? then Broken(f.error) else Msg(f.msg, MessagesAt(input, f.next))
  }

  // ---------- Rewriting a pagemap ----------

  datatype RewriteResult = RewriteResult(out: Buffer, changed: bool, entriesFlagged: int, entriesAlreadyLazy: int)

  /** The head message is copied, every other one is an entry to rewrite. */
  function RewrittenMessage(msg: Buffer, isFirst: bool, rewrite: Rewriter): Result<EntryRewrite, Error> {
    var e := if isFirst then Ok(EntryRewrite(msg, false, false)) else rewrite(msg);
    if e.Ok? && |e.value.out| >= 0x1_0000_0000 then Err(TooLong) else e
  }

  type Rewriter = Buffer -> Result<EntryRewrite, Error>

  function EntryRewriter(ranges: seq<VmaRange>): Rewriter { (msg: Buffer) => RewrittenEntry(msg, ranges) }

  function Append(r: RewriteResult, e: EntryRewrite): RewriteResult
    requires |e.out| < 0x1_0000_0000
  {
    RewriteResult(r.out + Framed(e.out), r.changed || e.changed,
                  r.entriesFlagged + (if e.changed then 1 else 0),
                  r.entriesAlreadyLazy + (if e.alreadyLazy then 1 else 0))
  }

  /** Message after message, stopping at the first failure, whether of the framing or of an entry. */
  function RewriteFrom(input: Buffer, pos: nat, isFirst: bool, rewrite: Rewriter, acc: RewriteResult)
    : Result<RewriteResult, Error>
    decreases |input| - pos
  {
    if pos >= |input| then Ok(acc)
    else
      var f := FrameAt(input, pos);
      if f.NoFrame? then Err(f.error)
      else
        var e := RewrittenMessage(f.msg, isFirst, rewrite);
        if e.Err? then Err(e.error) else RewriteFrom(input, f.next, false, rewrite, Append(acc, e.value))
  }

  function HeaderError(input: Buffer): Option<Error> {
    if |input| < 8 then Some(FileTooShort)
    else if ReadU32LE(input, 0) != 0x5456_4319 then Some(BadCommonMagic)
    else if ReadU32LE(input, 4) != 0x5608_4025 then Some(BadMagic)
    else None
  }

  /** A whole image: the header is checked and copied. */
  function RewrittenImage(input: Buffer, rewrite: Rewriter): Result<RewriteResult, Error> {
    if HeaderError(input).Some? then Err(HeaderError(input).value)
    else RewriteFrom(input, 8, true, rewrite, Started(input[..8]))
  }

  function Started(header: Buffer): RewriteResult { RewriteResult(header, false, 0, 0) }

  function RewrittenPagemap(input: Buffer, ranges: seq<VmaRange>): Result<RewriteResult, Error> {
    RewrittenImage(input, EntryRewriter(ranges))
  }

  class RewriteState {
    var out: seq<Buffer>
    var changed: bool
    var entriesFlagged: int
    var entriesAlreadyLazy: int

    constructor (header: Buffer)
      ensures Result() == Started(header)
    {
      out, changed, entriesFlagged, entriesAlreadyLazy := [header], false, 0, 0;
      new;
      assert Flatten([header]) == header + Flatten([]);
    }

    function Result(): RewriteResult
      reads this
    {
      RewriteResult(Flatten(out), changed, entriesFlagged, entriesAlreadyLazy)
    }

    method RewriteEntryMessage(msg: Buffer, ranges: seq<VmaRange>) returns (r: Result<Buffer, Error>)
      modifies this
      ensures match RewrittenEntry(msg, ranges)
              case Err(e) => r == Err(e)
              case Ok(e) => r == Ok(e.out) && Result() == old(Result()).(
                changed := old(changed) || e.changed,
                entriesFlagged := old(entriesFlagged) + (if e.changed then 1 else 0),
                entriesAlreadyLazy := old(entriesAlreadyLazy) + (if e.alreadyLazy then 1 else 0))
    {
      var result := RewriteEntry(msg, ranges);
      if result.Err? {
        return Err(result.error);
      }
      if result.value.alreadyLazy {
        entriesAlreadyLazy := entriesAlreadyLazy + 1;
      }
      if result.value.changed {
        entriesFlagged := entriesFlagged + 1;
        changed := true;
        return Ok(result.value.out);
      }
      return Ok(msg);
    }

    method AppendRewrittenMessage(msg: Buffer, isFirst: bool, ranges: seq<VmaRange>) returns (failure: Option<Error>)
      modifies this
      ensures match RewrittenMessage(msg, isFirst, EntryRewriter(ranges))
              case Err(e) => failure == Some(e)
              case Ok(e) => failure.None? && Result() == Append(old(Result()), e)
    {
      var outMsg := msg;
      if !isFirst {
        var rewritten := RewriteEntryMessage(msg, ranges);
        if rewritten.Err? {
          return Some(rewritten.error);
        }
        outMsg := rewritten.value;
      }
      if |outMsg| >= 0x1_0000_0000 {
        return Some(TooLong);  // writeUInt32LE throws
      }
      AppendMessage(outMsg);
      return None;
    }

    method AppendMessage(msg: Buffer)
      requires |msg| < 0x1_0000_0000
      modifies this`out
      ensures Flatten(out) == old(Flatten(out)) + Framed(msg)
    {
      var sizeBuf := WriteU32LE(|msg|);
      FlattenPush(out, sizeBuf);
      FlattenPush(out + [sizeBuf], msg);
      assert Flatten(out) + sizeBuf + msg == Flatten(out) + (sizeBuf + msg);
      out := out + [sizeBuf] + [msg];
    }
  }

  method RewritePagemap(input: Buffer, ranges: seq<VmaRange>) returns (r: Result<RewriteResult, Error>)
    ensures r == RewrittenPagemap(input, ranges)
  {
    if HeaderError(input).Some? {
      return Err(HeaderError(input).value);
    }
    var state := new RewriteState(input[..8]);
    var pos, isFirst := 8, true;
    while pos < |input|
      invariant 8 <= pos
      invariant RewrittenPagemap(input, ranges) == RewriteFrom(input, pos, isFirst, EntryRewriter(ranges), state.Result())
      decreases |input| - pos
    {
      var f := FrameAt(input, pos);
      if f.NoFrame? {
        return Err(f.error);
      }
      var failure := state.AppendRewrittenMessage(f.msg, isFirst, ranges);
      if failure.Some? {
        return Err(failure.value);
      }
      pos, isFirst := f.next, false;
    }
    return Ok(state.Result());
  }
}
