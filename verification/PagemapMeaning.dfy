/** What rewriting a pagemap means, in terms of the messages and fields it decodes to. */
module PagemapMeaning {
  import opened Bytes
  import opened JsNumber
  import opened Protobuf
  import opened LazyPagemap

  // ---------- One entry ----------

  /**
   * `after` is the entry `before` with PE_LAZY added if it is eligible, and otherwise the
   * same bytes: no other field, known or unknown, changes value or place.
   */
  ghost predicate MarkedEntry(before: Buffer, after: Buffer, ranges: seq<VmaRange>) {
    var fs := Decode(before);
    && fs.Readable()
    && if Eligible(fs.LastValues(), ranges) then
         && fs.Has(FLAGS)
         && OrLazy(FlagsNumber(fs.LastValues())) >= 0
         && Decode(after) == fs.ReplaceLast(FLAGS, OrLazy(FlagsNumber(fs.LastValues())))
       else after == before
  }

  lemma EntryIsMarked(msg: Buffer, ranges: seq<VmaRange>)
    requires RewrittenEntry(msg, ranges).Ok?
    ensures MarkedEntry(msg, RewrittenEntry(msg, ranges).value.out, ranges)
  {
    var lv := Decode(msg).LastValues();
    if Eligible(lv, ranges) {
      SpanOfEligible(msg, ranges);
      OrLazySetsBit(FlagsNumber(lv));
      OverwriteDecodes(msg, FLAGS, OrLazy(FlagsNumber(lv)));
    }
  }

  /** Rewriting an entry a second time finds it as it should be. */
  lemma EntryIdempotent(msg: Buffer, ranges: seq<VmaRange>)
    requires RewrittenEntry(msg, ranges).Ok?
    ensures var e := RewrittenEntry(msg, ranges).value;
            RewrittenEntry(e.out, ranges) == Ok(EntryRewrite(e.out, false, e.alreadyLazy || e.changed))
  {
    EntryIsMarked(msg, ranges);
    var fs := Decode(msg);
    if Eligible(fs.LastValues(), ranges) {
      var flags := OrLazy(FlagsNumber(fs.LastValues()));
      OrLazySetsBit(FlagsNumber(fs.LastValues()));
      LastValuesOfReplace(fs, FLAGS, flags);
    }
  }

  /**
   * In a rewritten entry the flags have gained PE_LAZY and nothing else exactly when they
   * were below 2^31, and every other field keeps its value.
   */
  lemma MarkedFlags(before: Buffer, after: Buffer, ranges: seq<VmaRange>)
    requires MarkedEntry(before, after, ranges) && Eligible(Decode(before).LastValues(), ranges)
    ensures var lv, lv' := Decode(before).LastValues(), Decode(after).LastValues();
            && FLAGS in lv && FLAGS in lv' && lv'.Keys == lv.Keys
            && AlreadyLazy(lv')
            && (lv'[FLAGS] == lv[FLAGS] + 2 <==> lv[FLAGS] < 0x8000_0000)
            && forall num :: num in lv && num != FLAGS ==> lv'[num] == lv[num]
  {
    var fs := Decode(before);
    var n := FlagsNumber(fs.LastValues());
    HasIsLastValue(fs, FLAGS);
    LastValuesOfReplace(fs, FLAGS, OrLazy(n));
    OrLazySetsBit(n);
    OrLazyAddsOnlyLazyIffBelowTwo31(fs.LastValues()[FLAGS]);
  }

  // ---------- A whole pagemap ----------

  ghost predicate MarkedMessages(before: Messages, after: Messages, isFirst: bool, ranges: seq<VmaRange>) {
    match before
    case Done => after.Done?
    case Broken(_) => false
    case Msg(msg, rest) =>
      && after.Msg?
      && (if isFirst then after.msg == msg else MarkedEntry(msg, after.msg, ranges))
      && MarkedMessages(rest, after.rest, false, ranges)
  }

  function CountEligible(ms: Messages, isFirst: bool, ranges: seq<VmaRange>): nat {
    match ms
    case Msg(msg, rest) =>
      (if !isFirst && Eligible(Decode(msg).LastValues(), ranges) then 1 else 0) + CountEligible(rest, false, ranges)
    case _ => 0
  }

  function CountLazy(ms: Messages, isFirst: bool): nat {
    match ms
    case Msg(msg, rest) =>
      (if !isFirst && AlreadyLazy(Decode(msg).LastValues()) then 1 else 0) + CountLazy(rest, false)
    case _ => 0
  }

  /** Every entry can be read, and none that is to be marked has bit 31 set in the low half of its flags. */
  ghost predicate Rewritable(ms: Messages, isFirst: bool, ranges: seq<VmaRange>) {
    match ms
    case Done => true
    case Broken(_) => false
    case Msg(msg, rest) =>
      && (isFirst ||
          var fs := Decode(msg);
          fs.Readable() && (Eligible(fs.LastValues(), ranges) ==>
                             FlagsNumber(fs.LastValues()) % 0x1_0000_0000 < 0x8000_0000))
      && Rewritable(rest, false, ranges)
  }

  /** The rewriter succeeds on exactly those inputs: a message never grows too long for its size prefix. */
  lemma {:induction false} RewriteFromSucceeds(input: Buffer, pos: nat, isFirst: bool, ranges: seq<VmaRange>,
                                               acc: RewriteResult)
    ensures RewriteFrom(input, pos, isFirst, EntryRewriter(ranges), acc).Ok? <==>
            Rewritable(MessagesAt(input, pos), isFirst, ranges)
    decreases |input| - pos
  {
    if pos < |input| {
      var f := FrameAt(input, pos);
      if f.Frame? {
        var e := RewrittenMessage(f.msg, isFirst, EntryRewriter(ranges));
        if Decode(f.msg).Readable() && Eligible(Decode(f.msg).LastValues(), ranges) {
          OrLazyCases(FlagsNumber(Decode(f.msg).LastValues()));
        }
        if e.Ok? {
          RewriteFromSucceeds(input, f.next, false, ranges, Append(acc, e.value));
        }
      }
    }
  }

  /** The message just written is the next one read back. */
  lemma SplitFrame(before: Buffer, msg: Buffer, out: Buffer)
    requires |msg| < 0x1_0000_0000 && before + Framed(msg) <= out
    ensures before <= out
    ensures |before| < |out| && FrameAt(out, |before|) == Frame(msg, |before + Framed(msg)|)
  {
    var n := |before + Framed(msg)|;
    assert out == before + Framed(msg) + out[n..];
    FrameRoundTrip(before, msg, out[n..]);
  }

  lemma {:induction false} OutGrows(input: Buffer, pos: nat, isFirst: bool, rewrite: Rewriter, acc: RewriteResult)
    requires RewriteFrom(input, pos, isFirst, rewrite, acc).Ok?
    ensures acc.out <= RewriteFrom(input, pos, isFirst, rewrite, acc).value.out
    decreases |input| - pos
  {
    if pos < |input| {
      var f := FrameAt(input, pos);
      OutGrows(input, f.next, false, rewrite, Append(acc, RewrittenMessage(f.msg, isFirst, rewrite).value));
    }
  }

  lemma {:induction false} RewriteFromMarks(input: Buffer, pos: nat, isFirst: bool, ranges: seq<VmaRange>,
                                            acc: RewriteResult)
    requires RewriteFrom(input, pos, isFirst, EntryRewriter(ranges), acc).Ok?
    ensures var r := RewriteFrom(input, pos, isFirst, EntryRewriter(ranges), acc).value;
            var ms := MessagesAt(input, pos);
            && MarkedMessages(ms, MessagesAt(r.out, |acc.out|), isFirst, ranges)
            && r.entriesFlagged == acc.entriesFlagged + CountEligible(ms, isFirst, ranges)
            && r.entriesAlreadyLazy == acc.entriesAlreadyLazy + CountLazy(ms, isFirst)
            && (r.changed <==> acc.changed || CountEligible(ms, isFirst, ranges) > 0)
    decreases |input| - pos
  {
    if pos < |input| {
      var f := FrameAt(input, pos);
      var e := RewrittenMessage(f.msg, isFirst, EntryRewriter(ranges)).value;
      var acc' := Append(acc, e);
      RewriteFromMarks(input, f.next, false, ranges, acc');
      OutGrows(input, f.next, false, EntryRewriter(ranges), acc');
      SplitFrame(acc.out, e.out, RewriteFrom(input, pos, isFirst, EntryRewriter(ranges), acc).value.out);
      if !isFirst {
        EntryIsMarked(f.msg, ranges);
      }
    }
  }

  lemma UnchangedMessage(msg: Buffer, isFirst: bool, ranges: seq<VmaRange>)
    ensures var e := RewrittenMessage(msg, isFirst, EntryRewriter(ranges));
            e.Ok? ==> |e.value.out| < 0x1_0000_0000 && (!e.value.changed ==> e.value.out == msg)
  {
  }

  lemma {:induction false} UnchangedCopies(input: Buffer, pos: nat, isFirst: bool, ranges: seq<VmaRange>,
                                           acc: RewriteResult)
    requires pos <= |input| && RewriteFrom(input, pos, isFirst, EntryRewriter(ranges), acc).Ok?
    requires !RewriteFrom(input, pos, isFirst, EntryRewriter(ranges), acc).value.changed
    ensures !acc.changed
    ensures RewriteFrom(input, pos, isFirst, EntryRewriter(ranges), acc).value.out == acc.out + input[pos..]
    decreases |input| - pos
  {
    hide RewrittenMessage, EntryRewriter, FrameAt, Framed;
    if pos < |input| {
      var f := FrameAt(input, pos);
      UnchangedMessage(f.msg, isFirst, ranges);
      var e := RewrittenMessage(f.msg, isFirst, EntryRewriter(ranges)).value;
      UnchangedCopies(input, f.next, false, ranges, Append(acc, e));
      FrameCanonical(input, pos);
      assert input[pos..] == input[pos..f.next] + input[f.next..];
    }
  }

  /** A rewriter that leaves its own output alone, reporting as lazy what it changed. */
  ghost predicate Settles(rewrite: Rewriter) {
    forall msg :: rewrite(msg).Ok? ==>
      var e := rewrite(msg).value;
      && !(e.alreadyLazy && e.changed)
      && rewrite(e.out) == Ok(EntryRewrite(e.out, false, e.alreadyLazy || e.changed))
  }

  lemma EntryRewriterSettles(ranges: seq<VmaRange>)
    ensures Settles(EntryRewriter(ranges))
  {
    forall msg: Buffer | EntryRewriter(ranges)(msg).Ok?
      ensures var e := EntryRewriter(ranges)(msg).value;
              && !(e.alreadyLazy && e.changed)
              && EntryRewriter(ranges)(e.out) == Ok(EntryRewrite(e.out, false, e.alreadyLazy || e.changed))
    {
      EntryIdempotent(msg, ranges);
    }
  }

  lemma {:induction false} RewriteFromTwice(input: Buffer, pos: nat, isFirst: bool, rewrite: Rewriter,
                                            acc: RewriteResult, acc2: RewriteResult)
    requires Settles(rewrite) && RewriteFrom(input, pos, isFirst, rewrite, acc).Ok?
    requires acc2 == RewriteResult(acc.out, false, 0, acc.entriesFlagged + acc.entriesAlreadyLazy)
    ensures var r := RewriteFrom(input, pos, isFirst, rewrite, acc).value;
            RewriteFrom(r.out, |acc.out|, isFirst, rewrite, acc2)
            == Ok(RewriteResult(r.out, false, 0, r.entriesFlagged + r.entriesAlreadyLazy))
    decreases |input| - pos
  {
    hide FrameAt, Framed;
    if pos < |input| {
      var f := FrameAt(input, pos);
      var e := RewrittenMessage(f.msg, isFirst, rewrite).value;
      var acc' := Append(acc, e);
      var r := RewriteFrom(input, pos, isFirst, rewrite, acc).value;
      OutGrows(input, f.next, false, rewrite, acc');
      SplitFrame(acc.out, e.out, r.out);
      var e2 := RewrittenMessage(e.out, isFirst, rewrite).value;
      RewriteFromTwice(input, f.next, false, rewrite, acc', Append(acc2, e2));
    }
  }

  // ---------- Main results ----------

  /** Rewriting fails exactly on a bad header, broken framing, an unreadable entry or bit 31 in flags to mark. */
  lemma RewriteSucceedsIff(input: Buffer, ranges: seq<VmaRange>)
    ensures RewrittenPagemap(input, ranges).Ok? <==>
            HeaderError(input).None? && Rewritable(MessagesAt(input, 8), true, ranges)
  {
    if HeaderError(input).None? {
      RewriteFromSucceeds(input, 8, true, ranges, Started(input[..8]));
    }
  }

  /**
   * The output decodes to the input's messages with exactly the eligible entries marked;
   * the counters count them and the entries already lazy; nothing to mark means the very
   * same bytes.
   */
  lemma RewriteMarksEligible(input: Buffer, ranges: seq<VmaRange>)
    requires RewrittenPagemap(input, ranges).Ok?
    ensures var r := RewrittenPagemap(input, ranges).value;
            var ms := MessagesAt(input, 8);
            && r.out[..Min(8, |r.out|)] == input[..8]
            && MarkedMessages(ms, MessagesAt(r.out, 8), true, ranges)
            && r.entriesFlagged == CountEligible(ms, true, ranges)
            && r.entriesAlreadyLazy == CountLazy(ms, true)
            && (r.changed <==> r.entriesFlagged > 0)
            && (!r.changed ==> r.out == input)
  {
    var acc := Started(input[..8]);
    RewriteFromMarks(input, 8, true, ranges, acc);
    OutGrows(input, 8, true, EntryRewriter(ranges), acc);
    var r := RewrittenPagemap(input, ranges).value;
    assert r.out[..8] == acc.out;
    if !r.changed {
      UnchangedCopies(input, 8, true, ranges, acc);
      assert input == input[..8] + input[8..];
    }
  }

  /** The header is two 32-bit magic numbers, least significant byte first. */
  lemma HeaderBytes(input: Buffer)
    ensures HeaderError(input).None? <==>
            |input| >= 8 && input[..8] == [0x19, 0x43, 0x56, 0x54, 0x25, 0x40, 0x08, 0x56]
  {
    if |input| >= 8 {
      BytesOfU32(input, 0, 0x5456_4319, 0x19, 0x43, 0x56, 0x54);
      BytesOfU32(input, 4, 0x5608_4025, 0x25, 0x40, 0x08, 0x56);
      assert input[..8] == [input[0], input[1], input[2], input[3], input[4], input[5], input[6], input[7]];
    }
  }

  /**
   * An entry is marked when its flags, field 4, have bit 2 and not bit 1, and the pages from
   * its address, field 1, on lie in one range. Field 5 counts the pages, or else field 2.
   */
  lemma EligibleByFieldNumber(lv: map<nat, nat>, ranges: seq<VmaRange>)
    ensures var flags := ToNumber(if 4 in lv then lv[4] else 0);
            var pages := if 5 in lv then lv[5] else if 2 in lv then lv[2] else 0;
            Eligible(lv, ranges) <==>
            && flags / 2 % 2 == 0 && flags / 4 % 2 == 1
            && 1 in lv && exists r :: r in ranges && r.lo <= lv[1] && lv[1] + 4096 * pages <= r.hi
  {
    var pages := if 5 in lv then lv[5] else if 2 in lv then lv[2] else 0;
    if 1 in lv {
      forall r | r in ranges && r.lo <= lv[1] && lv[1] + 4096 * pages <= r.hi
        ensures InLazyRange(lv[1], pages * PAGE_SIZE, ranges)
      {
        var i :| 0 <= i < |ranges| && ranges[i] == r;
      }
    }
  }

  lemma SameHeader(input: Buffer, out: Buffer)
    requires HeaderError(input).None? && input[..8] <= out
    ensures HeaderError(out).None? && out[..8] == input[..8]
  {
    assert forall i {:trigger out[i]} :: 0 <= i < 8 ==> out[i] == input[..8][i] == input[i];
  }

  /** A second rewrite changes nothing, and finds lazy what was lazy or has been marked. */
  lemma RewriteIdempotent(input: Buffer, ranges: seq<VmaRange>)
    requires RewrittenPagemap(input, ranges).Ok?
    ensures var r := RewrittenPagemap(input, ranges).value;
            RewrittenPagemap(r.out, ranges)
            == Ok(RewriteResult(r.out, false, 0, r.entriesFlagged + r.entriesAlreadyLazy))
  {
    EntryRewriterSettles(ranges);
    ImageIdempotent(input, EntryRewriter(ranges));
  }

  lemma ImageIdempotent(input: Buffer, rewrite: Rewriter)
    requires Settles(rewrite) && RewrittenImage(input, rewrite).Ok?
    ensures var r := RewrittenImage(input, rewrite).value;
            RewrittenImage(r.out, rewrite)
            == Ok(RewriteResult(r.out, false, 0, r.entriesFlagged + r.entriesAlreadyLazy))
  {
    var r := RewrittenImage(input, rewrite).value;
    OutGrows(input, 8, true, rewrite, Started(input[..8]));
    SameHeader(input, r.out);
    RewriteFromTwice(input, 8, true, rewrite, Started(input[..8]), Started(input[..8]));
  }
}
