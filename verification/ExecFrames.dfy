/** The frame demultiplexers of exec.ts, whose input comes in any chunks. */
module ExecFrames {
  import opened Bytes
  import opened JsNumber

  const NEWLINE: byte := 0x0a

  datatype Tag = Stdout | Stderr

  datatype Header = Exit(code: Number) | Payload(tag: Tag, length: int) | BadHeader

  type HeaderParser = Buffer -> Header

  /**
   * What a parser has in hand: unparsed bytes, payload still awaited and for which sink,
   * and what it has delivered. A failed parser has been cut off from its socket.
   */
  datatype Machine = Machine(buf: Buffer, awaiting: int, tag: Option<Tag>,
                             out: Buffer, err: Buffer, exit: Option<Number>, failed: bool)

  const START := Machine([], 0, None, [], [], None, false)

  function Deliver(m: Machine, chunk: Buffer): Machine {
    var left := m.awaiting - |chunk|;
    m.(awaiting := left, tag := if left == 0 then None else m.tag,
       out := if m.tag == Some(Stdout) then m.out + chunk else m.out,
       err := if m.tag == Some(Stderr) then m.err + chunk else m.err)
  }

  /** Act on a header line; the buffer is what follows it. */
  function Receive(m: Machine, header: Header): Machine {
    match header
    case Exit(code) => m.(exit := Some(code))
    case Payload(tag, n) => m.(awaiting := n, tag := if n > 0 then Some(tag) else None)
    case BadHeader => m.(buf := [], failed := true)
  }

  function NewlineAt(s: Buffer): Option<nat> {
    if s == [] then None
    else if s[0] == NEWLINE then Some(0)
    else match NewlineAt(s[1..]) case None => None case Some(i) => Some(i + 1)
  }

  // ---------- The parser: a chunk at a time, stopping at an exit frame ----------

  function Run(parse: HeaderParser, m: Machine): Machine
    decreases |m.buf|
  {
    if m.failed then m
    else if m.awaiting > 0 then
      if m.buf == [] then m
      else
        var take := Min(m.awaiting, |m.buf|);
        Run(parse, Deliver(m.(buf := m.buf[take..]), m.buf[..take]))
    else
      match NewlineAt(m.buf)
      case None => m
      case Some(nl) =>
        NewlineBound(m.buf);
        var header := parse(m.buf[..nl]);
        var next := Receive(m.(buf := m.buf[nl + 1..]), header);
        if header.Payload? then Run(parse, next) else next
  }

  lemma {:induction false} NewlineBound(s: Buffer)
    ensures NewlineAt(s).Some? ==>
              && NewlineAt(s).value < |s| && s[NewlineAt(s).value] == NEWLINE
              && NewlineAt(s[..NewlineAt(s).value]).None?
    ensures NewlineAt(s).None? <==> NEWLINE !in s
  {
    if s != [] && s[0] != NEWLINE {
      NewlineBound(s[1..]);
      if NewlineAt(s).Some? {
        assert s[..NewlineAt(s).value][1..] == s[1..][..NewlineAt(s).value - 1];
      }
    }
  }

  /** One round of the parser's loop. */
  lemma RunStep(parse: HeaderParser, m: Machine)
    requires !m.failed
    ensures m.awaiting > 0 ==>
              Run(parse, m) == if m.buf == [] then m
                               else var take := Min(m.awaiting, |m.buf|);
                                    Run(parse, Deliver(m.(buf := m.buf[take..]), m.buf[..take]))
    ensures m.awaiting <= 0 ==>
              match NewlineAt(m.buf)
              case None => Run(parse, m) == m
              case Some(nl) =>
                nl < |m.buf| &&
                var next := Receive(m.(buf := m.buf[nl + 1..]), parse(m.buf[..nl]));
                Run(parse, m) == if parse(m.buf[..nl]).Payload? then Run(parse, next) else next
  {
    NewlineBound(m.buf);
  }

  /** One socket chunk. */
  function Ingest(parse: HeaderParser, m: Machine, chunk: Buffer): Machine {
    if m.failed then m else Run(parse, m.(buf := m.buf + chunk))
  }

  function IngestAll(parse: HeaderParser, m: Machine, chunks: seq<Buffer>): Machine
    decreases |chunks|
  {
    if chunks == [] then m else IngestAll(parse, Ingest(parse, m, chunks[0]), chunks[1..])
  }

  // ---------- Reference: a byte at a time ----------

  predicate EndsHeader(m: Machine, b: byte) { !m.failed && m.awaiting <= 0 && b == NEWLINE }

  function Feed(parse: HeaderParser, m: Machine, b: byte): Machine {
    if m.failed then m
    else if m.awaiting > 0 then Deliver(m, [b])
    else if b == NEWLINE then Receive(m.(buf := []), parse(m.buf))
    else m.(buf := m.buf + [b])
  }

  function FeedAll(parse: HeaderParser, m: Machine, bs: Buffer): Machine
    decreases |bs|
  {
    if bs == [] then m else FeedAll(parse, Feed(parse, m, bs[0]), bs[1..])
  }

  /** This byte completes an exit frame. */
  predicate Exits(parse: HeaderParser, m: Machine, b: byte) { EndsHeader(m, b) && parse(m.buf).Exit? }

  /** The same, but leaving everything after the first exit frame unread. */
  function FeedToExit(parse: HeaderParser, m: Machine, bs: Buffer): Machine
    decreases |bs|
  {
    if bs == [] then m
    else if Exits(parse, m, bs[0]) then Feed(parse, m, bs[0]).(buf := bs[1..])
    else FeedToExit(parse, Feed(parse, m, bs[0]), bs[1..])
  }

  /** No header line is completed after the first exit frame. */
  predicate QuietAfterExit(parse: HeaderParser, m: Machine, bs: Buffer)
    decreases |bs|
  {
    bs == [] ||
    if Exits(parse, m, bs[0]) then NEWLINE !in bs[1..] else QuietAfterExit(parse, Feed(parse, m, bs[0]), bs[1..])
  }

  /** The parser rests: nothing in its buffer can be consumed. */
  predicate Settled(m: Machine) {
    if m.failed || m.awaiting > 0 then m.buf == [] else NEWLINE !in m.buf
  }

  // ---------- The parser refines the byte machine ----------

  lemma {:induction false} FeedPayload(parse: HeaderParser, m: Machine, p: Buffer, rest: Buffer)
    requires !m.failed && m.awaiting >= |p| && p != []
    ensures FeedToExit(parse, m, p + rest) == FeedToExit(parse, Deliver(m, p), rest)
    decreases |p|
  {
    assert (p + rest)[1..] == p[1..] + rest;
    if p[1..] == [] {
      assert p == [p[0]] && [] + rest == rest;
    } else {
      FeedPayload(parse, Deliver(m, [p[0]]), p[1..], rest);
      DeliverMore(m, p);
    }
  }

  lemma DeliverMore(m: Machine, p: Buffer)
    requires |p| > 1 && m.awaiting >= |p|
    ensures Deliver(Deliver(m, [p[0]]), p[1..]) == Deliver(m, p)
  {
    assert [p[0]] + p[1..] == p;
    assert m.out + [p[0]] + p[1..] == m.out + ([p[0]] + p[1..]);
    assert m.err + [p[0]] + p[1..] == m.err + ([p[0]] + p[1..]);
  }

  lemma {:induction false} FeedLine(parse: HeaderParser, m: Machine, line: Buffer, rest: Buffer)
    requires !m.failed && m.awaiting <= 0 && NEWLINE !in line
    ensures FeedToExit(parse, m, line + rest) == FeedToExit(parse, m.(buf := m.buf + line), rest)
    decreases |line|
  {
    if line == [] {
      assert line + rest == rest && m.buf + line == m.buf;
    } else {
      assert (line + rest)[1..] == line[1..] + rest;
      FeedLine(parse, m.(buf := m.buf + [line[0]]), line[1..], rest);
      assert m.buf + [line[0]] + line[1..] == m.buf + line;
    }
  }

  lemma {:induction false} FailedStays(parse: HeaderParser, m: Machine, bs: Buffer)
    requires m.failed
    ensures FeedToExit(parse, m, bs) == m && FeedAll(parse, m, bs) == m && QuietAfterExit(parse, m, bs)
    decreases |bs|
  {
    if bs != [] {
      FailedStays(parse, m, bs[1..]);
    }
  }

  /**
   * A chunk-wise run does exactly what the byte machine does up to the first exit frame,
   * on every state and whatever the bytes.
   */
  lemma {:induction false} RunIsFeedToExit(parse: HeaderParser, m: Machine)
    requires m.failed ==> m.buf == []
    ensures Run(parse, m) == FeedToExit(parse, m.(buf := []), m.buf)
    decreases |m.buf|
  {
    if !m.failed && m.awaiting > 0 {
      if m.buf != [] {
        var take := Min(m.awaiting, |m.buf|);
        var p, rest := m.buf[..take], m.buf[take..];
        assert m.buf == p + rest;
        FeedPayload(parse, m.(buf := []), p, rest);
        RunIsFeedToExit(parse, Deliver(m.(buf := rest), p));
      }
    } else if !m.failed {
      NewlineBound(m.buf);
      match NewlineAt(m.buf)
      case None => FeedPartial(parse, m);
      case Some(nl) =>
        FeedHeader(parse, m, nl);
        if parse(m.buf[..nl]).Payload? {
          RunIsFeedToExit(parse, Receive(m.(buf := m.buf[nl + 1..]), parse(m.buf[..nl])));
        }
    }
  }

  lemma FeedPartial(parse: HeaderParser, m: Machine)
    requires !m.failed && m.awaiting <= 0 && NEWLINE !in m.buf
    ensures FeedToExit(parse, m.(buf := []), m.buf) == m
  {
    assert m.buf + [] == m.buf && [] + m.buf == m.buf;
    FeedLine(parse, m.(buf := []), m.buf, []);
  }

  lemma FeedHeader(parse: HeaderParser, m: Machine, nl: nat)
    requires !m.failed && m.awaiting <= 0 && NewlineAt(m.buf) == Some(nl) && nl < |m.buf|
    ensures var header := parse(m.buf[..nl]);
            var next := Receive(m.(buf := []), header);
            FeedToExit(parse, m.(buf := []), m.buf) ==
            match header
            case Exit(_) => next.(buf := m.buf[nl + 1..])
            case Payload(_, _) => FeedToExit(parse, next, m.buf[nl + 1..])
            case BadHeader => next
  {
    hide FeedToExit, NewlineAt;
    NewlineBound(m.buf);
    var line, rest := m.buf[..nl], m.buf[nl + 1..];
    NewlineBound(line);
    LineAndRest(m.buf, nl);
    FeedLine(parse, m.(buf := []), line, [NEWLINE] + rest);
    FeedNewline(parse, m.(buf := line), rest);
  }

  lemma LineAndRest(s: Buffer, nl: nat)
    requires nl < |s| && s[nl] == NEWLINE
    ensures s == s[..nl] + ([NEWLINE] + s[nl + 1..]) && [] + s[..nl] == s[..nl]
  {
  }

  lemma FeedNewline(parse: HeaderParser, m: Machine, rest: Buffer)
    requires !m.failed && m.awaiting <= 0
    ensures var header := parse(m.buf);
            var next := Receive(m.(buf := []), header);
            FeedToExit(parse, m, [NEWLINE] + rest) ==
            match header
            case Exit(_) => next.(buf := rest)
            case Payload(_, _) => FeedToExit(parse, next, rest)
            case BadHeader => next
  {
    assert ([NEWLINE] + rest)[1..] == rest;
    if parse(m.buf).BadHeader? {
      FailedStays(parse, Receive(m.(buf := []), parse(m.buf)), rest);
    }
  }

  // ---------- Chunking ----------

  lemma {:induction false} FeedAllAppend(parse: HeaderParser, m: Machine, a: Buffer, b: Buffer)
    ensures FeedAll(parse, m, a + b) == FeedAll(parse, FeedAll(parse, m, a), b)
    decreases |a|
  {
    if a == [] {
      assert a + b == b;
    } else {
      assert (a + b)[1..] == a[1..] + b;
      FeedAllAppend(parse, Feed(parse, m, a[0]), a[1..], b);
    }
  }

  lemma {:induction false} NoNewlineIsQuiet(parse: HeaderParser, m: Machine, bs: Buffer)
    requires NEWLINE !in bs
    ensures QuietAfterExit(parse, m, bs)
    decreases |bs|
  {
    if bs != [] {
      NoNewlineIsQuiet(parse, Feed(parse, m, bs[0]), bs[1..]);
    }
  }

  /** On a quiet stream the parser and the byte machine agree to the last byte. */
  lemma {:induction false} QuietMeansSame(parse: HeaderParser, m: Machine, bs: Buffer)
    requires QuietAfterExit(parse, m, bs) && Settled(m)
    ensures FeedToExit(parse, m, bs) == FeedAll(parse, m, bs)
    ensures Settled(FeedAll(parse, m, bs))
    decreases |bs|
  {
    if bs != [] {
      var next := Feed(parse, m, bs[0]);
      if Exits(parse, m, bs[0]) {
        JustBuffers(parse, next, bs[1..]);
      } else {
        QuietMeansSame(parse, next, bs[1..]);
      }
    }
  }

  lemma {:induction false} JustBuffers(parse: HeaderParser, m: Machine, bs: Buffer)
    requires !m.failed && m.awaiting <= 0 && NEWLINE !in bs
    ensures FeedAll(parse, m, bs) == m.(buf := m.buf + bs)
    decreases |bs|
  {
    if bs == [] {
      assert m.buf + bs == m.buf;
    } else {
      JustBuffers(parse, m.(buf := m.buf + [bs[0]]), bs[1..]);
      assert m.buf + [bs[0]] + bs[1..] == m.buf + bs;
    }
  }

  /** A quiet stream is quiet up to any point, and from there on. */
  lemma {:induction false} QuietSplits(parse: HeaderParser, m: Machine, a: Buffer, b: Buffer)
    requires QuietAfterExit(parse, m, a + b)
    ensures QuietAfterExit(parse, m, a) && QuietAfterExit(parse, FeedAll(parse, m, a), b)
    decreases |a|
  {
    if a == [] {
      assert a + b == b;
    } else {
      assert (a + b)[1..] == a[1..] + b;
      if Exits(parse, m, a[0]) {
        assert forall x :: x in b ==> x in a[1..] + b;
        NoNewlineIsQuiet(parse, FeedAll(parse, m, a), b);
      } else {
        QuietSplits(parse, Feed(parse, m, a[0]), a[1..], b);
      }
    }
  }

  lemma IngestIsFeedToExit(parse: HeaderParser, m: Machine, chunk: Buffer)
    requires Settled(m)
    ensures Ingest(parse, m, chunk) == FeedToExit(parse, m, chunk)
  {
    if m.failed {
      FailedStays(parse, m, chunk);
    } else {
      RunIsFeedToExit(parse, m.(buf := m.buf + chunk));
      if m.awaiting > 0 {
        assert m.buf + chunk == chunk;
      } else {
        FeedLine(parse, m.(buf := []), m.buf, chunk);
        assert [] + m.buf == m.buf;
      }
    }
  }

  /** Feeding a quiet stream chunk by chunk is feeding it byte by byte. */
  lemma {:induction false} IngestAllIsFeedAll(parse: HeaderParser, m: Machine, chunks: seq<Buffer>)
    requires Settled(m) && QuietAfterExit(parse, m, Flatten(chunks))
    ensures IngestAll(parse, m, chunks) == FeedAll(parse, m, Flatten(chunks))
    decreases |chunks|
  {
    if chunks != [] {
      var a, b := chunks[0], Flatten(chunks[1..]);
      QuietSplits(parse, m, a, b);
      IngestIsFeedToExit(parse, m, a);
      QuietMeansSame(parse, m, a);
      IngestAllIsFeedAll(parse, FeedAll(parse, m, a), chunks[1..]);
      FeedAllAppend(parse, m, a, b);
    }
  }

  /** A stream is quiet exactly when parsing it in one go leaves nothing that could be parsed. */
  lemma {:induction false} QuietIffSettled(parse: HeaderParser, m: Machine, bs: Buffer)
    requires Settled(m)
    ensures QuietAfterExit(parse, m, bs) <==> Settled(FeedToExit(parse, m, bs))
    decreases |bs|
  {
    if bs != [] && !Exits(parse, m, bs[0]) {
      QuietIffSettled(parse, Feed(parse, m, bs[0]), bs[1..]);
    }
  }

  // ---------- What a caller gets ----------

  /** What the parser has delivered; the unread bytes are nobody's business. */
  datatype Outcome = Outcome(out: Buffer, err: Buffer, exit: Option<Number>, failed: bool)

  function OutcomeOf(m: Machine): Outcome { Outcome(m.out, m.err, m.exit, m.failed) }

  /** A header line that delivers nothing new: a frame, or the exit code there already is. */
  predicate HarmlessHeader(m: Machine, header: Header) {
    header.Payload? || (header.Exit? && m.exit == Some(header.code))
  }

  /** No payload byte arrives, no bad header is completed, and every exit frame repeats the code. */
  predicate Harmless(parse: HeaderParser, m: Machine, bs: Buffer)
    decreases |bs|
  {
    bs == [] ||
    (m.awaiting <= 0 && (bs[0] == NEWLINE ==> HarmlessHeader(m, parse(m.buf)))
     && Harmless(parse, Feed(parse, m, bs[0]), bs[1..]))
  }

  /** What follows the first exit frame, if there is one, is harmless. */
  predicate HarmlessAfterExit(parse: HeaderParser, m: Machine, bs: Buffer)
    decreases |bs|
  {
    bs == [] ||
    if Exits(parse, m, bs[0]) then Harmless(parse, Feed(parse, m, bs[0]), bs[1..])
    else HarmlessAfterExit(parse, Feed(parse, m, bs[0]), bs[1..])
  }

  /** Awaited payload has a sink. */
  predicate HasSink(m: Machine) { m.awaiting > 0 ==> m.tag.Some? }

  predicate Exited(parse: HeaderParser, m: Machine, bs: Buffer)
    decreases |bs|
  {
    bs != [] && (Exits(parse, m, bs[0]) || Exited(parse, Feed(parse, m, bs[0]), bs[1..]))
  }

  // ---------- Harmless bytes, in any chunks ----------

  lemma {:induction false} HarmlessPartial(parse: HeaderParser, m: Machine, line: Buffer, rest: Buffer)
    requires m.awaiting <= 0 && !m.failed && NEWLINE !in line && Harmless(parse, m.(buf := m.buf + line), rest)
    ensures Harmless(parse, m, line + rest)
    decreases |line|
  {
    if line == [] {
      assert m.buf + line == m.buf && line + rest == rest;
    } else {
      assert m.buf + [line[0]] + line[1..] == m.buf + line;
      assert (line + rest)[1..] == line[1..] + rest;
      HarmlessPartial(parse, m.(buf := m.buf + [line[0]]), line[1..], rest);
    }
  }

  /** Reading harmless bytes up to an exit frame leaves harmless bytes, the unread ones included. */
  lemma {:induction false} HarmlessRead(parse: HeaderParser, m: Machine, bs: Buffer, rest: Buffer)
    requires Settled(m) && !m.failed && Harmless(parse, m, bs + rest)
    ensures var n := FeedToExit(parse, m, bs);
            !n.failed && OutcomeOf(n) == OutcomeOf(m) && Harmless(parse, n.(buf := []), n.buf + rest)
    decreases |bs|
  {
    if bs == [] {
      assert bs + rest == rest;
      if m.awaiting > 0 {
        assert m.buf + rest == rest;
      } else {
        assert [] + m.buf == m.buf;
        HarmlessPartial(parse, m.(buf := []), m.buf, rest);
      }
    } else {
      assert (bs + rest)[0] == bs[0] && (bs + rest)[1..] == bs[1..] + rest;
      if !Exits(parse, m, bs[0]) {
        HarmlessRead(parse, Feed(parse, m, bs[0]), bs[1..], rest);
      }
    }
  }

  lemma {:induction false} HarmlessChunks(parse: HeaderParser, m: Machine, chunks: seq<Buffer>)
    requires !m.failed && Harmless(parse, m.(buf := []), m.buf + Flatten(chunks))
    ensures OutcomeOf(IngestAll(parse, m, chunks)) == OutcomeOf(m)
    decreases |chunks|
  {
    if chunks != [] {
      var rest := Flatten(chunks[1..]);
      assert m.buf + (chunks[0] + rest) == m.buf + chunks[0] + rest;
      RunIsFeedToExit(parse, m.(buf := m.buf + chunks[0]));
      HarmlessRead(parse, m.(buf := []), m.buf + chunks[0], rest);
      HarmlessChunks(parse, Ingest(parse, m, chunks[0]), chunks[1..]);
    }
  }

  /** Reading a part and then the rest, when the first exit frame lies in the rest ... */
  lemma {:induction false} FeedBeforeExit(parse: HeaderParser, m: Machine, a: Buffer, b: Buffer)
    requires Settled(m) && !Exited(parse, m, a)
    ensures var n := FeedToExit(parse, m, a);
            && Settled(n)
            && FeedToExit(parse, m, a + b) == FeedToExit(parse, n, b)
            && HarmlessAfterExit(parse, m, a + b) == HarmlessAfterExit(parse, n, b)
    decreases |a|
  {
    if a == [] {
      assert a + b == b;
    } else {
      assert (a + b)[1..] == a[1..] + b;
      FeedBeforeExit(parse, Feed(parse, m, a[0]), a[1..], b);
    }
  }

  /** ... and when it lies in the part. */
  lemma {:induction false} FeedPastExit(parse: HeaderParser, m: Machine, a: Buffer, b: Buffer)
    requires Exited(parse, m, a)
    ensures var n := FeedToExit(parse, m, a);
            && !n.failed
            && FeedToExit(parse, m, a + b) == n.(buf := n.buf + b)
            && HarmlessAfterExit(parse, m, a + b) == Harmless(parse, n.(buf := []), n.buf + b)
    decreases |a|
  {
    assert (a + b)[1..] == a[1..] + b;
    if !Exits(parse, m, a[0]) {
      FeedPastExit(parse, Feed(parse, m, a[0]), a[1..], b);
    }
  }

  lemma {:induction false} SameOutcome(parse: HeaderParser, m: Machine, chunks: seq<Buffer>)
    requires Settled(m) && HarmlessAfterExit(parse, m, Flatten(chunks))
    ensures OutcomeOf(IngestAll(parse, m, chunks)) == OutcomeOf(FeedToExit(parse, m, Flatten(chunks)))
    decreases |chunks|
  {
    if chunks != [] {
      var a, rest := chunks[0], Flatten(chunks[1..]);
      IngestIsFeedToExit(parse, m, a);
      if Exited(parse, m, a) {
        FeedPastExit(parse, m, a, rest);
        HarmlessChunks(parse, FeedToExit(parse, m, a), chunks[1..]);
      } else {
        FeedBeforeExit(parse, m, a, rest);
        SameOutcome(parse, FeedToExit(parse, m, a), chunks[1..]);
      }
    }
  }

  // ---------- Bytes that are not ----------

  /** What has been delivered stays delivered. */
  lemma {:induction false} OutcomeGrows(parse: HeaderParser, m: Machine, bs: Buffer)
    ensures var n := FeedToExit(parse, m, bs);
            |m.out| <= |n.out| && |m.err| <= |n.err| && (m.failed ==> n.failed)
    decreases |bs|
  {
    if bs != [] && !Exits(parse, m, bs[0]) {
      OutcomeGrows(parse, Feed(parse, m, bs[0]), bs[1..]);
    }
  }

  lemma {:induction false} FeedOne(parse: HeaderParser, m: Machine, b: byte)
    requires Settled(m)
    ensures Settled(Feed(parse, m, b)) && Ingest(parse, m, [b]) == Feed(parse, m, b)
    ensures HasSink(m) ==> HasSink(Feed(parse, m, b))
  {
    IngestIsFeedToExit(parse, m, [b]);
    assert FeedToExit(parse, Feed(parse, m, b), []) == Feed(parse, m, b);
    assert [b][1..] == [];
  }

  /** From the first byte that is not harmless on in one chunk, the outcome is another one. */
  lemma {:induction false} TellingRest(parse: HeaderParser, m: Machine, bs: Buffer) returns (chunks: seq<Buffer>)
    requires Settled(m) && HasSink(m) && !m.failed && !Harmless(parse, m, bs)
    ensures Flatten(chunks) == bs && OutcomeOf(IngestAll(parse, m, chunks)) != OutcomeOf(m)
    decreases |bs|
  {
    hide Feed, FeedToExit, Ingest, Settled, HasSink;
    if m.awaiting <= 0 && (bs[0] == NEWLINE ==> HarmlessHeader(m, parse(m.buf))) {
      FeedOne(parse, m, bs[0]);
      HarmlessByte(parse, m, bs[0]);
      var rest := TellingRest(parse, Feed(parse, m, bs[0]), bs[1..]);
      chunks := [[bs[0]]] + rest;
      assert chunks[1..] == rest && [bs[0]] + bs[1..] == bs;
    } else {
      chunks := [bs];
      assert Flatten([bs]) == bs + Flatten([]) && bs + [] == bs;
      assert chunks[1..] == [];
      IngestIsFeedToExit(parse, m, bs);
      assert IngestAll(parse, m, chunks) == FeedToExit(parse, m, bs);
      HarmfulByte(parse, m, bs);
    }
  }

  lemma HarmlessByte(parse: HeaderParser, m: Machine, b: byte)
    requires !m.failed && m.awaiting <= 0 && (b == NEWLINE ==> HarmlessHeader(m, parse(m.buf)))
    ensures !Feed(parse, m, b).failed && OutcomeOf(Feed(parse, m, b)) == OutcomeOf(m)
  {
  }

  lemma HarmfulByte(parse: HeaderParser, m: Machine, bs: Buffer)
    requires bs != [] && !m.failed && HasSink(m)
    requires m.awaiting > 0 || (bs[0] == NEWLINE && !HarmlessHeader(m, parse(m.buf)))
    ensures OutcomeOf(FeedToExit(parse, m, bs)) != OutcomeOf(m)
  {
    OutcomeGrows(parse, Feed(parse, m, bs[0]), bs[1..]);
    if m.awaiting > 0 {
      assert m.tag == Some(Stdout) || m.tag == Some(Stderr) by {
        assert m.tag.value == Stdout || m.tag.value == Stderr;
      }
    }
  }

  /** Cut after the first exit frame, and where the first byte that is not harmless comes. */
  lemma {:induction false} TellingCut(parse: HeaderParser, m: Machine, bs: Buffer) returns (chunks: seq<Buffer>)
    requires Settled(m) && HasSink(m) && !HarmlessAfterExit(parse, m, bs)
    ensures Flatten(chunks) == bs
    ensures OutcomeOf(IngestAll(parse, m, chunks)) != OutcomeOf(Ingest(parse, m, bs))
    decreases |bs|
  {
    IngestIsFeedToExit(parse, m, bs);
    FeedOne(parse, m, bs[0]);
    var next, rest := Feed(parse, m, bs[0]), bs[1..];
    var later;
    if Exits(parse, m, bs[0]) {
      later := TellingRest(parse, next, rest);
    } else {
      IngestIsFeedToExit(parse, next, rest);
      later := TellingCut(parse, next, rest);
    }
    chunks := [[bs[0]]] + later;
    assert chunks[1..] == later && [bs[0]] + rest == bs;
  }

  /**
   * How a stream is cut changes nothing a caller receives exactly when, after the first
   * exit frame, no payload byte arrives, no bad header is completed and every exit frame
   * repeats the code.
   */
  lemma ChunkIndependentIff(parse: HeaderParser, m: Machine, stream: Buffer)
    requires Settled(m) && HasSink(m)
    ensures HarmlessAfterExit(parse, m, stream) <==>
            forall chunks: seq<Buffer> :: Flatten(chunks) == stream ==>
              OutcomeOf(IngestAll(parse, m, chunks)) == OutcomeOf(Ingest(parse, m, stream))
  {
    IngestIsFeedToExit(parse, m, stream);
    if HarmlessAfterExit(parse, m, stream) {
      forall chunks: seq<Buffer> | Flatten(chunks) == stream
        ensures OutcomeOf(IngestAll(parse, m, chunks)) == OutcomeOf(Ingest(parse, m, stream))
      {
        SameOutcome(parse, m, chunks);
      }
    } else {
      var chunks := TellingCut(parse, m, stream);
    }
  }
}
