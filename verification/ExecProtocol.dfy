/** The header lines of exec.ts and the two parsers that read them. */
module ExecProtocol {
  import opened Bytes
  import opened JsNumber
  import opened ExecFrames
  import opened Strings

  // ---------- Header lines ----------

  /** toString("ascii"): the high bit of every byte is dropped. */
  function Text(line: Buffer): (s: string)
    ensures |s| == |line| && forall i :: 0 <= i < |line| ==> s[i] == (line[i] % 0x80) as char
  {
    seq(|line|, i requires 0 <= i < |line| => (line[i] % 0x80) as char)
  }

  /** The part before the first space. */
  function UpToSpace(s: string): (r: string)
    ensures r <= s
  {
    if s == [] || s[0] == ' ' then [] else [s[0]] + UpToSpace(s[1..])
  }

  /** `const [tag, n] = line.split(" ")` */
  function SplitHeader(s: string): (string, Option<string>) {
    var tag := UpToSpace(s);
    (tag, if |tag| == |s| then None else Some(UpToSpace(s[|tag| + 1..])))
  }

  function PayloadHeader(tag: Tag, n: Option<string>): Header {
    match ParseInt(if n.Some? then n.value else "")
    case Finite(length) => if length < 0 then BadHeader else Payload(tag, length)
    case _ => BadHeader
  }

  function ParseExecLine(line: Buffer): Header {
    var (tag, n) := SplitHeader(Text(line));
    if tag == "X" then Exit(ParseInt(if n.Some? then n.value else "0"))
    else if tag == "O" then PayloadHeader(Stdout, n)
    else if tag == "E" then PayloadHeader(Stderr, n)
    else BadHeader
  }

  function ParsePtyLine(line: Buffer): Header {
    var (tag, n) := SplitHeader(Text(line));
    if tag == "X" then Exit(ParseInt(if n.Some? then n.value else "0"))
    else if tag == "O" then PayloadHeader(Stdout, n)
    else BadHeader
  }

  // ---------- Frames as the guest agent writes them ----------

  datatype Frame = Frame(tag: Tag, payload: Buffer)

  function TagChar(tag: Tag): char { match tag case Stdout => 'O' case Stderr => 'E' }

  predicate Plain(s: string) { forall i :: 0 <= i < |s| ==> ' ' <= s[i] < 128 as char }

  function HeaderText(tag: char, n: int): (s: string)
    requires ' ' <= tag < 128 as char
    ensures Plain(s)
  {
    [tag] + [' '] + Decimal(n)
  }

  function HeaderLine(tag: char, n: int): Buffer
    requires ' ' <= tag < 128 as char
  {
    Ascii(HeaderText(tag, n))
  }

  function EncodeFrame(f: Frame): Buffer {
    HeaderLine(TagChar(f.tag), |f.payload|) + ([NEWLINE] + f.payload)
  }

  function EncodeFrames(fs: seq<Frame>): Buffer {
    if fs == [] then [] else EncodeFrame(fs[0]) + EncodeFrames(fs[1..])
  }

  function EncodeExit(code: int): Buffer { HeaderLine('X', code) + [NEWLINE] }

  /** All the payload bytes sent under one tag, in order. */
  function Sent(fs: seq<Frame>, tag: Tag): Buffer {
    if fs == [] then []
    else (if fs[0].tag == tag then fs[0].payload else []) + Sent(fs[1..], tag)
  }

  lemma HeaderSplits(tag: char, n: int)
    requires ' ' < tag < 128 as char
    ensures SplitHeader(Text(HeaderLine(tag, n))) == ([tag], Some(Decimal(n)))
    ensures NEWLINE !in HeaderLine(tag, n)
  {
    var s := HeaderText(tag, n);
    assert Text(Ascii(s)) == s;
    NoSpaceInDigits(if n < 0 then -n else n);
    NoSpaces(Decimal(n));
    SplitAtSpace(tag, Decimal(n));
    assert forall i :: 0 <= i < |s| ==> Ascii(s)[i] >= 32;
  }

  lemma SplitAtSpace(tag: char, n: string)
    requires tag != ' ' && UpToSpace(n) == n
    ensures SplitHeader([tag] + [' '] + n) == ([tag], Some(n))
  {
    hide UpToSpace;
    Associative([tag], [' '], n);
    UpToSpaceStops(tag, n);
    assert ([tag] + ([' '] + n))[2..] == n;
  }

  lemma UpToSpaceStops(tag: char, n: string)
    requires tag != ' '
    ensures UpToSpace([tag] + ([' '] + n)) == [tag]
  {
    assert ([tag] + ([' '] + n))[1..] == [' '] + n;
    assert UpToSpace([' '] + n) == [];
  }

  lemma NoSpaceInDigits(n: nat)
    ensures forall i :: 0 <= i < |Digits(n)| ==> Digits(n)[i] != ' '
  {
  }

  lemma {:induction false} NoSpaces(s: string)
    requires forall i :: 0 <= i < |s| ==> s[i] != ' '
    ensures UpToSpace(s) == s
  {
    if s != [] {
      NoSpaces(s[1..]);
    }
  }

  /** Both parsers read back what the agent writes, the PTY parser its own frames only. */
  lemma HeaderParses(tag: char, n: int)
    requires tag == 'O' || tag == 'E' || tag == 'X'
    requires (if tag == 'X' then -TWO53 else -1) < n < TWO53
    ensures var expected := if tag == 'X' then Exit(Finite(n))
                            else Payload(if tag == 'O' then Stdout else Stderr, n);
            && ParseExecLine(HeaderLine(tag, n)) == expected
            && (tag != 'E' ==> ParsePtyLine(HeaderLine(tag, n)) == expected)
  {
    HeaderSplits(tag, n);
    ParseIntInvertsDecimal(n, []);
    assert Decimal(n) + [] == Decimal(n);
  }

  // ---------- A stream of frames is demultiplexed into what was sent ----------

  predicate Idle(m: Machine) { !m.failed && m.awaiting == 0 && m.tag.None? && m.buf == [] }

  function Delivered(m: Machine, fs: seq<Frame>): Machine {
    m.(out := m.out + Sent(fs, Stdout), err := m.err + Sent(fs, Stderr))
  }

  /** The parser understands the frame headers of these tags. */
  ghost predicate Understands(parse: HeaderParser, fs: seq<Frame>) {
    forall f :: f in fs ==>
      |f.payload| < TWO53 && parse(HeaderLine(TagChar(f.tag), |f.payload|)) == Payload(f.tag, |f.payload|)
  }

  lemma FeedFrame(parse: HeaderParser, m: Machine, f: Frame, rest: Buffer)
    requires Idle(m) && Understands(parse, [f])
    ensures FeedToExit(parse, m, EncodeFrame(f) + rest) == FeedToExit(parse, Delivered(m, [f]), rest)
  {
    var line := HeaderLine(TagChar(f.tag), |f.payload|);
    HeaderSplits(TagChar(f.tag), |f.payload|);
    assert f in [f];
    FeedFrameBytes(parse, m, line, f, rest);
    Associative(line, [NEWLINE] + f.payload, rest);
    Associative([NEWLINE], f.payload, rest);
  }

  lemma FeedFrameBytes(parse: HeaderParser, m: Machine, line: Buffer, f: Frame, rest: Buffer)
    requires Idle(m) && NEWLINE !in line && parse(line) == Payload(f.tag, |f.payload|)
    ensures FeedToExit(parse, m, line + ([NEWLINE] + (f.payload + rest))) == FeedToExit(parse, Delivered(m, [f]), rest)
  {
    FeedLine(parse, m, line, [NEWLINE] + (f.payload + rest));
    assert [] + line == line;
    FeedNewline(parse, m.(buf := line), f.payload + rest);
    SentOne(f);
    assert m.out + [] == m.out && m.err + [] == m.err;
    if f.payload == [] {
      assert f.payload + rest == rest;
    } else {
      FeedPayload(parse, Receive(m, Payload(f.tag, |f.payload|)), f.payload, rest);
    }
  }

  lemma SentOne(f: Frame)
    ensures Sent([f], f.tag) == f.payload
    ensures forall tag :: tag != f.tag ==> Sent([f], tag) == []
  {
    assert [f][1..] == [];
    assert f.payload + [] == f.payload;
  }

  lemma {:induction false} FeedFrames(parse: HeaderParser, m: Machine, fs: seq<Frame>, rest: Buffer)
    requires Idle(m) && Understands(parse, fs)
    ensures FeedToExit(parse, m, EncodeFrames(fs) + rest) == FeedToExit(parse, Delivered(m, fs), rest)
    decreases |fs|
  {
    if fs == [] {
      assert [] + rest == rest && m.out + [] == m.out && m.err + [] == m.err;
    } else {
      var f, later := fs[0], EncodeFrames(fs[1..]) + rest;
      assert f in fs;
      assert Understands(parse, [f]);
      Associative(EncodeFrame(f), EncodeFrames(fs[1..]), rest);
      FeedFrame(parse, m, f, later);
      FeedFrames(parse, Delivered(m, [f]), fs[1..], rest);
      DeliveredMore(m, fs);
    }
  }

  lemma DeliveredMore(m: Machine, fs: seq<Frame>)
    requires fs != []
    ensures Delivered(Delivered(m, [fs[0]]), fs[1..]) == Delivered(m, fs)
  {
    SentOne(fs[0]);
    assert m.out + Sent([fs[0]], Stdout) + Sent(fs[1..], Stdout) == m.out + (Sent([fs[0]], Stdout) + Sent(fs[1..], Stdout));
    assert m.err + Sent([fs[0]], Stderr) + Sent(fs[1..], Stderr) == m.err + (Sent([fs[0]], Stderr) + Sent(fs[1..], Stderr));
  }

  lemma FeedExit(parse: HeaderParser, m: Machine, code: int, rest: Buffer)
    requires Idle(m) && parse(HeaderLine('X', code)) == Exit(Finite(code))
    ensures FeedToExit(parse, m, EncodeExit(code) + rest) == m.(exit := Some(Finite(code)), buf := rest)
  {
    HeaderSplits('X', code);
    var line := HeaderLine('X', code);
    FeedLine(parse, m, line, [NEWLINE] + rest);
    assert [] + line == line;
    Associative(line, [NEWLINE], rest);
    FeedNewline(parse, m.(buf := line), rest);
  }

  lemma StreamIsDemultiplexed(parse: HeaderParser, fs: seq<Frame>, code: int, chunks: seq<Buffer>)
    requires Understands(parse, fs) && parse(HeaderLine('X', code)) == Exit(Finite(code))
    requires Flatten(chunks) == EncodeFrames(fs) + EncodeExit(code)
    ensures IngestAll(parse, START, chunks)
         == Machine([], 0, None, Sent(fs, Stdout), Sent(fs, Stderr), Some(Finite(code)), false)
  {
    var stream := EncodeFrames(fs) + EncodeExit(code);
    FeedFrames(parse, START, fs, EncodeExit(code));
    FeedExit(parse, Delivered(START, fs), code, []);
    assert EncodeExit(code) + [] == EncodeExit(code);
    QuietIffSettled(parse, START, stream);
    QuietMeansSame(parse, START, stream);
    IngestAllIsFeedAll(parse, START, chunks);
    assert [] + Sent(fs, Stdout) == Sent(fs, Stdout) && [] + Sent(fs, Stderr) == Sent(fs, Stderr);
  }

  lemma FramesBehindExit(parse: HeaderParser, fs: seq<Frame>, code: int)
    requires parse(HeaderLine('X', code)) == Exit(Finite(code))
    ensures var e := START.(exit := Some(Finite(code)));
            && Ingest(parse, START, EncodeExit(code) + EncodeFrames(fs)) == e.(buf := EncodeFrames(fs))
            && Ingest(parse, START, EncodeExit(code)) == e
  {
    hide EncodeExit, EncodeFrames, Ingest, HeaderLine, FeedToExit;
    var exit, frames := EncodeExit(code), EncodeFrames(fs);
    FeedExit(parse, START, code, frames);
    FeedExit(parse, START, code, []);
    assert exit + [] == exit;
    IngestIsFeedToExit(parse, START, exit + frames);
    IngestIsFeedToExit(parse, START, exit);
  }

  lemma FramesAlone(parse: HeaderParser, m: Machine, fs: seq<Frame>)
    requires Idle(m) && Understands(parse, fs)
    ensures Ingest(parse, m, EncodeFrames(fs)) == Delivered(m, fs)
  {
    hide EncodeFrames, Ingest, Understands;
    var frames := EncodeFrames(fs);
    IngestIsFeedToExit(parse, m, frames);
    FeedFrames(parse, m, fs, []);
    assert frames + [] == frames;
  }

  /**
   * Frames after an exit frame are lost when both come in one chunk, and delivered when the
   * chunks part at the exit frame.
   */
  lemma FramesAfterExitDependOnTheCut(parse: HeaderParser, fs: seq<Frame>, code: int)
    requires Understands(parse, fs) && parse(HeaderLine('X', code)) == Exit(Finite(code))
    ensures var exit, frames := EncodeExit(code), EncodeFrames(fs);
            && OutcomeOf(IngestAll(parse, START, [exit + frames])) == Outcome([], [], Some(Finite(code)), false)
            && OutcomeOf(IngestAll(parse, START, [exit, frames]))
               == Outcome(Sent(fs, Stdout), Sent(fs, Stderr), Some(Finite(code)), false)
  {
    hide EncodeExit, EncodeFrames, HeaderLine, Ingest, Understands, Sent;
    var exit, frames := EncodeExit(code), EncodeFrames(fs);
    var e := START.(exit := Some(Finite(code)));
    FramesBehindExit(parse, fs, code);
    FramesAlone(parse, e, fs);
    assert e.out + Sent(fs, Stdout) == Sent(fs, Stdout) && e.err + Sent(fs, Stderr) == Sent(fs, Stderr);
    var whole: seq<Buffer>, cut: seq<Buffer> := [exit + frames], [exit, frames];
    assert whole[1..] == [] && cut[1..] == [frames] && cut[1..][1..] == [];
    assert IngestAll(parse, START, whole) == IngestAll(parse, e.(buf := frames), []);
    assert IngestAll(parse, START, cut) == IngestAll(parse, e, cut[1..]);
    assert IngestAll(parse, e, cut[1..]) == IngestAll(parse, Delivered(e, fs), []);
  }

  /** "X 0\nO 1\na" is such a stream. */
  lemma OutputAfterExit()
    ensures var exit, frame := EncodeExit(0), EncodeFrame(Frame(Stdout, [97]));
            && IngestAll(ParseExecLine, START, [exit + frame]).out == []
            && IngestAll(ParseExecLine, START, [exit, frame]).out == [97]
  {
    hide EncodeExit, EncodeFrame, ParseExecLine, IngestAll;
    var fs := [Frame(Stdout, [97])];
    ExecUnderstands(fs);
    HeaderParses('X', 0);
    FramesAfterExitDependOnTheCut(ParseExecLine, fs, 0);
    assert EncodeFrames(fs) == EncodeFrame(fs[0]) + EncodeFrames(fs[1..]) == EncodeFrame(fs[0]) + [];
    assert EncodeFrame(fs[0]) + [] == EncodeFrame(fs[0]);
    SentOne(fs[0]);
  }

  lemma ExecUnderstands(fs: seq<Frame>)
    requires forall f :: f in fs ==> |f.payload| < TWO53
    ensures Understands(ParseExecLine, fs)
  {
    forall f | f in fs
      ensures ParseExecLine(HeaderLine(TagChar(f.tag), |f.payload|)) == Payload(f.tag, |f.payload|)
    {
      HeaderParses(TagChar(f.tag), |f.payload|);
    }
  }

  lemma PtyUnderstands(fs: seq<Frame>)
    requires forall f :: f in fs ==> f.tag == Stdout && |f.payload| < TWO53
    ensures Understands(ParsePtyLine, fs)
  {
    forall f | f in fs
      ensures ParsePtyLine(HeaderLine(TagChar(f.tag), |f.payload|)) == Payload(f.tag, |f.payload|)
    {
      HeaderParses(TagChar(f.tag), |f.payload|);
    }
  }

  /** Every frame sent to the exec parser is delivered to its sink in order, however the stream is chunked. */
  lemma ExecStreamIsDemultiplexed(fs: seq<Frame>, code: int, chunks: seq<Buffer>)
    requires forall f :: f in fs ==> |f.payload| < TWO53
    requires -TWO53 < code < TWO53
    requires Flatten(chunks) == EncodeFrames(fs) + EncodeExit(code)
    ensures IngestAll(ParseExecLine, START, chunks)
         == Machine([], 0, None, Sent(fs, Stdout), Sent(fs, Stderr), Some(Finite(code)), false)
  {
    HeaderParses('X', code);
    ExecUnderstands(fs);
    StreamIsDemultiplexed(ParseExecLine, fs, code, chunks);
  }

  /** A header that is none cuts the stream off: what came before is delivered, and nothing after. */
  lemma BadHeaderEndsStream(parse: HeaderParser, fs: seq<Frame>, line: Buffer, rest: Buffer, chunks: seq<Buffer>)
    requires Understands(parse, fs) && NEWLINE !in line && parse(line) == BadHeader
    requires Flatten(chunks) == EncodeFrames(fs) + (line + ([NEWLINE] + rest))
    ensures IngestAll(parse, START, chunks) == Machine([], 0, None, Sent(fs, Stdout), Sent(fs, Stderr), None, true)
  {
    hide EncodeFrames, Sent, Understands;
    var stream, m := EncodeFrames(fs) + (line + ([NEWLINE] + rest)), Delivered(START, fs);
    FeedFrames(parse, START, fs, line + ([NEWLINE] + rest));
    FeedLine(parse, m, line, [NEWLINE] + rest);
    assert m.buf + line == line;
    FeedNewline(parse, m.(buf := line), rest);
    QuietIffSettled(parse, START, stream);
    QuietMeansSame(parse, START, stream);
    IngestAllIsFeedAll(parse, START, chunks);
    assert [] + Sent(fs, Stdout) == Sent(fs, Stdout) && [] + Sent(fs, Stderr) == Sent(fs, Stderr);
  }

  /** What stands between the first space of a header line and its second: a number, or nothing. */
  predicate HeaderSays(text: string, tag: string, n: Option<string>) {
    && ' ' !in tag
    && match n
       case None => text == tag
       case Some(word) =>
         && ' ' !in word && tag + [' '] + word <= text
         && (|text| > |tag| + 1 + |word| ==> text[|tag| + 1 + |word|] == ' ')
  }

  /**
   * A header is an exit frame with the number it gives, 0 if it gives none, or a payload of a
   * finite length that is not negative; everything else is refused, and so are `E` frames by
   * the PTY parser.
   */
  lemma HeaderMeaning(line: Buffer, tag: string, n: Option<string>)
    requires HeaderSays(Text(line), tag, n)
    ensures var code := if n.Some? then ParseInt(n.value) else Finite(0);
            var length := if n.Some? then ParseInt(n.value) else NaN;
            var sized := length.Finite? && length.value >= 0;
            && ParseExecLine(line) == (if tag == "X" then Exit(code)
                                       else if tag == "O" && sized then Payload(Stdout, length.value)
                                       else if tag == "E" && sized then Payload(Stderr, length.value)
                                       else BadHeader)
            && ParsePtyLine(line) == (if tag == "X" then Exit(code)
                                      else if tag == "O" && sized then Payload(Stdout, length.value)
                                      else BadHeader)
  {
    var text := Text(line);
    WordAlone(tag, text[|tag|..]);
    assert text == tag + text[|tag|..];
    if n.Some? {
      var after := text[|tag| + 1..];
      assert (tag + [' '] + n.value)[..|tag| + 1] == text[..|tag| + 1];
      assert after == n.value + after[|n.value|..] by {
        assert forall i :: 0 <= i < |n.value| ==> after[i] == (tag + [' '] + n.value)[|tag| + 1 + i];
      }
      WordAlone(n.value, after[|n.value|..]);
    }
    NumberOfNothing();
  }

  /** The high bits of a header line's bytes do not count. */
  lemma HighBitsDoNotCount(line: Buffer, other: Buffer)
    requires |line| == |other| && forall i :: 0 <= i < |line| ==> line[i] % 0x80 == other[i] % 0x80
    ensures ParseExecLine(line) == ParseExecLine(other) && ParsePtyLine(line) == ParsePtyLine(other)
  {
    assert Text(line) == Text(other);
  }

  lemma NumberOfNothing()
    ensures ParseInt("") == NaN && ParseInt("0") == Finite(0)
  {
    assert "0" == Decimal(0) + "";
    ParseIntInvertsDecimal(0, "");
  }

  /** A word ends at a space or at the end. */
  lemma {:induction false} WordAlone(word: string, rest: string)
    requires ' ' !in word && (rest == "" || rest[0] == ' ')
    ensures UpToSpace(word + rest) == word
  {
    if word == "" {
      assert word + rest == rest;
    } else {
      assert (word + rest)[1..] == word[1..] + rest;
      WordAlone(word[1..], rest);
    }
  }

  /** The same for the PTY parser, which has stdout frames only. */
  lemma PtyStreamIsDemultiplexed(fs: seq<Frame>, code: int, chunks: seq<Buffer>)
    requires forall f :: f in fs ==> f.tag == Stdout && |f.payload| < TWO53
    requires -TWO53 < code < TWO53
    requires Flatten(chunks) == EncodeFrames(fs) + EncodeExit(code)
    ensures IngestAll(ParsePtyLine, START, chunks)
         == Machine([], 0, None, Sent(fs, Stdout), Sent(fs, Stderr), Some(Finite(code)), false)
  {
    HeaderParses('X', code);
    PtyUnderstands(fs);
    StreamIsDemultiplexed(ParsePtyLine, fs, code, chunks);
  }

  // ---------- The parsers ----------

  class ExecParser {
    const parse: HeaderParser
    const hasOnStdout: bool
    const hasOnStderr: bool
    var stdoutBufs: seq<Buffer>
    var stderrBufs: seq<Buffer>
    var streamedOut: seq<Buffer>  // what the onStdout callback was given
    var streamedErr: seq<Buffer>
    var exitCode: Option<Number>
    var buf: Buffer
    var awaitingBytes: int
    var payloadTag: Option<Tag>
    var failed: bool

    constructor (parse: HeaderParser, hasOnStdout: bool, hasOnStderr: bool)
      ensures Valid() && State() == START
      ensures this.parse == parse && this.hasOnStdout == hasOnStdout && this.hasOnStderr == hasOnStderr
    {
      this.parse := parse;
      this.hasOnStdout, this.hasOnStderr := hasOnStdout, hasOnStderr;
      stdoutBufs, stderrBufs, streamedOut, streamedErr := [], [], [], [];
      exitCode, buf, awaitingBytes, payloadTag, failed := None, [], 0, None, false;
    }

    function State(): Machine
      reads this
    {
      Machine(buf, awaitingBytes, if awaitingBytes > 0 then payloadTag else None,
              Flatten(if hasOnStdout then streamedOut else stdoutBufs),
              Flatten(if hasOnStderr then streamedErr else stderrBufs), exitCode, failed)
    }

    /** What a callback is given is not kept. */
    ghost predicate Valid()
      reads this
    {
      (hasOnStdout ==> stdoutBufs == []) && (hasOnStderr ==> stderrBufs == [])
    }

    /** The socket's data handler: on a protocol error the socket is destroyed with what it has buffered. */
    method OnData(data: Buffer)
      requires Valid()
      modifies this
      ensures Valid() && State() == Ingest(parse, old(State()), data)
    {
      if failed {
        return;
      }
      buf := buf + data;
      Step();
    }

    method Step()
      requires Valid() && !failed
      modifies this
      ensures Valid() && State() == Run(parse, old(State()))
    {
      hide Run, Deliver, NewlineAt, Flatten;
      while true
        invariant Valid() && !failed
        invariant Run(parse, State()) == Run(parse, old(State()))
        decreases |buf|
      {
        RunStep(parse, State());
        if awaitingBytes > 0 {
          var more := ConsumeExecPayload();
          if !more {
            return;
          }
        } else {
          var header := ReadExecHeader();
          match header
          case None => return;
          case Some(BadHeader) =>
            failed, buf := true, [];
            return;
          case Some(Exit(code)) =>
            exitCode := Some(code);
            return;
          case Some(Payload(tag, length)) =>
            awaitingBytes, payloadTag := length, Some(tag);
        }
      }
    }

    method ConsumeExecPayload() returns (more: bool)
      requires Valid() && !failed && awaitingBytes > 0
      modifies this
      ensures Valid() && !failed && (more <==> old(buf) != [])
      ensures !more ==> State() == old(State())
      ensures more ==> |buf| < |old(buf)|
      ensures more ==>
                var take := Min(old(awaitingBytes), |old(buf)|);
                State() == Deliver(old(State()).(buf := old(buf)[take..]), old(buf)[..take])
    {
      hide Flatten;
      if |buf| == 0 {
        return false;
      }
      var take := Min(awaitingBytes, |buf|);
      var chunk := buf[..take];
      buf := buf[take..];
      awaitingBytes := awaitingBytes - take;
      DeliverExecPayload(chunk);
      if awaitingBytes == 0 {
        payloadTag := None;
      }
      return true;
    }

    method DeliverExecPayload(chunk: Buffer)
      requires Valid()
      modifies this`stdoutBufs, this`stderrBufs, this`streamedOut, this`streamedErr
      ensures Valid()
      ensures State().out == old(State()).out + if payloadTag == Some(Stdout) then chunk else []
      ensures State().err == old(State()).err + if payloadTag == Some(Stderr) then chunk else []
    {
      hide Flatten;
      FlattenPush(streamedOut, chunk);
      FlattenPush(stdoutBufs, chunk);
      FlattenPush(streamedErr, chunk);
      FlattenPush(stderrBufs, chunk);
      if payloadTag == Some(Stdout) {
        if hasOnStdout {
          streamedOut := streamedOut + [chunk];
        } else {
          stdoutBufs := stdoutBufs + [chunk];
        }
      } else if payloadTag == Some(Stderr) {
        if hasOnStderr {
          streamedErr := streamedErr + [chunk];
        } else {
          stderrBufs := stderrBufs + [chunk];
        }
      }
    }

    method ReadExecHeader() returns (header: Option<Header>)
      requires !failed && awaitingBytes <= 0
      modifies this`buf
      ensures match NewlineAt(old(buf))
              case None => header.None? && buf == old(buf)
              case Some(nl) => nl < |old(buf)| && header == Some(parse(old(buf)[..nl])) && buf == old(buf)[nl + 1..]
    {
      NewlineBound(buf);
      var nl := NewlineAt(buf);
      if nl.None? {
        return None;
      }
      var line := buf[..nl.value];
      buf := buf[nl.value + 1..];
      return Some(parse(line));
    }

    /** What the caller gets when the socket closes; output given to a callback is not in it. */
    method Finish() returns (r: Result<ExecResult, ExecError>)
      requires Valid()
      ensures failed ==> r == Err(Protocol)
      ensures !failed && State().exit.None? ==> r == Err(AgentUnavailable)
      ensures !failed && State().exit.Some? ==>
                r == Ok(ExecResult(State().exit.value, if hasOnStdout then [] else State().out,
                                   if hasOnStderr then [] else State().err))
    {
      if failed {
        return Err(Protocol);
      }
      if exitCode.None? {
        return Err(AgentUnavailable);
      }
      return Ok(ExecResult(exitCode.value, Flatten(stdoutBufs), Flatten(stderrBufs)));
    }
  }

  datatype ExecResult = ExecResult(exitCode: Number, stdout: Buffer, stderr: Buffer)

  datatype ExecError = Protocol | AgentUnavailable

  class PtyParser {
    var buffer: Buffer
    var awaitingBytes: int
    var written: seq<Buffer>
    var exitCode: Option<Number>
    var failed: bool

    constructor ()
      ensures State() == START
    {
      buffer, awaitingBytes, written, exitCode, failed := [], 0, [], None, false;
    }

    function State(): Machine
      reads this
    {
      Machine(buffer, awaitingBytes, if awaitingBytes > 0 then Some(Stdout) else None,
              Flatten(written), [], exitCode, failed)
    }

    method IngestPtyOutput(data: Buffer)
      modifies this
      ensures State() == Ingest(ParsePtyLine, old(State()), data)
    {
      if failed {
        return;
      }
      buffer := buffer + data;
      ghost var start := State();
      var more := true;
      while more
        invariant more ==> !failed
        invariant Run(ParsePtyLine, start) == if more then Run(ParsePtyLine, State()) else State()
        decreases more, |buffer|
      {
        more := ConsumeNextPtyFrame();
      }
    }

    method ConsumeNextPtyFrame() returns (more: bool)
      requires !failed
      modifies this
      ensures more ==> !failed && |buffer| < |old(buffer)|
      ensures Run(ParsePtyLine, old(State())) == if more then Run(ParsePtyLine, State()) else State()
    {
      hide Run;
      RunStep(ParsePtyLine, State());
      if awaitingBytes > 0 {
        if |buffer| == 0 {
          return false;
        }
        var take := Min(awaitingBytes, |buffer|);
        FlattenPush(written, buffer[..take]);
        written := written + [buffer[..take]];
        buffer := buffer[take..];
        awaitingBytes := awaitingBytes - take;
        return true;
      }
      NewlineBound(buffer);
      var nl := NewlineAt(buffer);
      if nl.None? {
        return false;
      }
      var header := ParsePtyLine(buffer[..nl.value]);
      PtyTag(buffer[..nl.value]);
      buffer := buffer[nl.value + 1..];
      match header {
        case BadHeader =>
          failed, buffer := true, [];
          return false;
        case Exit(code) =>
          exitCode := Some(code);
          return false;
        case Payload(_, bytes) =>
          awaitingBytes := bytes;
          return true;
      }
    }
  }

  lemma PtyTag(line: Buffer)
    ensures ParsePtyLine(line).Payload? ==> ParsePtyLine(line).tag == Stdout
  {
  }
}
