/** How the requests of a desktop client end. */
module DesktopAnswers {
  import opened Bytes
  import opened Strings
  import opened DesktopClient

  /** What the stream says about a request: it succeeded or failed, the stream broke first, or nothing yet. */
  datatype Answer = Given(ok: bool) | Broken | Open

  /** The first answer to a request among the lines of a text, up to the first line that is not JSON. */
  function AnswerIn(parse: Parser, id: int, text: string): Answer
    decreases |text|
  {
    var n := FirstNewline(text);
    if n == |text| then Open
    else
      var line, rest := text[..n], text[n + 1..];
      if line == "" then AnswerIn(parse, id, rest)
      else
        match parse(line)
        case Invalid => Broken
        case Response(i, ok) => if i == id then Given(ok) else AnswerIn(parse, id, rest)
        case _ => AnswerIn(parse, id, rest)
  }

  /** What has become of a request: it waits, it has succeeded or failed, or it was never made. */
  datatype Fate = Pending | Over(ok: bool) | Unknown

  function FateOf(c: Client, id: int): Fate {
    if id in c.pending then Pending else if id in c.settled then Over(c.settled[id]) else Unknown
  }

  /** A broken stream fails the request. */
  function FateBy(answer: Answer): Fate {
    match answer
    case Given(ok) => Over(ok)
    case Broken => Over(false)
    case Open => Pending
  }

  /** The request has ended, or not, as the answer says. */
  predicate Ended(c: Client, id: int, answer: Answer) { FateOf(c, id) == FateBy(answer) }

  predicate Listening(c: Client) { c.connected && '\n' !in c.buf }

  lemma NoLineLeft(text: string)
    requires FirstNewline(text) == |text|
    ensures '\n' !in text
  {
  }

  predicate HasLine(text: string) { FirstNewline(text) < |text| }

  function LineOf(text: string): string
    requires HasLine(text)
  {
    text[..FirstNewline(text)]
  }

  function RestOf(text: string): (rest: string)
    requires HasLine(text)
    ensures |rest| < |text|
  {
    text[FirstNewline(text) + 1..]
  }

  lemma FirstLineOf(text: string, x: string)
    requires HasLine(text)
    ensures HasLine(text + x) && LineOf(text + x) == LineOf(text) && RestOf(text + x) == RestOf(text) + x
  {
    var n, m := FirstNewline(text), FirstNewline(text + x);
    assert (text + x)[n] == '\n';
    assert (text + x)[..|text|] == text;
    assert m <= n;
  }

  /** One line, and what comes after it. */
  lemma AnswerStep(parse: Parser, id: int, text: string, x: string)
    requires HasLine(text)
    ensures AnswerIn(parse, id, text + x) == LineAnswer(parse, id, LineOf(text), AnswerIn(parse, id, RestOf(text) + x))
  {
    hide *;
    FirstLineOf(text, x);
    OwnAnswer(parse, id, text + x);
  }

  function LineAnswer(parse: Parser, id: int, line: string, rest: Answer): Answer {
    if line == "" then rest
    else if parse(line).Invalid? then Broken
    else if parse(line).Response? && parse(line).id == id then Given(parse(line).ok)
    else rest
  }

  lemma LineEnds(parse: Parser, c: Client, line: string, id: int)
    requires c.connected && id in c.pending
    ensures var d := Handled(parse, c, line);
            && Ended(d, id, LineAnswer(parse, id, line, Open))
            && (LineAnswer(parse, id, line, Open) == Open ==> d.connected && id in d.pending)
  {
  }

  /** What is settled is not touched by the rest of the buffer. */
  lemma {:induction false} EndedStays(parse: Parser, c: Client, id: int, answer: Answer)
    requires Ended(c, id, answer) && answer != Open
    ensures Ended(Run(parse, c), id, answer)
    decreases |c.buf|
  {
    hide Handled, Ended;
    var n := FirstNewline(c.buf);
    if c.connected && n < |c.buf| {
      LineKeepsEnded(parse, c, c.buf[..n], c.buf[n + 1..], id, answer);
      EndedStays(parse, Handled(parse, c.(buf := c.buf[n + 1..]), c.buf[..n]), id, answer);
    }
  }

  lemma LineKeepsEnded(parse: Parser, c: Client, line: string, buf: string, id: int, answer: Answer)
    requires Ended(c, id, answer) && answer != Open
    ensures Ended(Handled(parse, c.(buf := buf), line), id, answer)
  {
  }

  /** The first whole line of what is buffered, the client after it, and what it says. */
  lemma OneLine(parse: Parser, c: Client, id: int) returns (line: string, next: Client)
    requires c.connected && id in c.pending && HasLine(c.buf)
    ensures line == LineOf(c.buf) && next.buf == RestOf(c.buf)
    ensures Run(parse, c) == Run(parse, next)
    ensures AnswerIn(parse, id, c.buf) == LineAnswer(parse, id, line, AnswerIn(parse, id, next.buf))
    ensures Ended(next, id, LineAnswer(parse, id, line, Open))
    ensures LineAnswer(parse, id, line, Open) == Open ==> next.connected && id in next.pending
  {
    hide *;
    line := LineOf(c.buf);
    next := Handled(parse, c.(buf := RestOf(c.buf)), line);
    RunStep(parse, c);
    OwnAnswer(parse, id, c.buf);
    LineEnds(parse, c.(buf := RestOf(c.buf)), line, id);
  }

  lemma NoLine(parse: Parser, c: Client, id: int)
    requires c.connected && id in c.pending && !HasLine(c.buf)
    ensures AnswerIn(parse, id, c.buf) == Open && Run(parse, c) == c && Ended(c, id, Open) && Listening(c)
  {
    hide FirstNewline;
    NothingSaid(parse, id, c.buf);
    NoLineLeft(c.buf);
  }

  /** What is buffered ends the request as it says. */
  lemma {:induction false} RunAnswers(parse: Parser, c: Client, id: int)
    requires c.connected && id in c.pending
    ensures Ended(Run(parse, c), id, AnswerIn(parse, id, c.buf))
    ensures AnswerIn(parse, id, c.buf) == Open ==> Listening(Run(parse, c))
    decreases |c.buf|
  {
    hide *;
    if !HasLine(c.buf) {
      NoLine(parse, c, id);
    } else {
      var line, next := OneLine(parse, c, id);
      if LineAnswer(parse, id, line, Open) == Open {
        AnswerOfRest(parse, id, line, AnswerIn(parse, id, next.buf));
        RunAnswers(parse, next, id);
      } else {
        AnswerOfLine(parse, id, line, AnswerIn(parse, id, next.buf));
        EndedStays(parse, next, id, LineAnswer(parse, id, line, Open));
      }
    }
  }

  /** And otherwise it leaves the rest of the stream to say so. */
  lemma {:induction false} RunLeaves(parse: Parser, c: Client, id: int, x: string)
    requires c.connected && id in c.pending
    ensures if AnswerIn(parse, id, c.buf) == Open
            then AnswerIn(parse, id, c.buf + x) == AnswerIn(parse, id, Run(parse, c).buf + x)
            else AnswerIn(parse, id, c.buf + x) == AnswerIn(parse, id, c.buf)
    decreases |c.buf|
  {
    hide *;
    if !HasLine(c.buf) {
      NoLine(parse, c, id);
    } else {
      var line, next := OneLine(parse, c, id);
      AnswerStep(parse, id, c.buf, x);
      if LineAnswer(parse, id, line, Open) == Open {
        AnswerOfRest(parse, id, line, AnswerIn(parse, id, next.buf));
        AnswerOfRest(parse, id, line, AnswerIn(parse, id, next.buf + x));
        RunLeaves(parse, next, id, x);
      } else {
        AnswerOfLine(parse, id, line, AnswerIn(parse, id, next.buf));
        AnswerOfLine(parse, id, line, AnswerIn(parse, id, next.buf + x));
      }
    }
  }

  /** A line that says nothing leaves the answer to the rest, and any other is the answer. */
  lemma AnswerOfRest(parse: Parser, id: int, line: string, rest: Answer)
    requires LineAnswer(parse, id, line, Open) == Open
    ensures LineAnswer(parse, id, line, rest) == rest
  {
  }

  lemma AnswerOfLine(parse: Parser, id: int, line: string, rest: Answer)
    requires LineAnswer(parse, id, line, Open) != Open
    ensures LineAnswer(parse, id, line, rest) == LineAnswer(parse, id, line, Open)
  {
  }

  lemma RunStep(parse: Parser, c: Client)
    requires c.connected && HasLine(c.buf)
    ensures Run(parse, c) == Run(parse, Handled(parse, c.(buf := RestOf(c.buf)), LineOf(c.buf)))
  {
  }

  lemma OwnAnswer(parse: Parser, id: int, text: string)
    requires HasLine(text)
    ensures AnswerIn(parse, id, text) == LineAnswer(parse, id, LineOf(text), AnswerIn(parse, id, RestOf(text)))
  {
    hide FirstNewline;
  }

  lemma NothingSaid(parse: Parser, id: int, text: string)
    requires FirstNewline(text) == |text|
    ensures AnswerIn(parse, id, text) == Open
  {
  }

  lemma ReceivedKeepsEnded(parse: Parser, c: Client, chunk: string, id: int, answer: Answer)
    requires Ended(c, id, answer) && answer != Open
    ensures Ended(Received(parse, c, chunk), id, answer)
  {
    EndedStays(parse, c.(buf := c.buf + chunk), id, answer);
  }

  lemma {:induction false} AllKeepEnded(parse: Parser, c: Client, chunks: seq<string>, id: int, answer: Answer)
    requires Ended(c, id, answer) && answer != Open
    ensures Ended(ReceivedAll(parse, c, chunks), id, answer)
    decreases |chunks|
  {
    hide Ended, Received;
    if chunks != [] {
      ReceivedKeepsEnded(parse, c, chunks[0], id, answer);
      AllKeepEnded(parse, Received(parse, c, chunks[0]), chunks[1..], id, answer);
    }
  }

  lemma WaitingOn(c: Client, id: int)
    ensures Ended(c, id, Open) <==> id in c.pending
  {
  }

  /**
   * However the stream is cut, a waiting request ends as the stream's first answer to it says.
   * It fails if the stream breaks before that, and waits on if neither comes.
   */
  lemma {:induction false} RequestEndsAsTheStreamSays(parse: Parser, c: Client, chunks: seq<string>, id: int)
    requires Listening(c) && id in c.pending
    ensures Ended(ReceivedAll(parse, c, chunks), id, AnswerIn(parse, id, c.buf + Flatten(chunks)))
    decreases |chunks|
  {
    hide Run, AnswerIn, Ended;
    if chunks == [] {
      assert c.buf + Flatten(chunks) == c.buf;
      NoNewlineFirst(c.buf);
      NothingSaid(parse, id, c.buf);
      WaitingOn(c, id);
    } else {
      var all := c.(buf := c.buf + chunks[0]);
      var next := Received(parse, c, chunks[0]);
      RunAnswers(parse, all, id);
      RunLeaves(parse, all, id, Flatten(chunks[1..]));
      Associative(c.buf, chunks[0], Flatten(chunks[1..]));
      if AnswerIn(parse, id, all.buf) == Open {
        WaitingOn(next, id);
        RequestEndsAsTheStreamSays(parse, next, chunks[1..], id);
      } else {
        AllKeepEnded(parse, next, chunks[1..], id, AnswerIn(parse, id, all.buf));
      }
    }
  }

  lemma NoNewlineFirst(text: string)
    requires '\n' !in text
    ensures FirstNewline(text) == |text|
  {
    assert forall i :: 0 <= i < |text| ==> text[i] != '\n';
  }

  // ---------- Whole runs ----------

  /** How a request ends in a run, from the text received since it could be answered. */
  function Outcome(parse: Parser, text: string, id: int, steps: seq<Step>): Answer
    decreases |steps|
  {
    if AnswerIn(parse, id, text) != Open then AnswerIn(parse, id, text)
    else if steps == [] then Open
    else
      match steps[0]
      case Chunk(t) => Outcome(parse, text + t, id, steps[1..])
      case Close => Broken
      case WriteError(i) => if i == id then Broken else Outcome(parse, text, id, steps[1..])
      case _ => Outcome(parse, text, id, steps[1..])
  }

  /** Of what has been received, only what is buffered still counts. */
  ghost predicate Alike(parse: Parser, id: int, text: string, buf: string) {
    forall x :: AnswerIn(parse, id, text + x) == AnswerIn(parse, id, buf + x)
  }

  lemma OutcomeStays(parse: Parser, c: Client, id: int, answer: Answer, steps: seq<Step>)
    requires Accounted(c) && Ended(c, id, answer) && answer != Open
    ensures Ended(After(parse, c, steps), id, answer)
  {
    EveryRequestSettlesOnce(parse, c, steps);
  }

  lemma OneChunk(parse: Parser, c: Client, id: int, text: string, chunk: string)
    requires Listening(c) && id in c.pending && Alike(parse, id, text, c.buf)
    ensures Ended(Received(parse, c, chunk), id, AnswerIn(parse, id, text + chunk))
    ensures AnswerIn(parse, id, text + chunk) == Open ==>
              Listening(Received(parse, c, chunk)) && Alike(parse, id, text + chunk, Received(parse, c, chunk).buf)
  {
    hide Run, AnswerIn, Ended;
    var all := c.(buf := c.buf + chunk);
    RunAnswers(parse, all, id);
    assert AnswerIn(parse, id, text + chunk) == AnswerIn(parse, id, c.buf + chunk);
    if AnswerIn(parse, id, text + chunk) == Open {
      forall x
        ensures AnswerIn(parse, id, text + chunk + x) == AnswerIn(parse, id, Received(parse, c, chunk).buf + x)
      {
        RunLeaves(parse, all, id, x);
        Associative(text, chunk, x);
        Associative(c.buf, chunk, x);
        assert AnswerIn(parse, id, text + (chunk + x)) == AnswerIn(parse, id, c.buf + (chunk + x));
      }
    }
  }

  lemma {:induction false} RunEndsRequest(parse: Parser, c: Client, id: int, text: string, steps: seq<Step>)
    requires Accounted(c) && Listening(c) && id in c.pending
    requires AnswerIn(parse, id, text) == Open && Alike(parse, id, text, c.buf)
    ensures Ended(After(parse, c, steps), id, Outcome(parse, text, id, steps))
    decreases |steps|
  {
    hide Received, AnswerIn, Alike;
    if steps != [] {
      var next := Next(parse, c, steps[0]);
      NextAccounts(parse, c, steps[0]);
      match steps[0] {
        case Chunk(t) =>
          OneChunk(parse, c, id, text, t);
          if AnswerIn(parse, id, text + t) == Open {
            RunEndsRequest(parse, next, id, text + t, steps[1..]);
          } else {
            OutcomeStays(parse, next, id, AnswerIn(parse, id, text + t), steps[1..]);
          }
        case Close => OutcomeStays(parse, next, id, Broken, steps[1..]);
        case WriteError(i) =>
          if i == id {
            OutcomeStays(parse, next, id, Broken, steps[1..]);
          } else {
            RunEndsRequest(parse, next, id, text, steps[1..]);
          }
        case _ => RunEndsRequest(parse, next, id, text, steps[1..]);
      }
    }
  }

  lemma {:induction false} RunWaits(parse: Parser, c: Client, steps: seq<Step>)
    requires Waiting(c)
    ensures Waiting(After(parse, c, steps))
    decreases |steps|
  {
    hide Received;
    if steps != [] {
      if steps[0].Chunk? {
        ReceivedIsFed(parse, c, steps[0].text);
      }
      RunWaits(parse, Next(parse, c, steps[0]), steps[1..]);
    }
  }

  /**
   * In any run from the first connection on, a request made while connected ends as the text
   * received from then on says, a lost connection and a failed write counting as failures.
   */
  lemma EveryRequestEndsAsItShould(parse: Parser, before: seq<Step>, after: seq<Step>)
    requires After(parse, CONNECTED, before).connected
    ensures var c := Next(parse, After(parse, CONNECTED, before), Request);
            && c.counter == After(parse, CONNECTED, before).counter + 1
            && Ended(After(parse, c, after), c.counter, Outcome(parse, c.buf, c.counter, after))
  {
    hide After, Outcome, Ended;
    var c0 := After(parse, CONNECTED, before);
    EveryRequestOfAClientSettlesOnce(parse, before);
    RunWaits(parse, CONNECTED, before);
    NextAccounts(parse, c0, Request);
    var c := Next(parse, c0, Request);
    NoNewlineFirst(c.buf);
    NothingSaid(parse, c.counter, c.buf);
    assert Alike(parse, c.counter, c.buf, c.buf);
    RunEndsRequest(parse, c, c.counter, c.buf, after);
  }
}
