/** The receiving side of the desktop client (client.ts). */
module DesktopClient {
  import opened Bytes
  import opened Strings
  import T = TerminalOutput

  /** What JSON.parse and the checks after it make of a line. */
  datatype Message =
    | Invalid
    | Ignored
    | Response(id: int, ok: bool)
    | Output(terminal: string, data: Buffer)

  type Parser = string -> Message

  /** `settled` says of each finished request whether it succeeded. */
  datatype Client = Client(connected: bool, buf: string, logs: map<string, Buffer>,
                           pending: set<int>, settled: map<int, bool>, counter: nat) {
    function Log(terminal: string): Buffer { if terminal in logs then logs[terminal] else [] }
  }

  // ---------- What a line does ----------

  /** handleDisconnect: whatever is pending is rejected. */
  function Disconnected(c: Client): Client {
    c.(connected := false, pending := {},
       settled := map id | id in c.settled.Keys + c.pending :: if id in c.pending then false else c.settled[id])
  }

  function Taken(c: Client, m: Message): Client {
    match m
    case Invalid => Disconnected(c)
    case Ignored => c
    case Response(id, ok) =>
      if id in c.pending then c.(pending := c.pending - {id}, settled := c.settled[id := ok]) else c
    case Output(terminal, data) => c.(logs := c.logs[terminal := c.Log(terminal) + data])
  }

  function Handled(parse: Parser, c: Client, line: string): (r: Client)
    ensures r.buf == c.buf
  {
    if line == "" then c else Taken(c, parse(line))
  }

  /** receive's loop, over what is buffered. */
  function Run(parse: Parser, c: Client): Client
    decreases |c.buf|
  {
    var n := FirstNewline(c.buf);
    if !c.connected || n == |c.buf| then c
    else
      Run(parse, Handled(parse, c.(buf := c.buf[n + 1..]), c.buf[..n]))
  }

  /** A chunk; a destroyed socket delivers no more. */
  function Received(parse: Parser, c: Client, chunk: string): Client {
    if c.connected then Run(parse, c.(buf := c.buf + chunk)) else c
  }

  function ReceivedAll(parse: Parser, c: Client, chunks: seq<string>): Client
    decreases |chunks|
  {
    if chunks == [] then c else ReceivedAll(parse, Received(parse, c, chunks[0]), chunks[1..])
  }

  // ---------- Chunks do not matter ----------

  /** One character at a time. */
  function Feed(parse: Parser, c: Client, x: char): Client {
    if !c.connected then c
    else if x == '\n' then Handled(parse, c.(buf := ""), c.buf)
    else c.(buf := c.buf + [x])
  }

  function FeedAll(parse: Parser, c: Client, text: string): Client
    decreases |text|
  {
    if text == "" then c else FeedAll(parse, Feed(parse, c, text[0]), text[1..])
  }

  /** What is buffered after a disconnect is never looked at again. */
  function Seen(c: Client): Client { if c.connected then c else c.(buf := "") }

  lemma {:induction false} FeedAppend(parse: Parser, c: Client, a: string, b: string)
    ensures FeedAll(parse, c, a + b) == FeedAll(parse, FeedAll(parse, c, a), b)
    decreases |a|
  {
    if a == "" {
      assert a + b == b;
    } else {
      assert (a + b)[1..] == a[1..] + b;
      FeedAppend(parse, Feed(parse, c, a[0]), a[1..], b);
    }
  }

  lemma {:induction false} FeedPlain(parse: Parser, c: Client, text: string)
    requires c.connected && '\n' !in text
    ensures FeedAll(parse, c, text) == c.(buf := c.buf + text)
    decreases |text|
  {
    if text == "" {
      assert c.buf + "" == c.buf;
    } else {
      FeedPlain(parse, Feed(parse, c, text[0]), text[1..]);
      assert text == [text[0]] + text[1..];
      Associative(c.buf, [text[0]], text[1..]);
    }
  }

  lemma {:induction false} FeedDeaf(parse: Parser, c: Client, text: string)
    requires !c.connected
    ensures FeedAll(parse, c, text) == c
    decreases |text|
  {
    if text != "" {
      FeedDeaf(parse, c, text[1..]);
    }
  }

  lemma FeedLine(parse: Parser, c: Client, line: string, rest: string)
    requires c.connected && c.buf == "" && '\n' !in line
    ensures FeedAll(parse, c, line + "\n" + rest) == FeedAll(parse, Handled(parse, c, line), rest)
  {
    FeedAppend(parse, c, line + "\n", rest);
    FeedAppend(parse, c, line, "\n");
    FeedPlain(parse, c, line);
    assert "" + line == line;
    var d := c.(buf := line);
    assert FeedAll(parse, d, "\n") == FeedAll(parse, Feed(parse, d, '\n'), "");
    assert d.(buf := "") == c;
  }

  /** The message of a line has no effect on the buffer, nor the buffer on it. */
  lemma HandledKeepsBuffer(parse: Parser, c: Client, line: string, buf: string)
    ensures Handled(parse, c.(buf := buf), line) == Handled(parse, c, line).(buf := buf)
  {
    hide Disconnected;
    DisconnectedKeepsBuffer(c, buf);
  }

  lemma DisconnectedKeepsBuffer(c: Client, buf: string)
    ensures Disconnected(c.(buf := buf)) == Disconnected(c).(buf := buf)
  {
  }

  /** The loop does what the characters do, one by one. */
  lemma {:induction false} RunIsFed(parse: Parser, c: Client)
    requires c.connected
    ensures Seen(Run(parse, c)) == Seen(FeedAll(parse, c.(buf := ""), c.buf))
    ensures Run(parse, c).connected ==> '\n' !in Run(parse, c).buf
    decreases |c.buf|
  {
    var n := FirstNewline(c.buf);
    if n == |c.buf| {
      FeedPlain(parse, c.(buf := ""), c.buf);
      assert "" + c.buf == c.buf;
    } else {
      var line, rest := c.buf[..n], c.buf[n + 1..];
      CutAtNewline(c.buf, n);
      FeedLine(parse, c.(buf := ""), line, rest);
      HandledKeepsBuffer(parse, c, line, rest);
      HandledKeepsBuffer(parse, c, line, "");
      var next := Handled(parse, c.(buf := rest), line);
      assert next.buf == rest && next.(buf := "") == Handled(parse, c.(buf := ""), line);
      if next.connected {
        RunIsFed(parse, next);
      } else {
        FeedDeaf(parse, next.(buf := ""), rest);
      }
    }
  }

  /** Between chunks the buffer holds no whole line. */
  predicate Waiting(c: Client) { c.connected ==> '\n' !in c.buf }

  lemma ReceivedIsFed(parse: Parser, c: Client, chunk: string)
    requires Waiting(c)
    ensures Seen(Received(parse, c, chunk)) == Seen(FeedAll(parse, c, chunk))
    ensures Waiting(Received(parse, c, chunk))
  {
    hide Run, FeedAll, Handled;
    if c.connected {
      RunIsFed(parse, c.(buf := c.buf + chunk));
      FeedAppend(parse, c.(buf := ""), c.buf, chunk);
      FeedPlain(parse, c.(buf := ""), c.buf);
      assert "" + c.buf == c.buf;
    } else {
      FeedDeaf(parse, c, chunk);
    }
  }

  lemma {:induction false} SeenFeeds(parse: Parser, c: Client, d: Client, text: string)
    requires Seen(c) == Seen(d)
    ensures Seen(FeedAll(parse, c, text)) == Seen(FeedAll(parse, d, text))
  {
    if !c.connected {
      FeedDeaf(parse, c, text);
      FeedDeaf(parse, d, text);
    }
  }

  /** However the stream is cut, the client ends up with the same answers, output and pending requests. */
  lemma {:induction false} ChunksDoNotMatter(parse: Parser, c: Client, chunks: seq<string>)
    requires Waiting(c)
    ensures Seen(ReceivedAll(parse, c, chunks)) == Seen(FeedAll(parse, c, Flatten(chunks)))
    decreases |chunks|
  {
    if chunks != [] {
      var next := Received(parse, c, chunks[0]);
      ReceivedIsFed(parse, c, chunks[0]);
      ChunksDoNotMatter(parse, next, chunks[1..]);
      FeedAppend(parse, c, chunks[0], Flatten(chunks[1..]));
      SeenFeeds(parse, next, FeedAll(parse, c, chunks[0]), Flatten(chunks[1..]));
    }
  }

  // ---------- What the stream says ----------

  /** The output a stream's lines carry for a terminal, up to the first line that is not JSON. */
  function OutputIn(parse: Parser, terminal: string, text: string): Buffer
    decreases |text|
  {
    var n := FirstNewline(text);
    if n == |text| then []
    else
      var line, rest := text[..n], text[n + 1..];
      if line == "" then OutputIn(parse, terminal, rest)
      else
        match parse(line)
        case Invalid => []
        case Output(t, data) =>
          if t == terminal then data + OutputIn(parse, terminal, rest) else OutputIn(parse, terminal, rest)
        case _ => OutputIn(parse, terminal, rest)
  }

  function OutputOf(m: Message, terminal: string): Buffer {
    if m.Output? && m.terminal == terminal then m.data else []
  }

  lemma TakenLog(c: Client, m: Message, terminal: string)
    ensures Taken(c, m).Log(terminal) == c.Log(terminal) + OutputOf(m, terminal)
  {
    assert c.Log(terminal) + [] == c.Log(terminal);
  }

  lemma TakenConnection(c: Client, m: Message)
    requires c.connected
    ensures Taken(c, m).buf == c.buf && (Taken(c, m).connected <==> !m.Invalid?)
  {
  }

  lemma OutputInStep(parse: Parser, terminal: string, text: string)
    requires FirstNewline(text) < |text|
    ensures var n := FirstNewline(text);
            var line, rest := text[..n], text[n + 1..];
            OutputIn(parse, terminal, text) ==
              if line == "" then OutputIn(parse, terminal, rest)
              else if parse(line).Invalid? then []
              else OutputOf(parse(line), terminal) + OutputIn(parse, terminal, rest)
  {
  }

  lemma {:induction false} RunLogs(parse: Parser, c: Client, terminal: string)
    requires c.connected
    ensures Run(parse, c).Log(terminal) == c.Log(terminal) + OutputIn(parse, terminal, c.buf)
    decreases |c.buf|
  {
    hide OutputIn, OutputOf, Taken;
    var n := FirstNewline(c.buf);
    if n < |c.buf| {
      var line, rest := c.buf[..n], c.buf[n + 1..];
      var d := c.(buf := rest);
      var next := Handled(parse, d, line);
      OutputInStep(parse, terminal, c.buf);
      TakenLog(d, parse(line), terminal);
      TakenConnection(d, parse(line));
      if next.connected {
        RunLogs(parse, next, terminal);
        Associative(c.Log(terminal), OutputOf(parse(line), terminal), OutputIn(parse, terminal, rest));
      } else {
        NoOutput(parse(line), terminal, c.Log(terminal));
      }
    } else {
      NothingYet(parse, terminal, c.buf, c.Log(terminal));
    }
  }

  lemma NoOutput(m: Message, terminal: string, log: Buffer)
    ensures m.Invalid? ==> OutputOf(m, terminal) == [] && log + [] == log
  {
  }

  lemma NothingYet(parse: Parser, terminal: string, text: string, log: Buffer)
    requires FirstNewline(text) == |text|
    ensures log + OutputIn(parse, terminal, text) == log
  {
  }

  /** A terminal's log after any chunks is exactly the output the whole stream carries for it. */
  lemma LogIsStreamOutput(parse: Parser, chunks: seq<string>, terminal: string)
    ensures ReceivedAll(parse, CONNECTED, chunks).Log(terminal) == OutputIn(parse, terminal, Flatten(chunks))
  {
    ChunksDoNotMatter(parse, CONNECTED, chunks);
    var whole := CONNECTED.(buf := Flatten(chunks));
    RunIsFed(parse, whole);
    RunLogs(parse, whole, terminal);
    assert whole.(buf := "") == CONNECTED;
    assert Seen(ReceivedAll(parse, CONNECTED, chunks)) == Seen(Run(parse, whole));
  }

  const CONNECTED := Client(true, "", map[], {}, map[], 0)

  // ---------- Requests ----------

  /** sendRequest; without a socket the request fails at once and gets no number. */
  function Requested(c: Client): Client {
    if c.connected then c.(counter := c.counter + 1, pending := c.pending + {c.counter + 1}) else c
  }

  /** The write of a request fails; a promise that is settled already stays as it is. */
  function WriteFailed(c: Client, id: int): Client {
    if id in c.pending then c.(pending := c.pending - {id}, settled := c.settled[id := false]) else c
  }

  function Attached(c: Client): Client { c.(connected := true, buf := "") }

  datatype Step = Attach | Request | WriteError(id: int) | Chunk(text: string) | Close

  function Next(parse: Parser, c: Client, s: Step): Client {
    match s
    case Attach => if c.connected then c else Attached(c)
    case Request => Requested(c)
    case WriteError(id) => WriteFailed(c, id)
    case Chunk(text) => Received(parse, c, text)
    case Close => if c.connected then Disconnected(c) else c
  }

  function After(parse: Parser, c: Client, steps: seq<Step>): Client
    decreases |steps|
  {
    if steps == [] then c else After(parse, Next(parse, c, steps[0]), steps[1..])
  }

  /** In any step, a terminal's log grows by the output that whole lines carry for it, if by anything. */
  lemma StepLogs(parse: Parser, c: Client, s: Step, terminal: string)
    ensures Next(parse, c, s).Log(terminal) ==
            c.Log(terminal) + if s.Chunk? && c.connected then OutputIn(parse, terminal, c.buf + s.text) else []
  {
    hide Run, OutputIn;
    if s.Chunk? && c.connected {
      RunLogs(parse, c.(buf := c.buf + s.text), terminal);
    } else {
      assert c.Log(terminal) + [] == c.Log(terminal);
    }
  }

  /** Every request made is either waiting or settled, and none waits without a connection. */
  ghost predicate Accounted(c: Client) {
    && (forall id :: 1 <= id <= c.counter <==> id in c.pending || id in c.settled)
    && c.pending !! c.settled.Keys
    && (!c.connected ==> c.pending == {})
  }

  /** What is settled stays settled, the way it was. */
  ghost predicate Settles(before: Client, after: Client) {
    && before.counter <= after.counter
    && (forall id :: id in before.settled ==> id in after.settled && after.settled[id] == before.settled[id])
  }

  lemma HandledAccounts(parse: Parser, c: Client, line: string)
    requires Accounted(c) && c.connected
    ensures Accounted(Handled(parse, c, line)) && Settles(c, Handled(parse, c, line))
  {
  }

  lemma {:induction false} RunAccounts(parse: Parser, c: Client)
    requires Accounted(c)
    ensures Accounted(Run(parse, c)) && Settles(c, Run(parse, c))
    decreases |c.buf|
  {
    hide Handled, Accounted, Settles;
    var n := FirstNewline(c.buf);
    if c.connected && n < |c.buf| {
      var d := c.(buf := c.buf[n + 1..]);
      var next := Handled(parse, d, c.buf[..n]);
      BufferIsIrrelevant(c, c.buf[n + 1..]);
      HandledAccounts(parse, d, c.buf[..n]);
      SettlesFurther(c, d, next);
      RunAccounts(parse, next);
      SettlesFurther(c, next, Run(parse, next));
    } else {
      BufferIsIrrelevant(c, c.buf);
    }
  }

  lemma BufferIsIrrelevant(c: Client, buf: string)
    requires Accounted(c)
    ensures Accounted(c.(buf := buf)) && Settles(c, c.(buf := buf)) && Settles(c, c)
  {
  }

  lemma SettlesFurther(a: Client, b: Client, c: Client)
    requires Settles(a, b) && Settles(b, c)
    ensures Settles(a, c)
  {
  }

  lemma NextAccounts(parse: Parser, c: Client, s: Step)
    requires Accounted(c)
    ensures Accounted(Next(parse, c, s)) && Settles(c, Next(parse, c, s))
  {
    if s.Chunk? && c.connected {
      BufferIsIrrelevant(c, c.buf + s.text);
      RunAccounts(parse, c.(buf := c.buf + s.text));
      SettlesFurther(c, c.(buf := c.buf + s.text), Next(parse, c, s));
    }
  }

  /** Over every run no request is lost, and each is settled once, one way. */
  lemma {:induction false} EveryRequestSettlesOnce(parse: Parser, c: Client, steps: seq<Step>)
    requires Accounted(c)
    ensures Accounted(After(parse, c, steps)) && Settles(c, After(parse, c, steps))
    decreases |steps|
  {
    hide Next, Accounted, Settles;
    if steps == [] {
      BufferIsIrrelevant(c, c.buf);
    } else {
      var next := Next(parse, c, steps[0]);
      NextAccounts(parse, c, steps[0]);
      EveryRequestSettlesOnce(parse, next, steps[1..]);
      SettlesFurther(c, next, After(parse, next, steps[1..]));
    }
  }

  /** So it is from the first connection on. */
  lemma EveryRequestOfAClientSettlesOnce(parse: Parser, steps: seq<Step>)
    ensures Accounted(After(parse, CONNECTED, steps))
  {
    EveryRequestSettlesOnce(parse, CONNECTED, steps);
  }

  // ---------- The client object ----------

  class MachinenClient {
    const parse: Parser
    const output: T.OutputStore
    var connected: bool
    var inputBuffer: string
    var pending: set<int>
    var settled: map<int, bool>
    var requestCounter: nat

    constructor (parse: Parser, output: T.OutputStore)
      requires output.Valid() && output.logs == map[]
      ensures Valid() && View() == CONNECTED && this.parse == parse && this.output == output
    {
      this.parse, this.output := parse, output;
      connected, inputBuffer, pending, settled, requestCounter := true, "", {}, map[], 0;
    }

    ghost predicate Valid()
      reads this, output
    {
      output.Valid()
    }

    ghost function View(): Client
      reads this, output
    {
      Client(connected, inputBuffer, output.logs, pending, settled, requestCounter)
    }

    method Receive(chunk: string)
      requires Valid() && connected
      modifies this, output
      ensures Valid() && View() == Received(parse, old(View()), chunk)
    {
      hide Handled;
      inputBuffer := inputBuffer + chunk;
      ghost var start := View();
      while true
        invariant Valid() && connected
        invariant Run(parse, View()) == Run(parse, start)
        decreases |inputBuffer|
      {
        var newline := FirstNewline(inputBuffer);
        if newline == |inputBuffer| { return; }
        var line := inputBuffer[..newline];
        inputBuffer := inputBuffer[newline + 1..];
        ghost var rest := inputBuffer;
        HandleLine(line);
        if !connected { return; }
      }
    }

    method HandleLine(line: string)
      requires Valid() && connected
      modifies this`connected, this`pending, this`settled, output
      ensures Valid() && View() == Handled(parse, old(View()), line)
    {
      if line == "" { return; }
      match parse(line) {
        case Invalid => HandleDisconnect();
        case Ignored =>
        case Response(id, ok) =>
          if id in pending {
            pending, settled := pending - {id}, settled[id := ok];
          }
        case Output(terminal, data) => output.AppendOutput(terminal, data);
      }
    }

    method HandleDisconnect()
      requires Valid() && connected
      modifies this`connected, this`pending, this`settled
      ensures View() == Disconnected(old(View()))
    {
      connected := false;
      settled := map id | id in settled.Keys + pending :: if id in pending then false else settled[id];
      pending := {};
    }

    method SendRequest() returns (id: Option<int>)
      modifies this`requestCounter, this`pending
      ensures View() == Requested(old(View()))
      ensures id == if connected then Some(requestCounter) else None
    {
      if !connected { return None; }
      requestCounter := requestCounter + 1;
      pending := pending + {requestCounter};
      id := Some(requestCounter);
    }
  }
}
