/**
 * The console noise filter of quiet.ts and the ring buffer behind it. What counts as boot
 * noise, as a prompt and as blank is left open: the results hold for any choice.
 */
module Quiet {
  import opened Bytes
  import opened Strings

  // ---------- The ring buffer ----------

  function Size(chunks: seq<Buffer>): nat { if chunks == [] then 0 else |chunks[0]| + Size(chunks[1..]) }

  /** What the buffer keeps: the first chunks go until the rest fits, but never the last one. */
  function Trimmed(chunks: seq<Buffer>, cap: nat): seq<Buffer> {
    if Size(chunks) > cap && |chunks| > 1 then Trimmed(chunks[1..], cap) else chunks
  }

  lemma {:induction false} SizeAppend(a: seq<Buffer>, b: seq<Buffer>)
    ensures Size(a + b) == Size(a) + Size(b)
  {
    if a == [] {
      assert a + b == b;
    } else {
      assert (a + b)[1..] == a[1..] + b;
      SizeAppend(a[1..], b);
    }
  }

  lemma {:induction false} SizeIsLength(chunks: seq<Buffer>)
    ensures |Flatten(chunks)| == Size(chunks)
  {
    if chunks != [] {
      SizeIsLength(chunks[1..]);
    }
  }

  /** The kept chunks are the longest suffix that fits, or the last chunk when none fits. */
  lemma {:induction false} TrimmedIsLongestSuffix(chunks: seq<Buffer>, cap: nat) returns (k: nat)
    requires chunks != []
    ensures k < |chunks| && Trimmed(chunks, cap) == chunks[k..]
    ensures Size(chunks[k..]) <= cap || k == |chunks| - 1
    ensures forall j :: 0 <= j < k ==> Size(chunks[j..]) > cap
  {
    if Size(chunks) > cap && |chunks| > 1 {
      var rest := chunks[1..];
      var k' := TrimmedIsLongestSuffix(rest, cap);
      k := k' + 1;
      assert forall j :: 0 <= j < |rest| ==> rest[j..] == chunks[j + 1..];
      assert chunks[0..] == chunks;
      assert forall j :: 0 < j < k ==> chunks[j..] == rest[j - 1..];
    } else {
      k := 0;
      assert chunks[0..] == chunks;
    }
  }

  /** Trimming at each push keeps what trimming the whole history would. */
  lemma {:induction false} TrimmedPush(chunks: seq<Buffer>, cap: nat, x: Buffer)
    ensures Trimmed(Trimmed(chunks, cap) + [x], cap) == Trimmed(chunks + [x], cap)
  {
    if Size(chunks) > cap && |chunks| > 1 {
      SizeAppend(chunks, [x]);
      assert (chunks + [x])[1..] == chunks[1..] + [x];
      TrimmedPush(chunks[1..], cap, x);
    }
  }

  class RingBuffer {
    const cap: nat
    var chunks: seq<Buffer>
    var size: nat
    ghost var history: seq<Buffer>

    constructor (cap: nat)
      ensures Valid() && history == [] && this.cap == cap
    {
      this.cap, chunks, size, history := cap, [], 0, [];
    }

    /** `history` is every chunk pushed, but for the empty ones. */
    ghost predicate Valid()
      reads this
    {
      chunks == Trimmed(history, cap) && size == Size(chunks) && (forall b :: b in history ==> b != [])
    }

    method Push(chunk: Buffer)
      requires Valid()
      modifies this
      ensures Valid()
      ensures history == if chunk == [] then old(history) else old(history) + [chunk]
      ensures chunk != [] ==> chunks != [] && chunks[|chunks| - 1] == chunk && size <= Max(cap, |chunk|)
    {
      if chunk == [] { return; }
      TrimmedPush(history, cap, chunk);
      history := history + [chunk];
      SizeAppend(chunks, [chunk]);
      chunks, size := chunks + [chunk], size + |chunk|;
      while size > cap && |chunks| > 1
        invariant history == old(history) + [chunk]
        invariant Trimmed(chunks, cap) == Trimmed(history, cap)
        invariant size == Size(chunks)
        invariant chunks != [] && chunks[|chunks| - 1] == chunk
      {
        size := size - |chunks[0]|;
        chunks := chunks[1..];
      }
      assert |chunks| == 1 ==> chunks[1..] == [];
    }

    method IsEmpty() returns (r: bool)
      requires Valid()
      ensures r <==> history == []
    {
      r := size == 0;
      if history != [] {
        var k := TrimmedIsLongestSuffix(history, cap);
        assert chunks[0] in history;
      }
    }

    /** toString, before decoding. */
    method Contents() returns (r: Buffer)
      requires Valid()
      ensures |r| == size
      ensures exists k :: 0 <= k <= |history| && r == Flatten(history[k..])
    {
      r := Flatten(chunks);
      SizeIsLength(chunks);
      if history != [] {
        var k := TrimmedIsLongestSuffix(history, cap);
      } else {
        assert history[0..] == history;
      }
    }
  }

  // ---------- The filter ----------

  datatype Classifier = Classifier(noise: string -> bool, blank: string -> bool, prompt: string -> bool)

  /** What the filter holds back, what it has kept from the user so far, and what it has shown. */
  datatype Filter = Filter(residual: string, ready: bool, quiet: seq<string>, out: string) {
    function Sent(): string { Flatten(quiet) + out }
  }

  const NEW := Filter("", false, [], "")

  predicate Hushed(c: Classifier, line: string) { c.noise(line) || c.blank(line) }

  function Passed(f: Filter, text: string): Filter { f.(out := f.out + text) }

  function Route(c: Classifier, f: Filter, line: string, terminator: string): Filter {
    if line == "" && terminator == "" then f
    else if !f.ready && Hushed(c, line) then f.(quiet := f.quiet + [line + terminator])
    else Passed(f.(ready := true), line + terminator)
  }

  function RouteAll(c: Classifier, f: Filter, lines: seq<string>): Filter
    decreases |lines|
  {
    if lines == [] then f else RouteAll(c, Route(c, f, lines[0], "\n"), lines[1..])
  }

  /** The index of the last newline, or -1. */
  function LastNewline(s: string): (n: int)
    ensures -1 <= n < |s|
    ensures n >= 0 ==> s[n] == '\n'
    ensures forall i :: n < i < |s| ==> s[i] != '\n'
  {
    if s == "" then -1 else if s[|s| - 1] == '\n' then |s| - 1 else LastNewline(s[..|s| - 1])
  }

  /** text.split("\n"), without a last empty part. */
  function SplitLines(s: string): seq<string>
    decreases |s|
  {
    if s == "" then []
    else
      var n := FirstNewline(s);
      if n == |s| then [s] else [s[..n]] + SplitLines(s[n + 1..])
  }

  function Flushed(c: Classifier, f: Filter): Filter { Route(c, f.(residual := ""), f.residual, "") }

  function Pushed(c: Classifier, f: Filter, text: string): Filter {
    if f.ready then Passed(f, text)
    else
      var combined := f.residual + text;
      var n := LastNewline(combined);
      if n == -1 then
        if c.prompt(combined) then Route(c, f.(residual := ""), combined, "") else f.(residual := combined)
      else
        var routed := RouteAll(c, f.(residual := combined[n + 1..]), SplitLines(combined[..n + 1]));
        if routed.ready then Passed(routed.(residual := ""), routed.residual) else routed
  }

  datatype Call = Push(text: string) | Flush

  function Called(c: Classifier, f: Filter, call: Call): Filter {
    match call
    case Push(text) => Pushed(c, f, text)
    case Flush => Flushed(c, f)
  }

  function CalledAll(c: Classifier, f: Filter, calls: seq<Call>): Filter
    decreases |calls|
  {
    if calls == [] then f else CalledAll(c, Called(c, f, calls[0]), calls[1..])
  }

  function Text(call: Call): string { if call.Push? then call.text else "" }

  function Input(calls: seq<Call>): string { if calls == [] then "" else Text(calls[0]) + Input(calls[1..]) }

  // ---------- Nothing is lost ----------

  /** The piece is a line that stays hidden, with or without its newline. */
  predicate HushedPiece(c: Classifier, piece: string) {
    Hushed(c, piece) || (piece != "" && piece[|piece| - 1] == '\n' && Hushed(c, piece[..|piece| - 1]))
  }

  /** The text begins with a line, or the part of one that was there, that is not to be hidden. */
  ghost predicate StartsLoud(c: Classifier, out: string) {
    exists n :: 0 <= n <= |out| && '\n' !in out[..n] && !Hushed(c, out[..n])
  }

  /** What has been routed: hidden pieces, then, once ready, what the first other line began. */
  ghost predicate Gated(c: Classifier, f: Filter) {
    && (if f.ready then StartsLoud(c, f.out) else f.out == "")
    && (forall p :: p in f.quiet ==> HushedPiece(c, p))
  }

  ghost predicate Wf(c: Classifier, f: Filter) {
    Gated(c, f) && '\n' !in f.residual && (f.ready ==> f.residual == "")
  }

  lemma StaysLoud(c: Classifier, out: string, more: string)
    requires StartsLoud(c, out)
    ensures StartsLoud(c, out + more)
  {
    var n :| 0 <= n <= |out| && '\n' !in out[..n] && !Hushed(c, out[..n]);
    assert (out + more)[..n] == out[..n];
  }

  lemma RouteKeepsWf(c: Classifier, f: Filter, line: string, terminator: string)
    requires terminator in {"", "\n"} && '\n' !in line && Gated(c, f)
    ensures var r := Route(c, f, line, terminator);
            && Gated(c, r) && r.residual == f.residual && (f.ready ==> r.ready)
            && r.Sent() == f.Sent() + line + terminator
  {
    Associative(f.Sent(), line, terminator);
    if line == "" && terminator == "" {
      assert f.Sent() + "" + "" == f.Sent();
    } else if !f.ready && Hushed(c, line) {
      HushKeepsWf(c, f, line, terminator);
    } else {
      LoudKeepsWf(c, f, line, terminator);
    }
  }

  lemma HushKeepsWf(c: Classifier, f: Filter, line: string, terminator: string)
    requires terminator in {"", "\n"} && Gated(c, f) && !f.ready && Hushed(c, line)
    ensures var r := f.(quiet := f.quiet + [line + terminator]);
            Gated(c, r) && r.Sent() == f.Sent() + (line + terminator)
  {
    var piece := line + terminator;
    assert terminator == "\n" ==> piece[..|piece| - 1] == line;
    assert terminator == "" ==> piece == line;
    FlattenPush(f.quiet, piece);
    assert Flatten(f.quiet) + piece + "" == Flatten(f.quiet) + "" + piece;
  }

  lemma LoudKeepsWf(c: Classifier, f: Filter, line: string, terminator: string)
    requires '\n' !in line && Gated(c, f) && (f.ready || !Hushed(c, line))
    ensures var r := Passed(f.(ready := true), line + terminator);
            Gated(c, r) && r.Sent() == f.Sent() + (line + terminator)
  {
    var piece := line + terminator;
    Associative(Flatten(f.quiet), f.out, piece);
    if f.ready {
      StaysLoud(c, f.out, piece);
    } else {
      assert f.out + piece == piece && piece[..|line|] == line;
    }
  }

  lemma {:induction false} RouteAllKeepsWf(c: Classifier, f: Filter, lines: seq<string>)
    requires Gated(c, f) && forall l :: l in lines ==> '\n' !in l
    ensures var r := RouteAll(c, f, lines);
            && Gated(c, r) && r.residual == f.residual && (f.ready ==> r.ready)
            && r.Sent() == f.Sent() + Terminated(lines)
    decreases |lines|
  {
    if lines == [] {
      assert f.Sent() + "" == f.Sent();
    } else {
      RouteKeepsWf(c, f, lines[0], "\n");
      RouteAllKeepsWf(c, Route(c, f, lines[0], "\n"), lines[1..]);
      assert f.Sent() + lines[0] + "\n" + Terminated(lines[1..])
          == f.Sent() + (lines[0] + "\n" + Terminated(lines[1..]));
    }
  }

  /** The lines, each with its newline. */
  function Terminated(lines: seq<string>): string {
    if lines == [] then "" else lines[0] + "\n" + Terminated(lines[1..])
  }

  lemma {:induction false} SplitLinesTerminated(s: string)
    requires s == "" || s[|s| - 1] == '\n'
    ensures Terminated(SplitLines(s)) == s
    decreases |s|
  {
    if s != "" {
      var n := FirstNewline(s);
      assert n < |s| && (n + 1 < |s| ==> s[n + 1..][|s| - n - 2] == '\n');
      SplitLinesTerminated(s[n + 1..]);
      assert SplitLines(s) == [s[..n]] + SplitLines(s[n + 1..]);
      CutAtNewline(s, n);
      hide *;
      TerminatedFirst(s[..n], SplitLines(s[n + 1..]));
    }
  }

  lemma TerminatedFirst(line: string, lines: seq<string>)
    ensures Terminated([line] + lines) == line + "\n" + Terminated(lines)
  {
    assert ([line] + lines)[1..] == lines;
  }

  lemma {:induction false} NoNewlineInLines(s: string)
    ensures forall l :: l in SplitLines(s) ==> '\n' !in l
    decreases |s|
  {
    var n := FirstNewline(s);
    if s != "" && n < |s| {
      var line, rest := s[..n], s[n + 1..];
      NoNewlineInLines(rest);
      hide FirstNewline;
      assert SplitLines(s) == [line] + SplitLines(rest);
      forall l | l in SplitLines(s)
        ensures '\n' !in l
      {
        assert l == line || l in SplitLines(rest);
      }
    }
  }

  lemma PushedLinesKeepsWf(c: Classifier, f: Filter, combined: string, n: nat)
    requires Wf(c, f) && !f.ready && n < |combined| && combined[n] == '\n' && '\n' !in combined[n + 1..]
    ensures var routed := RouteAll(c, f.(residual := combined[n + 1..]), SplitLines(combined[..n + 1]));
            var r := if routed.ready then Passed(routed.(residual := ""), routed.residual) else routed;
            Wf(c, r) && r.Sent() + r.residual == f.Sent() + combined
  {
    var head, tail := combined[..n + 1], combined[n + 1..];
    SplitLinesTerminated(head);
    NoNewlineInLines(head);
    RouteAllKeepsWf(c, f.(residual := tail), SplitLines(head));
    var r := RouteAll(c, f.(residual := tail), SplitLines(head));
    assert head + tail == combined;
    if r.ready { StaysLoud(c, r.out, tail); }
    Associative(f.Sent(), head, tail);
    Associative(Flatten(r.quiet), r.out, tail);
  }

  lemma PushedKeepsWf(c: Classifier, f: Filter, text: string)
    requires Wf(c, f)
    ensures var r := Pushed(c, f, text);
            Wf(c, r) && (f.ready ==> r.ready) && r.Sent() + r.residual == f.Sent() + f.residual + text
  {
    Associative(f.Sent(), f.residual, text);
    if f.ready {
      assert f.residual + text == text;
      Associative(Flatten(f.quiet), f.out, text);
      StaysLoud(c, f.out, text);
    } else {
      var combined := f.residual + text;
      var n := LastNewline(combined);
      if n >= 0 {
        PushedLinesKeepsWf(c, f, combined, n);
      } else if c.prompt(combined) {
        RouteKeepsWf(c, f.(residual := ""), combined, "");
      }
    }
  }

  lemma FlushedKeepsWf(c: Classifier, f: Filter)
    requires Wf(c, f)
    ensures var r := Flushed(c, f);
            Wf(c, r) && r.residual == "" && (f.ready ==> r.ready) && r.Sent() == f.Sent() + f.residual
  {
    RouteKeepsWf(c, f.(residual := ""), f.residual, "");
    assert f.Sent() + f.residual + "" == f.Sent() + f.residual;
  }

  lemma CalledKeepsWf(c: Classifier, f: Filter, call: Call)
    requires Wf(c, f)
    ensures var r := Called(c, f, call);
            Wf(c, r) && (f.ready ==> r.ready) && r.Sent() + r.residual == f.Sent() + f.residual + Text(call)
  {
    if call.Push? {
      PushedKeepsWf(c, f, call.text);
    } else {
      FlushedKeepsWf(c, f);
    }
  }

  lemma {:induction false} CalledAllKeepsWf(c: Classifier, f: Filter, calls: seq<Call>)
    requires Wf(c, f)
    ensures var r := CalledAll(c, f, calls);
            Wf(c, r) && r.Sent() + r.residual == f.Sent() + f.residual + Input(calls)
    decreases |calls|
  {
    if calls != [] {
      var g := Called(c, f, calls[0]);
      CalledKeepsWf(c, f, calls[0]);
      CalledAllKeepsWf(c, g, calls[1..]);
      Associative(f.Sent() + f.residual, Text(calls[0]), Input(calls[1..]));
    }
  }

  /**
   * Whatever the chunks, prompts and flushes: the text sent to the buffer and the residual
   * make up the input; the text shown is the end of what was sent, with nothing but hushed
   * pieces before it, and begins with a line that is not to be hidden; and nothing is held
   * back once the filter is ready.
   */
  lemma NothingIsLost(c: Classifier, calls: seq<Call>)
    ensures var f := CalledAll(c, NEW, calls);
            && Flatten(f.quiet) + f.out + f.residual == Input(calls)
            && (forall p :: p in f.quiet ==> HushedPiece(c, p))
            && (if f.ready then f.residual == "" && StartsLoud(c, f.out) else f.out == "")
  {
    CalledAllKeepsWf(c, NEW, calls);
    assert NEW.Sent() + NEW.residual + Input(calls) == Input(calls);
  }

  // ---------- Chunks do not matter ----------

  /** The filter one character at a time, without prompts. */
  function Feed(c: Classifier, f: Filter, x: char): Filter {
    if f.ready then Passed(f, [x])
    else if x == '\n' then Route(c, f.(residual := ""), f.residual, "\n")
    else f.(residual := f.residual + [x])
  }

  function FeedAll(c: Classifier, f: Filter, text: string): Filter
    decreases |text|
  {
    if text == "" then f else FeedAll(c, Feed(c, f, text[0]), text[1..])
  }

  lemma {:induction false} FeedReady(c: Classifier, f: Filter, text: string)
    requires f.ready
    ensures FeedAll(c, f, text) == Passed(f, text)
    decreases |text|
  {
    if text == "" {
      assert f.out + "" == f.out;
    } else {
      FeedReady(c, Feed(c, f, text[0]), text[1..]);
      assert text == [text[0]] + text[1..];
      Associative(f.out, [text[0]], text[1..]);
    }
  }

  lemma {:induction false} FeedPlain(c: Classifier, f: Filter, text: string)
    requires !f.ready && '\n' !in text
    ensures FeedAll(c, f, text) == f.(residual := f.residual + text)
    decreases |text|
  {
    if text == "" {
      assert f.residual + "" == f.residual;
    } else {
      FeedPlain(c, Feed(c, f, text[0]), text[1..]);
      assert text == [text[0]] + text[1..];
      Associative(f.residual, [text[0]], text[1..]);
    }
  }

  lemma {:induction false} FeedAppend(c: Classifier, f: Filter, a: string, b: string)
    ensures FeedAll(c, f, a + b) == FeedAll(c, FeedAll(c, f, a), b)
    decreases |a|
  {
    if a == "" {
      assert a + b == b;
    } else {
      assert (a + b)[1..] == a[1..] + b;
      FeedAppend(c, Feed(c, f, a[0]), a[1..], b);
    }
  }

  /** Whole lines: routed one by one, or fed character by character. */
  lemma {:induction false} FeedLines(c: Classifier, f: Filter, s: string)
    requires f.residual == "" && (s == "" || s[|s| - 1] == '\n')
    ensures FeedAll(c, f, s) == RouteAll(c, f, SplitLines(s))
    decreases |s|
  {
    if s != "" {
      var n := FirstNewline(s);
      var line, rest := s[..n], s[n + 1..];
      CutAtNewline(s, n);
      FeedAppend(c, f, line + "\n", rest);
      FeedLine(c, f, line);
      FeedLines(c, Route(c, f, line, "\n"), rest);
      RouteAllCons(c, f, line, SplitLines(rest));
    }
  }

  lemma RouteAllCons(c: Classifier, f: Filter, line: string, lines: seq<string>)
    ensures RouteAll(c, f, [line] + lines) == RouteAll(c, Route(c, f, line, "\n"), lines)
  {
    assert ([line] + lines)[1..] == lines;
  }

  lemma FeedLine(c: Classifier, f: Filter, line: string)
    requires f.residual == "" && '\n' !in line
    ensures FeedAll(c, f, line + "\n") == Route(c, f, line, "\n")
    ensures Route(c, f, line, "\n").residual == ""
  {
    if f.ready {
      FeedReady(c, f, line + "\n");
    } else {
      FeedAppend(c, f, line, "\n");
      FeedPlain(c, f, line);
      assert "" + line == line;
      var g := f.(residual := line);
      assert FeedAll(c, g, "\n") == FeedAll(c, Feed(c, g, '\n'), "");
    }
  }

  /** A chunk is taken as the beginning of a prompt. */
  predicate PromptFires(c: Classifier, f: Filter, text: string) {
    !f.ready && '\n' !in text && f.residual + text != "" && c.prompt(f.residual + text)
  }

  lemma {:induction false} RouteAllResidual(c: Classifier, f: Filter, lines: seq<string>, tail: string)
    ensures RouteAll(c, f.(residual := tail), lines) == RouteAll(c, f, lines).(residual := tail)
    decreases |lines|
  {
    if lines != [] {
      RouteAllResidual(c, Route(c, f, lines[0], "\n"), lines[1..], tail);
    }
  }

  /** Pushing a chunk is feeding its characters exactly when it is not taken for a prompt. */
  lemma PushedIsFedIff(c: Classifier, f: Filter, text: string)
    requires Wf(c, f)
    ensures Pushed(c, f, text) == FeedAll(c, f, text) <==> !PromptFires(c, f, text)
  {
    hide RouteAll, SplitLines, FeedAll;
    if f.ready {
      FeedReady(c, f, text);
    } else {
      var combined := f.residual + text;
      FeedPlain(c, f.(residual := ""), f.residual);
      assert "" + f.residual == f.residual;
      FeedAppend(c, f.(residual := ""), f.residual, text);
      var n := LastNewline(combined);
      if n == -1 {
        assert forall x :: x in text ==> x in combined;
        FeedPlain(c, f, text);
      } else {
        assert combined[n] in text;
        PushedLinesAreFed(c, f, combined, n);
      }
    }
  }

  lemma PushedLinesAreFed(c: Classifier, f: Filter, combined: string, n: nat)
    requires n < |combined| && combined[n] == '\n' && '\n' !in combined[n + 1..]
    ensures var routed := RouteAll(c, f.(residual := combined[n + 1..]), SplitLines(combined[..n + 1]));
            FeedAll(c, f.(residual := ""), combined)
            == if routed.ready then Passed(routed.(residual := ""), routed.residual) else routed
  {
    hide RouteAll, SplitLines, FeedAll;
    var head, tail := combined[..n + 1], combined[n + 1..];
    assert combined == head + tail;
    FeedAppend(c, f.(residual := ""), head, tail);
    FeedLines(c, f.(residual := ""), head);
    FedLinesThenTail(c, f, head, tail);
  }

  lemma FedLinesThenTail(c: Classifier, f: Filter, head: string, tail: string)
    requires '\n' !in tail
    ensures var routed := RouteAll(c, f.(residual := tail), SplitLines(head));
            FeedAll(c, RouteAll(c, f.(residual := ""), SplitLines(head)), tail)
            == if routed.ready then Passed(routed.(residual := ""), routed.residual) else routed
  {
    RouteAllResidual(c, f, SplitLines(head), tail);
    RouteAllResidual(c, f, SplitLines(head), "");
    var r := RouteAll(c, f.(residual := ""), SplitLines(head));
    assert "" + tail == tail;
    if r.ready {
      FeedReady(c, r, tail);
    } else {
      FeedPlain(c, r, tail);
    }
  }

  function Pushes(chunks: seq<string>): seq<Call> {
    if chunks == [] then [] else [Push(chunks[0])] + Pushes(chunks[1..])
  }

  /** No chunk is taken for a prompt on the way. */
  predicate NoPrompt(c: Classifier, f: Filter, chunks: seq<string>)
    decreases |chunks|
  {
    chunks == [] ||
    (!PromptFires(c, f, chunks[0]) && NoPrompt(c, Pushed(c, f, chunks[0]), chunks[1..]))
  }

  /** Without prompts, what is kept, shown and held back depends on the concatenation alone. */
  lemma {:induction false} ChunksDoNotMatter(c: Classifier, f: Filter, chunks: seq<string>)
    requires Wf(c, f) && NoPrompt(c, f, chunks)
    ensures CalledAll(c, f, Pushes(chunks)) == FeedAll(c, f, Flatten(chunks))
    decreases |chunks|
  {
    if chunks != [] {
      var g := Pushed(c, f, chunks[0]);
      PushedIsFedIff(c, f, chunks[0]);
      PushedKeepsWf(c, f, chunks[0]);
      ChunksDoNotMatter(c, g, chunks[1..]);
      FeedAppend(c, f, chunks[0], Flatten(chunks[1..]));
      assert Pushes(chunks)[1..] == Pushes(chunks[1..]);
    }
  }

  // ---------- What is shown ----------

  /** A line of boot noise, or a blank one. */
  predicate Hidden(c: Classifier, line: string) { '\n' !in line && (c.noise(line) || c.blank(line)) }

  predicate Shown(c: Classifier, line: string) { '\n' !in line && !c.noise(line) && !c.blank(line) }

  /** Hidden lines are kept from the user, in order. */
  lemma {:induction false} HiddenLinesGo(c: Classifier, f: Filter, lines: seq<string>)
    requires !f.ready && f.residual == "" && forall l :: l in lines ==> Hidden(c, l)
    ensures var r := FeedAll(c, f, Terminated(lines));
            !r.ready && r.residual == "" && r.out == f.out && Flatten(r.quiet) == Flatten(f.quiet) + Terminated(lines)
    decreases |lines|
  {
    if lines == [] {
      assert Flatten(f.quiet) + "" == Flatten(f.quiet);
    } else {
      var line, later := lines[0], Terminated(lines[1..]);
      assert Hidden(c, line) && Terminated(lines) == line + "\n" + later;
      HiddenLineGoes(c, f, line);
      hide *;
      FeedAppend(c, f, line + "\n", later);
      HiddenLinesGo(c, FeedAll(c, f, line + "\n"), lines[1..]);
      Associative(Flatten(f.quiet), line + "\n", later);
    }
  }

  lemma HiddenLineGoes(c: Classifier, f: Filter, line: string)
    requires !f.ready && f.residual == "" && Hidden(c, line)
    ensures var r := FeedAll(c, f, line + "\n");
            !r.ready && r.residual == "" && r.out == f.out && Flatten(r.quiet) == Flatten(f.quiet) + (line + "\n")
  {
    FeedLine(c, f, line);
    FlattenPush(f.quiet, line + "\n");
  }

  /** Without prompts, the output is the input from the first line on that is neither noise nor blank. */
  lemma ShownFromFirstSuchLine(c: Classifier, lines: seq<string>, line: string, rest: string)
    requires (forall l :: l in lines ==> Hidden(c, l)) && Shown(c, line)
    ensures var r := FeedAll(c, NEW, Terminated(lines) + (line + "\n" + rest));
            r.ready && r.residual == "" && r.out == line + "\n" + rest && Flatten(r.quiet) == Terminated(lines)
  {
    hide Terminated;
    HiddenLinesGo(c, NEW, lines);
    var f := FeedAll(c, NEW, Terminated(lines));
    FeedAppend(c, NEW, Terminated(lines), line + "\n" + rest);
    FeedAppend(c, f, line + "\n", rest);
    FeedLine(c, f, line);
    assert f.out + (line + "\n") == line + "\n";
    FeedReady(c, Passed(f.(ready := true), line + "\n"), rest);
    assert "" + Terminated(lines) == Terminated(lines);
  }

  /** And while there has been no such line, nothing is shown, and an unfinished line is held back. */
  lemma NothingShownYet(c: Classifier, lines: seq<string>, rest: string)
    requires (forall l :: l in lines ==> Hidden(c, l)) && '\n' !in rest
    ensures var r := FeedAll(c, NEW, Terminated(lines) + rest);
            !r.ready && r.residual == rest && r.out == "" && Flatten(r.quiet) == Terminated(lines)
  {
    hide Terminated;
    HiddenLinesGo(c, NEW, lines);
    FeedAppend(c, NEW, Terminated(lines), rest);
    FeedPlain(c, FeedAll(c, NEW, Terminated(lines)), rest);
    assert "" + rest == rest && "" + Terminated(lines) == Terminated(lines);
  }

  lemma WfSays(c: Classifier, f: Filter)
    requires Wf(c, f)
    ensures if f.ready then f.residual == "" else f.out == ""
  {
  }

  // ---------- The filter object ----------

  function Encoded(encode: string -> Buffer, pieces: seq<string>): seq<Buffer> {
    if pieces == [] then []
    else
      var rest, last := Encoded(encode, pieces[..|pieces| - 1]), encode(pieces[|pieces| - 1]);
      if last == [] then rest else rest + [last]
  }

  class NoiseFilter {
    const c: Classifier
    const encode: string -> Buffer
    const buffer: RingBuffer
    var residual: string
    var readyFired: bool
    var out: string
    var onReadyCalls: nat
    ghost var quiet: seq<string>
    ghost var pieces: seq<string>

    constructor (c: Classifier, encode: string -> Buffer, buffer: RingBuffer)
      requires buffer.Valid() && buffer.history == []
      ensures Valid() && State() == NEW && pieces == []
      ensures this.c == c && this.encode == encode && this.buffer == buffer
    {
      this.c, this.encode, this.buffer := c, encode, buffer;
      residual, readyFired, out, onReadyCalls, quiet, pieces := "", false, "", 0, [], [];
    }

    ghost function State(): Filter
      reads this
    {
      Filter(residual, readyFired, quiet, out)
    }

    /** The buffer has been given exactly the text sent, in pieces; onReady was called once, when the gate opened. */
    ghost predicate Valid()
      reads this, buffer
    {
      && buffer.Valid() && buffer.history == Encoded(encode, pieces)
      && Flatten(pieces) == State().Sent()
      && onReadyCalls == (if readyFired then 1 else 0)
    }

    method Buffered(text: string)
      requires buffer.Valid() && buffer.history == Encoded(encode, pieces)
      modifies this`pieces, buffer
      ensures buffer.Valid() && buffer.history == Encoded(encode, pieces)
      ensures pieces == old(pieces) + [text] && Flatten(pieces) == Flatten(old(pieces)) + text
    {
      buffer.Push(encode(text));
      FlattenPush(pieces, text);
      assert (pieces + [text])[..|pieces|] == pieces;
      pieces := pieces + [text];
    }

    method PassThrough(text: string)
      requires Valid()
      modifies this`out, this`pieces, buffer
      ensures Valid() && State() == Passed(old(State()), text)
    {
      Associative(Flatten(quiet), out, text);
      out := out + text;
      Buffered(text);
    }

    method RouteLine(line: string, terminator: string)
      requires Valid() && (!readyFired ==> out == "")
      modifies this`readyFired, this`onReadyCalls, this`out, this`quiet, this`pieces, buffer
      ensures Valid() && State() == Route(c, old(State()), line, terminator)
      ensures !readyFired ==> out == ""
    {
      if line == "" && terminator == "" { return; }
      if !readyFired && c.noise(line) {
        Hush(line + terminator);
        return;
      }
      if !readyFired {
        if c.blank(line) {
          Hush(line + terminator);
          return;
        }
        readyFired := true;
        onReadyCalls := onReadyCalls + 1;
      }
      PassThrough(line + terminator);
    }

    method Hush(piece: string)
      requires Valid() && out == ""
      modifies this`quiet, this`pieces, buffer
      ensures Valid() && State() == old(State()).(quiet := old(quiet) + [piece])
    {
      hide Encoded, Flatten;
      Buffered(piece);
      FlattenPush(quiet, piece);
      quiet := quiet + [piece];
    }

    method RouteLines(lines: seq<string>)
      requires Valid() && (!readyFired ==> out == "")
      modifies this`readyFired, this`onReadyCalls, this`out, this`quiet, this`pieces, buffer
      ensures Valid() && State() == RouteAll(c, old(State()), lines)
    {
      hide Route;
      ghost var start := State();
      for i := 0 to |lines|
        invariant Valid() && (!readyFired ==> out == "")
        invariant RouteAll(c, State(), lines[i..]) == RouteAll(c, start, lines)
      {
        assert lines[i..] == [lines[i]] + lines[i + 1..];
        RouteAllCons(c, State(), lines[i], lines[i + 1..]);
        RouteLine(lines[i], "\n");
      }
    }

    method Push(text: string)
      requires Valid() && Wf(c, State())
      modifies this, buffer
      ensures Valid() && Wf(c, State()) && State() == Pushed(c, old(State()), text)
    {
      hide Route, RouteAll, SplitLines, Gated, Wf;
      WfSays(c, State());
      PushedKeepsWf(c, State(), text);
      if readyFired {
        PassThrough(text);
        return;
      }
      var combined := residual + text;
      var n := LastNewline(combined);
      if n == -1 {
        if c.prompt(combined) {
          residual := "";
          RouteLine(combined, "");
        } else {
          residual := combined;
        }
        return;
      }
      residual := combined[n + 1..];
      RouteLines(SplitLines(combined[..n + 1]));
      if readyFired && |residual| > 0 {
        var tail := residual;
        residual := "";
        PassThrough(tail);
      } else {
        assert out + "" == out;
      }
    }

    method Flush()
      requires Valid() && Wf(c, State())
      modifies this, buffer
      ensures Valid() && Wf(c, State()) && State() == Flushed(c, old(State()))
    {
      FlushedKeepsWf(c, State());
      if residual == "" { return; }
      var tail := residual;
      residual := "";
      RouteLine(tail, "");
    }
  }
}
