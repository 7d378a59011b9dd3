/** The bounded window on each terminal's output that the desktop client keeps (client.ts). */
module TerminalOutput {
  import opened Bytes

  const MAX_BUFFERED := 262_144

  datatype Window = Window(data: Buffer, startCursor: nat, endCursor: nat)

  datatype Reading = Reading(startCursor: int, endCursor: nat, truncated: bool, data: Buffer)

  const EMPTY := Window([], 0, 0)

  /** The window on a log of everything the terminal has written: its last 256 KiB. */
  function WindowOn(log: Buffer): Window {
    var start := Max(0, |log| - MAX_BUFFERED);
    Window(log[start..], start, |log|)
  }

  /** What a read of the log itself gives, from any cursor. */
  function ReadingOf(log: Buffer, requested: int): Reading {
    var start := WindowOn(log).startCursor;
    Reading(Max(requested, start), |log|, requested < start, log[Min(Max(requested, start), |log|)..])
  }

  /** The window after more output: the data grow at the end and are cut at the start. */
  lemma WindowMoves(log: Buffer, addition: Buffer)
    ensures var w := WindowOn(log);
            var data := w.data + addition;
            var remove := Max(0, |data| - MAX_BUFFERED);
            WindowOn(log + addition) == Window(data[remove..], w.startCursor + remove, w.endCursor + |addition|)
  {
    var w := WindowOn(log);
    assert (log + addition)[w.startCursor..] == w.data + addition;
  }

  /** The window is a suffix of the log, as long as the limit allows, and its cursors are where it stands. */
  lemma WindowIsSuffix(log: Buffer)
    ensures var w := WindowOn(log);
            && |w.data| == Min(|log|, 256 * 1024) && w.endCursor == |log|
            && w.startCursor == |log| - |w.data| && log[..w.startCursor] + w.data == log
  {
  }

  /**
   * A reading says where its data stand: from the cursor asked for, or from the start of the
   * window when that is later, to the end of the log. Past the end there is nothing.
   */
  lemma ReadingStands(log: Buffer, requested: int)
    ensures var r, start := ReadingOf(log, requested), |log| - Min(|log|, 256 * 1024);
            && r.endCursor == |log|
            && (r.truncated <==> r.startCursor != requested)
            && (requested >= start ==> r.startCursor == requested)
            && (requested < start ==> r.startCursor == start)
            && r.data == if r.startCursor <= |log| then log[r.startCursor..r.endCursor] else []
  {
  }

  class OutputStore {
    var output: map<string, Window>
    ghost var logs: map<string, Buffer>

    constructor ()
      ensures Valid() && logs == map[]
    {
      output, logs := map[], map[];
    }

    ghost predicate Valid()
      reads this
    {
      output.Keys == logs.Keys && forall t :: t in logs ==> output[t] == WindowOn(logs[t])
    }

    ghost function Log(terminal: string): Buffer
      reads this
    {
      if terminal in logs then logs[terminal] else []
    }

    method AppendOutput(terminal: string, addition: Buffer)
      requires Valid()
      modifies this
      ensures Valid() && logs == old(logs)[terminal := old(Log(terminal)) + addition]
    {
      var current := if terminal in output then output[terminal] else EMPTY;
      ghost var log := Log(terminal);
      assert current == WindowOn(log);
      WindowMoves(log, addition);
      hide WindowOn;
      current := current.(data := current.data + addition, endCursor := current.endCursor + |addition|);
      if |current.data| > MAX_BUFFERED {
        var remove := |current.data| - MAX_BUFFERED;
        current := current.(data := current.data[remove..], startCursor := current.startCursor + remove);
      }
      output := output[terminal := current];
      logs := logs[terminal := log + addition];
    }

    /** A read from a cursor, or from the start of the window when none is given. */
    method ReadTerminalOutput(terminal: string, afterCursor: Option<int>) returns (r: Reading)
      requires Valid()
      ensures r == ReadingOf(Log(terminal), match afterCursor { case Some(c) => c
                                                               case None => WindowOn(Log(terminal)).startCursor })
    {
      var current := if terminal in output then output[terminal] else EMPTY;
      assert current == WindowOn(Log(terminal));
      var requested := match afterCursor { case Some(c) => c case None => current.startCursor };
      var effective := Max(requested, current.startCursor);
      var offset := Min(|current.data|, effective - current.startCursor);
      r := Reading(effective, current.endCursor, requested < current.startCursor, current.data[offset..]);
      assert r.data == ReadingOf(Log(terminal), requested).data;
    }
  }

  /** Bytes the reader has not seen are missing from a reading exactly when it says so. */
  lemma TruncatedIff(log: Buffer, cursor: nat)
    requires cursor <= |log|
    ensures ReadingOf(log, cursor).truncated <==> ReadingOf(log, cursor).data != log[cursor..]
    ensures ReadingOf(log, cursor).truncated <==> |log| - cursor > 256 * 1024
    ensures |ReadingOf(log, cursor).data| <= 256 * 1024
  {
    assert |log[cursor..]| == |log| - cursor;
  }

  /** A reader that keeps reading from where the last read ended. */
  datatype Reader = Reader(cursor: nat, collected: Buffer, lost: bool)

  /** One output event, and possibly a read after it. */
  datatype Turn = Turn(addition: Buffer, polled: bool)

  function Output(turns: seq<Turn>): Buffer {
    if turns == [] then [] else Output(turns[..|turns| - 1]) + turns[|turns| - 1].addition
  }

  function Follow(turns: seq<Turn>): Reader {
    if turns == [] then Reader(0, [], false)
    else
      var r := Follow(turns[..|turns| - 1]);
      if turns[|turns| - 1].polled then
        var read := ReadingOf(Output(turns), r.cursor);
        Reader(read.endCursor, r.collected + read.data, r.lost || read.truncated)
      else r
  }

  /** Reads that are not truncated reassemble the log; a truncated one loses bytes for good. */
  lemma {:induction false} ReadsReassembleIff(turns: seq<Turn>)
    ensures var r, log := Follow(turns), Output(turns);
            && r.cursor <= |log|
            && |r.collected| <= r.cursor
            && (r.lost <==> |r.collected| < r.cursor)
            && (r.collected == log[..r.cursor] <==> !r.lost)
  {
    if turns != [] {
      var rest := turns[..|turns| - 1];
      ReadsReassembleIff(rest);
      var before, log := Output(rest), Output(turns);
      var r := Follow(rest);
      assert log[..r.cursor] == before[..r.cursor];
      if turns[|turns| - 1].polled {
        TruncatedIff(log, r.cursor);
        assert log == log[..r.cursor] + log[r.cursor..];
        assert log[..|log|] == log;
      }
    }
  }
}
