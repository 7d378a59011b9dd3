/** The sandboxes' scrollback and the supervisor's detach sequence of multiplex.ts. */
module Multiplex {
  import opened Bytes

  // ---------- Scrollback ----------

  function LastBytes(s: Buffer, cap: nat): Buffer { if |s| <= cap then s else s[|s| - cap..] }

  lemma LastBytesOfLastBytes(a: Buffer, b: Buffer, cap: nat)
    ensures LastBytes(LastBytes(a, cap) + b, cap) == LastBytes(a + b, cap)
  {
    if |a| > cap {
      var dropped, kept := a[..|a| - cap], a[|a| - cap..];
      Associative(dropped, kept, b);
      assert dropped + kept == a;
      FrontIsCut(dropped, kept + b, cap);
    }
  }

  /** Of a stream long enough, what comes before it is cut off. */
  lemma FrontIsCut(front: Buffer, s: Buffer, cap: nat)
    requires |s| >= cap
    ensures LastBytes(front + s, cap) == LastBytes(s, cap)
  {
    DropFront(front, s, |s| - cap);
    assert s[0..] == s;
  }

  lemma DropFront(front: Buffer, s: Buffer, n: nat)
    requires n <= |s|
    ensures (front + s)[|front| + n..] == s[n..] && (front == [] ==> front + s == s)
  {
  }

  /** They are a suffix, as long as the capacity allows. */
  lemma LastBytesIsSuffix(s: Buffer, cap: nat)
    ensures |LastBytes(s, cap)| == Min(|s|, cap) && s[..|s| - Min(|s|, cap)] + LastBytes(s, cap) == s
  {
  }

  class SandboxEntry {
    const scrollbackBytes: nat
    var scrollback: Buffer
    ghost var output: Buffer

    constructor (scrollbackBytes: nat)
      ensures Valid() && output == [] && this.scrollbackBytes == scrollbackBytes
    {
      this.scrollbackBytes, scrollback, output := scrollbackBytes, [], [];
    }

    /** The scrollback is the last bytes of all output, as many as fit. */
    ghost predicate Valid()
      reads this
    {
      scrollback == LastBytes(output, scrollbackBytes)
    }

    method Record(chunk: Buffer)
      requires Valid()
      modifies this
      ensures Valid() && output == old(output) + chunk
    {
      LastBytesOfLastBytes(output, chunk, scrollbackBytes);
      var combined := scrollback + chunk;
      scrollback := if |combined| <= scrollbackBytes then combined else combined[|combined| - scrollbackBytes..];
      output := output + chunk;
    }
  }

  // ---------- Detaching ----------

  /** Ctrl-], the ASCII group separator. */
  const GS: byte := 0x1d

  /** The second of two consecutive Ctrl-] stands at i. */
  predicate PairAt(s: Buffer, i: nat) { 0 < i < |s| && s[i - 1] == GS && s[i] == GS }

  predicate FirstPairAt(s: Buffer, i: nat) { PairAt(s, i) && forall j :: 0 <= j < i ==> !PairAt(s, j) }

  predicate NoPair(s: Buffer) { forall j :: 0 <= j < |s| ==> !PairAt(s, j) }

  predicate EndsInGs(s: Buffer) { |s| > 0 && s[|s| - 1] == GS }

  /** JavaScript's subarray(0, end): a negative end counts from the end of the chunk. */
  function SubarrayTo(chunk: Buffer, end: int): Buffer {
    if end >= 0 then chunk[..Min(end, |chunk|)] else chunk[..Max(0, |chunk| + end)]
  }

  /** The bytes the sandbox is sent when the pair's second byte is at `at` of the chunk. */
  function SentOnDetach(before: Buffer, chunk: Buffer, at: nat): Buffer { before + SubarrayTo(chunk, at - 1) }

  /** The supervisor between attaching and detaching. */
  class Attachment {
    var attached: bool
    var lastGs: bool
    var sent: Buffer
    ghost var stream: Buffer

    constructor ()
      ensures Valid() && attached && stream == [] && sent == []
    {
      attached, lastGs, sent, stream := true, false, [], [];
    }

    /** While attached, every byte typed has been sent and no pair has been typed. */
    ghost predicate Valid()
      reads this
    {
      attached ==> sent == stream && NoPair(stream) && (lastGs <==> EndsInGs(stream))
    }

    method MarkCtrlRightBracket(isGs: bool) returns (pair: bool)
      modifies this`lastGs
      ensures pair <==> isGs && old(lastGs)
      ensures lastGs <==> isGs
    {
      if !isGs {
        lastGs := false;
        return false;
      }
      if lastGs { return true; }
      lastGs := true;
      return false;
    }

    /** The place in the chunk of the first second Ctrl-] of the stream. */
    method FindDetachSequence(chunk: Buffer) returns (at: Option<nat>)
      requires Valid() && attached
      modifies this`lastGs
      ensures at.Some? ==> at.value < |chunk| && FirstPairAt(stream + chunk, |stream| + at.value)
      ensures at.None? ==> NoPair(stream + chunk) && (lastGs <==> EndsInGs(stream + chunk))
    {
      ghost var s := stream + chunk;
      assert forall j :: 0 <= j < |stream| ==> s[j] == stream[j] && (PairAt(s, j) <==> PairAt(stream, j));
      for i := 0 to |chunk|
        invariant forall j :: 0 <= j < |stream| + i ==> !PairAt(s, j)
        invariant lastGs <==> |stream| + i > 0 && s[|stream| + i - 1] == GS
      {
        var pair := MarkCtrlRightBracket(chunk[i] == GS);
        if pair { return Some(i); }
      }
      at := None;
    }

    /**
     * ingestAttached: a chunk without the sequence is sent whole; with it, the supervisor
     * detaches there, and the rest is for the supervisor itself.
     */
    method IngestAttached(chunk: Buffer) returns (remainder: Option<Buffer>)
      requires Valid() && attached
      modifies this
      ensures Valid()
      ensures attached <==> NoPair(old(stream) + chunk)
      ensures attached ==> remainder.None? && stream == old(stream) + chunk
      ensures !attached ==> remainder.Some? && DetachedAt(old(stream), chunk, stream, sent, remainder.value)
    {
      var at := FindDetachSequence(chunk);
      if at.None? {
        sent, stream := sent + chunk, stream + chunk;
        return None;
      }
      ghost var before := stream;
      var detachAt: int := at.value;
      var part := SubarrayTo(chunk, detachAt - 1);
      sent := sent + part;
      attached, lastGs := false, false;
      stream := stream + chunk[..at.value + 1];
      remainder := Some(chunk[at.value + 1..]);
      assert before + chunk == stream + remainder.value;
      assert FirstPairAt(before + chunk, |stream| - 1);
      assert at.value == |stream| - 1 - |before|;
    }
  }

  /** `taken` ends with the first pair of the stream, what follows it is left, and this is what was sent. */
  ghost predicate DetachedAt(before: Buffer, chunk: Buffer, taken: Buffer, sent: Buffer, left: Buffer) {
    && |before| < |taken| && taken + left == before + chunk
    && |taken| > 0 && FirstPairAt(before + chunk, |taken| - 1)
    && sent == SentOnDetach(before, chunk, |taken| - 1 - |before|)
  }

  /** Where a stream is cut changes neither whether nor where the supervisor detaches. */
  lemma DetachIsWhereThePairIs(before: Buffer, chunk: Buffer, taken: Buffer, sent: Buffer, left: Buffer, rest: Buffer)
    requires DetachedAt(before, chunk, taken, sent, left)
    ensures FirstPairAt(before + chunk + rest, |taken| - 1)
    ensures forall i :: FirstPairAt(before + chunk + rest, i) ==> i == |taken| - 1
  {
    var s, d := before + chunk + rest, |taken| - 1;
    assert forall j :: 0 <= j < |before + chunk| ==> s[j] == (before + chunk)[j];
    assert PairAt(s, d);
    assert forall j :: 0 <= j < d ==> (PairAt(s, j) <==> PairAt(before + chunk, j));
  }

  /**
   * The sandbox is sent exactly what was typed before the pair if and only if the chunk holds
   * the whole pair; else the first Ctrl-] has gone out, and bytes typed after the pair follow.
   */
  lemma SentIsWhatCameBeforeIff(before: Buffer, chunk: Buffer, taken: Buffer, sent: Buffer, left: Buffer)
    requires DetachedAt(before, chunk, taken, sent, left)
    ensures sent == taken[..|taken| - 2] <==> |taken| - 1 > |before|
    ensures |taken| - 1 == |before| ==> sent == before + chunk[..|chunk| - 1] && EndsInGs(before)
  {
    var at := |taken| - 1 - |before|;
    assert taken == (before + chunk)[..|taken|];
    if at > 0 {
      assert sent == taken[..|taken| - 2];
    } else {
      assert (before + chunk)[|taken| - 2] == before[|before| - 1];
    }
  }
}
