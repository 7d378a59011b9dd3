/** The scanner of firecracker-nested/run.ts that looks for a marker in a stream of chunks. */
module MarkerScanner {
  import opened Bytes

  predicate OccursAt(text: string, marker: string, i: nat) {
    i + |marker| <= |text| && text[i..i + |marker|] == marker
  }

  predicate Includes(text: string, marker: string) {
    exists i :: 0 <= i <= |text| && OccursAt(text, marker, i)
  }

  /** text.slice(n), where a negative n counts from the end. */
  function SliceFrom(text: string, n: int): string {
    if n >= 0 then text[Min(n, |text|)..] else text[Max(0, |text| + n)..]
  }

  /** What is kept of a text; -0 is 0, so for a marker of one character that is all of it. */
  function Tail(text: string, marker: string): string { SliceFrom(text, -Max(0, |marker| - 1)) }

  /** `tail` ends `text` and is long enough for every beginning of the marker at the end of it. */
  predicate Enough(text: string, tail: string, marker: string) {
    && |tail| <= |text| && text[|text| - |tail|..] == tail
    && |tail| >= Min(|text|, |marker| - 1)
  }

  lemma TailIsEnough(text: string, tail: string, marker: string, chunk: string)
    requires marker != "" && Enough(text, tail, marker)
    ensures Enough(text + chunk, Tail(tail + chunk, marker), marker)
  {
    var u, v := tail + chunk, text + chunk;
    var t := Tail(u, marker);
    var d := |text| - |tail|;
    forall i | 0 <= i < |u|
      ensures v[d + i] == u[i]
    {
      if i < |tail| {
        assert text[d..][i] == text[d + i];
      }
    }
    assert |t| <= |u| && t == u[|u| - |t|..];
    assert v[|v| - |t|..] == t;
  }

  /** An occurrence that is not in the text already lies within the kept tail and the chunk. */
  lemma IncludesInTail(text: string, tail: string, marker: string, chunk: string)
    requires marker != "" && Enough(text, tail, marker) && !Includes(text, marker)
    ensures Includes(tail + chunk, marker) <==> Includes(text + chunk, marker)
  {
    var u, v := tail + chunk, text + chunk;
    var d := |text| - |tail|;
    assert v[d..] == u by {
      assert forall i :: 0 <= i < |tail| ==> text[d..][i] == text[d + i];
    }
    if Includes(u, marker) {
      var i :| 0 <= i <= |u| && OccursAt(u, marker, i);
      assert v[d + i..d + i + |marker|] == u[i..i + |marker|];
      assert OccursAt(v, marker, d + i);
    }
    if Includes(v, marker) {
      var i :| 0 <= i <= |v| && OccursAt(v, marker, i);
      assert i + |marker| > |text| by {
        if i + |marker| <= |text| {
          assert text[i..i + |marker|] == v[i..i + |marker|];
          assert OccursAt(text, marker, i);
        }
      }
      assert i >= d;
      assert u[i - d..i - d + |marker|] == v[i..i + |marker|];
      assert OccursAt(u, marker, i - d);
    }
  }

  lemma IncludesGrows(text: string, marker: string, chunk: string)
    requires Includes(text, marker)
    ensures Includes(text + chunk, marker)
  {
    var i :| 0 <= i <= |text| && OccursAt(text, marker, i);
    assert (text + chunk)[i..i + |marker|] == text[i..i + |marker|];
    assert OccursAt(text + chunk, marker, i);
  }

  class MarkerScanner {
    const marker: string
    var tail: string
    var seen: bool
    ghost var observed: string

    constructor (marker: string)
      requires marker != ""
      ensures Valid() && this.marker == marker && observed == ""
    {
      this.marker, tail, seen, observed := marker, "", false, "";
    }

    /** `observed` is the concatenation of the chunks so far. */
    ghost predicate Valid()
      reads this
    {
      && marker != ""
      && (seen <==> Includes(observed, marker))
      && (!seen ==> Enough(observed, tail, marker))
      && (|marker| >= 2 ==> |tail| < |marker|)
      && (|marker| == 1 && !seen ==> tail == observed)
    }

    /** The scanner has seen the marker exactly when the chunks together include it. */
    method Observe(chunk: string)
      requires Valid()
      modifies this
      ensures Valid() && observed == old(observed) + chunk
      ensures seen <==> Includes(old(observed) + chunk, marker)
    {
      ghost var before := observed;
      observed := observed + chunk;
      if seen {
        IncludesGrows(before, marker, chunk);
        return;
      }
      var text := tail + chunk;
      IncludesInTail(before, tail, marker, chunk);
      TailIsEnough(before, tail, marker, chunk);
      seen := Includes(text, marker);
      tail := Tail(text, marker);
    }
  }

  /** The tail is shorter than the marker for every text exactly when the marker has two characters or more. */
  lemma TailIsShortIff(marker: string)
    requires marker != ""
    ensures (forall text: string :: |Tail(text, marker)| < |marker|) <==> |marker| >= 2
  {
    if |marker| == 1 {
      var long := marker + marker;
      assert |Tail(long, marker)| == 2;
    }
  }
}
