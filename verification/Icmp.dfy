/** The echo request that move-capture.c rewrites in a stopped process. */
module Icmp {
  import opened Bytes

  /** The accumulator's type; that no sum leaves it is checked at each addition. */
  newtype uint32 = x: int | 0 <= x < 0x1_0000_0000

  /** The longest buffer of which no content overflows the accumulator. */
  const MAX_SUMMED := 131074

  // ---------- The sum with deferred carries ----------

  function WordAt(s: Buffer, i: nat): (w: int)
    requires i + 1 < |s|
    ensures 0 <= w <= 65535
  {
    var high: int, low: int := s[i], s[i + 1];
    256 * high + low
  }

  /** The first k words, added up as integers. */
  function SumWords(s: Buffer, k: nat): (sum: int)
    requires 2 * k <= |s|
    ensures 0 <= sum <= 65535 * k
  {
    if k == 0 then 0 else SumWords(s, k - 1) + WordAt(s, 2 * k - 2)
  }

  /** A last odd byte counts as the high half of a word. */
  function OddByte(s: Buffer): (w: int)
    ensures 0 <= w <= 65280
  {
    var last: int := if |s| % 2 == 1 then s[|s| - 1] else 0;
    256 * last
  }

  function Total(s: Buffer): (sum: int)
    ensures 0 <= sum
  {
    SumWords(s, |s| / 2) + OddByte(s)
  }

  /** The carries folded back in until none is left. */
  function Folded(sum: int): (r: int)
    requires 0 <= sum
    ensures 0 <= r <= 65535
    decreases sum
  {
    if sum <= 65535 then sum else Folded(sum % 65536 + sum / 65536)
  }

  function Checksum(s: Buffer): (r: int)
    ensures 0 <= r <= 65535
  {
    65535 - Folded(Total(s))
  }

  /** Folding keeps the sum modulo 65535, and gives 0 only for 0. */
  lemma {:induction false} FoldedIsResidue(sum: int) returns (k: int)
    requires 0 <= sum
    ensures 0 <= k && sum == Folded(sum) + 65535 * k
    ensures Folded(sum) == 0 <==> sum == 0
    decreases sum
  {
    if sum <= 65535 {
      k := 0;
    } else {
      k := FoldedIsResidue(sum % 65536 + sum / 65536);
      k := k + sum / 65536;
    }
  }

  // ---------- One's complement addition, section 1 of RFC 1071 ----------

  /** Addition with end-around carry. */
  function OnesAdd(a: int, b: int): int { if a + b <= 65535 then a + b else a + b - 65535 }

  function OnesSum(s: Buffer, k: nat): (r: int)
    requires 2 * k <= |s|
    ensures 0 <= r <= 65535
  {
    if k == 0 then 0 else OnesAdd(OnesSum(s, k - 1), WordAt(s, 2 * k - 2))
  }

  lemma FoldedAdds(sum: int, w: int)
    requires 0 <= sum && 0 <= w <= 65535
    ensures Folded(sum + w) == OnesAdd(Folded(sum), w)
  {
    hide Folded;
    var k := FoldedIsResidue(sum);
    var m := FoldedIsResidue(sum + w);
    assert Folded(sum) + w - Folded(sum + w) == 65535 * (m - k);
    assert Folded(sum) + w == 0 ==> sum + w == 0;
    assert 0 <= m - k <= 1;
  }

  lemma {:induction false} FoldedWords(s: Buffer, k: nat)
    requires 2 * k <= |s|
    ensures Folded(SumWords(s, k)) == OnesSum(s, k)
  {
    if k > 0 {
      FoldedWords(s, k - 1);
      FoldedAdds(SumWords(s, k - 1), WordAt(s, 2 * k - 2));
    }
  }

  /** Deferring the carries computes the complement of the one's complement sum of the words. */
  lemma ChecksumIsOnesComplement(s: Buffer)
    ensures Checksum(s) == 65535 - OnesAdd(OnesSum(s, |s| / 2), OddByte(s))
  {
    FoldedWords(s, |s| / 2);
    FoldedAdds(SumWords(s, |s| / 2), OddByte(s));
  }

  // ---------- The accumulator ----------

  /** The largest sum of any buffer of n bytes. */
  function LargestTotal(n: nat): int { 65535 * (n / 2) + (if n % 2 == 1 then 65280 else 0) }

  lemma {:induction false} SumOfOnes(s: Buffer, k: nat)
    requires 2 * k <= |s| && forall i :: 0 <= i < |s| ==> s[i] == 255
    ensures SumWords(s, k) == 65535 * k
  {
    if k > 0 {
      SumOfOnes(s, k - 1);
    }
  }

  /** No buffer of n bytes overflows 32 bits exactly when n is at most MAX_SUMMED. */
  lemma AccumulatorFitsIff(n: nat)
    ensures (forall s: Buffer :: |s| == n ==> Total(s) < TWO32) <==> n <= MAX_SUMMED
  {
    var ones: Buffer := seq(n, _ => 255);
    SumOfOnes(ones, n / 2);
    assert |ones| == n && Total(ones) == LargestTotal(n);
    if n <= MAX_SUMMED {
      forall s: Buffer | |s| == n
        ensures Total(s) < TWO32
      {
        assert Total(s) <= LargestTotal(n);
      }
    }
  }

  /** icmp_checksum */
  method IcmpChecksum(buf: array<byte>) returns (r: int)
    requires buf.Length <= MAX_SUMMED
    ensures r == Checksum(buf[..])
  {
    var sum: uint32 := 0;
    var i := 0;
    ghost var s: Buffer := buf[..];
    while i + 1 < buf.Length
      invariant 0 <= i <= buf.Length && i % 2 == 0
      invariant sum as int == SumWords(s, i / 2)
    {
      var high: int, low: int := buf[i], buf[i + 1];
      sum := sum + (256 * high + low) as uint32;
      i := i + 2;
    }
    if i < buf.Length {
      var high: int := buf[i];
      sum := sum + (256 * high) as uint32;
    }
    assert sum as int == Total(s);
    while sum / 65536 != 0
      invariant Folded(sum as int) == Folded(Total(s))
      decreases sum
    {
      sum := sum % 65536 + sum / 65536;
    }
    r := 65535 - sum as int;
  }

  // ---------- The patched packet ----------

  const ECHO_REQUEST := 8
  const ECHO_REQUEST_V6 := 128

  function High(n: int): byte { n / 256 % 256 }

  function Low(n: int): byte { n % 256 }

  /** The packet with the next sequence number and no checksum. */
  function Renumbered(packet: Buffer, ntransmitted: int): Buffer
    requires |packet| >= 8
  {
    packet[2 := 0][3 := 0][6 := High(ntransmitted + 1)][7 := Low(ntransmitted + 1)]
  }

  function Patched(packet: Buffer, ntransmitted: int): Buffer
    requires |packet| >= 8
  {
    var p := Renumbered(packet, ntransmitted);
    p[2 := High(Checksum(p))][3 := Low(Checksum(p))]
  }

  /** Writing one word changes the sum by the difference. */
  lemma {:induction false} SumWithWord(a: Buffer, b: Buffer, j: nat, k: nat)
    requires |a| == |b| && 2 * k <= |a| && 2 * j + 1 < |a|
    requires forall i :: 0 <= i < |a| && i != 2 * j && i != 2 * j + 1 ==> a[i] == b[i]
    ensures SumWords(b, k) == SumWords(a, k) + (if j < k then WordAt(b, 2 * j) - WordAt(a, 2 * j) else 0)
  {
    if k > 0 {
      SumWithWord(a, b, j, k - 1);
    }
  }

  /** Storing the checksum in the zeroed field makes the whole buffer's checksum 0. */
  lemma ChecksumVerifies(p: Buffer)
    requires |p| >= 4 && p[2] == 0 && p[3] == 0
    ensures Checksum(p[2 := High(Checksum(p))][3 := Low(Checksum(p))]) == 0
  {
    TotalWithChecksum(p, Checksum(p));
    FoldedToOnes(Total(p));
  }

  lemma TotalWithChecksum(p: Buffer, c: int)
    requires |p| >= 4 && p[2] == 0 && p[3] == 0 && 0 <= c <= 65535
    ensures Total(p[2 := High(c)][3 := Low(c)]) == Total(p) + c
  {
    var q := p[2 := High(c)][3 := Low(c)];
    SumWithWord(p, q, 1, |p| / 2);
    assert WordAt(q, 2) == c && WordAt(p, 2) == 0;
    assert OddByte(q) == OddByte(p);
  }

  /** A sum and the complement of its folding fold to all ones. */
  lemma FoldedToOnes(sum: int)
    requires 0 <= sum
    ensures Folded(sum + (65535 - Folded(sum))) == 65535
  {
    FoldedAdds(sum, 65535 - Folded(sum));
  }

  /** The edit of the buffer read. */
  method PatchPacket(packet: array<byte>, ntransmitted: int)
    requires 8 <= packet.Length <= 65535
    modifies packet
    ensures packet[..] == Patched(old(packet[..]), ntransmitted)
  {
    var next := ntransmitted + 1;
    packet[2] := 0;
    packet[3] := 0;
    packet[6] := High(next);
    packet[7] := Low(next);
    assert packet[..] == Renumbered(old(packet[..]), ntransmitted);
    var sum := IcmpChecksum(packet);
    packet[2] := High(sum);
    packet[3] := Low(sum);
  }

  lemma HighLow(n: int)
    ensures 256 * High(n) + Low(n) == n % 65536
  {
  }

  /** What the receiver of the patched packet sees. */
  lemma PatchedIsValid(packet: Buffer, ntransmitted: int)
    requires |packet| >= 8
    ensures var q := Patched(packet, ntransmitted);
            && |q| == |packet|
            && Checksum(q) == 0
            && WordAt(q, 6) == (ntransmitted + 1) % 65536
            && (forall i :: 0 <= i < |q| && i !in {2, 3, 6, 7} ==> q[i] == packet[i])
  {
    hide Checksum, Total, Folded;
    ChecksumVerifies(Renumbered(packet, ntransmitted));
    HighLow(ntransmitted + 1);
  }

  /** Patching again with the same count changes nothing. */
  lemma PatchedIsIdempotent(packet: Buffer, ntransmitted: int)
    requires |packet| >= 8
    ensures Patched(Patched(packet, ntransmitted), ntransmitted) == Patched(packet, ntransmitted)
  {
    assert Renumbered(Patched(packet, ntransmitted), ntransmitted) == Renumbered(packet, ntransmitted);
  }

  // ---------- In another process's memory ----------

  /** mem with the bytes of data written at addr. */
  function Overwritten(mem: Buffer, addr: nat, data: Buffer): Buffer
    requires addr + |data| <= |mem|
  {
    mem[..addr] + data + mem[addr + |data|..]
  }

  /** A write of which only the first bytes may be taken. */
  method Pwrite(mem: array<byte>, addr: nat, data: array<byte>, accepted: nat)
    requires accepted <= data.Length && addr + data.Length <= mem.Length && mem != data
    modifies mem
    ensures mem[..] == Overwritten(old(mem[..]), addr, data[..accepted])
  {
    for i := 0 to accepted
      invariant data[..] == old(data[..])
      invariant forall j :: 0 <= j < mem.Length ==>
                  mem[j] == if addr <= j < addr + i then data[j - addr] else old(mem[j])
    {
      mem[addr + i] := data[i];
    }
  }

  /** An echo request of either protocol, all of it mapped. */
  predicate Patchable(mem: Buffer, addr: nat, len: nat) {
    8 <= len <= 65535 && addr + len <= |mem| && (mem[addr] == 8 || mem[addr] == 128)
  }

  /**
   * patch_icmp_send_buffer. `buffered` says whether malloc succeeds, and `accepted` how many
   * bytes pwrite takes; pread falls short exactly when the packet is not all mapped.
   */
  method PatchIcmpSendBuffer(mem: array<byte>, addr: nat, len: nat, ntransmitted: int,
                             buffered: bool, accepted: nat)
    returns (ok: bool)
    requires accepted <= len
    modifies mem
    ensures ok <==> buffered && Patchable(old(mem[..]), addr, len) && accepted == len
    ensures buffered && Patchable(old(mem[..]), addr, len) ==>
              mem[..] == Overwritten(old(mem[..]), addr,
                                     Patched(old(mem[..])[addr..addr + len], ntransmitted)[..accepted])
    ensures !(buffered && Patchable(old(mem[..]), addr, len)) ==> mem[..] == old(mem[..])
  {
    if len < 8 || len > 65535 || !buffered { return false; }
    if addr + len > mem.Length { return false; }
    var packet := new byte[len](i requires 0 <= i < len reads mem => mem[addr + i]);
    ghost var original: Buffer := packet[..];
    assert original == mem[..][addr..addr + len];
    if packet[0] != ECHO_REQUEST && packet[0] != ECHO_REQUEST_V6 { return false; }
    PatchPacket(packet, ntransmitted);
    Pwrite(mem, addr, packet, accepted);
    ok := accepted == len;
  }
}
