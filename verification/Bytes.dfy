/** Byte buffers, results and the small arithmetic the wire formats share. */
module Bytes {
  type byte = b: int | 0 <= b < 256
  type Buffer = seq<byte>

  datatype Option<+T> = None | Some(value: T)
  datatype Result<+T, +E> = Ok(value: T) | Err(error: E)

  const TWO32 := 0x1_0000_0000

  function Min(a: int, b: int): int { if a <= b then a else b }

  function Max(a: int, b: int): int { if a <= b then b else a }

  lemma Associative<T>(a: seq<T>, b: seq<T>, c: seq<T>)
    ensures a + b + c == a + (b + c)
  {
  }

  /** Concatenation of a list of sequences (Buffer.concat). */
  function Flatten<T>(parts: seq<seq<T>>): seq<T> {
    if parts == [] then [] else parts[0] + Flatten(parts[1..])
  }

  lemma {:induction false} FlattenAppend<T>(a: seq<seq<T>>, b: seq<seq<T>>)
    ensures Flatten(a + b) == Flatten(a) + Flatten(b)
  {
    if a == [] {
      assert a + b == b;
    } else {
      FlattenAppend(a[1..], b);
      assert (a + b)[1..] == a[1..] + b;
      Associative(a[0], Flatten(a[1..]), Flatten(b));
    }
  }

  lemma FlattenPush<T>(a: seq<seq<T>>, x: seq<T>)
    ensures Flatten(a + [x]) == Flatten(a) + x
  {
    FlattenAppend(a, [x]);
    assert Flatten([x]) == x + Flatten([]);
  }

  lemma Middle<T>(a: seq<T>, b: seq<T>, c: seq<T>)
    ensures (a + b + c)[|a|..|a| + |b|] == b
  {
  }

  /** The bytes of a zero-filled buffer (Buffer.alloc). */
  function Zeros(n: nat): (s: Buffer)
    ensures |s| == n && forall i :: 0 <= i < n ==> s[i] == 0
  {
    seq(n, _ => 0)
  }

  /** Little-endian unsigned 32-bit integers. */
  function ReadU32LE(s: Buffer, at: nat): (n: nat)
    requires at + 4 <= |s|
    ensures n < TWO32
  {
    var b0: int, b1: int, b2: int, b3: int := s[at], s[at + 1], s[at + 2], s[at + 3];
    b0 + 0x100 * b1 + 0x1_0000 * b2 + 0x100_0000 * b3
  }

  /** A number below 2^32 is read exactly from its four bytes. */
  lemma BytesOfU32(s: Buffer, at: nat, n: nat, b0: byte, b1: byte, b2: byte, b3: byte)
    requires at + 4 <= |s|
    requires n == b0 as int + 0x100 * (b1 as int + 0x100 * (b2 as int + 0x100 * b3 as int))
    ensures ReadU32LE(s, at) == n <==> s[at] == b0 && s[at + 1] == b1 && s[at + 2] == b2 && s[at + 3] == b3
  {
    var a0: int, a1: int, a2: int, a3: int := s[at], s[at + 1], s[at + 2], s[at + 3];
    assert ReadU32LE(s, at) == a0 + 0x100 * (a1 + 0x100 * (a2 + 0x100 * a3));
    hide ReadU32LE;
    SameDigit(a0, a1 + 0x100 * (a2 + 0x100 * a3), b0, b1 as int + 0x100 * (b2 as int + 0x100 * b3 as int));
    SameDigit(a1, a2 + 0x100 * a3, b1, b2 as int + 0x100 * b3 as int);
    SameDigit(a2, a3, b2, b3);
  }

  lemma SameDigit(a: byte, x: int, b: byte, y: int)
    ensures a as int + 0x100 * x == b as int + 0x100 * y <==> a == b && x == y
  {
  }

  function WriteU32LE(n: nat): (s: Buffer)
    requires n < TWO32
    ensures |s| == 4
  {
    var n1 := n / 0x100;
    var n2 := n1 / 0x100;
    [n % 0x100, n1 % 0x100, n2 % 0x100, n2 / 0x100]
  }

  lemma U32RoundTrip(n: nat, s: Buffer, at: nat)
    requires n < TWO32 && at + 4 <= |s| && s[at..at + 4] == WriteU32LE(n)
    ensures ReadU32LE(s, at) == n
  {
    var w := s[at..at + 4];
    assert s[at] == w[0] && s[at + 1] == w[1] && s[at + 2] == w[2] && s[at + 3] == w[3];
  }

  lemma U32Canonical(s: Buffer, at: nat)
    requires at + 4 <= |s|
    ensures WriteU32LE(ReadU32LE(s, at)) == s[at..at + 4]
  {
    var b0: int, b1: int, b2: int, b3: int := s[at], s[at + 1], s[at + 2], s[at + 3];
    var n2 := b2 + 0x100 * b3;
    var n1 := b1 + 0x100 * n2;
    assert ReadU32LE(s, at) == b0 + 0x100 * n1;
    assert (b0 + 0x100 * n1) / 0x100 == n1 && n1 / 0x100 == n2 && n2 / 0x100 == b3;
  }
}
