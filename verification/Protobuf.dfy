/** The hand-written protobuf reader and varint writer of lazy-pagemap.ts. */
module Protobuf {
  import opened Bytes
  import opened JsNumber

  datatype Error =
    | VarintTruncated
    | VarintOverflow
    | NegativeVarint
    | UnsupportedWireType
    | FileTooShort
    | BadCommonMagic
    | BadMagic
    | MissingSizePrefix
    | TruncatedMessage
    | TooLong

  // ---------- Varints ----------

  datatype VarintRead = Read(value: int, next: int) | Unreadable(error: Error)

  /** Reads a base-128 varint at `pos`, k bytes of it having been read already: value and end. */
  function Varint(buf: Buffer, pos: nat, k: nat := 0): (r: VarintRead)
    requires k <= 9
    ensures r.Read? ==> pos < r.next <= pos + 10 - k && r.next <= |buf| && r.value >= 0
    decreases |buf| - pos
  {
    if pos >= |buf| then Unreadable(VarintTruncated)
    else if buf[pos] < 0x80 then Read(buf[pos], pos + 1)
    else if k == 9 then Unreadable(VarintOverflow)
    else
      var r := Varint(buf, pos + 1, k + 1);
      if r.Read? then r.(value := buf[pos] - 0x80 + 0x80 * r.value) else r
  }

  /** All bytes of buf[lo..hi] announce another one. */
  predicate Continued(buf: Buffer, lo: nat, hi: nat)
    requires hi <= |buf|
  {
    forall i :: lo <= i < hi ==> buf[i] >= 0x80
  }

  /** The bytes of buf[lo..hi] as base-128 digits, the first one the least significant. */
  function Base128(buf: Buffer, lo: nat, hi: nat): nat
    requires lo <= hi <= |buf|
    decreases hi - lo
  {
    if lo == hi then 0 else buf[lo] % 0x80 + 0x80 * Base128(buf, lo + 1, hi)
  }

  /**
   * A varint ends with the first byte below 0x80, which must be among the first ten. It is
   * truncated when the buffer ends before that.
   */
  lemma {:induction false} VarintMeaning(buf: Buffer, pos: nat, last: nat, k: nat)
    requires pos <= last <= |buf| && Continued(buf, pos, last) && k <= 9
    requires last == |buf| || buf[last] < 0x80
    ensures Varint(buf, pos, k) ==
            if last - pos > 9 - k then Unreadable(VarintOverflow)
            else if last == |buf| then Unreadable(VarintTruncated)
            else Read(Base128(buf, pos, last + 1), last + 1)
    decreases last - pos
  {
    if pos < last && k < 9 {
      VarintMeaning(buf, pos + 1, last, k + 1);
    } else if pos == last < |buf| {
      assert Base128(buf, last + 1, last + 1) == 0;
    }
  }

  lemma NothingShifted(r: VarintRead)
    requires r.Read? ==> r.value >= 0
    ensures Shifted(0, 0, r) == r && ShiftLeft(1, 0) == 1
  {
  }

  method ReadVarint(buf: Buffer, pos: nat) returns (r: VarintRead)
    ensures r == Varint(buf, pos)
  {
    hide ShiftLeft, Shifted, Varint;
    var result: nat, shift: nat, p := 0, 0, pos;
    ghost var k: nat := 0;
    NothingShifted(Varint(buf, pos));
    while true
      invariant k <= 9 && shift == 7 * k && p == pos + k
      invariant result < ShiftLeft(1, shift)  // so `|=` on the shifted digit is addition
      invariant Varint(buf, pos) == Shifted(result, shift, Varint(buf, p, k))
      decreases |buf| - p
    {
      if p >= |buf| {
        NoDigit(result, shift, buf, p, k);
        return Unreadable(VarintTruncated);
      }
      var b := buf[p];
      p := p + 1;
      NextDigit(result, shift, b);
      LastDigit(result, shift, buf, p - 1, k);
      if b < 0x80 {
        return Read(result + ShiftLeft(b % 0x80, shift), p);
      }
      if k < 9 {
        TakeDigit(result, shift, buf, p - 1, k);
      }
      result := result + ShiftLeft(b % 0x80, shift);
      shift := shift + 7;
      if shift > 63 {
        return Unreadable(VarintOverflow);
      }
      k := k + 1;
    }
  }

  function Shifted(result: nat, shift: nat, rest: VarintRead): VarintRead
    requires rest.Read? ==> rest.value >= 0
  {
    if rest.Read? then Read(result + ShiftLeft(rest.value, shift), rest.next) else rest
  }

  lemma TakeDigit(result: nat, shift: nat, buf: Buffer, p: nat, k: nat)
    requires k < 9 && p < |buf| && buf[p] >= 0x80
    ensures Shifted(result, shift, Varint(buf, p, k))
         == Shifted(result + ShiftLeft(buf[p] % 0x80, shift), shift + 7, Varint(buf, p + 1, k + 1))
  {
    hide ShiftLeft;
    if Varint(buf, p + 1, k + 1).Read? {
      var v := Varint(buf, p + 1, k + 1).value;
      ShiftLeftAdds(buf[p] - 0x80, 0x80 * v, shift);
      ShiftDigit(v, shift);
    }
  }

  lemma LastDigit(result: nat, shift: nat, buf: Buffer, p: nat, k: nat)
    requires k <= 9 && p < |buf|
    ensures buf[p] < 0x80 ==> Shifted(result, shift, Varint(buf, p, k)) == Read(result + ShiftLeft(buf[p], shift), p + 1)
    ensures buf[p] >= 0x80 && k == 9 ==> Shifted(result, shift, Varint(buf, p, k)) == Unreadable(VarintOverflow)
  {
  }

  lemma NoDigit(result: nat, shift: nat, buf: Buffer, p: nat, k: nat)
    requires k <= 9 && p >= |buf|
    ensures Shifted(result, shift, Varint(buf, p, k)) == Unreadable(VarintTruncated)
  {
  }

  lemma NextDigit(result: nat, shift: nat, b: byte)
    requires result < ShiftLeft(1, shift)
    ensures result + ShiftLeft(b % 0x80, shift) < ShiftLeft(1, shift + 7)
  {
    ShiftLeftAdds(1, b % 0x80, shift);
    ShiftLeftGrows(1 + b % 0x80, 0x80, shift);
    ShiftDigit(1, shift);
  }

  /** What encodeVarint emits: `v >>> 7` keeps only the low 32 bits of v. */
  function EncodedVarint(v: nat): (s: Buffer)
    ensures |s| >= 1
  {
    if v < 0x80 then [v] else [v % 0x80 + 0x80] + EncodedVarint(v % 0x1_0000_0000 / 0x80)
  }

  /** n bytes suffice for n base-128 digits, and five for anything. */
  lemma {:induction false} EncodedLength(v: nat, n: nat)
    requires n == 5 || (n == 4 && v < 0x1000_0000) || (n == 3 && v < 0x20_0000)
          || (n == 2 && v < 0x4000) || (n == 1 && v < 0x80)
    ensures |EncodedVarint(v)| <= n
    decreases n
  {
    if v >= 0x80 {
      EncodedLength(v % 0x1_0000_0000 / 0x80, n - 1);
    }
  }

  method EncodeVarint(value: int) returns (r: Result<Buffer, Error>)
    ensures r == if value < 0 then Err(NegativeVarint) else Ok(EncodedVarint(value))
  {
    if value < 0 {
      return Err(NegativeVarint);
    }
    var out: Buffer := [];
    var v := value;
    hide EncodedVarint;
    while v >= 0x80
      invariant v >= 0
      invariant out + EncodedVarint(v) == EncodedVarint(value)
    {
      EncodeStep(out, v);
      out := out + [v % 0x80 + 0x80];
      v := v % 0x1_0000_0000 / 0x80;
    }
    LastByte(v);
    return Ok(out + [v % 0x80]);
  }

  lemma LastByte(v: nat)
    requires v < 0x80
    ensures EncodedVarint(v) == [v % 0x80]
  {
  }

  lemma EncodeStep(out: Buffer, v: nat)
    requires v >= 0x80
    ensures 0 <= v % 0x1_0000_0000 / 0x80 < v
    ensures out + [v % 0x80 + 0x80] + EncodedVarint(v % 0x1_0000_0000 / 0x80) == out + EncodedVarint(v)
  {
    Associative(out, [v % 0x80 + 0x80], EncodedVarint(v % 0x1_0000_0000 / 0x80));
  }

  /** buf[lo..hi] also stands in buf', moved by d. */
  ghost predicate Agree(buf: Buffer, lo: nat, hi: nat, buf': Buffer, d: int)
    decreases hi - lo
  {
    && lo <= hi <= |buf| && 0 <= lo + d && hi + d <= |buf'|
    && (lo < hi ==> buf[lo] == buf'[lo + d] && Agree(buf, lo + 1, hi, buf', d))
  }

  lemma {:induction false} AgreeIntro(buf: Buffer, lo: nat, hi: nat, buf': Buffer, d: int)
    requires lo <= hi <= |buf| && 0 <= lo + d && hi + d <= |buf'|
    requires forall i {:trigger buf[i]} :: lo <= i < hi ==> buf[i] == buf'[i + d]
    ensures Agree(buf, lo, hi, buf', d)
    decreases hi - lo
  {
    if lo < hi {
      AgreeIntro(buf, lo + 1, hi, buf', d);
    }
  }

  lemma {:induction false} AgreeNarrow(buf: Buffer, lo: nat, hi: nat, buf': Buffer, d: int, lo': nat, hi': nat)
    requires Agree(buf, lo, hi, buf', d) && lo <= lo' <= hi' <= hi
    ensures Agree(buf, lo', hi', buf', d)
    decreases hi - lo
  {
    if lo < lo' {
      AgreeNarrow(buf, lo + 1, hi, buf', d, lo', hi');
    } else if lo < hi' {
      AgreeNarrow(buf, lo + 1, hi, buf', d, lo + 1, hi');
    }
  }

  /**
   * Reading back an encoded varint, wherever it stands, gives the value modulo 2^32:
   * the writer is inverted exactly when the value is below 2^32.
   */
  lemma {:induction false} ReadInvertsEncode(v: nat, buf: Buffer, pos: nat, k: nat := 0)
    requires k + |EncodedVarint(v)| <= 10
    requires Agree(EncodedVarint(v), 0, |EncodedVarint(v)|, buf, pos)
    ensures Varint(buf, pos, k) == Read(v % 0x1_0000_0000, pos + |EncodedVarint(v)|)
    decreases v
  {
    hide Varint, Agree, EncodedVarint;
    if v >= 0x80 {
      EncodedAgrees(v, buf, pos);
      ReadInvertsEncode(v % 0x1_0000_0000 / 0x80, buf, pos + 1, k + 1);
      DigitsOfWord(v);
      LongerVarint(buf, pos, k);
    } else {
      EncodedDigitAgrees(v, buf, pos);
      ShortVarint(buf, pos, k);
    }
  }

  lemma EncodedAgrees(v: nat, buf: Buffer, pos: nat)
    requires v >= 0x80 && Agree(EncodedVarint(v), 0, |EncodedVarint(v)|, buf, pos)
    ensures var w := v % 0x1_0000_0000 / 0x80;
            && |EncodedVarint(v)| == 1 + |EncodedVarint(w)|
            && pos < |buf| && buf[pos] == v % 0x80 + 0x80
            && Agree(EncodedVarint(w), 0, |EncodedVarint(w)|, buf, pos + 1)
  {
    FirstAgrees(EncodedVarint(v), buf, pos);
    RestAgrees([v % 0x80 + 0x80], EncodedVarint(v % 0x1_0000_0000 / 0x80), buf, pos);
  }

  lemma EncodedDigitAgrees(v: nat, buf: Buffer, pos: nat)
    requires v < 0x80 && Agree(EncodedVarint(v), 0, |EncodedVarint(v)|, buf, pos)
    ensures |EncodedVarint(v)| == 1 && pos < |buf| && buf[pos] == v
  {
    FirstAgrees(EncodedVarint(v), buf, pos);
  }

  lemma ShortVarint(buf: Buffer, pos: nat, k: nat)
    requires k <= 9 && pos < |buf| && buf[pos] < 0x80
    ensures Varint(buf, pos, k) == Read(buf[pos], pos + 1)
  {
  }

  lemma FirstAgrees(s: Buffer, buf: Buffer, pos: nat)
    requires |s| > 0 && Agree(s, 0, |s|, buf, pos)
    ensures pos < |buf| && buf[pos] == s[0]
  {
  }

  lemma DigitsOfWord(v: nat)
    ensures v % 0x80 + 0x80 * (v % 0x1_0000_0000 / 0x80) == v % 0x1_0000_0000
  {
  }

  lemma LongerVarint(buf: Buffer, pos: nat, k: nat)
    requires k < 9 && pos < |buf| && buf[pos] >= 0x80 && Varint(buf, pos + 1, k + 1).Read?
    ensures var r := Varint(buf, pos + 1, k + 1);
            Varint(buf, pos, k) == Read(buf[pos] - 0x80 + 0x80 * r.value, r.next)
  {
  }

  lemma RestAgrees(a: Buffer, s: Buffer, buf: Buffer, pos: nat)
    requires |a| == 1 && Agree(a + s, 0, |a + s|, buf, pos)
    ensures Agree(s, 0, |s|, buf, pos + 1)
  {
    AgreeTail(a, s, 0, buf, pos);
  }

  lemma {:induction false} AgreeTail(a: Buffer, s: Buffer, i: nat, buf: Buffer, pos: nat)
    requires i <= |s| && Agree(a + s, |a| + i, |a + s|, buf, pos)
    ensures Agree(s, i, |s|, buf, pos + |a|)
    decreases |s| - i
  {
    if i < |s| {
      AgreeTail(a, s, i + 1, buf, pos);
    }
  }

  /** Reading is local: it depends only on the bytes of the varint. */
  lemma {:induction false} VarintLocal(buf: Buffer, pos: nat, buf': Buffer, d: int, k: nat := 0)
    requires k <= 9 && Varint(buf, pos, k).Read? && Agree(buf, pos, Varint(buf, pos, k).next, buf', d)
    ensures pos + d >= 0
    ensures Varint(buf', pos + d, k) == Read(Varint(buf, pos, k).value, Varint(buf, pos, k).next + d)
    decreases |buf| - pos
  {
    if buf[pos] >= 0x80 {
      VarintLocal(buf, pos + 1, buf', d, k + 1);
    }
  }

  /** No accepted spelling of a number is shorter than what the writer emits for a smaller one. */
  lemma {:induction false} EncodeIsShortest(buf: Buffer, pos: nat, w: nat, k: nat := 0)
    requires k <= 9 && Varint(buf, pos, k).Read? && w <= Varint(buf, pos, k).value
    ensures pos + |EncodedVarint(w)| <= Varint(buf, pos, k).next
    decreases |buf| - pos
  {
    if buf[pos] >= 0x80 && w >= 0x80 {
      EncodeIsShortest(buf, pos + 1, w % 0x1_0000_0000 / 0x80, k + 1);
    }
  }

  /** n bytes hold 7n bits. */
  lemma {:induction false} VarintBound(buf: Buffer, pos: nat, k: nat := 0)
    requires k <= 9 && Varint(buf, pos, k).Read?
    ensures Varint(buf, pos, k).value < ShiftLeft(1, 7 * (Varint(buf, pos, k).next - pos))
    decreases |buf| - pos
  {
    ShiftDigit(1, 0);
    if buf[pos] >= 0x80 {
      VarintBound(buf, pos + 1, k + 1);
      var n, v := Varint(buf, pos, k).next - pos - 1, Varint(buf, pos + 1, k + 1).value;
      ScaleUp(v + 1, 1, 7 * n);
    }
  }

  lemma ScaleUp(x: nat, y: nat, n: nat)
    requires x <= ShiftLeft(y, n)
    ensures 0x80 * x <= ShiftLeft(y, n + 7)
  {
    ShiftDigit(y, n);
    ShiftDouble(y, n);
    ShiftDouble(2 * y, n);
    ShiftDouble(4 * y, n);
    ShiftDouble(8 * y, n);
    ShiftDouble(16 * y, n);
    ShiftDouble(32 * y, n);
    ShiftDouble(64 * y, n);
  }

  // ---------- Fields ----------

  /**
   * One field of a message. Only varints are interpreted. For the other wire types
   * `declared` is the payload length the field announces and `payload` what is left of
   * it in the buffer: the reader does not insist that all of it is there.
   */
  datatype Field =
    | VarintField(num: nat, value: nat)
    | OpaqueField(num: nat, wire: nat, declared: nat, payload: Buffer)

  /** Declared payload length of a non-varint field (value), and where the payload starts (next). */
  function PayloadHeader(buf: Buffer, pos: nat, wire: nat): (r: VarintRead)
    ensures r.Read? ==> pos <= r.next && r.value >= 0
  {
    if wire == 1 then Read(8, pos)
    else if wire == 5 then Read(4, pos)
    else if wire == 2 then
      var len := Varint(buf, pos);
      if len.Read? then len.(value := ToNumber(len.value)) else len
    else Unreadable(UnsupportedWireType)
  }

  /** buf[lo..hi] as subarray gives it: clamped to the buffer. */
  function Subarray(buf: Buffer, lo: nat, hi: nat): Buffer
    decreases |buf| - lo
  {
    if lo < hi && lo < |buf| then [buf[lo]] + Subarray(buf, lo + 1, hi) else []
  }

  lemma {:induction false} SubarrayIsSlice(buf: Buffer, lo: nat, hi: nat)
    requires lo <= hi && lo <= |buf|
    ensures Subarray(buf, lo, hi) == buf[lo..Min(hi, |buf|)]
    decreases |buf| - lo
  {
    if lo < hi && lo < |buf| {
      SubarrayIsSlice(buf, lo + 1, hi);
    }
  }

  /**
   * A field as it stands in the buffer: the length of its tag and the distance to the
   * next field, which for a cut-off payload lies past the end of the buffer.
   */
  datatype TokenRead = Token(field: Field, tag: int, size: int) | NoToken(error: Error)

  function TokenAt(buf: Buffer, pos: nat): (r: TokenRead)
    ensures r.Token? ==> pos < |buf| && 1 <= r.tag <= r.size
  {
    var key := Varint(buf, pos);
    if key.Unreadable? then NoToken(key.error)
    else if key.value % 8 == 0 then
      var v := Varint(buf, key.next);
      if v.Unreadable? then NoToken(v.error)
      else Token(VarintField(key.value / 8, v.value), key.next - pos, v.next - pos)
    else
      var h := PayloadHeader(buf, key.next, key.value % 8);
      if h.Unreadable? then NoToken(h.error)
      else Token(OpaqueField(key.value / 8, key.value % 8, h.value, Subarray(buf, h.next, h.next + h.value)),
                 key.next - pos, h.next + h.value - pos)
  }

  /**
   * The wire types by number: 0 is a varint, 1 eight bytes, 5 four, 2 a length and so many
   * bytes; the others are refused. What is left of the payload is taken when it is cut off.
   */
  lemma WireTypes(buf: Buffer, pos: nat)
    requires Varint(buf, pos).Read?
    ensures var (num, wire, start) := (Varint(buf, pos).value / 8, Varint(buf, pos).value % 8, Varint(buf, pos).next);
            match wire
            case 0 =>
              TokenAt(buf, pos) == (match Varint(buf, start)
                                    case Read(v, next) => Token(VarintField(num, v), start - pos, next - pos)
                                    case Unreadable(e) => NoToken(e))
            case 1 => TokenAt(buf, pos) == Sized(buf, pos, num, 1, 8, start)
            case 5 => TokenAt(buf, pos) == Sized(buf, pos, num, 5, 4, start)
            case 2 =>
              TokenAt(buf, pos) == (match Varint(buf, start)
                                    case Read(v, next) => Sized(buf, pos, num, 2, ToNumber(v), next).(tag := start - pos)
                                    case Unreadable(e) => NoToken(e))
            case _ => TokenAt(buf, pos) == NoToken(UnsupportedWireType)
  {
    var wire, start := Varint(buf, pos).value % 8, Varint(buf, pos).next;
    if wire == 1 {
      SubarrayIsSlice(buf, start, start + 8);
    } else if wire == 5 {
      SubarrayIsSlice(buf, start, start + 4);
    } else if wire == 2 && Varint(buf, start).Read? {
      SubarrayIsSlice(buf, Varint(buf, start).next, Varint(buf, start).next + ToNumber(Varint(buf, start).value));
    }
  }

  /** A field of this many bytes from `start` on. */
  function Sized(buf: Buffer, pos: nat, num: nat, wire: nat, length: nat, start: nat): TokenRead
    requires start <= |buf|
  {
    Token(OpaqueField(num, wire, length, buf[start..Min(start + length, |buf|)]), start - pos, start + length - pos)
  }

  /** The fields of a message in order, or up to where reading fails. */
  datatype Fields = End | Failed(error: Error) | Next(field: Field, rest: Fields) {
    predicate Readable() {
      match this
      case End => true
      case Failed(_) => false
      case Next(_, rest) => rest.Readable()
    }

    function FirstError(): Error
      requires !Readable()
    {
      if Failed? then error else rest.FirstError()
    }

    /** Some varint field has this number. */
    predicate Has(num: nat) {
      Next? && (rest.Has(num) || (field.VarintField? && field.num == num))
    }

    /** "Last one wins": each field number with the value of its last varint field. */
    function LastValues(): map<nat, nat> {
      match this
      case Next(VarintField(num, value), rest) => map[num := value] + rest.LastValues()
      case Next(_, rest) => rest.LastValues()
      case _ => map[]
    }

    /** The same fields with the value of the last varint field of this number replaced. */
    function ReplaceLast(num: nat, v: nat): Fields {
      match this
      case Next(f, rest) =>
        if rest.Has(num) then Next(f, rest.ReplaceLast(num, v))
        else if f.VarintField? && f.num == num then Next(VarintField(num, v), rest)
        else this
      case _ => this
    }
  }

  /** Reference decoder: the fields from `pos` to the end of the buffer. */
  function Decode(buf: Buffer, pos: nat := 0): Fields
    decreases |buf| - pos
  {
    if pos >= |buf| then End
    else
      var t := TokenAt(buf, pos);
      if t.NoToken? then Failed(t.error) else Next(t.field, Decode(buf, pos + t.size))
  }

  lemma {:induction false} HasIsLastValue(fs: Fields, num: nat)
    ensures fs.Has(num) <==> num in fs.LastValues()
  {
    if fs.Next? {
      HasIsLastValue(fs.rest, num);
    }
  }

  /** Replacing a value changes that number's last value and nobody else's. */
  lemma {:induction false} LastValuesOfReplace(fs: Fields, num: nat, v: nat)
    requires fs.Has(num)
    ensures fs.ReplaceLast(num, v).LastValues() == fs.LastValues()[num := v]
    ensures fs.ReplaceLast(num, v).Readable() == fs.Readable()
  {
    HasIsLastValue(fs.rest, num);
    if fs.rest.Has(num) {
      LastValuesOfReplace(fs.rest, num, v);
    }
  }

  // ---------- Locality of the decoder ----------

  /**
   * A field reads the same wherever its bytes are moved; one that is cut off by the end
   * of the buffer, wherever they are moved to the end of another.
   */
  lemma TokenLocal(buf: Buffer, pos: nat, buf': Buffer, d: int)
    requires TokenAt(buf, pos).Token? && (pos + TokenAt(buf, pos).size <= |buf| || |buf'| == |buf| + d)
    requires Agree(buf, pos, Min(pos + TokenAt(buf, pos).size, |buf|), buf', d)
    ensures pos + d >= 0 && TokenAt(buf', pos + d) == TokenAt(buf, pos)
  {
    hide Varint, Agree, PayloadHeader, Subarray;
    var key, end := Varint(buf, pos), Min(pos + TokenAt(buf, pos).size, |buf|);
    AgreeNarrow(buf, pos, end, buf', d, pos, key.next);
    AgreeNarrow(buf, pos, end, buf', d, key.next, end);
    VarintLocal(buf, pos, buf', d);
    if key.value % 8 == 0 {
      VarintLocal(buf, key.next, buf', d);
    } else {
      PayloadLocal(buf, key.next, key.value % 8, buf', d);
    }
  }

  lemma PayloadLocal(buf: Buffer, pos: nat, wire: nat, buf': Buffer, d: int)
    requires PayloadHeader(buf, pos, wire).Read? && pos <= |buf|
    requires var h := PayloadHeader(buf, pos, wire);
             && (h.next + h.value <= |buf| || |buf'| == |buf| + d)
             && Agree(buf, pos, Min(h.next + h.value, |buf|), buf', d)
    ensures var h := PayloadHeader(buf, pos, wire);
            && pos + d >= 0 && h.next + d >= 0
            && PayloadHeader(buf', pos + d, wire) == Read(h.value, h.next + d)
            && Subarray(buf', h.next + d, h.next + d + h.value) == Subarray(buf, h.next, h.next + h.value)
  {
    var h := PayloadHeader(buf, pos, wire);
    var end := Min(h.next + h.value, |buf|);
    AgreeNarrow(buf, pos, end, buf', d, h.next, end);
    if wire == 2 {
      AgreeNarrow(buf, pos, end, buf', d, pos, h.next);
      VarintLocal(buf, pos, buf', d);
    }
    SubarrayLocal(buf, h.next, h.next + h.value, buf', d);
  }

  lemma {:induction false} SubarrayLocal(buf: Buffer, lo: nat, hi: nat, buf': Buffer, d: int)
    requires lo <= hi && lo <= |buf| && Agree(buf, lo, Min(hi, |buf|), buf', d)
    requires hi <= |buf| || |buf'| == |buf| + d
    ensures lo + d >= 0 && Subarray(buf', lo + d, hi + d) == Subarray(buf, lo, hi)
    decreases |buf| - lo
  {
    if lo < hi && lo < |buf| {
      SubarrayLocal(buf, lo + 1, hi, buf', d);
    }
  }

  /** Decoding the rest of a buffer depends on that rest only. */
  lemma {:induction false} DecodeLocal(buf: Buffer, pos: nat, buf': Buffer, d: int)
    requires Decode(buf, pos).Readable() && |buf'| == |buf| + d && pos + d >= 0
    requires pos < |buf| ==> Agree(buf, pos, |buf|, buf', d)
    ensures Decode(buf', pos + d) == Decode(buf, pos)
    decreases |buf| - pos
  {
    hide TokenAt, Agree;
    if pos < |buf| {
      var next := pos + TokenAt(buf, pos).size;
      AgreeNarrow(buf, pos, |buf|, buf', d, pos, Min(next, |buf|));
      AgreeNarrow(buf, pos, |buf|, buf', d, Min(next, |buf|), |buf|);
      TokenLocal(buf, pos, buf', d);
      DecodeLocal(buf, next, buf', d);
    }
  }

  // ---------- Overwriting one value ----------

  datatype Span = Span(start: int, len: int) | NoSpan

  /** Where the value of the last varint field with this number stands. */
  function LastSpan(buf: Buffer, pos: nat, num: nat): (sp: Span)
    ensures sp.Span? ==> sp.start >= 0 && sp.len >= 0
    decreases |buf| - pos
  {
    if pos >= |buf| then NoSpan
    else
      var t := TokenAt(buf, pos);
      if t.NoToken? then NoSpan
      else
        var later := LastSpan(buf, pos + t.size, num);
        if later.Span? then later
        else if t.field.VarintField? && t.field.num == num then Span(pos + t.tag, t.size - t.tag)
        else NoSpan
  }

  /** There is such a place exactly when there is such a value ... */
  lemma {:induction false} SpanWhenValue(buf: Buffer, pos: nat, num: nat)
    requires Decode(buf, pos).Readable()
    ensures var sp := LastSpan(buf, pos, num);
            && (sp.Span? <==> Decode(buf, pos).Has(num))
            && (sp.Span? ==> pos <= sp.start && sp.start + sp.len <= |buf|)
    decreases |buf| - pos
  {
    if pos < |buf| {
      SpanWhenValue(buf, pos + TokenAt(buf, pos).size, num);
    }
  }

  /** ... and that value is what stands there. */
  lemma {:induction false} SpanHoldsValue(buf: Buffer, pos: nat, num: nat)
    requires Decode(buf, pos).Readable() && LastSpan(buf, pos, num).Span?
    ensures num in Decode(buf, pos).LastValues()
    ensures var sp := LastSpan(buf, pos, num);
            Varint(buf, sp.start) == Read(Decode(buf, pos).LastValues()[num], sp.start + sp.len)
    decreases |buf| - pos
  {
    var next := pos + TokenAt(buf, pos).size;
    SpanWhenValue(buf, next, num);
    HasIsLastValue(Decode(buf, next), num);
    if LastSpan(buf, next, num).Span? {
      SpanHoldsValue(buf, next, num);
    }
  }

  /** The buffer with the varint at `sp` overwritten by another. */
  function Overwrite(buf: Buffer, sp: Span, v: nat): Buffer
    requires sp.Span? && 0 <= sp.start <= sp.start + sp.len <= |buf|
  {
    buf[..sp.start] + EncodedVarint(v) + buf[sp.start + sp.len..]
  }

  /** Overwriting the last value of a field number replaces that value and nothing else. */
  lemma OverwriteDecodes(buf: Buffer, num: nat, v: nat)
    requires Decode(buf).Readable() && Decode(buf).Has(num) && v < 0x1_0000_0000
    ensures LastSpan(buf, 0, num).Span?
    ensures LastSpan(buf, 0, num).start + LastSpan(buf, 0, num).len <= |buf|
    ensures Decode(Overwrite(buf, LastSpan(buf, 0, num), v)) == Decode(buf).ReplaceLast(num, v)
  {
    SpanWhenValue(buf, 0, num);
    var sp := LastSpan(buf, 0, num);
    OverwriteAgrees(buf, sp, v);
    OverwriteSpan(buf, num, v, Overwrite(buf, sp, v));
  }

  lemma OverwriteSpan(buf: Buffer, num: nat, v: nat, buf': Buffer)
    requires Decode(buf).Readable() && v < 0x1_0000_0000
    requires var sp := LastSpan(buf, 0, num);
             sp.Span? && sp.start + sp.len <= |buf| && Overwritten(buf, sp, v, buf')
    ensures Decode(buf') == Decode(buf).ReplaceLast(num, v)
  {
    hide LastSpan, EncodedVarint, Varint, Decode, Agree;
    var sp := LastSpan(buf, 0, num);
    EncodedLength(v, 5);
    ReadInvertsEncode(v, buf', sp.start);
    OverwriteFrom(buf, 0, num, v, buf', sp, |EncodedVarint(v)| - sp.len);
  }

  /** buf' is buf with the varint v in place of the bytes at `sp`. */
  ghost predicate Overwritten(buf: Buffer, sp: Span, v: nat, buf': Buffer)
    requires sp.Span? && 0 <= sp.start <= sp.start + sp.len <= |buf|
  {
    && |buf'| == |buf| + |EncodedVarint(v)| - sp.len
    && Agree(buf, 0, sp.start, buf', 0)
    && Agree(EncodedVarint(v), 0, |EncodedVarint(v)|, buf', sp.start)
    && Agree(buf, sp.start + sp.len, |buf|, buf', |EncodedVarint(v)| - sp.len)
  }

  lemma OverwriteAgrees(buf: Buffer, sp: Span, v: nat)
    requires sp.Span? && 0 <= sp.start <= sp.start + sp.len <= |buf|
    ensures Overwritten(buf, sp, v, Overwrite(buf, sp, v))
  {
    var w, buf' := EncodedVarint(v), Overwrite(buf, sp, v);
    AgreeIntro(buf, 0, sp.start, buf', 0);
    AgreeIntro(w, 0, |w|, buf', sp.start);
    AgreeIntro(buf, sp.start + sp.len, |buf|, buf', |w| - sp.len);
  }

  lemma {:induction false} OverwriteFrom(buf: Buffer, pos: nat, num: nat, v: nat, buf': Buffer, sp: Span, d: int)
    requires Decode(buf, pos).Readable() && sp.Span? && LastSpan(buf, pos, num) == sp
    requires pos <= sp.start <= sp.start + sp.len <= |buf| && |buf'| == |buf| + d
    requires Agree(buf, pos, sp.start, buf', 0)
    requires Agree(buf, sp.start + sp.len, |buf|, buf', d)
    requires Varint(buf', sp.start) == Read(v, sp.start + sp.len + d)
    ensures Decode(buf', pos) == Decode(buf, pos).ReplaceLast(num, v)
    decreases |buf| - pos
  {
    var next := pos + TokenAt(buf, pos).size;
    SpanWhenValue(buf, next, num);
    if LastSpan(buf, next, num).Span? {
      StepUnchanged(buf, pos, buf', sp.start);
      OverwriteFrom(buf, next, num, v, buf', sp, d);
      OverwriteLater(buf, pos, num, v, buf');
    } else {
      OverwriteHere(buf, pos, v, buf', d);
    }
  }

  lemma OverwriteLater(buf: Buffer, pos: nat, num: nat, v: nat, buf': Buffer)
    requires TokenAt(buf, pos).Token? && TokenAt(buf', pos) == TokenAt(buf, pos)
    requires var next := pos + TokenAt(buf, pos).size;
             Decode(buf, next).Has(num) && Decode(buf', next) == Decode(buf, next).ReplaceLast(num, v)
    ensures Decode(buf', pos) == Decode(buf, pos).ReplaceLast(num, v)
  {
    hide TokenAt;
  }

  lemma OverwriteHere(buf: Buffer, pos: nat, v: nat, buf': Buffer, d: int)
    requires TokenAt(buf, pos).Token? && TokenAt(buf, pos).field.VarintField?
    requires |buf'| == |buf| + d && pos + TokenAt(buf, pos).size <= |buf|
    requires Decode(buf, pos + TokenAt(buf, pos).size).Readable()
    requires Agree(buf, pos, pos + TokenAt(buf, pos).tag, buf', 0)
    requires Agree(buf, pos + TokenAt(buf, pos).size, |buf|, buf', d)
    requires Varint(buf', pos + TokenAt(buf, pos).tag) == Read(v, pos + TokenAt(buf, pos).size + d)
    ensures pos < |buf'|
    ensures Decode(buf', pos) ==
            Next(VarintField(TokenAt(buf, pos).field.num, v), Decode(buf, pos + TokenAt(buf, pos).size))
  {
    hide Varint, Agree, TokenAt;
    ValueReplaced(buf, pos, v, buf', pos + TokenAt(buf, pos).size + d);
    DecodeLocal(buf, pos + TokenAt(buf, pos).size, buf', d);
  }

  lemma StepUnchanged(buf: Buffer, pos: nat, buf': Buffer, hi: nat)
    requires TokenAt(buf, pos).Token? && pos + TokenAt(buf, pos).size <= hi && Agree(buf, pos, hi, buf', 0)
    ensures TokenAt(buf', pos) == TokenAt(buf, pos)
    ensures Agree(buf, pos + TokenAt(buf, pos).size, hi, buf', 0)
  {
    var next := pos + TokenAt(buf, pos).size;
    AgreeNarrow(buf, pos, hi, buf', 0, pos, next);
    AgreeNarrow(buf, pos, hi, buf', 0, next, hi);
    TokenLocal(buf, pos, buf', 0);
  }

  lemma ValueReplaced(buf: Buffer, pos: nat, v: nat, buf': Buffer, end: nat)
    requires TokenAt(buf, pos).Token? && TokenAt(buf, pos).field.VarintField?
    requires Agree(buf, pos, pos + TokenAt(buf, pos).tag, buf', 0)
    requires Varint(buf', pos + TokenAt(buf, pos).tag) == Read(v, end)
    ensures var t := TokenAt(buf, pos);
            TokenAt(buf', pos) == Token(VarintField(t.field.num, v), t.tag, end - pos)
  {
    VarintLocal(buf, pos, buf', 0);
  }

  /** Where a skipped field ends. */
  method SkipField(buf: Buffer, pos: nat, wire: nat) returns (r: Result<int, Error>)
    ensures r == SkippedTo(if wire == 0 then WithoutValue(Varint(buf, pos)) else PayloadHeader(buf, pos, wire))
  {
    match wire {
      case 0 =>
        var v := ReadVarint(buf, pos);
        r := if v.Read? then Ok(v.next) else Err(v.error);
      case 1 =>
        r := Ok(pos + 8);
      case 2 =>
        var len := ReadVarint(buf, pos);
        r := if len.Read? then Ok(len.next + ToNumber(len.value)) else Err(len.error);
      case 5 =>
        r := Ok(pos + 4);
      case _ =>
        r := Err(UnsupportedWireType);
    }
  }

  function WithoutValue(h: VarintRead): VarintRead { if h.Read? then Read(0, h.next) else h }

  function SkippedTo(h: VarintRead): Result<int, Error> {
    if h.Read? then Ok(h.next + h.value) else Err(h.error)
  }
}
