/** The reader of mm images in lazy-pagemap.ts: which memory areas may be restored lazily. */
module MmImage {
  import opened Bytes
  import opened JsNumber
  import opened Protobuf
  import opened LazyPagemap

  // field numbers of mm_entry and vma_entry
  const VMAS := 27
  const START := 1
  const FINISH := 2
  const STATUS := 7

  /** VMA_ANON_PRIVATE is bit 4; VMA_AREA_VSYSCALL, _VDSO and _VVAR are bits 7, 8 and 11. */
  predicate LazyStatus(status: nat) {
    && status / 16 % 2 == 1
    && status / 128 % 2 == 0
    && status / 256 % 2 == 0
    && status / 2048 % 2 == 0
  }

  /** The area a vma_entry describes is anonymous, private, not injected by the kernel, and bounded. */
  predicate LazyVma(lv: map<nat, nat>) {
    STATUS in lv && LazyStatus(ToNumber(lv[STATUS])) && START in lv && FINISH in lv
  }

  function VmaRanges(lv: map<nat, nat>): seq<VmaRange> {
    if LazyVma(lv) then [VmaRange(lv[START], lv[FINISH])] else []
  }

  /**
   * A vma_entry contributes its range, fields 1 and 2, when its status, field 7, has bit 4 and
   * none of bits 7, 8 and 11.
   */
  lemma RangeByFieldNumber(lv: map<nat, nat>)
    ensures var status := ToNumber(if 7 in lv then lv[7] else 0);
            VmaRanges(lv) ==
            if 1 in lv && 2 in lv && 7 in lv && status / 16 % 2 == 1
               && status / 128 % 2 == 0 && status / 256 % 2 == 0 && status / 2048 % 2 == 0
            then [VmaRange(lv[1], lv[2])] else []
  {
  }

  predicate IsVma(f: Field) { f.OpaqueField? && f.num == VMAS && f.wire == 2 }

  /** The scan from pos on, `acc` found so far; the first unreadable field, inner or outer, ends it. */
  function RangesFrom(body: Buffer, pos: nat, acc: seq<VmaRange>): Result<seq<VmaRange>, Error>
    decreases |body| - pos
  {
    if pos >= |body| then Ok(acc)
    else
      var t := TokenAt(body, pos);
      if t.NoToken? then Err(t.error)
      else if !IsVma(t.field) then RangesFrom(body, pos + t.size, acc)
      else
        var vma := Decode(t.field.payload);
        if !vma.Readable() then Err(vma.FirstError())
        else RangesFrom(body, pos + t.size, acc + VmaRanges(vma.LastValues()))
  }

  /** The areas to restore lazily, read off the decoded mm_entry in order. */
  function LazyAreas(fs: Fields): seq<VmaRange> {
    match fs
    case Next(f, rest) =>
      (if IsVma(f) then VmaRanges(Decode(f.payload).LastValues()) else []) + LazyAreas(rest)
    case _ => []
  }

  predicate VmasReadable(fs: Fields) {
    match fs
    case Next(f, rest) => (IsVma(f) ==> Decode(f.payload).Readable()) && VmasReadable(rest)
    case _ => true
  }

  /** The scan succeeds exactly on readable images, and then lists exactly those areas. */
  lemma {:induction false} RangesAreLazyAreas(body: Buffer, pos: nat, acc: seq<VmaRange>)
    ensures RangesFrom(body, pos, acc).Ok? <==> Decode(body, pos).Readable() && VmasReadable(Decode(body, pos))
    ensures RangesFrom(body, pos, acc).Ok? ==>
              RangesFrom(body, pos, acc).value == acc + LazyAreas(Decode(body, pos))
    decreases |body| - pos
  {
    hide TokenAt, VmaRanges;
    if pos < |body| && TokenAt(body, pos).Token? {
      var t := TokenAt(body, pos);
      if !IsVma(t.field) {
        RangesAreLazyAreas(body, pos + t.size, acc);
      } else if Decode(t.field.payload).Readable() {
        var rs := VmaRanges(Decode(t.field.payload).LastValues());
        RangesAreLazyAreas(body, pos + t.size, acc + rs);
        Associative(acc, rs, LazyAreas(Decode(body, pos + t.size)));
      }
    }
  }

  function HeaderError(input: Buffer): Option<Error> {
    if |input| < 8 then Some(FileTooShort)
    else if ReadU32LE(input, 0) != 0x5456_4319 then Some(BadCommonMagic)
    else if ReadU32LE(input, 4) != 0x5749_2820 then Some(BadMagic)
    else if |input| < 12 then Some(MissingSizePrefix)
    else if 12 + ReadU32LE(input, 8) > |input| then Some(TruncatedMessage)
    else None
  }

  /** Two magic numbers, a length, and at least as many bytes. */
  lemma HeaderBytes(input: Buffer)
    ensures HeaderError(input).None? <==>
            && |input| >= 12 && input[..8] == [0x19, 0x43, 0x56, 0x54, 0x20, 0x28, 0x49, 0x57]
            && |input| >= 12 + input[8] as int + 0x100 * input[9] as int + 0x1_0000 * input[10] as int
                          + 0x100_0000 * input[11] as int
  {
    if |input| >= 8 {
      BytesOfU32(input, 0, 0x5456_4319, 0x19, 0x43, 0x56, 0x54);
      BytesOfU32(input, 4, 0x5749_2820, 0x20, 0x28, 0x49, 0x57);
      assert input[..8] == [input[0], input[1], input[2], input[3], input[4], input[5], input[6], input[7]];
    }
  }

  function Body(input: Buffer): Buffer
    requires HeaderError(input).None?
  {
    input[12..12 + ReadU32LE(input, 8)]
  }

  /** An image is accepted exactly when its header is good and its areas readable; then the lazy ones are returned. */
  lemma LazyRangesMeaning(input: Buffer)
    ensures LazyRanges(input).Ok? <==>
            HeaderError(input).None? && Decode(Body(input)).Readable() && VmasReadable(Decode(Body(input)))
    ensures LazyRanges(input).Ok? ==> LazyRanges(input).value == LazyAreas(Decode(Body(input)))
  {
    if HeaderError(input).None? {
      RangesAreLazyAreas(Body(input), 0, []);
    }
  }

  function LazyRanges(input: Buffer): Result<seq<VmaRange>, Error> {
    match HeaderError(input)
    case Some(e) => Err(e)
    case None => RangesFrom(Body(input), 0, [])
  }

  lemma RangesStep(body: Buffer, pos: nat, acc: seq<VmaRange>)
    requires pos < |body|
    ensures var t := TokenAt(body, pos);
            RangesFrom(body, pos, acc) ==
              if t.NoToken? then Err(t.error)
              else if FieldFailure(t.field).Some? then Err(FieldFailure(t.field).value)
              else RangesFrom(body, pos + t.size, acc + FieldRanges(t.field))
  {
    assert acc + [] == acc;
  }

  /** The ranges one field contributes. */
  function FieldRanges(f: Field): seq<VmaRange> {
    if IsVma(f) then VmaRanges(Decode(f.payload).LastValues()) else []
  }

  function FieldFailure(f: Field): Option<Error> {
    if IsVma(f) && !Decode(f.payload).Readable() then Some(Decode(f.payload).FirstError()) else None
  }

  method ParseLazyRangesFromMm(input: Buffer) returns (r: Result<seq<VmaRange>, Error>)
    ensures r == LazyRanges(input)
  {
    hide RangesFrom, FieldRanges, FieldFailure, TokenAt;
    if HeaderError(input).Some? {
      return Err(HeaderError(input).value);
    }
    var body := Body(input);
    var ranges: seq<VmaRange> := [];
    var pos: int := 0;
    while pos < |body|
      invariant pos >= 0
      invariant RangesFrom(body, 0, []) == RangesFrom(body, pos, ranges)
      decreases |body| - pos
    {
      RangesStep(body, pos, ranges);
      var failure, found, next := ReadMmField(body, pos);
      if failure.Some? {
        return Err(failure.value);
      }
      ranges := ranges + found;
      pos := next;
    }
    NoMoreRanges(body, pos, ranges);
    return Ok(ranges);
  }

  lemma NoMoreRanges(body: Buffer, pos: nat, acc: seq<VmaRange>)
    requires pos >= |body|
    ensures RangesFrom(body, pos, acc) == Ok(acc)
  {
  }

  /** One round of the loop: the ranges a field contributes, and where the next one starts. */
  method ReadMmField(body: Buffer, pos: nat) returns (failure: Option<Error>, found: seq<VmaRange>, next: int)
    requires pos < |body|
    ensures var t := TokenAt(body, pos);
            if t.NoToken? then failure == Some(t.error)
            else failure == FieldFailure(t.field)
                 && (failure.None? ==> found == FieldRanges(t.field) && next == pos + t.size)
  {
    found, next := [], pos;
    var tag := ReadVarint(body, pos);
    if tag.Unreadable? {
      return Some(tag.error), found, next;
    }
    if tag.value / 8 == VMAS && tag.value % 8 == 2 {
      var len := ReadVarint(body, tag.next);
      if len.Unreadable? {
        return Some(len.error), found, next;
      }
      var end := len.next + ToNumber(len.value);
      var vma := ReadVma(body, len.next, end);
      if vma.Err? {
        return Some(vma.error), found, next;
      }
      return None, vma.value, end;
    }
    var skipped := SkipField(body, tag.next, tag.value % 8);
    if skipped.Err? {
      return Some(skipped.error), found, next;
    }
    return None, found, skipped.value;
  }

  method ReadVma(body: Buffer, lo: nat, hi: nat) returns (r: Result<seq<VmaRange>, Error>)
    requires lo <= hi && lo <= |body|
    ensures var vma := Decode(Subarray(body, lo, hi));
            r == if vma.Readable() then Ok(VmaRanges(vma.LastValues())) else Err(vma.FirstError())
  {
    SubarrayIsSlice(body, lo, hi);
    var vma := ParseVmaEntry(body[lo..Min(hi, |body|)]);
    return if vma.Ok? then Ok(vma.value.LazyRange()) else Err(vma.error);
  }

  datatype ParsedVma = ParsedVma(start: Option<nat>, finish: Option<nat>, status: Option<nat>) {
    function LazyRange(): seq<VmaRange> {
      if status.Some? && LazyStatus(status.value) && start.Some? && finish.Some?
      then [VmaRange(start.value, finish.value)]
      else []
    }

    ghost predicate Holds(lv: map<nat, nat>) {
      && start == Slot(lv, START)
      && finish == Slot(lv, FINISH)
      && status == if STATUS in lv then Some(ToNumber(lv[STATUS])) else None
    }
  }

  method ParseVmaEntry(buf: Buffer) returns (r: Result<ParsedVma, Error>)
    ensures var fs := Decode(buf);
            if fs.Readable() then r.Ok? && r.value.Holds(fs.LastValues()) else r == Err(fs.FirstError())
  {
    hide TokenAt, Absorb, Decode, LastSpan;
    var vma := ParsedVma(None, None, None);
    var pos: nat := 0;
    ghost var acc := NOTHING;
    SummarizeIsLastOneWins(buf, 0, NOTHING);
    while pos < |buf|
      invariant vma.Holds(acc.values)
      invariant Summarize(buf, 0, NOTHING) == Summarize(buf, pos, acc)
      decreases |buf| - pos
    {
      ghost var t := TokenAt(buf, pos);
      var read := ReadVmaField(buf, pos, vma, acc);
      if read.Err? {
        return Err(read.error);
      }
      acc := Absorb(acc, t.field, pos + t.tag, t.size - t.tag);
      vma, pos := read.value.0, read.value.1;
    }
    assert map[] + Decode(buf).LastValues() == Decode(buf).LastValues();
    return Ok(vma);
  }

  method ReadVmaField(buf: Buffer, pos: nat, vma: ParsedVma, ghost acc: Summary)
    returns (r: Result<(ParsedVma, nat), Error>)
    requires pos < |buf| && vma.Holds(acc.values)
    ensures var t := TokenAt(buf, pos);
            if t.NoToken? then r == Err(t.error)
            else r.Ok? && r.value.1 == pos + t.size
                 && r.value.0.Holds(Absorb(acc, t.field, pos + t.tag, t.size - t.tag).values)
  {
    var tag := ReadVarint(buf, pos);
    if tag.Unreadable? {
      return Err(tag.error);
    }
    if tag.value % 8 != 0 {
      var skipped := SkipField(buf, tag.next, tag.value % 8);
      return if skipped.Ok? then Ok((vma, skipped.value)) else Err(skipped.error);
    }
    var v := ReadVarint(buf, tag.next);
    if v.Unreadable? {
      return Err(v.error);
    }
    return Ok((ApplyVmaField(vma, tag.value / 8, v.value), v.next));
  }

  function ApplyVmaField(vma: ParsedVma, field: nat, value: nat): ParsedVma {
    if field == START then vma.(start := Some(value))
    else if field == FINISH then vma.(finish := Some(value))
    else if field == STATUS then vma.(status := Some(ToNumber(value)))
    else vma
  }
}
