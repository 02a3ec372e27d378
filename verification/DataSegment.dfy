/**
 The data segment: a bump allocator for byte blocks and interned strings that is flattened
 into one initialised memory block in the end.
 */
module DataSegment {
  import opened Prelude
  import opened Alignment
  import opened StringBytes

  const RESERVED_SPACE: nat := 1024
  const DEFAULT_ALIGNMENT: int := 4

  datatype SegmentInfo = SegmentInfo(data: seq<byte>, offset: int)

  datatype State = State(end: int, offsets: map<JsString, int>, items: seq<SegmentInfo>)

  const INITIAL := State(RESERVED_SPACE, map[], [])

  // ----- the steps -----

  datatype Request = Data(data: seq<byte>, alignment: int) | Text(str: JsString, alignment: int)

  /** The bytes a request wants to read at the offset it gets. */
  function BytesOf(q: Request): seq<byte> {
    match q
    case Data(data, _) => data
    case Text(str, _) => Encode(str) + [0]
  }

  /** An alignment that is not positive leaves the offset alone. */
  function AlignedEnd(end: int, alignment: int): int {
    if alignment > 0 then Align(end, alignment) else end
  }

  function Store(s: State, data: seq<byte>, alignment: int): State {
    s.(end := AlignedEnd(s.end + |data|, alignment), items := s.items + [SegmentInfo(data, s.end)])
  }

  /** A string seen before is not stored again. */
  function Step(s: State, q: Request): State {
    match q
    case Data(data, alignment) => Store(s, data, alignment)
    case Text(str, alignment) =>
      if str in s.offsets then s
      else Store(s.(offsets := s.offsets[str := s.end]), BytesOf(q), alignment)
  }

  function OffsetOf(s: State, q: Request): int {
    if q.Text? && q.str in s.offsets then s.offsets[q.str] else s.end
  }

  function Run(s: State, qs: seq<Request>): State
    decreases |qs|
  {
    if qs == [] then s else Run(Step(s, qs[0]), qs[1..])
  }

  function Offsets(s: State, qs: seq<Request>): (r: seq<int>)
    ensures |r| == |qs|
    decreases |qs|
  {
    if qs == [] then [] else [OffsetOf(s, qs[0])] + Offsets(Step(s, qs[0]), qs[1..])
  }

  /** The request leaves the end of the segment within the reach of 32-bit arithmetic. */
  predicate Fits(s: State, q: Request) {
    q.alignment > 0 ==> s.end + |BytesOf(q)| + (q.alignment - 1) < 0x8000_0000
  }

  predicate AllFit(s: State, qs: seq<Request>)
    decreases |qs|
  {
    qs != [] ==> Fits(s, qs[0]) && AllFit(Step(s, qs[0]), qs[1..])
  }

  // ----- the layout invariant -----

  /** The stored ranges are ascending and disjoint, from the reserved space to the end. */
  ghost predicate Ascending(s: State) {
    && RESERVED_SPACE <= s.end
    && (forall i :: 0 <= i < |s.items| ==>
          RESERVED_SPACE <= s.items[i].offset && s.items[i].offset + |s.items[i].data| <= s.end)
    && (forall i, j :: 0 <= i < j < |s.items| ==>
          s.items[i].offset + |s.items[i].data| <= s.items[j].offset)
  }

  ghost predicate Stored(s: State, data: seq<byte>, offset: int) {
    SegmentInfo(data, offset) in s.items
  }

  /** Every interned string is stored with its terminator, and no two share an offset. */
  ghost predicate Interned(s: State) {
    && (forall str :: str in s.offsets ==>
          s.offsets[str] < s.end && Stored(s, Encode(str) + [0], s.offsets[str]))
    && (forall str, other :: str in s.offsets && other in s.offsets && str != other ==>
          s.offsets[str] != s.offsets[other])
  }

  ghost predicate Laid(s: State) {
    Ascending(s) && Interned(s)
  }

  lemma StoreAscends(s: State, data: seq<byte>, alignment: int)
    requires Ascending(s) && (alignment > 0 ==> s.end + |data| + (alignment - 1) < 0x8000_0000)
    ensures Ascending(Store(s, data, alignment))
    ensures s.end + |data| <= Store(s, data, alignment).end
  {
    if alignment > 0 {
      AlignMovesForward(s.end + |data|, alignment);
    }
  }

  /** Storing keeps what is interned, and `str` may be added to it when its bytes are what is stored. */
  lemma StoreInterns(s: State, data: seq<byte>, alignment: int)
    requires Laid(s) && s.end + |data| <= Store(s, data, alignment).end
    ensures Interned(Store(s, data, alignment))
    ensures Stored(Store(s, data, alignment), data, s.end)
  {
    var after := Store(s, data, alignment);
    assert after.items[|s.items|] == SegmentInfo(data, s.end);
    forall str | str in s.offsets
      ensures s.offsets[str] < after.end && Stored(after, Encode(str) + [0], s.offsets[str])
    {
      assert Stored(s, Encode(str) + [0], s.offsets[str]);
    }
  }

  lemma NewStringInterns(s: State, str: JsString, after: State)
    requires Laid(s) && str !in s.offsets && Interned(after.(offsets := s.offsets))
    requires after.offsets == s.offsets[str := s.end]
    requires Stored(after, Encode(str) + [0], s.end) && s.end < after.end
    ensures Interned(after)
  {
    var before := after.(offsets := s.offsets);
    forall other | other in after.offsets
      ensures after.offsets[other] < after.end && Stored(after, Encode(other) + [0], after.offsets[other])
    {
      if other != str {
        assert Stored(before, Encode(other) + [0], before.offsets[other]);
      }
    }
  }

  lemma StoreKeeps(s: State, data: seq<byte>, alignment: int)
    requires Laid(s) && (alignment > 0 ==> s.end + |data| + (alignment - 1) < 0x8000_0000)
    ensures Laid(Store(s, data, alignment)) && Stored(Store(s, data, alignment), data, s.end)
    ensures s.end + |data| <= Store(s, data, alignment).end
    ensures s.items <= Store(s, data, alignment).items
  {
    StoreAscends(s, data, alignment);
    StoreInterns(s, data, alignment);
  }

  lemma NewStringKeeps(s: State, str: JsString, alignment: int)
    requires Laid(s) && Fits(s, Text(str, alignment)) && str !in s.offsets
    ensures Laid(Step(s, Text(str, alignment))) && Stored(Step(s, Text(str, alignment)), Encode(str) + [0], s.end)
    ensures s.items <= Step(s, Text(str, alignment)).items
  {
    var bytes := BytesOf(Text(str, alignment));
    StoreKeeps(s, bytes, alignment);
    var plain, after := Store(s, bytes, alignment), Step(s, Text(str, alignment));
    assert after.items == plain.items && after.end == plain.end;
    assert after.(offsets := s.offsets) == plain;
    assert Stored(plain, bytes, s.end);
    NewStringInterns(s, str, after);
  }

  lemma StepKeeps(s: State, q: Request)
    requires Laid(s) && Fits(s, q)
    ensures Laid(Step(s, q)) && Stored(Step(s, q), BytesOf(q), OffsetOf(s, q))
    ensures s.items <= Step(s, q).items
  {
    match q
    case Data(data, alignment) => StoreKeeps(s, data, alignment);
    case Text(str, alignment) =>
      if str !in s.offsets {
        NewStringKeeps(s, str, alignment);
      }
  }

  /**
   No space is wasted: a known string takes none, other requests take their bytes and less than their
   alignment, and with a power of two the next offset is the least multiple behind the bytes.
   */
  lemma StepIsTight(s: State, q: Request)
    requires Laid(s) && Fits(s, q)
    ensures q.Text? && q.str in s.offsets ==> Step(s, q) == s
    ensures !(q.Text? && q.str in s.offsets) ==>
              var end, next := s.end + |BytesOf(q)|, Step(s, q).end;
              && (q.alignment <= 0 ==> next == end)
              && (q.alignment > 0 ==> end <= next < end + q.alignment)
              && forall k :: q.alignment == Pow2(k) ==> next % q.alignment == 0
  {
    AlignedIsTight(s.end + |BytesOf(q)|, q.alignment);
  }

  lemma AlignedIsTight(end: int, alignment: int)
    requires end >= 0 && (alignment > 0 ==> end + (alignment - 1) < 0x8000_0000)
    ensures alignment > 0 ==> end <= AlignedEnd(end, alignment) < end + alignment
    ensures forall k :: alignment == Pow2(k) ==> AlignedEnd(end, alignment) % alignment == 0
  {
    if alignment > 0 {
      AlignMovesForward(end, alignment);
      forall k | alignment == Pow2(k) ensures Align(end, alignment) % alignment == 0 {
        AlignToPower(end, k, alignment);
        assert LeastMultiple(Align(end, alignment), end, alignment);
      }
    }
  }

  /** Strings keep their offsets. */
  lemma StepKeepsOffsets(s: State, q: Request)
    ensures q.Text? ==> q.str in Step(s, q).offsets && Step(s, q).offsets[q.str] == OffsetOf(s, q)
    ensures forall str :: str in s.offsets ==> str in Step(s, q).offsets && Step(s, q).offsets[str] == s.offsets[str]
  {
  }

  /** Over any run the layout invariant holds, and nothing stored is moved or overwritten. */
  lemma {:induction false} RunKeeps(s: State, qs: seq<Request>)
    requires Laid(s) && AllFit(s, qs)
    ensures Laid(Run(s, qs)) && s.items <= Run(s, qs).items
    ensures forall str :: str in s.offsets ==> str in Run(s, qs).offsets && Run(s, qs).offsets[str] == s.offsets[str]
    decreases |qs|
  {
    if qs != [] {
      StepKeeps(s, qs[0]);
      StepKeepsOffsets(s, qs[0]);
      RunKeeps(Step(s, qs[0]), qs[1..]);
    }
  }

  /** Every request of a run finds its bytes stored at the offset it was given, and strings keep theirs. */
  lemma {:induction false} RunServes(s: State, qs: seq<Request>, k: nat)
    requires Laid(s) && AllFit(s, qs) && k < |qs|
    ensures Stored(Run(s, qs), BytesOf(qs[k]), Offsets(s, qs)[k])
    ensures qs[k].Text? ==> qs[k].str in Run(s, qs).offsets && Run(s, qs).offsets[qs[k].str] == Offsets(s, qs)[k]
    decreases |qs|
  {
    var next := Step(s, qs[0]);
    StepKeeps(s, qs[0]);
    StepKeepsOffsets(s, qs[0]);
    if k == 0 {
      RunKeeps(next, qs[1..]);
    } else {
      RunServes(next, qs[1..], k - 1);
    }
  }

  /** Two string requests of a run get the same offset exactly when they ask for the same string. */
  lemma SameOffsetIffSameString(s: State, qs: seq<Request>, j: nat, k: nat)
    requires Laid(s) && AllFit(s, qs) && j < |qs| && k < |qs| && qs[j].Text? && qs[k].Text?
    ensures Offsets(s, qs)[j] == Offsets(s, qs)[k] <==> qs[j].str == qs[k].str
  {
    RunKeeps(s, qs);
    RunServes(s, qs, j);
    RunServes(s, qs, k);
  }

  /** An alignment to a power of two leaves the end of the segment a multiple of it. */
  lemma StepAligned(s: State, q: Request, k: nat)
    requires Laid(s) && Fits(s, q) && q.alignment == Pow2(k) && s.end % q.alignment == 0
    ensures Step(s, q).end % q.alignment == 0
  {
    AlignToPower(s.end + |BytesOf(q)|, k, q.alignment);
  }

  /** The end and every string offset are multiples of `a`. */
  ghost predicate AllMultiples(s: State, a: nat)
    requires a > 0
  {
    s.end % a == 0 && forall str :: str in s.offsets ==> s.offsets[str] % a == 0
  }

  lemma MultiplesKept(s: State, q: Request, a: nat, k: nat)
    requires Laid(s) && Fits(s, q) && a == Pow2(k) && q.alignment == a && AllMultiples(s, a)
    ensures AllMultiples(Step(s, q), a) && OffsetOf(s, q) % a == 0
  {
    StepAligned(s, q, k);
    var next := Step(s, q);
    forall str | str in next.offsets ensures next.offsets[str] % a == 0 {
      assert str !in s.offsets ==> next.offsets[str] == s.end;
    }
  }

  /** When every request asks for the same power of two, every offset handed out is a multiple of it. */
  lemma {:induction false} OffsetsAligned(s: State, qs: seq<Request>, i: nat, a: nat, k: nat)
    requires Laid(s) && AllFit(s, qs) && i < |qs| && a == Pow2(k) && AllMultiples(s, a)
    requires forall j :: 0 <= j < |qs| ==> qs[j].alignment == a
    ensures Offsets(s, qs)[i] % a == 0
    decreases |qs|
  {
    MultiplesKept(s, qs[0], a, k);
    if i > 0 {
      StepKeeps(s, qs[0]);
      OffsetsAligned(Step(s, qs[0]), qs[1..], i - 1, a, k);
    }
  }

  /** So with the default alignment all offsets are multiples of four. */
  lemma DefaultOffsetsAligned(qs: seq<Request>, i: nat)
    requires AllFit(INITIAL, qs) && i < |qs|
    requires forall j :: 0 <= j < |qs| ==> qs[j].alignment == DEFAULT_ALIGNMENT
    ensures Offsets(INITIAL, qs)[i] % 4 == 0
  {
    var k: nat :| Pow2(k) == 4 by { assert Pow2(2) == 4; }
    OffsetsAligned(INITIAL, qs, i, 4, k);
  }

  // ----- flattening -----

  /** One item written over a block that starts at the reserved space; writes outside the block have no effect. */
  function Painted(block: seq<byte>, item: SegmentInfo): (r: seq<byte>)
    ensures |r| == |block|
  {
    seq(|block|, k requires 0 <= k < |block| =>
      if item.offset <= k + RESERVED_SPACE < item.offset + |item.data|
      then item.data[k + RESERVED_SPACE - item.offset] else block[k])
  }

  function AllPainted(block: seq<byte>, items: seq<SegmentInfo>): (r: seq<byte>)
    ensures |r| == |block|
  {
    if items == [] then block else Painted(AllPainted(block, items[..|items| - 1]), items[|items| - 1])
  }

  function Zeros(n: nat): seq<byte> {
    seq(n, _ => 0)
  }

  /** None without items; a block of negative size cannot be created. */
  function Flattened(s: State): Option<Result<SegmentInfo>> {
    if |s.items| == 0 then None
    else if s.end < RESERVED_SPACE then Some(Err("Invalid typed array length"))
    else Some(Ok(SegmentInfo(AllPainted(Zeros(s.end - RESERVED_SPACE), s.items), RESERVED_SPACE)))
  }

  ghost predicate Covers(item: SegmentInfo, k: int) {
    item.offset <= k < item.offset + |item.data|
  }

  /** No two items overlap. */
  ghost predicate Apart(items: seq<SegmentInfo>) {
    forall i, j :: 0 <= i < j < |items| ==> items[i].offset + |items[i].data| <= items[j].offset
  }

  lemma {:induction false} CoveredByte(block: seq<byte>, items: seq<SegmentInfo>, i: int, k: int)
    requires 0 <= k < |block| && Apart(items) && 0 <= i < |items| && Covers(items[i], k + RESERVED_SPACE)
    ensures AllPainted(block, items)[k] == items[i].data[k + RESERVED_SPACE - items[i].offset]
    decreases |items|
  {
    var last := |items| - 1;
    if i < last {
      assert items[..last][i] == items[i];
      CoveredByte(block, items[..last], i, k);
    }
  }

  lemma {:induction false} UncoveredByte(block: seq<byte>, items: seq<SegmentInfo>, k: int)
    requires 0 <= k < |block|
    requires forall i :: 0 <= i < |items| ==> !Covers(items[i], k + RESERVED_SPACE)
    ensures AllPainted(block, items)[k] == block[k]
    decreases |items|
  {
    if items != [] {
      var last := |items| - 1;
      UncoveredByte(block, items[..last], k);
      assert !Covers(items[last], k + RESERVED_SPACE);
    }
  }

  ghost predicate Reads(block: seq<byte>, offset: int, data: seq<byte>) {
    && RESERVED_SPACE <= offset && offset + |data| <= RESERVED_SPACE + |block|
    && block[offset - RESERVED_SPACE..offset - RESERVED_SPACE + |data|] == data
  }

  ghost predicate NoItemAt(s: State, k: int) {
    forall i :: 0 <= i < |s.items| ==> !Covers(s.items[i], k)
  }

  /** The flattened segment holds every stored item intact at its offset. */
  lemma FlattenedHoldsItem(s: State, data: seq<byte>, offset: int)
    requires Laid(s) && Stored(s, data, offset)
    ensures Flattened(s).Some? && Flattened(s).value.Ok?
    ensures Reads(Flattened(s).value.value.data, offset, data)
  {
    var zeros := Zeros(s.end - RESERVED_SPACE);
    var i :| 0 <= i < |s.items| && s.items[i] == SegmentInfo(data, offset);
    var block, base := AllPainted(zeros, s.items), offset - RESERVED_SPACE;
    forall k | 0 <= k < |data| ensures block[base + k] == data[k] {
      CoveredByte(zeros, s.items, i, base + k);
    }
    assert block[base..base + |data|] == data;
  }

  /** It ends where the last allocation ended and is zero wherever nothing is stored. */
  lemma FlattenedIsZeroElsewhere(s: State)
    requires Laid(s) && s.items != []
    ensures var block := Flattened(s).value.value;
            && block.offset == RESERVED_SPACE && |block.data| == s.end - RESERVED_SPACE
            && (forall k :: RESERVED_SPACE <= k < s.end && NoItemAt(s, k) ==> block.data[k - RESERVED_SPACE] == 0)
  {
    var zeros := Zeros(s.end - RESERVED_SPACE);
    var data := AllPainted(zeros, s.items);
    forall k | RESERVED_SPACE <= k < s.end && NoItemAt(s, k) ensures data[k - RESERVED_SPACE] == 0 {
      UncoveredByte(zeros, s.items, k - RESERVED_SPACE);
    }
  }

  /** An empty context is laid out. */
  lemma InitialIsLaid()
    ensures Laid(INITIAL)
  {
  }

  /** After any run each request reads its bytes back from the flattened segment. */
  lemma RunReadsBack(s: State, qs: seq<Request>, k: nat) returns (block: seq<byte>)
    requires Laid(s) && AllFit(s, qs) && k < |qs|
    ensures Flattened(Run(s, qs)) == Some(Ok(SegmentInfo(block, RESERVED_SPACE)))
    ensures Reads(block, Offsets(s, qs)[k], BytesOf(qs[k]))
  {
    RunKeeps(s, qs);
    RunServes(s, qs, k);
    FlattenedHoldsItem(Run(s, qs), BytesOf(qs[k]), Offsets(s, qs)[k]);
    block := Flattened(Run(s, qs)).value.value.data;
  }

  // ----- reading strings -----

  /** The bytes from `from` on up to the first NUL. */
  function ReadToNul(block: seq<byte>, from: int): (r: Option<seq<byte>>)
    requires 0 <= from
    decreases |block| - from
  {
    if from >= |block| then None
    else if block[from] == 0 then Some([])
    else match ReadToNul(block, from + 1)
      case None => None
      case Some(rest) => Some([block[from]] + rest)
  }

  lemma {:induction false} ReadsUpToNul(block: seq<byte>, from: int, bytes: seq<byte>)
    requires 0 <= from && from + |bytes| < |block| && block[from + |bytes|] == 0 && 0 !in bytes
    requires forall i :: 0 <= i < |bytes| ==> block[from + i] == bytes[i]
    ensures ReadToNul(block, from) == Some(bytes)
    decreases |bytes|
  {
    if bytes != [] {
      assert block[from + 0] == bytes[0] && bytes[0] in bytes;
      forall i | 0 <= i < |bytes[1..]| ensures block[from + 1 + i] == bytes[1..][i] {
        assert block[from + (1 + i)] == bytes[1 + i];
      }
      ReadsUpToNul(block, from + 1, bytes[1..]);
      assert bytes == [bytes[0]] + bytes[1..];
    }
  }

  /** What stands before the first U+0000. */
  function BeforeNul(str: JsString): (r: JsString)
    ensures |r| <= |str| && 0 !in r && (r == str <==> 0 !in str)
  {
    if str == [] || str[0] == 0 then []
    else
      assert str == [str[0]] + str[1..];
      [str[0]] + BeforeNul(str[1..])
  }

  /** The bytes of a string start with those of what stands before its first U+0000, and a NUL comes next. */
  lemma {:induction false} EncodeBeforeNul(str: JsString)
    ensures var b := Encode(BeforeNul(str));
            |b| < |Encode(str) + [0]| && (Encode(str) + [0])[..|b|] == b && (Encode(str) + [0])[|b|] == 0
  {
    if str != [] && str[0] != 0 {
      EncodeBeforeNul(str[1..]);
      var unit, rest, b := EncodeUnit(str[0]), Encode(str[1..]) + [0], Encode(BeforeNul(str[1..]));
      assert BeforeNul(str)[1..] == BeforeNul(str[1..]);
      assert Encode(str) + [0] == unit + rest && Encode(BeforeNul(str)) == unit + b;
      assert (unit + rest)[..|unit + b|] == unit + rest[..|b|];
    }
  }

  lemma StartsWith(block: seq<byte>, from: int, stored: seq<byte>, b: seq<byte>)
    requires 0 <= from && from + |stored| <= |block| && block[from..from + |stored|] == stored
    requires |b| < |stored| && stored[..|b|] == b
    ensures forall i :: 0 <= i < |b| ==> block[from + i] == b[i]
    ensures block[from + |b|] == stored[|b|]
  {
    assert block[from..from + |stored|][|b|] == stored[|b|];
    forall i | 0 <= i < |b| ensures block[from + i] == b[i] {
      assert block[from..from + |stored|][i] == stored[i] && stored[..|b|][i] == b[i];
    }
  }

  /** A reader that starts at a string's offset gets the string up to its first U+0000. */
  lemma ReaderFinds(block: seq<byte>, offset: int, str: JsString)
    requires Reads(block, offset, Encode(str) + [0])
    ensures ReadToNul(block, offset - RESERVED_SPACE) == Some(Encode(BeforeNul(str)))
  {
    var from, stored, b := offset - RESERVED_SPACE, Encode(str) + [0], Encode(BeforeNul(str));
    EncodeBeforeNul(str);
    NulOnlyFromNul(BeforeNul(str));
    StartsWith(block, from, stored, b);
    ReadsUpToNul(block, from, b);
  }

  /** So it gets the string exactly when the string holds no U+0000. */
  lemma StringReadsBackIff(block: seq<byte>, offset: int, str: JsString)
    requires Reads(block, offset, Encode(str) + [0])
    ensures var read := ReadToNul(block, offset - RESERVED_SPACE);
            read.Some? && (Decode(read.value) == Some(str) <==> 0 !in str)
  {
    ReaderFinds(block, offset, str);
    EncodeRoundTrip(BeforeNul(str));
  }

  // ----- the context object -----

  class DataSegmentContext {
    var currentOffset: int
    var stringOffsetMap: map<JsString, int>
    var dataArray: seq<SegmentInfo>

    ghost function Now(): State
      reads this
    {
      State(currentOffset, stringOffsetMap, dataArray)
    }

    constructor ()
      ensures Now() == INITIAL
    {
      currentOffset := RESERVED_SPACE;
      stringOffsetMap := map[];
      dataArray := [];
    }

    method AddData(data: seq<byte>, alignment: int) returns (offset: int)
      modifies this
      ensures Now() == Step(old(Now()), Data(data, alignment))
      ensures offset == OffsetOf(old(Now()), Data(data, alignment))
    {
      offset := currentOffset;
      currentOffset := currentOffset + |data|;
      dataArray := dataArray + [SegmentInfo(data, offset)];
      if alignment > 0 {
        currentOffset := BitAnd(currentOffset + (alignment - 1), BitNot(alignment - 1));
      }
    }

    method AddString(str: JsString, alignment: int) returns (offset: int)
      modifies this
      ensures Now() == Step(old(Now()), Text(str, alignment))
      ensures offset == OffsetOf(old(Now()), Text(str, alignment))
    {
      if str in stringOffsetMap {
        return stringOffsetMap[str];
      }
      offset := currentOffset;
      stringOffsetMap := stringOffsetMap[str := offset];
      var buffer := Terminated(str);
      currentOffset := currentOffset + buffer.Length;
      dataArray := dataArray + [SegmentInfo(buffer[..], offset)];
      if alignment > 0 {
        currentOffset := BitAnd(currentOffset + (alignment - 1), BitNot(alignment - 1));
      }
    }

    method GenerateSegment() returns (segment: Option<Result<SegmentInfo>>)
      ensures segment == Flattened(Now())
    {
      var offset := RESERVED_SPACE;
      var size := currentOffset - offset;
      if |dataArray| == 0 {
        return None;
      }
      if size < 0 {
        return Some(Err("Invalid typed array length"));
      }
      var data := new byte[size](_ => 0);
      assert data[..] == Zeros(size);
      var n := 0;
      while n < |dataArray|
        invariant n <= |dataArray|
        invariant data[..] == AllPainted(Zeros(size), dataArray[..n])
      {
        PaintInto(data, dataArray[n]);
        assert dataArray[..n + 1][..n] == dataArray[..n];
        n := n + 1;
      }
      assert dataArray[..n] == dataArray;
      segment := Some(Ok(SegmentInfo(data[..], offset)));
    }

    /** Where the heap may start: nothing is stored behind it, and the flattened block ends there. */
    method GetDataEnd() returns (end: int)
      ensures Laid(Now()) ==> forall i :: 0 <= i < |dataArray| ==> dataArray[i].offset + |dataArray[i].data| <= end
      ensures Flattened(Now()).Some? && Flattened(Now()).value.Ok? ==>
                var block := Flattened(Now()).value.value; block.offset + |block.data| == end
      ensures forall q: Request :: OffsetOf(Now(), q) == end || (q.Text? && q.str in stringOffsetMap)
    {
      end := currentOffset;
    }
  }

  /** The bytes of a string with a terminating NUL. */
  method Terminated(str: JsString) returns (buffer: array<byte>)
    ensures buffer[..] == Encode(str) + [0]
  {
    var utf8Str := Utf16ToUtf8(str);
    buffer := new byte[|utf8Str| + 1](_ => 0);
    var i := 0;
    while i < |utf8Str|
      invariant i <= |utf8Str| && buffer[..i] == utf8Str[..i]
    {
      buffer[i] := utf8Str[i];
      i := i + 1;
    }
    buffer[|utf8Str|] := 0;
    assert buffer[..|utf8Str|] == utf8Str && buffer[|utf8Str|] == 0;
    assert buffer[..] == buffer[..|utf8Str|] + [buffer[|utf8Str|]];
  }

  /** The inner loop of the flattening. */
  method PaintInto(data: array<byte>, info: SegmentInfo)
    modifies data
    ensures data[..] == Painted(old(data[..]), info)
  {
    var i := 0;
    while i < |info.data|
      invariant i <= |info.data|
      invariant forall k :: 0 <= k < data.Length ==>
                  data[k] == if info.offset <= k + RESERVED_SPACE < info.offset + i
                             then info.data[k + RESERVED_SPACE - info.offset] else old(data[k])
    {
      var targetOffset := i + info.offset - RESERVED_SPACE;
      if 0 <= targetOffset < data.Length {
        data[targetOffset] := info.data[i];
      }
      i := i + 1;
    }
  }
}
