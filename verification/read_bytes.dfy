/**
 * Byte-level varints and the hand-rolled protobuf tag scanners of
 * read_bytes.rs.  A tag is `field_number << 3 | wire_type`, so tag 58 is
 * field 7 length-delimited, 26 is field 3 length-delimited, and so on.
 * The free `read_varint` of first_pass/read_bits.rs has exactly the same
 * body as the one here and is modelled by the same function.
 */
module ReadBytes {
  import opened Wrappers
  import opened Ints
  import opened Errors

  /** The Base 128 varint encoding of the protobuf wire format: 7-bit groups, least significant first, top bit set on every byte but the last. */
  function Leb128(v: nat): (enc: seq<Byte>)
    ensures |enc| >= 1
    ensures enc[|enc| - 1] < 128
    ensures forall i :: 0 <= i < |enc| - 1 ==> enc[i] >= 128
    decreases v
  {
    if v < 128 then [v] else [v % 128 + 128] + Leb128(v / 128)
  }

  lemma {:induction false} Leb128Length(v: nat, k: nat)
    requires k >= 1 && v < Pow2(7 * k)
    ensures |Leb128(v)| <= k
  {
    if v >= 128 {
      assert Pow2(7 * k) == Pow2(7) * Pow2(7 * (k - 1)) by { Pow2Add(7, 7 * (k - 1)); }
      assert Pow2(7) == 128;
      if k == 1 {
        assert false;
      } else {
        Leb128Length(v / 128, k - 1);
      }
    }
  }

  /**
   * The varint loop shared by `read_varint` and `read_varint2`: `count`
   * bytes are already in `acc`.  `(b & 127) << 7*count` on u32 keeps the
   * group's bits below bit 32, and groups occupy disjoint bits, so OR-ing a
   * group in is adding it modulo 2^32.  On a terminating byte the position
   * after it is returned plus `bump`; after five continuation bytes the
   * position is returned as it is.
   */
  function VarintLoop(bytes: seq<Byte>, ptr: nat, count: nat, acc: nat, bump: nat): Result<(nat, nat), DemoParserError>
    requires count <= 5
    decreases 5 - count
  {
    if count >= 5 then Success((acc, ptr))
    else if ptr >= |bytes| then Failure(OutOfBytesError)
    else
      var b := bytes[ptr];
      var acc' := AddGroup(acc, b, count);
      if b < 128 then Success((acc', ptr + 1 + bump))
      else VarintLoop(bytes, ptr + 1, count + 1, acc', bump)
  }

  /** `acc | (b & 127) << 7*count` on u32, for groups below `count` already in `acc`. */
  function AddGroup(acc: nat, b: Byte, count: nat): nat {
    (acc + (b % 128) * Pow2(7 * count)) % U32_LIMIT
  }

  /** Every byte in `[ptr, end)` exists and has its continuation bit set. */
  predicate AllContinue(bytes: seq<Byte>, ptr: nat, end: nat) {
    end <= |bytes| && forall i :: ptr <= i < end ==> bytes[i] >= 128
  }

  lemma {:induction false} VarintLoopShape(bytes: seq<Byte>, ptr: nat, count: nat, acc: nat, bump: nat)
    requires count <= 5 && acc < U32_LIMIT
    requires count == 0 || ptr <= |bytes|
    ensures var r := VarintLoop(bytes, ptr, count, acc, bump);
      && (r.Failure? <==> (|bytes| < ptr + 5 - count && forall i :: ptr <= i < |bytes| ==> bytes[i] >= 128))
      && (r.Failure? ==> r.error == OutOfBytesError)
      && (r.Success? ==> r.value.0 < U32_LIMIT)
      && (r.Success? ==>
            exists end :: ptr <= end <= ptr + 5 - count && AllContinue(bytes, ptr, end)
              && ((end == ptr + 5 - count && r.value.1 == end)
                  || (end < |bytes| && bytes[end] < 128 && r.value.1 == end + 1 + bump)))
    decreases 5 - count
  {
    var r := VarintLoop(bytes, ptr, count, acc, bump);
    if count >= 5 {
      assert AllContinue(bytes, ptr, ptr);
    } else if ptr >= |bytes| {
    } else if bytes[ptr] < 128 {
      assert AllContinue(bytes, ptr, ptr);
    } else {
      var acc' := AddGroup(acc, bytes[ptr], count);
      VarintLoopShape(bytes, ptr + 1, count + 1, acc', bump);
      if r.Success? {
        var end :| ptr + 1 <= end <= ptr + 1 + 5 - (count + 1) && AllContinue(bytes, ptr + 1, end)
            && ((end == ptr + 1 + 5 - (count + 1) && r.value.1 == end)
                || (end < |bytes| && bytes[end] < 128 && r.value.1 == end + 1 + bump));
        assert AllContinue(bytes, ptr, end);
      }
    }
  }

  /**
   * `read_varint`: a u32 varint of at most five bytes starting at `ptr`;
   * the result pairs the value with the position after the last byte read.
   */
  function ReadVarint(bytes: seq<Byte>, ptr: nat): (r: Result<(nat, nat), DemoParserError>)
    ensures r.Failure? <==> (|bytes| < ptr + 5 && forall i :: ptr <= i < |bytes| ==> bytes[i] >= 128)
    ensures r.Failure? ==> r.error == OutOfBytesError
    ensures r.Success? ==> IsU32(r.value.0) && ptr < r.value.1 <= ptr + 5 && r.value.1 <= |bytes|
    ensures r.Success? ==> AllContinue(bytes, ptr, r.value.1 - 1)
    ensures r.Success? && r.value.1 < ptr + 5 ==> bytes[r.value.1 - 1] < 128
  {
    VarintLoopShape(bytes, ptr, 0, 0, 0);
    VarintLoop(bytes, ptr, 0, 0, 0)
  }

  /**
   * `read_varint2`: the same loop, but a varint that ends on a terminating
   * byte reports the position one past the byte after it, while one cut
   * off by the five-byte cap reports the exact end.
   */
  function ReadVarint2(bytes: seq<Byte>, ptr: nat): (r: Result<(nat, nat), DemoParserError>)
    ensures r.Failure? <==> ReadVarint(bytes, ptr).Failure?
    ensures r.Success? ==> r.value.0 == ReadVarint(bytes, ptr).value.0
    ensures r.Success? ==> var end := ReadVarint(bytes, ptr).value.1;
      if bytes[end - 1] < 128 then r.value.1 == end + 1 else r.value.1 == end
  {
    VarintLoopShape(bytes, ptr, 0, 0, 1);
    VarintAgree(bytes, ptr, 0, 0);
    VarintLoop(bytes, ptr, 0, 0, 1)
  }

  lemma {:induction false} VarintAgree(bytes: seq<Byte>, ptr: nat, count: nat, acc: nat)
    requires count <= 5
    requires count == 0 || (0 < ptr <= |bytes| && bytes[ptr - 1] >= 128)
    ensures var r0 := VarintLoop(bytes, ptr, count, acc, 0);
      var r1 := VarintLoop(bytes, ptr, count, acc, 1);
      && (r0.Failure? <==> r1.Failure?)
      && (r0.Success? ==> r0.value.0 == r1.value.0 && 0 < r0.value.1 <= |bytes|)
      && (r0.Success? ==>
            if bytes[r0.value.1 - 1] < 128 then r1.value.1 == r0.value.1 + 1 else r1.value.1 == r0.value.1)
    decreases 5 - count
  {
    if count < 5 && ptr < |bytes| && bytes[ptr] >= 128 {
      var acc' := AddGroup(acc, bytes[ptr], count);
      VarintAgree(bytes, ptr + 1, count + 1, acc');
    }
  }

  lemma MulLe(a: nat, b: nat, P: nat)
    requires a <= b
    ensures a * P <= b * P
  {
  }

  lemma MulSplit(q: nat, m: nat, P: nat)
    ensures (128 * q + m) * P == q * (P * 128) + m * P
  {
    calc {
      (128 * q + m) * P;
      (128 * q) * P + m * P;
      q * (P * 128) + m * P;
    }
  }

  /** Splitting off the low group of `w` keeps the running sum below 2^32 and below the next group's weight. */
  lemma GroupStep(acc: nat, w: nat, P: nat)
    requires acc < P
    ensures (w % 128) * P <= w * P
    ensures acc + (w % 128) * P < P * 128
    ensures acc + (w % 128) * P + (w / 128) * (P * 128) == acc + w * P
  {
    var q, m := w / 128, w % 128;
    MulLe(m, w, P);
    MulLe(m, 127, P);
    MulSplit(q, m, P);
    assert 128 * q + m == w;
  }

  lemma LoopTerminal(bytes: seq<Byte>, p: nat, count: nat, acc: nat, w: nat)
    requires count < 5 && p < |bytes| && bytes[p] == w && w < 128
    requires acc + w * Pow2(7 * count) < U32_LIMIT
    ensures VarintLoop(bytes, p, count, acc, 0) == Success((acc + w * Pow2(7 * count), p + 1))
  {
    var x := acc + w * Pow2(7 * count);
    assert w % 128 == w;
    assert AddGroup(acc, w, count) == x % U32_LIMIT;
    assert x % U32_LIMIT == x;
  }

  /** One continuation byte of `Leb128(w)` moves its low group from `w` into the accumulator. */
  lemma StepFacts(acc: nat, w: nat, count: nat, total: nat)
    requires w >= 128 && acc < Pow2(7 * count)
    requires total == acc + w * Pow2(7 * count) && total < U32_LIMIT
    ensures AddGroup(acc, w % 128 + 128, count) < Pow2(7 * (count + 1))
    ensures total == AddGroup(acc, w % 128 + 128, count) + (w / 128) * Pow2(7 * (count + 1))
  {
    var P := Pow2(7 * count);
    var W := Pow2(7 * (count + 1));
    var b := w % 128 + 128;
    var acc' := acc + (w % 128) * P;
    GroupStep(acc, w, P);
    assert b % 128 == w % 128;
    assert AddGroup(acc, b, count) == acc' % U32_LIMIT;
    assert acc' % U32_LIMIT == acc';
    assert P * 128 == W by {
      Pow2Add(7 * count, 7);
      assert Pow2(7) == 128;
    }
  }

  lemma LoopStep(bytes: seq<Byte>, p: nat, count: nat, acc: nat)
    requires count < 5 && p < |bytes| && bytes[p] >= 128
    ensures VarintLoop(bytes, p, count, acc, 0) == VarintLoop(bytes, p + 1, count + 1, AddGroup(acc, bytes[p], count), 0)
  {
  }

  /** A Base 128 encoding of `w >= 128` found at `p` is its low group with the continuation bit, then the encoding of `w / 128`. */
  lemma Leb128Split(bytes: seq<Byte>, p: nat, w: nat)
    requires w >= 128
    requires p + |Leb128(w)| <= |bytes| && bytes[p..p + |Leb128(w)|] == Leb128(w)
    ensures p < |bytes| && bytes[p] == w % 128 + 128 && bytes[p] >= 128
    ensures |Leb128(w)| == 1 + |Leb128(w / 128)|
    ensures p + 1 + |Leb128(w / 128)| <= |bytes|
    ensures bytes[p + 1..p + 1 + |Leb128(w / 128)|] == Leb128(w / 128)
  {
    var enc := Leb128(w);
    var rest := Leb128(w / 128);
    assert enc == [w % 128 + 128] + rest;
    assert bytes[p] == enc[0];
    assert bytes[p + 1..p + 1 + |rest|] == bytes[p..p + |enc|][1..];
  }

  /** The loop reads back what `Leb128` wrote, as long as it fits in the groups left. */
  lemma {:induction false} VarintLoopReadsLeb128(bytes: seq<Byte>, p: nat, count: nat, acc: nat, w: nat, total: nat)
    requires count + |Leb128(w)| <= 5
    requires acc < Pow2(7 * count)
    requires total == acc + w * Pow2(7 * count) && total < U32_LIMIT
    requires p + |Leb128(w)| <= |bytes| && bytes[p..p + |Leb128(w)|] == Leb128(w)
    ensures VarintLoop(bytes, p, count, acc, 0) == Success((total, p + |Leb128(w)|))
    decreases w
  {
    if w < 128 {
      assert bytes[p] == Leb128(w)[0];
      LoopTerminal(bytes, p, count, acc, w);
    } else {
      Leb128Split(bytes, p, w);
      StepFacts(acc, w, count, total);
      LoopStep(bytes, p, count, acc);
      VarintLoopReadsLeb128(bytes, p + 1, count + 1, AddGroup(acc, bytes[p], count), w / 128, total);
    }
  }

  /** Round trip: every u32 written as a Base 128 varint at `ptr` is read back, and the cursor lands right after it. */
  lemma ReadVarintRoundTrip(bytes: seq<Byte>, ptr: nat, v: nat)
    requires IsU32(v)
    requires ptr + |Leb128(v)| <= |bytes| && bytes[ptr..ptr + |Leb128(v)|] == Leb128(v)
    ensures |Leb128(v)| <= 5
    ensures ReadVarint(bytes, ptr) == Success((v, ptr + |Leb128(v)|))
  {
    assert Pow2(35) == 0x8_0000_0000 by {
      Pow2Table();
      Pow2Add(32, 3);
    }
    Leb128Length(v, 5);
    VarintLoopReadsLeb128(bytes, ptr, 0, 0, v, v);
    ReadVarintIsLoop(bytes, ptr);
  }

  lemma ReadVarintIsLoop(bytes: seq<Byte>, ptr: nat)
    ensures ReadVarint(bytes, ptr) == VarintLoop(bytes, ptr, 0, 0, 0)
  {
  }
}

/**
 * The three protobuf tag scanners of read_bytes.rs.  Each walks `bytes`
 * with its own `ptr`; a failed `read_varint().unwrap()` is a panic.
 */
module TagScanners {
  import opened Wrappers
  import opened Ints
  import opened Errors
  import opened ReadBytes

  /** The iteration bound of both `parse_message` loops. */
  const MAX_FIELDS: nat := 1000

  /** `read_varint().unwrap()`. */
  function VarintOrPanic(bytes: seq<Byte>, ptr: nat): (r: Result<(nat, nat), Abort>)
    ensures r.Failure? <==> ReadVarint(bytes, ptr).Failure?
    ensures r.Failure? ==> r.error == Panic
    ensures r.Success? ==> r.value == ReadVarint(bytes, ptr).value
  {
    match ReadVarint(bytes, ptr)
    case Success(v) => Success(v)
    case Failure(_) => Failure(Panic)
  }

  // ---------------------------------------------------------------- ProtoPacketParser

  datatype ProtoPacketParser = ProtoPacketParser(bytes: seq<Byte>, start: nat, end: nat, ptr: nat)

  /** `ProtoPacketParser::read_n_bytes`: `n` bytes at `ptr`, refused unless at least one byte remains after them. */
  function ProtoReadNBytes(p: ProtoPacketParser, n: nat): (r: Result<(seq<Byte>, ProtoPacketParser), DemoParserError>)
    ensures r.Failure? <==> p.ptr + n >= |p.bytes|
    ensures r.Failure? ==> r.error == OutOfBytesError
    ensures r.Success? ==> |r.value.0| == n && r.value.1 == p.(ptr := p.ptr + n)
    ensures r.Success? ==> p.bytes[p.ptr..] == r.value.0 + p.bytes[r.value.1.ptr..]
  {
    if p.ptr + n >= |p.bytes| then Failure(OutOfBytesError)
    else
      assert p.bytes[p.ptr..] == p.bytes[p.ptr..p.ptr + n] + p.bytes[p.ptr + n..];
      Success((p.bytes[p.ptr..p.ptr + n], p.(ptr := p.ptr + n)))
  }

  /** A read that would end exactly at the end of the input is refused. */
  lemma ProtoReadToEndFails(p: ProtoPacketParser)
    requires p.ptr <= |p.bytes|
    ensures ProtoReadNBytes(p, |p.bytes| - p.ptr).Failure?
  {
  }

  /** `read_packet`: only tag 26 (field 3, length-delimited) is accepted; it records `[ptr, ptr + len)` without moving past it. */
  function ReadPacket(p: ProtoPacketParser, tag: nat): (r: Result<ProtoPacketParser, Abort>)
    ensures tag != 26 ==> r == Failure(Raised(MalformedMessage))
    ensures tag == 26 && ReadVarint(p.bytes, p.ptr).Failure? ==> r == Failure(Panic)
    ensures r.Success? ==> tag == 26 && ReadVarint(p.bytes, p.ptr).Success?
    ensures r.Success? ==> var (len, after) := ReadVarint(p.bytes, p.ptr).value;
      r.value == p.(ptr := after, start := after, end := after + len)
  {
    if tag != 26 then Failure(Raised(MalformedMessage))
    else
      var (len, after) :- VarintOrPanic(p.bytes, p.ptr);
      Success(p.(ptr := after, start := after, end := after + len))
  }

  /** `read_proto_packet`: a tag varint (errors propagate) followed by `read_packet`. */
  function ReadProtoPacket(p: ProtoPacketParser): (r: Result<ProtoPacketParser, Abort>)
    ensures ReadVarint(p.bytes, p.ptr).Failure? ==> r == Failure(Raised(OutOfBytesError))
    ensures r.Success? ==> ReadVarint(p.bytes, p.ptr).Success? && ReadVarint(p.bytes, p.ptr).value.0 == 26
  {
    match ReadVarint(p.bytes, p.ptr)
    case Failure(e) => Failure(Raised(e))
    case Success((tag, after)) => ReadPacket(p.(ptr := after), tag)
  }

  /** A varint encoding found at `ptr` reads back, as `unwrap` sees it. */
  lemma VarintAt(bytes: seq<Byte>, ptr: nat, v: nat)
    requires IsU32(v)
    requires ptr + |Leb128(v)| <= |bytes| && bytes[ptr..ptr + |Leb128(v)|] == Leb128(v)
    ensures ReadVarint(bytes, ptr) == Success((v, ptr + |Leb128(v)|))
    ensures VarintOrPanic(bytes, ptr) == Success((v, ptr + |Leb128(v)|))
  {
    ReadVarintRoundTrip(bytes, ptr, v);
  }

  /** A one-byte tag found at `ptr` reads back. */
  lemma TagAt(bytes: seq<Byte>, ptr: nat, tag: nat)
    requires tag < 128 && ptr < |bytes| && bytes[ptr] == tag
    ensures ReadVarint(bytes, ptr) == Success((tag, ptr + 1))
    ensures VarintOrPanic(bytes, ptr) == Success((tag, ptr + 1))
  {
    assert Leb128(tag) == [tag];
    assert bytes[ptr..ptr + 1] == [tag];
    VarintAt(bytes, ptr, tag);
  }

  /** The middle part of a concatenation, recovered by slicing. */
  lemma MiddleSlice(a: seq<Byte>, b: seq<Byte>, c: seq<Byte>)
    ensures (a + b + c)[|a|..|a| + |b|] == b
  {
  }

  /** `read_proto_packet` over a tag 26 and a length that both read. */
  lemma ReadProtoPacketSteps(p: ProtoPacketParser, after: nat, len: nat, after2: nat)
    requires ReadVarint(p.bytes, p.ptr) == Success((26, after))
    requires ReadVarint(p.bytes, after) == Success((len, after2))
    ensures ReadProtoPacket(p) == Success(p.(ptr := after2, start := after2, end := after2 + len))
  {
  }

  /** A packet framed as field 3 with its length finds exactly that payload's range. */
  lemma ProtoPacketFindsPayload(len: nat, payload: seq<Byte>, bytes: seq<Byte>, start: nat)
    requires IsU32(len)
    requires bytes == [26 as Byte] + Leb128(len) + payload && start == 1 + |Leb128(len)|
    ensures ReadProtoPacket(ProtoPacketParser(bytes, 0, 0, 0)) == Success(ProtoPacketParser(bytes, start, start + len, start))
  {
    TagAt(bytes, 0, 26);
    MiddleSlice([26 as Byte], Leb128(len), payload);
    VarintAt(bytes, 1, len);
    ReadProtoPacketSteps(ProtoPacketParser(bytes, 0, 0, 0), 1, len, start);
  }

  // ---------------------------------------------------------------- PacketEntitiesParser

  /** The fields `PacketEntitiesParser` fills in, with its cursor. */
  datatype EntitiesHeader = EntitiesHeader(
    ptr: nat,
    maxEntries: int,
    updatedEntries: int,
    isDelta: bool,
    updateBaseline: bool,
    baseline: int,
    deltaFrom: int,
    pendingFullFrame: bool,
    activeSpawngroupHandle: nat,
    maxSpawngroupCreationsequence: nat,
    lastCmdNumber: nat,
    serverTick: nat,
    dataStart: nat,
    dataEnd: nat)

  /** `PacketEntitiesParser::new`. */
  const EmptyEntitiesHeader := EntitiesHeader(0, 0, 0, false, false, 0, 0, false, 0, 0, 0, 0, 0, 0)

  /** The tags after which `PacketEntitiesParser::read` keeps going. */
  predicate IsEntitiesContinueTag(tag: nat) {
    tag in {8, 16, 24, 32, 40, 48, 58, 64, 72, 80, 88, 96, 114, 122}
  }

  /** The tags that carry a varint value (every continue tag except 114 and 122). */
  predicate IsEntitiesValueTag(tag: nat) {
    IsEntitiesContinueTag(tag) && tag != 114 && tag != 122
  }

  /** `PacketEntitiesParser::read`: applies one field; `true` means the scan is over. */
  function EntitiesRead(bytes: seq<Byte>, h: EntitiesHeader, tag: nat): (r: Result<(bool, EntitiesHeader), Abort>)
    ensures !IsEntitiesContinueTag(tag) ==> r == Success((true, h))
    ensures tag == 114 || tag == 122 ==> r == Success((false, h))
    ensures IsEntitiesValueTag(tag) ==> (r.Failure? <==> ReadVarint(bytes, h.ptr).Failure?)
    ensures r.Failure? ==> r.error == Panic
    ensures r.Success? && IsEntitiesValueTag(tag) && tag != 58 ==>
      !r.value.0 && r.value.1.ptr == ReadVarint(bytes, h.ptr).value.1
    ensures r.Success? && tag == 58 ==> var (len, after) := ReadVarint(bytes, h.ptr).value;
      r.value == (false, h.(dataStart := after, dataEnd := after + len, ptr := after + len))
  {
    if !IsEntitiesContinueTag(tag) then Success((true, h))
    else if tag == 114 || tag == 122 then Success((false, h))
    else
      var (v, after) :- VarintOrPanic(bytes, h.ptr);
      var h := h.(ptr := after);
      var h' :=
        match tag
        case 8 => h.(maxEntries := U32AsI32(v))
        case 16 => h.(updatedEntries := U32AsI32(v))
        case 24 => h.(isDelta := v != 0)
        case 32 => h.(updateBaseline := v != 0)
        case 40 => h.(baseline := U32AsI32(v))
        case 48 => h.(deltaFrom := U32AsI32(v))
        case 58 => h.(dataStart := after, dataEnd := after + v, ptr := after + v)
        case 64 => h.(pendingFullFrame := v != 0)
        case 72 => h.(activeSpawngroupHandle := v)
        case 80 => h.(maxSpawngroupCreationsequence := v)
        case 88 => h.(lastCmdNumber := v)
        case _ => h.(serverTick := v);
      Success((false, h'))
  }

  /** `PacketEntitiesParser::parse_message` with `fuel` iterations left. */
  function EntitiesParseLoop(bytes: seq<Byte>, h: EntitiesHeader, fuel: nat): (r: Result<EntitiesHeader, Abort>)
    decreases fuel
  {
    if fuel == 0 then Failure(Raised(MalformedMessage))
    else
      var (tag, after) :- VarintOrPanic(bytes, h.ptr);
      var (done, h') :- EntitiesRead(bytes, h.(ptr := after), tag);
      if done then Success(h') else EntitiesParseLoop(bytes, h', fuel - 1)
  }

  /** `parse_message`: at most 1000 fields, then MalformedMessage. */
  function EntitiesParseMessage(bytes: seq<Byte>): Result<EntitiesHeader, Abort> {
    EntitiesParseLoop(bytes, EmptyEntitiesHeader, MAX_FIELDS)
  }

  /** Fields that carry no value and do not end the scan use up the iteration budget. */
  lemma {:induction false} EntitiesLoopGivesUp(bytes: seq<Byte>, h: EntitiesHeader, fuel: nat)
    requires h.ptr + fuel <= |bytes|
    requires forall i :: h.ptr <= i < h.ptr + fuel ==> bytes[i] == 114
    ensures EntitiesParseLoop(bytes, h, fuel) == Failure(Raised(MalformedMessage))
    decreases fuel
  {
    if fuel > 0 {
      assert bytes[h.ptr..h.ptr + 1] == Leb128(114);
      ReadVarintRoundTrip(bytes, h.ptr, 114);
      EntitiesLoopGivesUp(bytes, h.(ptr := h.ptr + 1), fuel - 1);
    }
  }

  /** A message of 1000 no-op fields is malformed even if a terminating tag follows. */
  lemma EntitiesMessageTooLong(bytes: seq<Byte>)
    requires |bytes| >= MAX_FIELDS
    requires forall i :: 0 <= i < MAX_FIELDS ==> bytes[i] == 114
    ensures EntitiesParseMessage(bytes) == Failure(Raised(MalformedMessage))
  {
    EntitiesLoopGivesUp(bytes, EmptyEntitiesHeader, MAX_FIELDS);
  }

  /** One unrolled iteration of the entities scan over a field 7. */
  lemma EntitiesDataStep(bytes: seq<Byte>, h: EntitiesHeader, fuel: nat, len: nat, start: nat)
    requires fuel > 0
    requires VarintOrPanic(bytes, h.ptr) == Success((58, h.ptr + 1))
    requires VarintOrPanic(bytes, h.ptr + 1) == Success((len, start))
    ensures EntitiesParseLoop(bytes, h, fuel)
      == EntitiesParseLoop(bytes, h.(dataStart := start, dataEnd := start + len, ptr := start + len), fuel - 1)
  {
    EntitiesReadData(bytes, h.(ptr := h.ptr + 1), len, start);
  }

  lemma EntitiesReadData(bytes: seq<Byte>, h: EntitiesHeader, len: nat, start: nat)
    requires VarintOrPanic(bytes, h.ptr) == Success((len, start))
    ensures EntitiesRead(bytes, h, 58) == Success((false, h.(dataStart := start, dataEnd := start + len, ptr := start + len)))
  {
    assert IsEntitiesContinueTag(58) && IsEntitiesValueTag(58);
  }

  /** The iteration that meets a terminating tag. */
  lemma EntitiesStopStep(bytes: seq<Byte>, h: EntitiesHeader, fuel: nat, tag: nat)
    requires fuel > 0 && !IsEntitiesContinueTag(tag)
    requires VarintOrPanic(bytes, h.ptr) == Success((tag, h.ptr + 1))
    ensures EntitiesParseLoop(bytes, h, fuel) == Success(h.(ptr := h.ptr + 1))
  {
  }

  /** The scan over a field 7 and a terminating tag, in terms of the varints it reads. */
  lemma EntitiesScanOfDataField(bytes: seq<Byte>, len: nat, start: nat)
    requires VarintOrPanic(bytes, 0) == Success((58, 1))
    requires VarintOrPanic(bytes, 1) == Success((len, start))
    requires VarintOrPanic(bytes, start + len) == Success((106, start + len + 1))
    ensures EntitiesParseMessage(bytes) == Success(EmptyEntitiesHeader.(dataStart := start, dataEnd := start + len, ptr := start + len + 1))
  {
    EntitiesDataStep(bytes, EmptyEntitiesHeader, MAX_FIELDS, len, start);
    var h1 := EmptyEntitiesHeader.(dataStart := start, dataEnd := start + len, ptr := start + len);
    EntitiesStopStep(bytes, h1, MAX_FIELDS - 1, 106);
  }

  /** Field 7 (tag 58) followed by tag 106 yields the entity data range and stops. */
  lemma EntitiesMessageFindsData(len: nat, data: seq<Byte>, tail: seq<Byte>)
    requires IsU32(len) && |data| == len
    ensures var bytes := [58 as Byte] + Leb128(len) + (data + [106 as Byte] + tail);
      var start := 1 + |Leb128(len)|;
      EntitiesParseMessage(bytes) == Success(EmptyEntitiesHeader.(dataStart := start, dataEnd := start + len, ptr := start + len + 1))
  {
    var rest := data + [106 as Byte] + tail;
    var bytes := [58 as Byte] + Leb128(len) + rest;
    var start := 1 + |Leb128(len)|;
    TagAt(bytes, 0, 58);
    MiddleSlice([58], Leb128(len), rest);
    VarintAt(bytes, 1, len);
    assert bytes[start + len] == rest[len] == 106;
    TagAt(bytes, start + len, 106);
    EntitiesScanOfDataField(bytes, len, start);
  }

  // ---------------------------------------------------------------- FullPacketParser

  /** The ranges `FullPacketParser` records, with its cursor. */
  datatype FullPacketRanges = FullPacketRanges(ptr: nat, stDataStart: nat, stDataEnd: nat, packetDataStart: nat, packetDataEnd: nat)

  const EmptyFullPacketRanges := FullPacketRanges(0, 0, 0, 0, 0)

  /**
   * `FullPacketParser::read`: tag 10 is the string-table blob, tag 18 the
   * packet blob (whose first four bytes are skipped) and ends the scan;
   * any other tag panics.
   */
  function FullPacketRead(bytes: seq<Byte>, f: FullPacketRanges, tag: nat): (r: Result<(bool, FullPacketRanges), Abort>)
    ensures tag != 10 && tag != 18 ==> r == Failure(Panic)
    ensures r.Success? ==> ReadVarint(bytes, f.ptr).Success?
    ensures r.Success? && tag == 10 ==> var (len, after) := ReadVarint(bytes, f.ptr).value;
      r.value == (false, f.(stDataStart := after, stDataEnd := after + len, ptr := after + len))
    ensures r.Success? && tag == 18 ==> var (len, after) := ReadVarint(bytes, f.ptr).value;
      r.value == (true, f.(packetDataStart := after + 4, packetDataEnd := after + len, ptr := after + len))
  {
    if tag != 10 && tag != 18 then Failure(Panic)
    else
      var (len, after) :- VarintOrPanic(bytes, f.ptr);
      if tag == 10 then Success((false, f.(stDataStart := after, stDataEnd := after + len, ptr := after + len)))
      else Success((true, f.(packetDataStart := after + 4, packetDataEnd := after + len, ptr := after + len)))
  }

  function FullPacketParseLoop(bytes: seq<Byte>, f: FullPacketRanges, fuel: nat): (r: Result<FullPacketRanges, Abort>)
    decreases fuel
  {
    if fuel == 0 then Failure(Raised(MalformedMessage))
    else
      var (tag, after) :- VarintOrPanic(bytes, f.ptr);
      var (done, f') :- FullPacketRead(bytes, f.(ptr := after), tag);
      if done then Success(f') else FullPacketParseLoop(bytes, f', fuel - 1)
  }

  /** `FullPacketParser::parse_message`. */
  function FullPacketParseMessage(bytes: seq<Byte>): Result<FullPacketRanges, Abort> {
    FullPacketParseLoop(bytes, EmptyFullPacketRanges, MAX_FIELDS)
  }

  /** One unrolled iteration of the full-packet scan over a string-table field. */
  lemma FullPacketTablesStep(bytes: seq<Byte>, f: FullPacketRanges, fuel: nat, len: nat, after: nat)
    requires fuel > 0
    requires VarintOrPanic(bytes, f.ptr) == Success((10, f.ptr + 1))
    requires VarintOrPanic(bytes, f.ptr + 1) == Success((len, after))
    ensures FullPacketParseLoop(bytes, f, fuel)
      == FullPacketParseLoop(bytes, f.(stDataStart := after, stDataEnd := after + len, ptr := after + len), fuel - 1)
  {
  }

  /** The iteration over the packet field, which ends the scan. */
  lemma FullPacketPacketStep(bytes: seq<Byte>, f: FullPacketRanges, fuel: nat, len: nat, after: nat)
    requires fuel > 0
    requires VarintOrPanic(bytes, f.ptr) == Success((18, f.ptr + 1))
    requires VarintOrPanic(bytes, f.ptr + 1) == Success((len, after))
    ensures FullPacketParseLoop(bytes, f, fuel)
      == Success(f.(packetDataStart := after + 4, packetDataEnd := after + len, ptr := after + len))
  {
  }

  /** The scan over a string-table field and a packet field, in terms of the varints it reads. */
  lemma FullPacketScanOfTwoFields(bytes: seq<Byte>, a: nat, s: nat, b: nat, p: nat)
    requires VarintOrPanic(bytes, 0) == Success((10, 1))
    requires VarintOrPanic(bytes, 1) == Success((a, s))
    requires VarintOrPanic(bytes, s + a) == Success((18, s + a + 1))
    requires VarintOrPanic(bytes, s + a + 1) == Success((b, p))
    ensures FullPacketParseMessage(bytes) == Success(FullPacketRanges(p + b, s, s + a, p + 4, p + b))
  {
    FullPacketTablesStep(bytes, EmptyFullPacketRanges, MAX_FIELDS, a, s);
    FullPacketPacketStep(bytes, FullPacketRanges(s + a, s, s + a, 0, 0), MAX_FIELDS - 1, b, p);
  }

  /** A one-byte tag followed by a length varint, as the scanners read them. */
  lemma FieldHeaderAt(bytes: seq<Byte>, at: nat, tag: nat, len: nat)
    requires tag < 128 && IsU32(len)
    requires at + 1 + |Leb128(len)| <= |bytes| && bytes[at] == tag
    requires bytes[at + 1..at + 1 + |Leb128(len)|] == Leb128(len)
    ensures VarintOrPanic(bytes, at) == Success((tag, at + 1))
    ensures VarintOrPanic(bytes, at + 1) == Success((len, at + 1 + |Leb128(len)|))
  {
    TagAt(bytes, at, tag);
    VarintAt(bytes, at + 1, len);
  }
}
