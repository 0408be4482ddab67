/**
 * The frame loop of the second pass (second_pass/parser.rs): the same
 * frame headers as the first pass, a different skip rule, and the rule
 * that decides, per full packet, whether to parse it or to end the
 * segment.  A segment either runs over a byte range found by the first
 * pass, parses every full packet, or parses at most the first full packet
 * of a segment that does not start at byte 16.
 *
 * Protobuf decoding, Snappy and the message handlers are parameters
 * (`SecondHooks`); the loop's bookkeeping is modelled.  The parser's
 * string tables (`T`) and the rest of its state (`W`) are opaque.
 */
module SecondPass {
  import opened Wrappers
  import opened Ints
  import opened Errors
  import opened ReadBytes
  import opened Frames

  /** How a segment treats full packets (`start_end_offset`, `parse_all_packets`). */
  datatype SegmentSettings = SegmentSettings(startEndOffset: Option<StartEndOffset>, parseAllPackets: bool)

  datatype SecondHooks<!T, !W> = SecondHooks(
    /** `snap::raw::decompress_len`, called on compressed payloads only. */
    decompressLen: seq<Byte> -> Result<nat, string>,
    /** Snappy decompression. */
    decompress: seq<Byte> -> Result<seq<Byte>, string>,
    /** `parse_packet` on a Packet or SignonPacket payload. */
    parsePacket: (seq<Byte>, seq<T>, W) -> Result<(seq<T>, W), DemoParserError>,
    /** Whether the payload decodes as `CDemoFullPacket`. */
    fullPacketDecodes: seq<Byte> -> bool,
    /** The rest of `parse_full_packet`: its string tables, then its packet, with the entity flag. */
    fullPacketBody: (seq<Byte>, bool, seq<T>, W) -> Result<(seq<T>, W), DemoParserError>)

  /** The parser fields the loop reads and writes; `parsed` logs each full packet parsed, by the position after it. */
  datatype SecondState<T, W> = SecondState(
    ptr: nat,
    tick: int,
    fullpacketsParsed: nat,
    stringTables: seq<T>,
    world: W,
    parsed: seq<nat>)

  /** `slice_packet_bytes`: the payload at `ptr`, which must end before the last byte of the file. */
  function SlicePacketBytes(bytes: seq<Byte>, ptr: nat, size: nat): (r: Result<seq<Byte>, DemoParserError>)
    ensures r.Success? <==> ptr + size < |bytes|
    ensures r.Failure? ==> r.error == MalformedMessage
    ensures r.Success? ==> |r.value| == size && forall k | 0 <= k < size :: r.value[k] == bytes[ptr + k]
  {
    if ptr + size >= |bytes| then Failure(MalformedMessage)
    else Success(bytes[ptr..ptr + size])
  }

  /** `decompress_if_needed`. */
  function DecompressIfNeeded<T, W>(h: SecondHooks<T, W>, input: seq<Byte>, compressed: bool): (r: Result<seq<Byte>, DemoParserError>)
    ensures !compressed ==> r == Success(input)
    ensures r.Failure? ==> r.error.DecompressionFailure?
  {
    if !compressed then Success(input)
    else
      var _ :- match h.decompressLen(input)
        case Success(n) => Success(n)
        case Failure(e) => Failure(DecompressionFailure(e));
      match h.decompress(input)
      case Success(out) => Success(out)
      case Failure(e) => Failure(DecompressionFailure(e))
  }

  /**
   * `parse_full_packet`: the string tables are emptied first, then the
   * packet is decoded (MalformedMessage when it does not decode) and its
   * contents applied.
   */
  function ParseFullPacket<T, W>(h: SecondHooks<T, W>, payload: seq<Byte>, parseEntities: bool, s: SecondState<T, W>)
    : (r: Result<SecondState<T, W>, DemoParserError>)
    ensures !h.fullPacketDecodes(payload) ==> r == Failure(MalformedMessage)
    ensures r.Success? ==> h.fullPacketBody(payload, parseEntities, [], s.world) == Success((r.value.stringTables, r.value.world))
    ensures r.Success? ==> r.value.ptr == s.ptr && r.value.parsed == s.parsed && r.value.fullpacketsParsed == s.fullpacketsParsed
  {
    var cleared := s.(stringTables := []);
    if !h.fullPacketDecodes(payload) then Failure(MalformedMessage)
    else
      var (tables, world) :- h.fullPacketBody(payload, parseEntities, cleared.stringTables, cleared.world);
      Success(cleared.(stringTables := tables, world := world))
  }

  /** What to do with a full packet: end the segment, or parse it with or without entities. */
  datatype FullPacketAction = EndSegment | ParseIt(parseEntities: bool)

  /** The decision of `parse_full_packet_and_break_if_needed`; `ptr` is the position after the frame. */
  function FullPacketDecision(settings: SegmentSettings, startedAt: nat, ptr: nat, fullpacketsParsed: nat)
    : (a: FullPacketAction)
    ensures settings.startEndOffset.Some? ==>
      (a == EndSegment <==> ptr > settings.startEndOffset.value.end) && (a.ParseIt? ==> a.parseEntities)
    ensures settings.startEndOffset.None? && settings.parseAllPackets ==> a == ParseIt(false)
    ensures settings.startEndOffset.None? && !settings.parseAllPackets ==>
      (a.ParseIt? <==> fullpacketsParsed == 0 && startedAt != HEADER_ENDS_AT_BYTE) && (a.ParseIt? ==> a.parseEntities)
  {
    match settings.startEndOffset
    case Some(range) => if ptr > range.end then EndSegment else ParseIt(true)
    case None =>
      if settings.parseAllPackets then ParseIt(false)
      else if fullpacketsParsed == 0 && startedAt != HEADER_ENDS_AT_BYTE then ParseIt(true)
      else EndSegment
  }

  /** What one frame leads to. */
  datatype Outcome<T, W> = Next(next: SecondState<T, W>) | Done(last: SecondState<T, W>)

  /** The state an outcome carries, whether the loop goes on or not. */
  function Final<T, W>(o: Outcome<T, W>): SecondState<T, W> {
    match o
    case Next(n) => n
    case Done(l) => l
  }

  /** Commands the second pass skips by size without slicing. */
  predicate SkippedBySize(c: DemoCommand) {
    c == DemAnimationData || c == DemSendTables || c == DemStringTables
  }

  /** How many full packets a parsed full packet adds to `fullpackets_parsed`. */
  function Counted(settings: SegmentSettings): nat {
    if settings.startEndOffset.None? && !settings.parseAllPackets then 1 else 0
  }

  /**
   * The effect of a full-packet frame whose payload ends at `s.ptr`:
   * either the segment ends there, or the packet is parsed, logged and
   * counted.
   */
  ghost predicate FullPacketEffect<T, W>(settings: SegmentSettings, startedAt: nat, s: SecondState<T, W>, o: Outcome<T, W>) {
    match FullPacketDecision(settings, startedAt, s.ptr, s.fullpacketsParsed)
    case EndSegment => o == Done(s)
    case ParseIt(_) =>
      && o.Next? && o.next.ptr == s.ptr && o.next.parsed == s.parsed + [s.ptr]
      && o.next.fullpacketsParsed == s.fullpacketsParsed + Counted(settings)
  }

  /** The effect of any other frame: the log and the count stay as they are. */
  ghost predicate QuietEffect<T, W>(s: SecondState<T, W>, o: Outcome<T, W>) {
    && (o.Next? ==> o.next.ptr == s.ptr)
    && (o.Done? ==> o.last == s)
    && Final(o).parsed == s.parsed && Final(o).fullpacketsParsed == s.fullpacketsParsed
  }

  /** The `match frame.demo_cmd` of the loop, with `s.ptr` already past the payload. */
  function Dispatch<T, W>(settings: SegmentSettings, h: SecondHooks<T, W>, startedAt: nat,
                          cmd: DemoCommand, payload: seq<Byte>, s: SecondState<T, W>)
    : (r: Result<Outcome<T, W>, DemoParserError>)
    ensures r.Success? && cmd == DemFullPacket ==> FullPacketEffect(settings, startedAt, s, r.value)
    ensures r.Success? && cmd != DemFullPacket ==> QuietEffect(s, r.value)
    ensures r.Success? && cmd == DemStop ==> r.value == Done(s)
    ensures cmd != DemSignonPacket && cmd != DemPacket && cmd != DemFullPacket && cmd != DemStop ==> r == Success(Next(s))
  {
    match cmd
    case DemSignonPacket =>
      var (tables, world) :- h.parsePacket(payload, s.stringTables, s.world);
      Success(Next(s.(stringTables := tables, world := world)))
    case DemPacket =>
      var (tables, world) :- h.parsePacket(payload, s.stringTables, s.world);
      Success(Next(s.(stringTables := tables, world := world)))
    case DemStop => Success(Done(s))
    case DemFullPacket =>
      (match FullPacketDecision(settings, startedAt, s.ptr, s.fullpacketsParsed)
       case EndSegment => Success(Done(s))
       case ParseIt(parseEntities) =>
         var s' :- ParseFullPacket(h, payload, parseEntities, s);
         Success(Next(s'.(fullpacketsParsed := s.fullpacketsParsed + Counted(settings), parsed := s.parsed + [s.ptr]))))
    case _ => Success(Next(s))
  }

  /**
   * What one frame may add to the log of parsed full packets: nothing, or
   * one position that the segment's rule allows.
   */
  predicate Logged<T, W>(settings: SegmentSettings, startedAt: nat, s: SecondState<T, W>, n: SecondState<T, W>) {
    || (n.parsed == s.parsed && n.fullpacketsParsed == s.fullpacketsParsed)
    || (&& |n.parsed| == |s.parsed| + 1 && n.parsed[..|s.parsed|] == s.parsed
        && FullPacketDecision(settings, startedAt, n.parsed[|s.parsed|], s.fullpacketsParsed).ParseIt?
        && n.fullpacketsParsed == s.fullpacketsParsed + Counted(settings))
  }

  lemma DispatchLogged<T, W>(settings: SegmentSettings, startedAt: nat, s: SecondState<T, W>, cmd: DemoCommand, o: Outcome<T, W>)
    requires cmd == DemFullPacket ==> FullPacketEffect(settings, startedAt, s, o)
    requires cmd != DemFullPacket ==> QuietEffect(s, o)
    ensures Logged(settings, startedAt, s, Final(o))
  {
    if cmd == DemFullPacket && FullPacketDecision(settings, startedAt, s.ptr, s.fullpacketsParsed).ParseIt? {
      assert Final(o).parsed == s.parsed + [s.ptr];
    }
  }

  /** The rest of one iteration once the frame header `f` has been read; `s.ptr` is still at the header. */
  function FrameBody<T, W>(bytes: seq<Byte>, settings: SegmentSettings, h: SecondHooks<T, W>, startedAt: nat,
                           s: SecondState<T, W>, f: Frame)
    : (r: Result<Outcome<T, W>, DemoParserError>)
    ensures r.Success? && r.value.Next? ==> r.value.next.ptr == f.endsAt + f.size
    ensures r.Success? ==> Final(r.value).tick == f.tick
    ensures r.Success? ==> Logged(settings, startedAt, s, Final(r.value))
  {
    var s1 := s.(ptr := f.endsAt + f.size, tick := f.tick);
    if SkippedBySize(f.cmd) then Success(Next(s1))
    else match SlicePacketBytes(bytes, f.endsAt, f.size)
      case Failure(_) => Success(Next(s1))
      case Success(input) =>
        var payload :- DecompressIfNeeded(h, input, f.isCompressed);
        var o :- Dispatch(settings, h, startedAt, f.cmd, payload, s1);
        DispatchLogged(settings, startedAt, s1, f.cmd, o);
        Success(o)
  }

  /** One iteration of `start`, on the frame at `s.ptr`. */
  function Step<T, W>(bytes: seq<Byte>, settings: SegmentSettings, h: SecondHooks<T, W>, startedAt: nat,
                      s: SecondState<T, W>)
    : (r: Result<Outcome<T, W>, DemoParserError>)
    ensures ReadFrame(bytes, s.ptr).Failure? ==> r == Failure(ReadFrame(bytes, s.ptr).error)
    ensures ReadFrame(bytes, s.ptr).Success? ==> r == FrameBody(bytes, settings, h, startedAt, s, ReadFrame(bytes, s.ptr).value)
    ensures r.Success? && r.value.Next? ==> s.ptr < r.value.next.ptr
    ensures r.Success? ==> Logged(settings, startedAt, s, Final(r.value))
  {
    var f :- ReadFrame(bytes, s.ptr);
    FrameBody(bytes, settings, h, startedAt, s, f)
  }

  /** The full packets a finished segment parsed, against the segment's rule. */
  predicate SegmentRule<T, W>(settings: SegmentSettings, startedAt: nat, s: SecondState<T, W>, r: SecondState<T, W>) {
    && |s.parsed| <= |r.parsed| && r.parsed[..|s.parsed|] == s.parsed
    && (settings.startEndOffset.Some? ==>
          forall i | |s.parsed| <= i < |r.parsed| :: r.parsed[i] <= settings.startEndOffset.value.end)
    && (settings.startEndOffset.None? && !settings.parseAllPackets ==>
          r.fullpacketsParsed == s.fullpacketsParsed + (|r.parsed| - |s.parsed|)
          && (s.fullpacketsParsed > 0 || startedAt == HEADER_ENDS_AT_BYTE ==> |r.parsed| == |s.parsed|)
          && r.fullpacketsParsed <= if s.fullpacketsParsed == 0 then 1 else s.fullpacketsParsed)
  }

  lemma SegmentRuleStep<T, W>(settings: SegmentSettings, startedAt: nat, s: SecondState<T, W>, n: SecondState<T, W>,
                             r: SecondState<T, W>)
    requires Logged(settings, startedAt, s, n)
    requires SegmentRule(settings, startedAt, n, r)
    ensures SegmentRule(settings, startedAt, s, r)
  {
    assert r.parsed[..|s.parsed|] == n.parsed[..|s.parsed|];
    if n.parsed != s.parsed || n.fullpacketsParsed != s.fullpacketsParsed {
      assert r.parsed[|s.parsed|] == n.parsed[|s.parsed|];
    }
  }

  lemma SegmentRuleRefl<T, W>(settings: SegmentSettings, startedAt: nat, s: SecondState<T, W>)
    ensures SegmentRule(settings, startedAt, s, s)
  {
  }

  /** `start`'s loop, from `s` until a Stop frame, a decision to end the segment, or the end of the file. */
  function Loop<T, W>(bytes: seq<Byte>, settings: SegmentSettings, h: SecondHooks<T, W>, startedAt: nat,
                      s: SecondState<T, W>)
    : (r: Result<SecondState<T, W>, DemoParserError>)
    ensures |bytes| < s.ptr ==> r == Success(s)
    ensures r.Success? ==> SegmentRule(settings, startedAt, s, r.value)
    decreases |bytes| + 1 - s.ptr
  {
    if |bytes| < s.ptr then SegmentRuleRefl(settings, startedAt, s); Success(s)
    else
      var o :- Step(bytes, settings, h, startedAt, s);
      match o
      case Done(last) =>
        SegmentRuleRefl(settings, startedAt, last);
        SegmentRuleStep(settings, startedAt, s, last, last);
        Success(last)
      case Next(next) =>
        var r :- Loop(bytes, settings, h, startedAt, next);
        SegmentRuleStep(settings, startedAt, s, next, r);
        Success(r)
  }

  /** `SecondPassParser::start` from byte `startedAt`. */
  function Start<T, W>(bytes: seq<Byte>, settings: SegmentSettings, h: SecondHooks<T, W>, startedAt: nat,
                       tables: seq<T>, world: W)
    : (r: Result<SecondState<T, W>, DemoParserError>)
    ensures r.Success? ==> SegmentRule(settings, startedAt, SecondState(startedAt, 0, 0, tables, world, []), r.value)
  {
    Loop(bytes, settings, h, startedAt, SecondState(startedAt, 0, 0, tables, world, []))
  }

  /** Without a byte range or `parse_all_packets`, a segment parses at most one full packet, and none when it starts at 16. */
  lemma AtMostOneFullPacket<T, W>(bytes: seq<Byte>, settings: SegmentSettings, h: SecondHooks<T, W>, startedAt: nat,
                                  tables: seq<T>, world: W)
    requires settings.startEndOffset.None? && !settings.parseAllPackets
    requires Start(bytes, settings, h, startedAt, tables, world).Success?
    ensures |Start(bytes, settings, h, startedAt, tables, world).value.parsed| <= 1
    ensures startedAt == HEADER_ENDS_AT_BYTE ==> Start(bytes, settings, h, startedAt, tables, world).value.parsed == []
  {
  }

  /** With a byte range, every full packet parsed ends at or before the range's end. */
  lemma RangeBoundsFullPackets<T, W>(bytes: seq<Byte>, settings: SegmentSettings, h: SecondHooks<T, W>, startedAt: nat,
                                     tables: seq<T>, world: W, i: nat)
    requires settings.startEndOffset.Some?
    requires Start(bytes, settings, h, startedAt, tables, world).Success?
    requires i < |Start(bytes, settings, h, startedAt, tables, world).value.parsed|
    ensures Start(bytes, settings, h, startedAt, tables, world).value.parsed[i] <= settings.startEndOffset.value.end
  {
  }

  /** AnimationData, SendTables and StringTables frames are stepped over by size. */
  lemma SkipsBySize<T, W>(bytes: seq<Byte>, settings: SegmentSettings, h: SecondHooks<T, W>, startedAt: nat,
                          s: SecondState<T, W>, f: Frame)
    requires SkippedBySize(f.cmd)
    ensures FrameBody(bytes, settings, h, startedAt, s, f) == Success(Next(s.(ptr := f.endsAt + f.size, tick := f.tick)))
  {
  }

  /** A frame whose payload would reach the end of the file is stepped over, not parsed. */
  lemma SkipsUnsliceable<T, W>(bytes: seq<Byte>, settings: SegmentSettings, h: SecondHooks<T, W>, startedAt: nat,
                               s: SecondState<T, W>, f: Frame)
    requires f.endsAt + f.size >= |bytes|
    ensures FrameBody(bytes, settings, h, startedAt, s, f) == Success(Next(s.(ptr := f.endsAt + f.size, tick := f.tick)))
  {
  }

  /**
   * A frame whose payload ends exactly at the end of the file is stepped
   * over, and the next iteration then fails to read a header at the end
   * of the file.
   */
  lemma LastFrameAtEndOfFile<T, W>(bytes: seq<Byte>, settings: SegmentSettings, h: SecondHooks<T, W>, startedAt: nat,
                                   s: SecondState<T, W>, f: Frame)
    requires s.ptr <= |bytes|
    requires ReadFrame(bytes, s.ptr) == Success(f) && f.endsAt + f.size == |bytes|
    ensures Loop(bytes, settings, h, startedAt, s) == Failure(OutOfBytesError)
  {
    var n := s.(ptr := f.endsAt + f.size, tick := f.tick);
    SkipsUnsliceable(bytes, settings, h, startedAt, s, f);
    assert ReadVarint(bytes, n.ptr).Failure?;
    assert ReadFrame(bytes, n.ptr) == Failure(OutOfBytesError);
  }
}
