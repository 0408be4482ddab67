/**
 * The first pass over a demo (first_pass/parser.rs): the 16-byte file
 * header check, the frame loop that dispatches on the demo command and
 * records where every full packet starts, the fallback that guarantees a
 * starting offset and a game-event list, and the event-list map.
 *
 * Protobuf decoding, Snappy and the per-message parsers the loop calls
 * are parameters (`PassHooks`); the loop's own bookkeeping is modelled.
 */
module FirstPass {
  import opened Wrappers
  import opened Ints
  import opened Errors
  import opened ReadBytes
  import opened Frames
  import opened Utf8

  // ---------------------------------------------------------------------
  // File header
  // ---------------------------------------------------------------------

  /** "PBDEMS2\0", the magic of a Source 2 demo. */
  const SOURCE2_MAGIC: seq<Byte> := [0x50, 0x42, 0x44, 0x45, 0x4D, 0x53, 0x32, 0x00]

  /** "HL2DEMO\0", the magic of a Source 1 demo. */
  const SOURCE1_MAGIC: seq<Byte> := [0x48, 0x4C, 0x32, 0x44, 0x45, 0x4D, 0x4F, 0x00]

  lemma MagicsAreUtf8()
    ensures IsUtf8(SOURCE2_MAGIC) && IsUtf8(SOURCE1_MAGIC)
  {
    var a, b := SOURCE2_MAGIC, SOURCE1_MAGIC;
    assert IsAscii(a) && IsAscii(b);
    AsciiIsUtf8(a);
    AsciiIsUtf8(b);
  }

  /** A byte that can never occur in UTF-8 text. */
  lemma InvalidUtf8Byte(s: seq<Byte>)
    requires |s| > 0 && (s[0] == 0xC0 || s[0] == 0xC1 || s[0] >= 0xF5)
    ensures !IsUtf8(s)
  {
  }

  /** Four bytes read as a little-endian `u32`. */
  function LittleEndian32(b: seq<Byte>): (v: nat)
    requires |b| == 4
    ensures IsU32(v)
  {
    (b[0] as nat) + 0x100 * (b[1] as nat) + 0x1_0000 * (b[2] as nat) + 0x100_0000 * (b[3] as nat)
  }

  /**
   * The file length the header announces: the `u32` at bytes 8..12 plus
   * 18, added in `u32` (wrapping, as a release build does).
   */
  function ExpectedLength(header: seq<Byte>): (e: nat)
    requires |header| == HEADER_ENDS_AT_BYTE
    ensures IsU32(e)
  {
    WrapU32(LittleEndian32(header[8..12]) + 18)
  }

  /**
   * `100 - fileLen / expected * 100 > 10`, over exact rationals: the file
   * is more than 10% shorter than announced.  An announced length of 0
   * makes the source's quotient infinite or NaN, and neither compares
   * greater than 10.
   */
  predicate EndsEarly(fileLen: nat, expected: nat) {
    expected > 0 && 10 * fileLen < 9 * expected
  }

  /** `handle_short_header` on the first 16 bytes of a file of `fileLen` bytes. */
  function ShortHeader(fileLen: nat, header: seq<Byte>): (r: Result<(), DemoParserError>)
    requires |header| == HEADER_ENDS_AT_BYTE
    ensures r == Failure(Source1DemoError) <==> header[..8] == SOURCE1_MAGIC
    ensures r == Failure(UnknownFile) <==>
      IsUtf8(header[..8]) && header[..8] != SOURCE2_MAGIC && header[..8] != SOURCE1_MAGIC
    ensures r.Success? <==>
      (header[..8] == SOURCE2_MAGIC || !IsUtf8(header[..8])) && !EndsEarly(fileLen, ExpectedLength(header))
    ensures r.Failure? ==> r.error in {Source1DemoError, UnknownFile, DemoEndsEarly(ExpectedLength(header), fileLen)}
  {
    MagicsAreUtf8();
    var magic := header[..8];
    if IsUtf8(magic) && magic == SOURCE1_MAGIC then Failure(Source1DemoError)
    else if IsUtf8(magic) && magic != SOURCE2_MAGIC then Failure(UnknownFile)
    else
      var expected := ExpectedLength(header);
      if EndsEarly(fileLen, expected) then Failure(DemoEndsEarly(expected, fileLen))
      else Success(())
  }

  /** A Source 2 header whose length field matches the file is accepted. */
  lemma ShortHeaderAcceptsExactLength(fileLen: nat, header: seq<Byte>)
    requires |header| == HEADER_ENDS_AT_BYTE && header[..8] == SOURCE2_MAGIC
    requires LittleEndian32(header[8..12]) + 18 == fileLen
    ensures ShortHeader(fileLen, header) == Success(())
  {
  }

  /** A file shorter than 90% of the announced length ends early. */
  lemma ShortHeaderRejectsTruncated(fileLen: nat, header: seq<Byte>)
    requires |header| == HEADER_ENDS_AT_BYTE && header[..8] == SOURCE2_MAGIC
    requires LittleEndian32(header[8..12]) + 18 < U32_LIMIT
    requires 10 * fileLen < 9 * (LittleEndian32(header[8..12]) + 18)
    ensures ShortHeader(fileLen, header) == Failure(DemoEndsEarly(LittleEndian32(header[8..12]) + 18, fileLen))
  {
  }

  // ---------------------------------------------------------------------
  // Game event list
  // ---------------------------------------------------------------------

  /** A `CSVCMsg_GameEventList` descriptor: the event id, its name and the names of its keys in order. */
  datatype Descriptor = Descriptor(eventId: int, name: string, keys: seq<string>)

  /** No descriptor after position `i` has the id of the one at `i`. */
  predicate LastWithId(d: seq<Descriptor>, i: nat)
    requires i < |d|
  {
    forall j | i < j < |d| :: d[j].eventId != d[i].eventId
  }

  /** Every id in `m` is mapped to the last descriptor of `d` carrying it, and every id of `d` is in `m`. */
  predicate LastWins(d: seq<Descriptor>, m: map<int, Descriptor>) {
    && (forall i | 0 <= i < |d| :: d[i].eventId in m)
    && (forall id | id in m :: exists i | 0 <= i < |d| :: d[i] == m[id] && LastWithId(d, i) && d[i].eventId == id)
  }

  lemma LastWinsSnoc(d: seq<Descriptor>, pre: map<int, Descriptor>)
    requires |d| > 0 && LastWins(d[..|d| - 1], pre)
    ensures LastWins(d, pre[d[|d| - 1].eventId := d[|d| - 1]])
  {
    var x := d[|d| - 1];
    var init := d[..|d| - 1];
    var m := pre[x.eventId := x];
    assert forall i | 0 <= i < |d| - 1 :: init[i] == d[i];
    assert LastWithId(d, |d| - 1);
    forall id | id in m
      ensures exists i | 0 <= i < |d| :: d[i] == m[id] && LastWithId(d, i) && d[i].eventId == id
    {
      if id != x.eventId {
        var i :| 0 <= i < |init| && init[i] == pre[id] && LastWithId(init, i) && init[i].eventId == id;
        assert LastWithId(d, i);
      }
    }
  }

  /**
   * `parse_game_event_list`: descriptors inserted by event id in stream
   * order, so a later duplicate replaces an earlier one.
   */
  function ParseGameEventList(d: seq<Descriptor>): (m: map<int, Descriptor>)
    ensures LastWins(d, m)
  {
    if |d| == 0 then map[]
    else
      var pre := ParseGameEventList(d[..|d| - 1]);
      LastWinsSnoc(d, pre);
      pre[d[|d| - 1].eventId := d[|d| - 1]]
  }

  /** Each id maps to exactly the last descriptor carrying it. */
  lemma LastDescriptorWins(d: seq<Descriptor>, i: nat)
    requires i < |d| && LastWithId(d, i)
    ensures ParseGameEventList(d)[d[i].eventId] == d[i]
  {
    var m := ParseGameEventList(d);
    assert d[i].eventId in m;
    var k :| 0 <= k < |d| && d[k] == m[d[i].eventId] && LastWithId(d, k) && d[k].eventId == d[i].eventId;
  }

  lemma EventListExample()
    ensures ParseGameEventList([Descriptor(1, "a", []), Descriptor(2, "b", []), Descriptor(1, "c", [])])
         == map[1 := Descriptor(1, "c", []), 2 := Descriptor(2, "b", [])]
  {
    var d := [Descriptor(1, "a", []), Descriptor(2, "b", []), Descriptor(1, "c", [])];
    var m := ParseGameEventList(d);
    LastDescriptorWins(d, 2);
    LastDescriptorWins(d, 1);
    assert m.Keys == {1, 2} by {
      forall id | id in m
        ensures id == 1 || id == 2
      {
        var i :| 0 <= i < |d| && d[i] == m[id] && LastWithId(d, i) && d[i].eventId == id;
      }
    }
  }

  // ---------------------------------------------------------------------
  // The frame loop
  // ---------------------------------------------------------------------

  /**
   * What the loop calls but this model does not define: Snappy, protobuf
   * decoding and the per-message parsers.  Each returns what the loop
   * needs from it.
   */
  datatype PassHooks = PassHooks(
    /** `snap::raw::decompress_len`, called on every payload that is not skipped. */
    decompressLen: seq<Byte> -> Result<nat, string>,
    /** Snappy decompression. */
    decompress: seq<Byte> -> Result<seq<Byte>, string>,
    /** Whether the payload decodes as `CDemoSendTables`. */
    sendTablesDecode: seq<Byte> -> bool,
    /** `parse_header`: the header fields, or None where its `unwrap` panics. */
    parseHeader: seq<Byte> -> Option<map<string, string>>,
    /** `parse_class_info(payload, sendtables)`. */
    parseClassInfo: (seq<Byte>, seq<Byte>) -> Result<(), DemoParserError>,
    /** `parse_packet`: the last game event list the packet carried, if any. */
    parsePacket: seq<Byte> -> Result<Option<seq<Descriptor>>, Abort>,
    /** Whether `parse_full_packet(..).unwrap()` returns. */
    fullPacketDecodes: seq<Byte> -> bool,
    /** The embedded fallback game event list. */
    fallbackList: seq<Descriptor>)

  /** The parser fields the first pass reads and writes. */
  datatype PassState = PassState(
    ptr: nat,
    tick: int,
    sendTables: Option<seq<Byte>>,
    classInfoSeen: bool,
    header: map<string, string>,
    geList: map<int, Descriptor>,
    fullPacketOffsets: seq<nat>)

  const START_STATE := PassState(HEADER_ENDS_AT_BYTE, 0, None, false, map[], map[], [])

  /** What one frame leads to: another frame, or the end of the loop. */
  datatype Outcome = Continue(next: PassState) | Stop(last: PassState)

  /** The three header varints: command, tick, size, and the position after them. */
  function ReadHeader(bytes: seq<Byte>, ptr: nat): (r: Result<(nat, nat, nat, nat), DemoParserError>)
    ensures r.Success? ==> IsU32(r.value.0) && IsU32(r.value.1) && ptr + 3 <= r.value.3 <= |bytes|
  {
    var (cmd, p1) :- ReadVarint(bytes, ptr);
    var (tick, p2) :- ReadVarint(bytes, p1);
    var (size, p3) :- ReadVarint(bytes, p2);
    Success((cmd, tick, size, p3))
  }

  /** The demo command of a command varint: bit 64 cleared, read as `i32`. */
  function CommandOf(cmd: nat): Result<DemoCommand, DemoParserError>
    requires IsU32(cmd)
  {
    DemoCmdFromInt(U32AsI32(ClearCompressedBit(cmd)))
  }

  /** The loop's header read and `read_frame` agree whenever the command is known. */
  lemma HeaderIsFrame(bytes: seq<Byte>, ptr: nat, cmd: nat, tick: nat, size: nat, end: nat, c: DemoCommand)
    requires ReadHeader(bytes, ptr) == Success((cmd, tick, size, end))
    requires CommandOf(cmd) == Success(c)
    ensures ReadFrame(bytes, ptr) == Success(Frame(size, U32AsI32(tick), ptr, end, HasCompressedBit(cmd), c))
  {
  }

  /** The frame at `p` decodes and is a full packet. */
  predicate IsFullPacketFrame(bytes: seq<Byte>, p: nat) {
    ReadFrame(bytes, p).Success? && ReadFrame(bytes, p).value.cmd == DemFullPacket
  }

  /** The payload handed to the message parsers: the slice, decompressed when flagged. */
  function Payload(h: PassHooks, input: seq<Byte>, compressed: bool): (r: Result<seq<Byte>, Abort>)
    ensures r.Success? && !compressed ==> r.value == input
    ensures r.Failure? ==> r.error.Raised? && r.error.error.DecompressionFailure?
  {
    var _ :- match h.decompressLen(input)
      case Success(n) => Success(n)
      case Failure(e) => Failure(Raised(DecompressionFailure(e)));
    if !compressed then Success(input)
    else match h.decompress(input)
      case Success(out) => Success(out)
      case Failure(e) => Failure(Raised(DecompressionFailure(e)))
  }

  /** The `match demo_cmd` of the loop, on a payload already sliced and decompressed. */
  function Dispatch(h: PassHooks, cmd: DemoCommand, payload: seq<Byte>, s: PassState, frameStartsAt: nat)
    : (r: Result<Outcome, Abort>)
    ensures r.Success? && r.value.Continue? ==> r.value.next.ptr == s.ptr
    ensures r.Success? ==> var n := if r.value.Continue? then r.value.next else r.value.last;
      n.fullPacketOffsets == s.fullPacketOffsets + (if cmd == DemFullPacket then [frameStartsAt] else [])
    ensures r.Success? && cmd == DemStop ==> r.value == Stop(s)
    ensures cmd == DemClassInfo && s.sendTables.None? ==> r == Failure(Raised(NoSendTableMessage))
    ensures cmd == DemClassInfo && r.Success? ==> r.value.Continue? && r.value.next.sendTables.None?
    ensures cmd == DemSendTables && r.Success? ==> r.value == Continue(s.(sendTables := Some(payload)))
    ensures cmd != DemStop && r.Success? ==> r.value.Continue?
  {
    match cmd
    case DemSendTables =>
      if h.sendTablesDecode(payload) then Success(Continue(s.(sendTables := Some(payload))))
      else Failure(Raised(MalformedMessage))
    case DemFileHeader =>
      (match h.parseHeader(payload)
       case None => Failure(Panic)
       case Some(fields) => Success(Continue(s.(header := s.header + fields))))
    case DemClassInfo =>
      (match s.sendTables
       case None => Failure(Raised(NoSendTableMessage))
       case Some(table) =>
         var _ :- Lift(h.parseClassInfo(payload, table));
         Success(Continue(s.(sendTables := None, classInfoSeen := true))))
    case DemSignonPacket =>
      var list :- h.parsePacket(payload);
      Success(Continue(if list.Some? then s.(geList := ParseGameEventList(list.value)) else s))
    case DemStop => Success(Stop(s))
    case DemFullPacket =>
      if h.fullPacketDecodes(payload) then Success(Continue(s.(fullPacketOffsets := s.fullPacketOffsets + [frameStartsAt])))
      else Failure(Panic)
    case _ => Success(Continue(s))
  }

  /**
   * The rest of a loop iteration once the header of the frame at `s.ptr`
   * is read: the overrun break, the command lookup (whose `unwrap` panics
   * on an unknown command), the skipped commands, then the payload.
   */
  function FrameBody(bytes: seq<Byte>, h: PassHooks, s: PassState, cmd: nat, tick: nat, size: nat, end: nat)
    : (r: Result<Outcome, Abort>)
    requires ReadHeader(bytes, s.ptr) == Success((cmd, tick, size, end))
    ensures end + size >= |bytes| ==> r == Success(Stop(s.(ptr := end, tick := U32AsI32(tick))))
    ensures end + size < |bytes| && CommandOf(cmd).Failure? ==> r == Failure(Panic)
    ensures r.Success? && r.value.Continue? ==> s.ptr < r.value.next.ptr < |bytes|
    ensures r.Success? ==> var n := if r.value.Continue? then r.value.next else r.value.last;
      n.fullPacketOffsets == s.fullPacketOffsets ||
      (n.fullPacketOffsets == s.fullPacketOffsets + [s.ptr] && IsFullPacketFrame(bytes, s.ptr))
  {
    var s1 := s.(ptr := end, tick := U32AsI32(tick));
    if end + size >= |bytes| then Success(Stop(s1))
    else
      var demoCmd :- UnwrapOrPanic(CommandOf(cmd));
      if demoCmd == DemPacket || demoCmd == DemAnimationData then Success(Continue(s1.(ptr := end + size)))
      else
        var payload :- Payload(h, bytes[end..end + size], HasCompressedBit(cmd));
        HeaderIsFrame(bytes, s.ptr, cmd, tick, size, end, demoCmd);
        Dispatch(h, demoCmd, payload, s1.(ptr := end + size), s.ptr)
  }

  /** One iteration of the `parse_demo` loop, on the frame at `s.ptr`. */
  function Step(bytes: seq<Byte>, h: PassHooks, s: PassState): (r: Result<Outcome, Abort>)
    ensures ReadHeader(bytes, s.ptr).Failure? ==> r == Failure(Raised(OutOfBytesError))
    ensures r.Success? && r.value.Continue? ==> s.ptr < r.value.next.ptr < |bytes|
    ensures r.Success? ==> var n := if r.value.Continue? then r.value.next else r.value.last;
      n.fullPacketOffsets == s.fullPacketOffsets ||
      (n.fullPacketOffsets == s.fullPacketOffsets + [s.ptr] && IsFullPacketFrame(bytes, s.ptr))
  {
    ReadHeaderFails(bytes, s.ptr);
    var (cmd, tick, size, end) :- Lift(ReadHeader(bytes, s.ptr));
    FrameBody(bytes, h, s, cmd, tick, size, end)
  }

  lemma ReadHeaderFails(bytes: seq<Byte>, ptr: nat)
    ensures ReadHeader(bytes, ptr).Failure? ==> ReadHeader(bytes, ptr).error == OutOfBytesError
  {
  }

  /** Packet and AnimationData frames are skipped by their size, whatever the hooks do. */
  lemma SkipsPacketFrames(bytes: seq<Byte>, h: PassHooks, s: PassState, cmd: nat, tick: nat, size: nat, end: nat)
    requires ReadHeader(bytes, s.ptr) == Success((cmd, tick, size, end))
    requires CommandOf(cmd) == Success(DemPacket) || CommandOf(cmd) == Success(DemAnimationData)
    requires end + size < |bytes|
    ensures FrameBody(bytes, h, s, cmd, tick, size, end) == Success(Continue(s.(ptr := end + size, tick := U32AsI32(tick))))
  {
  }

  /** A ClassInfo frame with no SendTables pending fails once its payload is decompressed. */
  lemma ClassInfoNeedsSendTables(bytes: seq<Byte>, h: PassHooks, s: PassState, cmd: nat, tick: nat, size: nat, end: nat)
    requires ReadHeader(bytes, s.ptr) == Success((cmd, tick, size, end))
    requires CommandOf(cmd) == Success(DemClassInfo)
    requires end + size < |bytes|
    requires Payload(h, bytes[end..end + size], HasCompressedBit(cmd)).Success?
    requires s.sendTables.None?
    ensures FrameBody(bytes, h, s, cmd, tick, size, end) == Failure(Raised(NoSendTableMessage))
  {
  }

  /** A ClassInfo frame consumes the pending SendTables. */
  lemma ClassInfoTakesSendTables(bytes: seq<Byte>, h: PassHooks, s: PassState, cmd: nat, tick: nat, size: nat, end: nat)
    requires ReadHeader(bytes, s.ptr) == Success((cmd, tick, size, end))
    requires CommandOf(cmd) == Success(DemClassInfo)
    requires end + size < |bytes|
    requires FrameBody(bytes, h, s, cmd, tick, size, end).Success?
    ensures s.sendTables.Some?
    ensures FrameBody(bytes, h, s, cmd, tick, size, end).value.Continue?
    ensures FrameBody(bytes, h, s, cmd, tick, size, end).value.next.sendTables.None?
  {
    var input := bytes[end..end + size];
    var payload := Payload(h, input, HasCompressedBit(cmd)).value;
    var s1 := s.(ptr := end + size, tick := U32AsI32(tick));
    assert FrameBody(bytes, h, s, cmd, tick, size, end) == Dispatch(h, DemClassInfo, payload, s1, s.ptr);
  }

  /** The state the loop ends in: the offsets it started with, then full-packet starts in stream order. */
  predicate LoopResult(bytes: seq<Byte>, s: PassState, r: PassState) {
    AppendsFrames(bytes, s.ptr, s.fullPacketOffsets, r.fullPacketOffsets)
    && ((Increasing(s.fullPacketOffsets) && Below(s.fullPacketOffsets, s.ptr)) ==> Increasing(r.fullPacketOffsets))
  }

  /** `c` is `a` followed by full-packet frame starts at or after `from`. */
  predicate AppendsFrames(bytes: seq<Byte>, from: nat, a: seq<nat>, c: seq<nat>) {
    && |a| <= |c| && c[..|a|] == a
    && forall i | |a| <= i < |c| :: from <= c[i] < |bytes| && IsFullPacketFrame(bytes, c[i])
  }

  predicate Below(a: seq<nat>, bound: nat) {
    forall i | 0 <= i < |a| :: a[i] < bound
  }

  lemma AppendsFramesStep(bytes: seq<Byte>, from: nat, next: nat, a: seq<nat>, b: seq<nat>, c: seq<nat>)
    requires from < next
    requires b == a || (b == a + [from] && from < |bytes| && IsFullPacketFrame(bytes, from))
    requires AppendsFrames(bytes, next, b, c)
    ensures AppendsFrames(bytes, from, a, c)
  {
    assert c[..|a|] == b[..|a|] == a;
    forall i | |a| <= i < |c|
      ensures from <= c[i] < |bytes| && IsFullPacketFrame(bytes, c[i])
    {
      if i < |b| {
        assert c[i] == c[..|b|][i] == b[i] == from;
      }
    }
  }

  lemma OrderStep(from: nat, next: nat, a: seq<nat>, b: seq<nat>)
    requires from < next
    requires b == a || b == a + [from]
    requires Increasing(a) && Below(a, from)
    ensures Increasing(b) && Below(b, next)
  {
  }

  lemma LoopResultStep(bytes: seq<Byte>, s: PassState, n: PassState, r: PassState)
    requires s.ptr < n.ptr < |bytes|
    requires n.fullPacketOffsets == s.fullPacketOffsets ||
      (n.fullPacketOffsets == s.fullPacketOffsets + [s.ptr] && IsFullPacketFrame(bytes, s.ptr))
    requires LoopResult(bytes, n, r)
    ensures LoopResult(bytes, s, r)
  {
    AppendsFramesStep(bytes, s.ptr, n.ptr, s.fullPacketOffsets, n.fullPacketOffsets, r.fullPacketOffsets);
    if Increasing(s.fullPacketOffsets) && Below(s.fullPacketOffsets, s.ptr) {
      OrderStep(s.ptr, n.ptr, s.fullPacketOffsets, n.fullPacketOffsets);
    }
  }

  /** The loop of `parse_demo`, from `s` until a Stop frame or an overrun. */
  function Loop(bytes: seq<Byte>, h: PassHooks, s: PassState): (r: Result<PassState, Abort>)
    ensures r.Success? ==> LoopResult(bytes, s, r.value)
    decreases if s.ptr <= |bytes| then |bytes| - s.ptr else 0
  {
    var o :- Step(bytes, h, s);
    match o
    case Stop(last) => Success(last)
    case Continue(next) =>
      var r :- Loop(bytes, h, next);
      LoopResultStep(bytes, s, next, r);
      Success(r)
  }

  /**
   * `fallback_if_first_pass_missing_data`: offset 16 is added when no
   * full packet started there, and the embedded event list is used when
   * no packet carried one.
   */
  function Fallback(h: PassHooks, s: PassState): (r: PassState)
    ensures HEADER_ENDS_AT_BYTE in r.fullPacketOffsets
    ensures r.fullPacketOffsets == s.fullPacketOffsets ||
      (HEADER_ENDS_AT_BYTE !in s.fullPacketOffsets && r.fullPacketOffsets == s.fullPacketOffsets + [HEADER_ENDS_AT_BYTE])
    ensures s.geList != map[] ==> r.geList == s.geList
    ensures s.geList == map[] ==> r.geList == ParseGameEventList(h.fallbackList)
    ensures r.(fullPacketOffsets := s.fullPacketOffsets, geList := s.geList) == s
  {
    var offsets := if HEADER_ENDS_AT_BYTE in s.fullPacketOffsets then s.fullPacketOffsets
                   else s.fullPacketOffsets + [HEADER_ENDS_AT_BYTE];
    var events := if s.geList == map[] then ParseGameEventList(h.fallbackList) else s.geList;
    s.(fullPacketOffsets := offsets, geList := events)
  }

  lemma FallbackIdempotent(h: PassHooks, s: PassState)
    ensures Fallback(h, Fallback(h, s)) == Fallback(h, s)
  {
  }

  /** Every offset is inside the file and is 16 or the start of a full-packet frame. */
  predicate RecordedOffsets(bytes: seq<Byte>, offs: seq<nat>) {
    forall i | 0 <= i < |offs| ::
      HEADER_ENDS_AT_BYTE <= offs[i] < |bytes| && (offs[i] == HEADER_ENDS_AT_BYTE || IsFullPacketFrame(bytes, offs[i]))
  }

  lemma FallbackKeepsOffsets(bytes: seq<Byte>, h: PassHooks, s: PassState)
    requires |bytes| > HEADER_ENDS_AT_BYTE
    requires LoopResult(bytes, START_STATE, s)
    ensures RecordedOffsets(bytes, Fallback(h, s).fullPacketOffsets)
  {
    var a := s.fullPacketOffsets;
    var b := Fallback(h, s).fullPacketOffsets;
    forall i | 0 <= i < |b|
      ensures HEADER_ENDS_AT_BYTE <= b[i] < |bytes| && (b[i] == HEADER_ENDS_AT_BYTE || IsFullPacketFrame(bytes, b[i]))
    {
      if i < |a| {
        assert b[i] == a[i];
      }
    }
  }

  /**
   * `parse_demo`: the header check on the first 16 bytes, the loop from
   * byte 16, the fallback, then the output (whose `cls_by_id.unwrap()`
   * panics when no ClassInfo frame was parsed).
   */
  function ParseDemo(bytes: seq<Byte>, h: PassHooks): (r: Result<PassState, Abort>)
    ensures |bytes| < HEADER_ENDS_AT_BYTE ==> r == Failure(Panic)
    ensures |bytes| >= HEADER_ENDS_AT_BYTE && ShortHeader(|bytes|, bytes[..HEADER_ENDS_AT_BYTE]).Failure? ==>
      r == Failure(Raised(ShortHeader(|bytes|, bytes[..HEADER_ENDS_AT_BYTE]).error))
    ensures r.Success? ==> r.value.classInfoSeen && HEADER_ENDS_AT_BYTE in r.value.fullPacketOffsets
    ensures r.Success? ==> RecordedOffsets(bytes, r.value.fullPacketOffsets)
    ensures r.Success? ==> r.value.geList != map[] || h.fallbackList == []
  {
    if |bytes| < HEADER_ENDS_AT_BYTE then Failure(Panic)
    else
      var _ :- Lift(ShortHeader(|bytes|, bytes[..HEADER_ENDS_AT_BYTE]));
      var s :- Loop(bytes, h, START_STATE);
      var out := Fallback(h, s);
      FallbackKeepsOffsets(bytes, h, s);
      if !out.classInfoSeen then Failure(Panic) else Success(out)
  }

  /** Before the fallback, the recorded offsets are strictly increasing full-packet starts. */
  lemma OffsetsAreOrderedFrameStarts(bytes: seq<Byte>, h: PassHooks)
    requires Loop(bytes, h, START_STATE).Success?
    ensures var offs := Loop(bytes, h, START_STATE).value.fullPacketOffsets;
      Increasing(offs) && forall i | 0 <= i < |offs| :: IsFullPacketFrame(bytes, offs[i])
  {
    var r := Loop(bytes, h, START_STATE).value;
    assert LoopResult(bytes, START_STATE, r);
    assert Increasing(START_STATE.fullPacketOffsets);
  }
}
