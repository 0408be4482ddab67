/**
 * The outer frame layer of a demo file (first_pass/frameparser.rs): a
 * frame header is three byte varints -- command, tick, payload size --
 * and the command's bit 64 marks a Snappy-compressed payload.  Also the
 * search for a frame boundary at an arbitrary offset, the split of a file
 * into equal chunks, the per-chunk scan that turns full-packet frames into
 * byte ranges, and the check that those ranges cover the file.
 */
module Frames {
  import opened Wrappers
  import opened Ints
  import opened Errors
  import opened ReadBytes

  /** `EDemoCommands`, with the discriminants of the protobuf enum. */
  datatype DemoCommand =
    | DemError | DemStop | DemFileHeader | DemFileInfo | DemSyncTick | DemSendTables
    | DemClassInfo | DemStringTables | DemPacket | DemSignonPacket | DemConsoleCmd
    | DemCustomData | DemCustomDataCallbacks | DemUserCmd | DemFullPacket | DemSaveGame
    | DemSpawnGroups | DemAnimationData | DemMax | DemIsCompressed

  function DemoCmdCode(c: DemoCommand): int {
    match c
    case DemError => -1
    case DemStop => 0
    case DemFileHeader => 1
    case DemFileInfo => 2
    case DemSyncTick => 3
    case DemSendTables => 4
    case DemClassInfo => 5
    case DemStringTables => 6
    case DemPacket => 7
    case DemSignonPacket => 8
    case DemConsoleCmd => 9
    case DemCustomData => 10
    case DemCustomDataCallbacks => 11
    case DemUserCmd => 12
    case DemFullPacket => 13
    case DemSaveGame => 14
    case DemSpawnGroups => 15
    case DemAnimationData => 16
    case DemMax => 17
    case DemIsCompressed => 64
  }

  /** The commands with discriminants -1 to 17, in order. */
  const LOW_COMMANDS: seq<DemoCommand> := [
    DemError, DemStop, DemFileHeader, DemFileInfo, DemSyncTick, DemSendTables,
    DemClassInfo, DemStringTables, DemPacket, DemSignonPacket, DemConsoleCmd,
    DemCustomData, DemCustomDataCallbacks, DemUserCmd, DemFullPacket, DemSaveGame,
    DemSpawnGroups, DemAnimationData, DemMax]

  /** `demo_cmd_type_from_int`: the command with that discriminant, or UnknownDemoCmd. */
  function DemoCmdFromInt(value: int): (r: Result<DemoCommand, DemoParserError>)
    ensures r.Success? ==> DemoCmdCode(r.value) == value
    ensures r.Failure? <==> !(-1 <= value <= 17 || value == 64)
    ensures r.Failure? ==> r.error == UnknownDemoCmd(value)
  {
    if -1 <= value <= 17 then Success(LOW_COMMANDS[value + 1])
    else if value == 64 then Success(DemIsCompressed)
    else Failure(UnknownDemoCmd(value))
  }

  lemma DemoCmdRoundTrip(c: DemoCommand)
    ensures DemoCmdFromInt(DemoCmdCode(c)) == Success(c)
  {
  }

  /** The command bit that marks a compressed payload. */
  const COMPRESSED_BIT: nat := 64

  predicate HasCompressedBit(cmd: nat) {
    (cmd / COMPRESSED_BIT) % 2 == 1
  }

  /** `cmd & !64`. */
  function ClearCompressedBit(cmd: nat): (m: nat)
    ensures !HasCompressedBit(m)
    ensures HasCompressedBit(cmd) ==> m + COMPRESSED_BIT == cmd
    ensures !HasCompressedBit(cmd) ==> m == cmd
    ensures m != COMPRESSED_BIT && m != U32_LIMIT - 1
  {
    assert HasCompressedBit(COMPRESSED_BIT) && HasCompressedBit(U32_LIMIT - 1);
    if HasCompressedBit(cmd) then cmd - COMPRESSED_BIT else cmd
  }

  /** A decoded frame header; `endsAt` is the position after the three varints. */
  datatype Frame = Frame(size: nat, tick: int, startsAt: nat, endsAt: nat, isCompressed: bool, cmd: DemoCommand)

  /** `read_frame`: three varints, then the command looked up with bit 64 cleared. */
  function ReadFrame(bytes: seq<Byte>, ptr: nat): (r: Result<Frame, DemoParserError>)
    ensures r.Success? ==> r.value.startsAt == ptr && ptr + 3 <= r.value.endsAt <= |bytes|
    ensures r.Success? ==> IsU32(r.value.size) && IsI32(r.value.tick)
    ensures r.Success? ==> r.value.cmd != DemError && r.value.cmd != DemIsCompressed
    ensures r.Failure? ==> r.error == OutOfBytesError || r.error.UnknownDemoCmd?
  {
    var (cmd, p1) :- ReadVarint(bytes, ptr);
    var (tick, p2) :- ReadVarint(bytes, p1);
    var (size, p3) :- ReadVarint(bytes, p2);
    var msgType := ClearCompressedBit(cmd);
    var demoCmd :- DemoCmdFromInt(U32AsI32(msgType));
    Success(Frame(size, U32AsI32(tick), ptr, p3, HasCompressedBit(cmd), demoCmd))
  }

  /** The command varint for a command and compression flag. */
  function CmdValue(c: DemoCommand, compressed: bool): nat
    requires 0 <= DemoCmdCode(c) < COMPRESSED_BIT
  {
    DemoCmdCode(c) + if compressed then COMPRESSED_BIT else 0
  }

  /** The bytes of a frame header as the demo writer lays them out. */
  function FrameHeader(c: DemoCommand, compressed: bool, tick: nat, size: nat): seq<Byte>
    requires 0 <= DemoCmdCode(c) < COMPRESSED_BIT && IsU32(tick) && IsU32(size)
  {
    Leb128(CmdValue(c, compressed)) + Leb128(tick) + Leb128(size)
  }

  lemma CmdValueBits(c: DemoCommand, compressed: bool)
    requires 0 <= DemoCmdCode(c) < COMPRESSED_BIT
    ensures IsU32(CmdValue(c, compressed))
    ensures HasCompressedBit(CmdValue(c, compressed)) == compressed
    ensures ClearCompressedBit(CmdValue(c, compressed)) == DemoCmdCode(c)
    ensures DemoCmdFromInt(U32AsI32(ClearCompressedBit(CmdValue(c, compressed)))) == Success(c)
  {
    DemoCmdRoundTrip(c);
  }

  /** Round trip: a written frame header reads back, and the frame body starts right after it. */
  lemma ReadFrameRoundTrip(bytes: seq<Byte>, ptr: nat, c: DemoCommand, compressed: bool, tick: nat, size: nat, end: nat)
    requires 0 <= DemoCmdCode(c) < COMPRESSED_BIT && IsU32(tick) && IsU32(size)
    requires end == ptr + |FrameHeader(c, compressed, tick, size)| && end <= |bytes|
    requires bytes[ptr..end] == FrameHeader(c, compressed, tick, size)
    ensures ReadFrame(bytes, ptr) == Success(Frame(size, U32AsI32(tick), ptr, end, compressed, c))
  {
    var cmd := CmdValue(c, compressed);
    CmdValueBits(c, compressed);
    var a, b, d := Leb128(cmd), Leb128(tick), Leb128(size);
    var p1 := ptr + |a|;
    var p2 := p1 + |b|;
    assert a + b + d == [] + a + (b + d) == a + b + d;
    VarintInSlice(bytes, ptr, end, [], cmd, b + d, ptr, p1);
    VarintInSlice(bytes, ptr, end, a, tick, d, p1, p2);
    VarintInSlice(bytes, ptr, end, a + b, size, [], p2, end);
    ReadFrameOf(bytes, ptr, cmd, p1, tick, p2, size, end, c);
  }

  /** A varint written inside `bytes[lo..hi]`, after `pre`, reads back. */
  lemma VarintInSlice(bytes: seq<Byte>, lo: nat, hi: nat, pre: seq<Byte>, v: nat, post: seq<Byte>, at: nat, next: nat)
    requires IsU32(v) && lo <= hi <= |bytes| && bytes[lo..hi] == pre + Leb128(v) + post
    requires at == lo + |pre| && next == at + |Leb128(v)|
    ensures ReadVarint(bytes, at) == Success((v, next))
  {
    SliceOfConcat(bytes, lo, hi, pre, Leb128(v), post);
    ReadVarintRoundTrip(bytes, at, v);
  }

  lemma SliceOfConcat<T>(s: seq<T>, lo: nat, hi: nat, pre: seq<T>, mid: seq<T>, post: seq<T>)
    requires lo <= hi <= |s| && s[lo..hi] == pre + mid + post
    ensures lo + |pre| + |mid| <= hi && s[lo + |pre|..lo + |pre| + |mid|] == mid
  {
    var t := s[lo..hi];
    var m := lo + |pre|;
    forall k | 0 <= k < |mid|
      ensures s[m..m + |mid|][k] == mid[k]
    {
      assert s[m + k] == t[|pre| + k] == (pre + mid + post)[|pre| + k];
    }
  }

  /** `ReadFrame` once its three varints are known. */
  lemma ReadFrameOf(bytes: seq<Byte>, ptr: nat, cmd: nat, p1: nat, tick: nat, p2: nat, size: nat, p3: nat, c: DemoCommand)
    requires ReadVarint(bytes, ptr) == Success((cmd, p1))
    requires ReadVarint(bytes, p1) == Success((tick, p2))
    requires ReadVarint(bytes, p2) == Success((size, p3))
    requires DemoCmdFromInt(U32AsI32(ClearCompressedBit(cmd))) == Success(c)
    ensures ReadFrame(bytes, ptr) == Success(Frame(size, U32AsI32(tick), ptr, p3, HasCompressedBit(cmd), c))
  {
  }

  // ---------------------------------------------------------------- finding a frame boundary

  /** The most offsets `try_find_beginning_of_a_frame` tries. */
  const MAX_TRIES: nat := 100000
  /** Where the first frame of every demo starts. */
  const HEADER_ENDS_AT_BYTE: nat := 16

  /** How many frames in a row the search reads before it trusts an offset. */
  const RUN_LENGTH: nat := 4

  /**
   * `k` frames back to back from `p`, each found at the end of the previous
   * one's payload and each one tick (`i32` addition) after the one before;
   * `prevTick` is the tick of the frame before `p`.
   */
  predicate TicksFollow(bytes: seq<Byte>, p: nat, k: nat, prevTick: int)
    decreases |bytes| - p
  {
    k == 0 ||
    match ReadFrame(bytes, p)
    case Failure(_) => false
    case Success(f) =>
      f.tick == NextTick(prevTick) &&
      (k == 1 || (f.endsAt + f.size < |bytes| && TicksFollow(bytes, f.endsAt + f.size, k - 1, f.tick)))
  }

  /** `tick + 1` on `i32`, wrapping at the top. */
  function NextTick(tick: int): int {
    if tick == I32_MAX then -I32_MAX - 1 else tick + 1
  }

  lemma NextTickWraps(tick: int)
    requires IsI32(tick)
    ensures NextTick(tick) == WrapI32(tick + 1)
  {
  }

  /** A run of `RUN_LENGTH` frames starts at `p`. */
  predicate IsFrameRun(bytes: seq<Byte>, p: nat) {
    match ReadFrame(bytes, p)
    case Failure(_) => false
    case Success(f) => f.endsAt + f.size < |bytes| && TicksFollow(bytes, f.endsAt + f.size, RUN_LENGTH - 1, f.tick)
  }

  /** The last offset the search can try: within the file, the chunk and the try budget. */
  function SearchBound(len: nat, start: nat, end: nat): nat {
    Min(Min(len, end + 1), start + MAX_TRIES)
  }

  function Min(a: nat, b: nat): nat {
    if a <= b then a else b
  }

  /** The search loop; `ptr` is `start + tot`. */
  function FindLoop(bytes: seq<Byte>, start: nat, end: nat, ptr: nat, tot: nat): (r: Result<nat, DemoParserError>)
    requires tot <= MAX_TRIES && ptr == start + tot
    ensures r.Failure? ==> r.error == ClassNotFound
    ensures r.Success? ==> ptr < r.value <= SearchBound(|bytes|, start, end) && IsFrameRun(bytes, r.value)
    ensures r.Success? ==> forall q :: ptr < q < r.value ==> !IsFrameRun(bytes, q)
    ensures r.Failure? ==> forall q :: ptr < q <= SearchBound(|bytes|, start, end) ==> !IsFrameRun(bytes, q)
    decreases MAX_TRIES - tot
  {
    var tot' := tot + 1;
    if ptr >= |bytes| || tot' > MAX_TRIES || ptr > end then Failure(ClassNotFound)
    else
      var p := ptr + 1;
      if IsFrameRun(bytes, p) then Success(p)
      else
        var r := FindLoop(bytes, start, end, p, tot');
        NoRunExtends(bytes, ptr, p, if r.Success? then r.value - 1 else SearchBound(|bytes|, start, end));
        r
  }

  /** No run at `p`, none after it up to `hi`: none after `p - 1` up to `hi`. */
  lemma NoRunExtends(bytes: seq<Byte>, ptr: nat, p: nat, hi: nat)
    requires p == ptr + 1 && !IsFrameRun(bytes, p)
    requires forall q :: p < q <= hi ==> !IsFrameRun(bytes, q)
    ensures forall q :: ptr < q <= hi ==> !IsFrameRun(bytes, q)
  {
    forall q | ptr < q <= hi
      ensures !IsFrameRun(bytes, q)
    {
      if q != p {
        assert p < q <= hi;
      }
    }
  }

  /**
   * `try_find_beginning_of_a_frame`: offsets 0 and 16 mean the first frame
   * at 16; from any other offset, the first later offset where a run of
   * four frames starts, or ClassNotFound when no offset the search may try
   * starts one.
   */
  function TryFindBeginningOfAFrame(bytes: seq<Byte>, start: nat, end: nat): (r: Result<nat, DemoParserError>)
    ensures start == 0 || start == HEADER_ENDS_AT_BYTE ==> r == Success(HEADER_ENDS_AT_BYTE)
    ensures start != 0 && start != HEADER_ENDS_AT_BYTE && r.Failure? ==>
      r.error == ClassNotFound && forall q :: start < q <= SearchBound(|bytes|, start, end) ==> !IsFrameRun(bytes, q)
    ensures start != 0 && start != HEADER_ENDS_AT_BYTE && r.Success? ==>
      start < r.value <= SearchBound(|bytes|, start, end) && IsFrameRun(bytes, r.value) &&
      forall q :: start < q < r.value ==> !IsFrameRun(bytes, q)
  {
    if start == 0 || start == HEADER_ENDS_AT_BYTE then Success(HEADER_ENDS_AT_BYTE)
    else FindLoop(bytes, start, end, start, 0)
  }

  // ---------------------------------------------------------------- chunks

  /** `split_file_into_n_chunks`: `n` ranges of `len / n` bytes each, back to back from 0. */
  function SplitFileIntoNChunks(len: nat, n: nat): (v: seq<(nat, nat)>)
    requires n > 0
    ensures |v| == n
    ensures forall i :: 0 <= i < n ==> v[i].1 == v[i].0 + len / n
  {
    var c := len / n;
    seq(n, i requires 0 <= i < n => (i * c, i * c + c))
  }

  /** The chunks start at 0, abut, and stop within the last `n - 1` bytes of the file. */
  lemma SplitCoversFile(len: nat, n: nat)
    requires n > 0
    ensures var v := SplitFileIntoNChunks(len, n);
      v[0].0 == 0 &&
      (forall i :: 0 <= i < n - 1 ==> v[i].1 == v[i + 1].0) &&
      v[n - 1].1 <= len < v[n - 1].1 + n
  {
    var v := SplitFileIntoNChunks(len, n);
    var c := len / n;
    assert v[n - 1].1 == (n - 1) * c + c == n * c;
    forall i | 0 <= i < n - 1
      ensures v[i].1 == v[i + 1].0
    {
      assert v[i + 1].0 == (i + 1) * c == i * c + c;
    }
  }

  // ---------------------------------------------------------------- the per-chunk scan

  datatype StartEndType = OK | EndOfMessages | MultithreadingWasNotOk

  /** A byte range of the file, between two full-packet frames. */
  datatype StartEndOffset = StartEndOffset(start: nat, end: nat, msgType: StartEndType)

  /** Consecutive ranges abut. */
  predicate Abut(s: seq<StartEndOffset>) {
    forall i :: 0 <= i < |s| - 1 ==> s[i].end == s[i + 1].start
  }

  /** Ranges that the scan produces: forward, OK, back to back. */
  predicate Chained(s: seq<StartEndOffset>) {
    Abut(s) && forall i :: 0 <= i < |s| ==> s[i].start <= s[i].end && s[i].msgType == OK
  }

  /** Every range lies between `lo` and `hi`. */
  predicate Within(s: seq<StartEndOffset>, lo: nat, hi: nat) {
    forall i :: 0 <= i < |s| ==> lo <= s[i].start && s[i].end <= hi
  }

  lemma WithinWider(s: seq<StartEndOffset>, lo: nat, hi: nat, hi': nat)
    requires Within(s, lo, hi) && hi <= hi'
    ensures Within(s, lo, hi')
  {
  }

  predicate Increasing(s: seq<nat>) {
    forall i, j :: 0 <= i < j < |s| ==> s[i] < s[j]
  }

  /**
   * What a full packet at `at` adds: the range from the previous full
   * packet, or, before the first one of the chunk that starts at 16, the
   * range from 16; nothing for the first full packet of any other chunk.
   */
  function CloseRange(start: nat, fullOffsets: seq<nat>, at: nat, outs: seq<StartEndOffset>): (r: seq<StartEndOffset>)
    requires Chained(outs) && Increasing(fullOffsets) && Within(outs, start, at)
    requires forall i :: 0 <= i < |fullOffsets| ==> start <= fullOffsets[i] < at
    requires |fullOffsets| == 0 ==> start <= at
    requires |outs| > 0 ==> |fullOffsets| > 0 && outs[|outs| - 1].end == fullOffsets[|fullOffsets| - 1]
    ensures Chained(r) && Within(r, start, at) && |r| >= |outs| && r[..|outs|] == outs
    ensures |r| > 0 ==> r[|r| - 1].end == at
    ensures |r| == |outs| + 1 <==> |fullOffsets| > 0 || start == HEADER_ENDS_AT_BYTE
    ensures |r| == |outs| + 1 && |outs| == 0 && |fullOffsets| == 0 ==> r[0].start == HEADER_ENDS_AT_BYTE
    ensures |r| != |outs| + 1 ==> r == outs
  {
    if |fullOffsets| > 0 then outs + [StartEndOffset(fullOffsets[|fullOffsets| - 1], at, OK)]
    else if start == HEADER_ENDS_AT_BYTE then outs + [StartEndOffset(HEADER_ENDS_AT_BYTE, at, OK)]
    else outs
  }

  /** What holds between two frames of the scan of a chunk from `start`, at `ptr`. */
  predicate ScanState(bytes: seq<Byte>, start: nat, ptr: nat, fullOffsets: seq<nat>, outs: seq<StartEndOffset>) {
    Chained(outs) && Within(outs, start, |bytes|) && Within(outs, start, ptr) &&
    Increasing(fullOffsets) && start <= ptr &&
    (forall i :: 0 <= i < |fullOffsets| ==> start <= fullOffsets[i] < ptr) &&
    (|outs| > 0 ==> |fullOffsets| > 0 && outs[|outs| - 1].end == fullOffsets[|fullOffsets| - 1]) &&
    (start == HEADER_ENDS_AT_BYTE ==> (|outs| == 0 <==> |fullOffsets| == 0)) &&
    (start == HEADER_ENDS_AT_BYTE && |outs| > 0 ==> outs[0].start == HEADER_ENDS_AT_BYTE)
  }

  lemma ScanAdvance(bytes: seq<Byte>, start: nat, ptr: nat, next: nat, fullOffsets: seq<nat>, outs: seq<StartEndOffset>)
    requires ScanState(bytes, start, ptr, fullOffsets, outs) && ptr <= next
    ensures ScanState(bytes, start, next, fullOffsets, outs)
  {
    WithinWider(outs, start, ptr, next);
  }

  lemma ScanClose(bytes: seq<Byte>, start: nat, ptr: nat, next: nat, fullOffsets: seq<nat>, outs: seq<StartEndOffset>,
                  full': seq<nat>, outs': seq<StartEndOffset>)
    requires ScanState(bytes, start, ptr, fullOffsets, outs) && ptr < next && ptr < |bytes|
    requires full' == fullOffsets + [ptr] && outs' == CloseRange(start, fullOffsets, ptr, outs)
    ensures ScanState(bytes, start, next, full', outs')
    ensures |outs'| >= |outs| && outs'[..|outs|] == outs
  {
    WithinWider(outs', start, ptr, |bytes|);
    WithinWider(outs', start, ptr, next);
    AppendOffset(fullOffsets, ptr, start, next, full');
  }

  /** What the scan returns: the ranges so far, extended by ranges in the same shape. */
  predicate ScanResult(bytes: seq<Byte>, start: nat, outs: seq<StartEndOffset>, r: seq<StartEndOffset>) {
    Chained(r) && Within(r, start, |bytes|) && |r| >= |outs| && r[..|outs|] == outs &&
    (start == HEADER_ENDS_AT_BYTE && |r| > 0 ==> r[0].start == HEADER_ENDS_AT_BYTE)
  }

  /**
   * The loop of `start`.  Every frame moves `ptr` past its payload; a full
   * packet closes a range (`CloseRange`) and ends the scan once past
   * `end`.  The scan also ends at the first frame that fails to read.
   */
  function ScanLoop(bytes: seq<Byte>, start: nat, end: nat, ptr: nat, fullOffsets: seq<nat>, outs: seq<StartEndOffset>): (r: seq<StartEndOffset>)
    requires ScanState(bytes, start, ptr, fullOffsets, outs)
    ensures ScanResult(bytes, start, outs, r)
    decreases if ptr <= |bytes| then |bytes| - ptr + 1 else 0
  {
    match ReadFrame(bytes, ptr)
    case Failure(_) => outs
    case Success(f) =>
      var next := f.endsAt + f.size;
      if f.cmd == DemFullPacket then
        var outs' := CloseRange(start, fullOffsets, f.startsAt, outs);
        var full' := fullOffsets + [f.startsAt];
        ScanClose(bytes, start, ptr, next, fullOffsets, outs, full', outs');
        if next > end then outs'
        else
          var r := ScanLoop(bytes, start, end, next, full', outs');
          PrefixOfPrefix(r, outs', outs);
          r
      else
        ScanAdvance(bytes, start, ptr, next, fullOffsets, outs);
        ScanLoop(bytes, start, end, next, fullOffsets, outs)
  }

  lemma AppendOffset(full: seq<nat>, at: nat, lo: nat, hi: nat, full': seq<nat>)
    requires Increasing(full) && full' == full + [at] && lo <= at < hi
    requires forall i :: 0 <= i < |full| ==> lo <= full[i] < at
    ensures Increasing(full') && |full'| > 0 && full'[|full'| - 1] == at
    ensures forall i :: 0 <= i < |full'| ==> lo <= full'[i] < hi
  {
  }

  lemma PrefixOfPrefix<T>(r: seq<T>, b: seq<T>, a: seq<T>)
    requires |b| <= |r| && r[..|b|] == b && |a| <= |b| && b[..|a|] == a
    ensures r[..|a|] == a
  {
    assert r[..|a|] == r[..|b|][..|a|];
  }

  /**
   * `FrameParser::start` (the channel sends mirror the returned ranges):
   * the ranges between consecutive full packets of a chunk, back to back.
   */
  function Start(bytes: seq<Byte>, start: nat, end: nat): (r: seq<StartEndOffset>)
    ensures Chained(r) && Within(r, start, |bytes|)
    ensures start == end ==> r == []
    ensures start == HEADER_ENDS_AT_BYTE && |r| > 0 ==> r[0].start == HEADER_ENDS_AT_BYTE
  {
    if start == end then [] else ScanLoop(bytes, start, end, start, [], [])
  }
}
