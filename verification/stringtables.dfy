/**
 * The string tables of first_pass/stringtables.rs: the bit-packed entry
 * list of a create or update message (running index, key history, value
 * sizes), the registration of players from "userinfo" and of class
 * baselines from "instancebaseline", and the two parsers' handling of
 * create and update messages.
 *
 * Protobuf decoding arrives as an `Option` (None where `decode` fails);
 * Snappy and `CMsgPlayerInfo` decoding are parameters (`TableHooks`).
 */
module StringTables {
  import opened Wrappers
  import opened Ints
  import opened Errors
  import opened Text
  import opened BitReader
  import opened Decoders
  import opened Utf8

  /** How many recent keys later keys may refer back to. */
  const HISTORY_LEN: nat := 32
  const USERINFO := "userinfo"
  const INSTANCE_BASELINE := "instancebaseline"

  /** The per-table settings every message for the table is decoded with. */
  datatype TableConfig = TableConfig(
    name: string,
    userDataFixed: bool,
    /** `i32` */
    userDataSize: int,
    /** `i32` */
    flags: int,
    varBitCounts: bool)

  datatype StringTableEntry = StringTableEntry(idx: int, key: string, value: seq<Byte>)

  datatype StringTable = StringTable(config: TableConfig, data: seq<StringTableEntry>)

  datatype UserInfo = UserInfo(steamid: nat, name: string, userid: int, isHltv: bool)

  /** The fields of `CMsgPlayerInfo` that `parse_userinfo` reads; `userid` is an `i32`. */
  datatype PlayerInfoMsg = PlayerInfoMsg(xuid: nat, name: string, userid: int, ishltv: bool)

  /** The fields of `CsvcMsgCreateStringTable` the parsers read. */
  datatype CreateMsg = CreateMsg(
    name: string,
    numEntries: int,
    userDataFixedSize: bool,
    userDataSize: int,
    flags: int,
    stringData: seq<Byte>,
    dataCompressed: bool,
    usingVarintBitcounts: bool)

  /** The fields of `CsvcMsgUpdateStringTable` the parsers read. */
  datatype UpdateMsg = UpdateMsg(tableId: int, numChangedEntries: int, stringData: seq<Byte>)

  datatype TableHooks = TableHooks(
    /** Snappy `decompress_vec`; None where it fails. */
    decompress: seq<Byte> -> Option<seq<Byte>>,
    /** `CMsgPlayerInfo::decode`; None where it fails. */
    decodePlayerInfo: seq<Byte> -> Option<PlayerInfoMsg>)

  /** The parser fields the string-table code writes. */
  datatype TableState = TableState(
    stringTables: seq<StringTable>,
    /** `stringtable_players`, keyed by the masked user id. */
    players: map<int, UserInfo>,
    /** `baselines`, keyed by class id. */
    baselines: map<nat, seq<Byte>>)

  // ---------------------------------------------------------------------
  // Players
  // ---------------------------------------------------------------------

  /** `userid & 0xff` on an `i32`: the low eight bits of its two's complement. */
  function MaskUserid(userid: int): (u: int)
    ensures 0 <= u < 0x100
    ensures (userid - u) % 0x100 == 0
  {
    userid % 0x100
  }

  /** `parse_userinfo`. */
  function ParseUserinfo(h: TableHooks, bytes: seq<Byte>): (r: Result<UserInfo, DemoParserError>)
    ensures h.decodePlayerInfo(bytes).None? ==> r == Failure(MalformedMessage)
    ensures h.decodePlayerInfo(bytes).Some? ==>
      var m := h.decodePlayerInfo(bytes).value;
      && r.Success? && r.value.steamid == m.xuid && r.value.name == m.name && r.value.isHltv == m.ishltv
      && 0 <= r.value.userid < 0x100 && (m.userid - r.value.userid) % 0x100 == 0
  {
    match h.decodePlayerInfo(bytes)
    case None => Failure(MalformedMessage)
    case Some(m) => Success(UserInfo(m.xuid, m.name, MaskUserid(m.userid), m.ishltv))
  }

  /** The player a "userinfo" entry registers: one that decodes with a steamid other than 0. */
  function PlayerOf(h: TableHooks, e: StringTableEntry): Option<UserInfo> {
    match ParseUserinfo(h, e.value)
    case Success(p) => if p.steamid != 0 then Some(p) else None
    case Failure(_) => None
  }

  /** The registration one stored entry causes, by table name. */
  function RegisterEntry(h: TableHooks, s: TableState, name: string, e: StringTableEntry): TableState {
    var s1 := if name == USERINFO && PlayerOf(h, e).Some? then
      s.(players := s.players[PlayerOf(h, e).value.userid := PlayerOf(h, e).value]) else s;
    if name == INSTANCE_BASELINE && ParseU32(e.key).Some? then
      s1.(baselines := s1.baselines[ParseU32(e.key).value := e.value])
    else s1
  }

  /**
   * The registrations of a table's stored entries, in order: "userinfo"
   * entries register their player under its user id, "instancebaseline"
   * entries register their value under the class id their key spells.
   */
  function Register(h: TableHooks, s: TableState, name: string, items: seq<StringTableEntry>): (r: TableState)
    ensures r.stringTables == s.stringTables
    ensures name != USERINFO ==> r.players == s.players
    ensures name != INSTANCE_BASELINE ==> r.baselines == s.baselines
    ensures s.players.Keys <= r.players.Keys && s.baselines.Keys <= r.baselines.Keys
    ensures forall u | u in r.players ::
      (u in s.players && r.players[u] == s.players[u]) || (0 <= u < 0x100 && r.players[u].userid == u && r.players[u].steamid != 0)
    ensures name == USERINFO ==>
      forall i | 0 <= i < |items| && PlayerOf(h, items[i]).Some? :: PlayerOf(h, items[i]).value.userid in r.players
    ensures name == INSTANCE_BASELINE ==>
      forall i | 0 <= i < |items| && ParseU32(items[i].key).Some? :: ParseU32(items[i].key).value in r.baselines
    decreases |items|
  {
    if items == [] then s
    else
      var s1 := RegisterEntry(h, s, name, items[0]);
      var r := Register(h, s1, name, items[1..]);
      assert forall i | 1 <= i < |items| :: items[i] == items[1..][i - 1];
      r
  }

  /** The last "instancebaseline" entry for a class id is the baseline kept. */
  lemma {:induction false} LastBaselineWins(h: TableHooks, s: TableState, items: seq<StringTableEntry>, i: nat)
    requires i < |items| && ParseU32(items[i].key).Some?
    requires forall j | i < j < |items| :: ParseU32(items[j].key) != ParseU32(items[i].key)
    ensures Register(h, s, INSTANCE_BASELINE, items).baselines[ParseU32(items[i].key).value] == items[i].value
    decreases |items|
  {
    var s1 := RegisterEntry(h, s, INSTANCE_BASELINE, items[0]);
    assert forall j | 1 <= j < |items| :: items[j] == items[1..][j - 1];
    if i == 0 {
      LaterOthersKeepBaseline(h, s1, items[1..], ParseU32(items[0].key).value);
    } else {
      LastBaselineWins(h, s1, items[1..], i - 1);
    }
  }

  /** Entries whose keys spell other class ids leave a baseline alone. */
  lemma {:induction false} LaterOthersKeepBaseline(h: TableHooks, s: TableState, items: seq<StringTableEntry>, id: nat)
    requires id in s.baselines
    requires forall j | 0 <= j < |items| :: ParseU32(items[j].key) != Some(id)
    ensures Register(h, s, INSTANCE_BASELINE, items).baselines[id] == s.baselines[id]
    decreases |items|
  {
    if items != [] {
      var s1 := RegisterEntry(h, s, INSTANCE_BASELINE, items[0]);
      assert forall j | 0 <= j < |items| - 1 :: items[1..][j] == items[j + 1];
      LaterOthersKeepBaseline(h, s1, items[1..], id);
    }
  }

  // ---------------------------------------------------------------------
  // One update of the entry list
  // ---------------------------------------------------------------------

  /** How far the running index moves: 1, or one more than a varint. */
  function IndexStep(r: Reader): (res: (nat, Reader))
    ensures 1 <= res.0 <= U32_LIMIT
  {
    var (increment, r1) := ReadBoolean(r);
    if increment then (1, r1)
    else
      var (v, r2) := ReadVarint(r1);
      (v + 1, r2)
  }

  /** `idx += step`, where the step passed through `u32` and `as i32`, with `i32` wrap-around. */
  function NextIndex(idx: int, step: nat): (next: int)
    requires IsI32(idx)
    ensures IsI32(next)
  {
    WrapI32(idx + U32AsI32(WrapU32(step)))
  }

  /** Without wrap-around the index moves forward by exactly the step. */
  lemma NextIndexAdvances(idx: int, step: nat)
    requires IsI32(idx) && 1 <= step && idx + step <= I32_MAX
    ensures NextIndex(idx, step) == idx + step > idx
  {
    var x := U32AsI32(WrapU32(step));
    assert (x - step) % U32_LIMIT == 0;
    assert ((idx + x) - (idx + step)) % U32_LIMIT == 0;
  }

  /** The key history after a key is added: the oldest key goes once the history is full. */
  function PushHistory(keys: seq<string>, key: string): (h: seq<string>)
    ensures |keys| < HISTORY_LEN ==> h == keys + [key]
    ensures |keys| >= HISTORY_LEN ==> h == keys[1..] + [key]
    ensures |keys| <= HISTORY_LEN ==> |h| <= HISTORY_LEN
  {
    if |keys| >= HISTORY_LEN then keys[1..] + [key] else keys + [key]
  }

  /** A history that is already full stays full and keeps the newest keys in order. */
  lemma FullHistoryKeepsNewest(keys: seq<string>, key: string)
    requires |keys| == HISTORY_LEN
    ensures |PushHistory(keys, key)| == HISTORY_LEN
    ensures PushHistory(keys, key) == (keys + [key])[|keys| + 1 - HISTORY_LEN..]
  {
  }

  function Min(a: nat, b: nat): nat {
    if a <= b then a else b
  }

  /**
   * The part of a history key that a reference copies: the whole key when
   * `length` exceeds its byte length, otherwise its first `length` bytes,
   * or nothing when byte `length` falls inside a character.
   */
  function HistoryPrefix(s: string, length: nat): (p: string)
    ensures |p| <= |s| && p == s[..|p|]
    ensures length > |Encode(s)| ==> p == s
    ensures length <= |Encode(s)| ==>
      || |Encode(p)| == length
      || (p == [] && forall k | 0 <= k <= |s| :: |Encode(s[..k])| != length)
  {
    if length > |Encode(s)| then s
    else
      match ByteSlice(s, length)
      case Some(q) => q
      case None => []
  }

  /** A cut at a character boundary copies exactly the characters before it. */
  lemma HistoryPrefixAtBoundary(s: string, k: nat)
    requires k <= |s|
    ensures HistoryPrefix(s, |Encode(s[..k])|) == s[..k]
  {
    assert s[..k] + s[k..] == s;
    EncodeAppend(s[..k], s[k..]);
    ByteSliceAtBoundary(s, k);
  }

  /** For an ASCII key bytes are characters: the prefix is the first `length` characters. */
  lemma HistoryPrefixAscii(s: string, length: nat)
    requires forall i | 0 <= i < |s| :: (s[i] as int) < 0x80
    ensures HistoryPrefix(s, length) == s[..Min(length, |s|)]
  {
    EncodeAsciiLength(s);
    if length <= |s| {
      ByteSliceAscii(s, length);
    }
  }

  /**
   * Where a key ends: the history flag, the position and length when it is
   * set, and a zero-terminated string.  The history's contents play no part.
   */
  function KeyEnd(r: Reader): Reader {
    var (useHistory, r1) := ReadBoolean(r);
    if !useHistory then ReadStringBytes(r1).1
    else ReadStringBytes(ReadNBits(ReadNBits(r1, 5).1, 5).1).1
  }

  /**
   * A key: a fresh string, or a reference (5-bit position, 5-bit length)
   * to a history key whose prefix goes before a fresh string.  A position
   * past the history reads a fresh string.
   */
  function ReadKey(r: Reader, keys: seq<string>): (res: (string, Reader))
    ensures res.1.bits == r.bits
    ensures res.1 == KeyEnd(r)
    ensures !ReadBoolean(r).0 ==> res == ReadString(ReadBoolean(r).1)
    ensures var (position, r2) := ReadNBits(ReadBoolean(r).1, 5);
      var (length, r3) := ReadNBits(r2, 5);
      ReadBoolean(r).0 ==>
        res.1 == ReadString(r3).1
        && (position >= |keys| ==> res.0 == ReadString(r3).0)
  {
    var (useHistory, r1) := ReadBoolean(r);
    if !useHistory then ReadString(r1)
    else
      var (position, r2) := ReadNBits(r1, 5);
      var (length, r3) := ReadNBits(r2, 5);
      var (tail, r4) := ReadString(r3);
      if position >= |keys| then (tail, r4)
      else (HistoryPrefix(keys[position], length) + tail, r4)
  }

  /**
   * A key read through a history reference is the copied prefix of the
   * referenced key followed by the fresh string.
   */
  lemma HistoryKeyStartsWithPrefix(r: Reader, keys: seq<string>)
    requires ReadBoolean(r).0
    ensures var (position, r2) := ReadNBits(ReadBoolean(r).1, 5);
      var (length, r3) := ReadNBits(r2, 5);
      var key := ReadKey(r, keys).0;
      position < |keys| ==>
        var p := HistoryPrefix(keys[position], length);
        key == p + ReadString(r3).0 && StartsWith(key, p)
  {
    var (position, r2) := ReadNBits(ReadBoolean(r).1, 5);
    var (length, r3) := ReadNBits(r2, 5);
    if position < |keys| {
      var p := HistoryPrefix(keys[position], length);
      var tail := ReadString(r3).0;
      assert (p + tail)[..|p|] == p;
    }
  }

  /**
   * The byte count of a value and whether it is compressed: a fixed size
   * (`user_data_size` bits, as `u32`) or a per-entry count; only a table
   * with flag bit 0 set and no fixed size reads a compression bit.
   */
  function ValueSize(r: Reader, c: TableConfig): (res: (nat, bool, Reader))
    ensures res.2.bits == r.bits
    ensures c.userDataFixed ==> res == (WrapU32(c.userDataSize) / 8, false, r)
    ensures res.1 ==> !c.userDataFixed && c.flags % 2 == 1
    ensures !c.userDataFixed && !c.varBitCounts ==> res.0 < 0x2_0000
  {
    if c.userDataFixed then (WrapU32(c.userDataSize) / 8, false, r)
    else
      var (compressed, r1) := if c.flags % 2 == 1 then ReadBoolean(r) else (false, r);
      if c.varBitCounts then
        var (n, r2) := ReadUBitVar(r1);
        (WrapU32(n * 8) / 8, compressed, r2)
      else
        var (n, r2) := ReadNBits(r1, 17);
        Pow2Table();
        (n * 8 / 8, compressed, r2)
  }

  /** A value: its bytes, decompressed when the compression bit was set. */
  function ReadValue(h: TableHooks, r: Reader, c: TableConfig): (res: Result<(seq<Byte>, Reader), DemoParserError>)
    ensures res.Failure? ==> res.error == MalformedMessage || res.error.FailedByteRead?
    ensures var (n, compressed, r1) := ValueSize(r, c);
      && (BitsRemaining(r1) < 8 * n ==> res.Failure?)
      && (res.Success? && !compressed ==> |res.value.0| == n)
  {
    var (n, compressed, r1) := ValueSize(r, c);
    var (bytes, r2) :- ReadNBytes(r1, n);
    if compressed then
      match h.decompress(bytes)
      case None => Failure(MalformedMessage)
      case Some(d) => Success((d, r2))
    else Success((bytes, r2))
  }

  /** What one update leaves: the running index, the entry if it has a key, the history and the cursor. */
  datatype Update = Update(idx: int, entry: Option<StringTableEntry>, keys: seq<string>, reader: Reader)

  /**
   * One of the `n_updates` iterations: the index moves, and an entry with
   * a key is produced (its key joining the history); an entry without a
   * key is dropped.
   */
  method ReadUpdate(h: TableHooks, r: Reader, idx: int, keys: seq<string>, c: TableConfig)
    returns (res: Result<Update, DemoParserError>)
    requires IsI32(idx)
    ensures res.Failure? ==> res.error == MalformedMessage || res.error.FailedByteRead?
    ensures res.Success? ==> res.value.idx == NextIndex(idx, IndexStep(r).0)
    ensures res.Success? <==> UpdateEnd(h, r, c).Some?
    ensures res.Success? ==> res.value.reader == UpdateEnd(h, r, c).value
    ensures res.Success? && res.value.entry.None? ==> res.value.keys == keys
    ensures res.Success? && res.value.entry.Some? ==>
      res.value.entry.value.idx == res.value.idx && res.value.keys == PushHistory(keys, res.value.entry.value.key)
  {
    var (step, r1) := IndexStep(r);
    var next := NextIndex(idx, step);
    var (hasKey, r2) := ReadBoolean(r1);
    if !hasKey {
      return Success(Update(next, None, keys, r2));
    }
    var (key, r3) := ReadKey(r2, keys);
    var keys' := PushHistory(keys, key);
    var (hasValue, r4) := ReadBoolean(r3);
    if !hasValue {
      return Success(Update(next, Some(StringTableEntry(next, key, [])), keys', r4));
    }
    var value :- ReadValue(h, r4, c);
    return Success(Update(next, Some(StringTableEntry(next, key, value.0)), keys', value.1));
  }

  /**
   * Where an update ends, or None when its value cannot be read: the same
   * reads as `ReadUpdate`, without the key's contents.
   */
  function UpdateEnd(h: TableHooks, r: Reader, c: TableConfig): Option<Reader> {
    var r2 := ReadBoolean(IndexStep(r).1);
    if !r2.0 then Some(r2.1)
    else
      var r4 := ReadBoolean(KeyEnd(r2.1));
      if !r4.0 then Some(r4.1)
      else
        match ReadValue(h, r4.1, c)
        case Failure(_) => None
        case Success(v) => Some(v.1)
  }

  /**
   * The sum of the index steps of `n` updates read from `r` (up to the
   * first that fails): how far the running index moves when nothing wraps.
   */
  ghost function StepSum(h: TableHooks, r: Reader, c: TableConfig, n: nat): int
    decreases n
  {
    if n == 0 then 0
    else
      match UpdateEnd(h, r, c)
      case None => 0
      case Some(r') => IndexStep(r).0 + StepSum(h, r', c, n - 1)
  }

  // ---------------------------------------------------------------------
  // A whole entry list
  // ---------------------------------------------------------------------

  predicate Ascending(items: seq<StringTableEntry>) {
    forall i, j | 0 <= i < j < |items| :: items[i].idx < items[j].idx
  }

  /** An entry above every stored index keeps the list ascending. */
  lemma AscendingSnoc(items: seq<StringTableEntry>, e: StringTableEntry)
    requires Ascending(items) && forall i | 0 <= i < |items| :: items[i].idx < e.idx
    ensures Ascending(items + [e])
  {
  }

  function Max0(n: int): nat {
    if n > 0 then n else 0
  }

  /**
   * While the steps so far stay within `i32`, the index is their sum and
   * every entry kept is above the ones before it.
   */
  lemma SpanStep(items: seq<StringTableEntry>, idx: int, span: int, step: nat, u: Update)
    requires IsI32(idx) && 1 <= step && u.idx == NextIndex(idx, step)
    requires u.entry.Some? ==> u.entry.value.idx == u.idx
    requires span <= I32_MAX ==> idx == span && Ascending(items) && forall i | 0 <= i < |items| :: items[i].idx <= idx
    ensures var items' := if u.entry.Some? then items + [u.entry.value] else items;
      span + step <= I32_MAX ==> u.idx == span + step && Ascending(items') && forall i | 0 <= i < |items'| :: items'[i].idx <= u.idx
  {
    if span + step <= I32_MAX {
      NextIndexAdvances(idx, step);
      if u.entry.Some? {
        AscendingSnoc(items, u.entry.value);
      }
    }
  }

  /** After an update the sum of the steps still to come shrinks by exactly its step. */
  lemma StepSumUnfolds(h: TableHooks, r: Reader, c: TableConfig, n: nat, r': Reader)
    requires n > 0 && UpdateEnd(h, r, c) == Some(r')
    ensures StepSum(h, r, c, n) == IndexStep(r).0 + StepSum(h, r', c, n - 1)
  {
  }

  /** The state the entry loop carries: the index, the key history, the entries so far and the cursor. */
  datatype EntriesState = EntriesState(idx: int, keys: seq<string>, items: seq<StringTableEntry>, reader: Reader)

  /**
   * What the entry loop keeps true: an `i32` index, a bounded history,
   * `i32` entry indices, and, while `span` (−1 plus the steps read so far)
   * is within `i32`, an index equal to `span` above every entry, which
   * are ascending.
   */
  predicate Tracks(s: EntriesState, span: int) {
    && IsI32(s.idx) && |s.keys| <= HISTORY_LEN
    && (forall i | 0 <= i < |s.items| :: IsI32(s.items[i].idx))
    && (span <= I32_MAX ==> s.idx == span && Ascending(s.items) && forall i | 0 <= i < |s.items| :: s.items[i].idx <= s.idx)
  }

  /** One iteration of the entry loop: read an update and keep its entry, if any. */
  method NextEntries(h: TableHooks, s: EntriesState, c: TableConfig, ghost span: int, ghost left: nat, ghost total: int)
    returns (r: Result<EntriesState, DemoParserError>)
    requires Tracks(s, span) && left > 0
    requires span + StepSum(h, s.reader, c, left) == total
    ensures r.Failure? ==> r.error == MalformedMessage || r.error.FailedByteRead?
    ensures r.Success? ==> Tracks(r.value, span + IndexStep(s.reader).0)
    ensures r.Success? ==> |r.value.items| <= |s.items| + 1
    ensures r.Success? ==> span + IndexStep(s.reader).0 + StepSum(h, r.value.reader, c, left - 1) == total
  {
    var u :- ReadUpdate(h, s.reader, s.idx, s.keys, c);
    StepSumUnfolds(h, s.reader, c, left, u.reader);
    SpanStep(s.items, s.idx, span, IndexStep(s.reader).0, u);
    var items := if u.entry.Some? then s.items + [u.entry.value] else s.items;
    r := Success(EntriesState(u.idx, u.keys, items, u.reader));
  }

  /**
   * The entry loop of `parse_string_table`: `n_updates` updates from an
   * index of −1 and an empty history, keeping the entries that have keys.
   * As long as the steps the updates read keep the index within `i32`,
   * the stored indices strictly increase.
   */
  method ParseEntries(h: TableHooks, bytes: seq<Byte>, nUpdates: int, c: TableConfig)
    returns (r: Result<seq<StringTableEntry>, DemoParserError>)
    ensures r.Failure? ==> r.error == MalformedMessage || r.error.FailedByteRead?
    ensures r.Success? ==> |r.value| <= Max0(nUpdates)
    ensures r.Success? && -1 + StepSum(h, Reader(BytesToBits(bytes), 0), c, Max0(nUpdates)) <= I32_MAX ==>
      Ascending(r.value)
    ensures r.Success? ==> forall i | 0 <= i < |r.value| :: IsI32(r.value[i].idx)
  {
    var s := EntriesState(-1, [], [], Reader(BytesToBits(bytes), 0));
    ghost var span := -1;
    ghost var left := Max0(nUpdates);
    ghost var total := span + StepSum(h, s.reader, c, left);
    for k := 0 to Max0(nUpdates)
      invariant Tracks(s, span) && |s.items| <= k
      invariant left == Max0(nUpdates) - k && span + StepSum(h, s.reader, c, left) == total
    {
      ghost var step := IndexStep(s.reader).0;
      s :- NextEntries(h, s, c, span, left, total);
      span, left := span + step, left - 1;
    }
    r := Success(s.items);
  }

  /**
   * `parse_string_table`: the entries are read, the players and baselines
   * they carry are registered, and exactly one table is appended.
   */
  method ParseStringTable(h: TableHooks, s: TableState, bytes: seq<Byte>, nUpdates: int, c: TableConfig)
    returns (r: Result<TableState, DemoParserError>)
    ensures r.Failure? ==> r.error == MalformedMessage || r.error.FailedByteRead?
    ensures r.Success? ==>
      && |r.value.stringTables| == |s.stringTables| + 1
      && r.value.stringTables[..|s.stringTables|] == s.stringTables
      && r.value.stringTables[|s.stringTables|].config == c
      && |r.value.stringTables[|s.stringTables|].data| <= Max0(nUpdates)
    ensures r.Success? && c.name != USERINFO ==> r.value.players == s.players
    ensures r.Success? && c.name != INSTANCE_BASELINE ==> r.value.baselines == s.baselines
    ensures r.Success? ==> forall u | u in r.value.players && u !in s.players :: 0 <= u < 0x100 && r.value.players[u].steamid != 0
  {
    var entries := ParseEntries(h, bytes, nUpdates, c);
    if entries.Failure? {
      return Failure(entries.error);
    }
    var items := entries.value;
    var registered := Register(h, s, c.name, items);
    r := Success(registered.(stringTables := s.stringTables + [StringTable(c, items)]));
  }

  // ---------------------------------------------------------------------
  // Create and update messages
  // ---------------------------------------------------------------------

  function ConfigOf(m: CreateMsg): TableConfig {
    TableConfig(m.name, m.userDataFixedSize, m.userDataSize, m.flags, m.usingVarintBitcounts)
  }

  /** The string data of a create message, decompressed when it says so. */
  function CreateData(h: TableHooks, m: CreateMsg): (r: Result<seq<Byte>, DemoParserError>)
    ensures !m.dataCompressed ==> r == Success(m.stringData)
    ensures r.Failure? ==> r.error == MalformedMessage
  {
    if m.dataCompressed then
      match h.decompress(m.stringData)
      case None => Failure(MalformedMessage)
      case Some(d) => Success(d)
    else Success(m.stringData)
  }

  /**
   * The first pass's `parse_create_stringtable`: only the "userinfo" and
   * "instancebaseline" tables are read; any other table is not recorded.
   */
  method ParseCreateStringTableFirst(h: TableHooks, s: TableState, msg: Option<CreateMsg>)
    returns (r: Result<TableState, DemoParserError>)
    ensures msg.None? ==> r == Failure(MalformedMessage)
    ensures msg.Some? && msg.value.name != USERINFO && msg.value.name != INSTANCE_BASELINE ==> r == Success(s)
    ensures r.Success? && msg.Some? && (msg.value.name == USERINFO || msg.value.name == INSTANCE_BASELINE) ==>
      |r.value.stringTables| == |s.stringTables| + 1 && r.value.stringTables[|s.stringTables|].config == ConfigOf(msg.value)
  {
    if msg.None? {
      return Failure(MalformedMessage);
    }
    var m := msg.value;
    if !(m.name == INSTANCE_BASELINE || m.name == USERINFO) {
      return Success(s);
    }
    var data := CreateData(h, m);
    if data.Failure? {
      return Failure(data.error);
    }
    r := ParseStringTable(h, s, data.value, m.numEntries, ConfigOf(m));
  }

  /** The second pass's `parse_create_stringtable`: every table is read and recorded. */
  method ParseCreateStringTableSecond(h: TableHooks, s: TableState, msg: Option<CreateMsg>)
    returns (r: Result<TableState, DemoParserError>)
    ensures msg.None? ==> r == Failure(MalformedMessage)
    ensures r.Success? && msg.Some? ==>
      |r.value.stringTables| == |s.stringTables| + 1 && r.value.stringTables[|s.stringTables|].config == ConfigOf(msg.value)
  {
    if msg.None? {
      return Failure(MalformedMessage);
    }
    var m := msg.value;
    var data := CreateData(h, m);
    if data.Failure? {
      return Failure(data.error);
    }
    r := ParseStringTable(h, s, data.value, m.numEntries, ConfigOf(m));
  }

  /** Whether an update's `table_id as usize` names a recorded table. */
  predicate KnownTable(s: TableState, tableId: int) {
    0 <= tableId < |s.stringTables|
  }

  /**
   * The first pass's `update_string_table`: the update is read with the
   * named table's settings and appended as a table of its own; an unknown
   * table id is StringTableNotFound.
   */
  method UpdateStringTableFirst(h: TableHooks, s: TableState, msg: Option<UpdateMsg>)
    returns (r: Result<TableState, DemoParserError>)
    ensures msg.None? ==> r == Failure(MalformedMessage)
    ensures msg.Some? && !KnownTable(s, msg.value.tableId) ==> r == Failure(StringTableNotFound)
    ensures r.Success? ==>
      && msg.Some? && KnownTable(s, msg.value.tableId)
      && |r.value.stringTables| == |s.stringTables| + 1
      && r.value.stringTables[|s.stringTables|].config == s.stringTables[msg.value.tableId].config
  {
    if msg.None? {
      return Failure(MalformedMessage);
    }
    var m := msg.value;
    if !KnownTable(s, m.tableId) {
      return Failure(StringTableNotFound);
    }
    r := ParseStringTable(h, s, m.stringData, m.numChangedEntries, s.stringTables[m.tableId].config);
  }

  /** The second pass's `update_string_table`: as the first pass's, except that an unknown table id is ignored. */
  method UpdateStringTableSecond(h: TableHooks, s: TableState, msg: Option<UpdateMsg>)
    returns (r: Result<TableState, DemoParserError>)
    ensures msg.None? ==> r == Failure(MalformedMessage)
    ensures msg.Some? && !KnownTable(s, msg.value.tableId) ==> r == Success(s)
    ensures r.Success? && msg.Some? && KnownTable(s, msg.value.tableId) ==>
      && |r.value.stringTables| == |s.stringTables| + 1
      && r.value.stringTables[|s.stringTables|].config == s.stringTables[msg.value.tableId].config
  {
    if msg.None? {
      return Failure(MalformedMessage);
    }
    var m := msg.value;
    if !KnownTable(s, m.tableId) {
      return Success(s);
    }
    r := ParseStringTable(h, s, m.stringData, m.numChangedEntries, s.stringTables[m.tableId].config);
  }
}
