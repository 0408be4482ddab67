/**
 * Voice data to WAV (second_pass/voice_data.rs): voice messages are
 * grouped by speaker, each speaker's packets are decoded in stream order
 * into 16-bit mono samples, and every speaker gets a 44-byte RIFF/WAVE
 * header followed by the little-endian samples.
 *
 * The opus decoder is not modelled: it is a state machine given as a
 * parameter, one fresh instance per speaker as in the source.  The order
 * in which speakers come out is the hash map's, also a parameter.
 */
module VoiceData {
  import opened Wrappers
  import opened Ints
  import opened Errors
  import opened Text
  import Decoders

  /** `VoiceDataFormat_t`. */
  datatype VoiceFormat = FormatSteam | FormatEngine | FormatOpus

  datatype Audio = Audio(format: VoiceFormat, voiceData: seq<Byte>)

  /** `CSVCMsg_VoiceData`: the speaker's xuid and, possibly, audio. */
  datatype VoiceMsg = VoiceMsg(xuid: nat, audio: Option<Audio>)

  type I16 = x: int | -0x8000 <= x < 0x8000

  /** The sample buffer `parse_voice_chunk_new_format` hands the decoder. */
  const DECODE_BUFFER_LEN: nat := 1024

  /**
   * An opus decoder: from its state and a packet, the sample count it
   * reports, the samples it wrote and its next state; None on error.
   */
  datatype Codec<!S> = Codec(init: S, decode: (S, seq<Byte>) -> Option<(nat, seq<I16>, S)>)

  // ---------------------------------------------------------------------
  // Little-endian encodings
  // ---------------------------------------------------------------------

  /** `i16::to_le_bytes`. */
  function I16Le(x: I16): (bs: seq<Byte>)
    ensures |bs| == 2
  {
    Decoders.LeBytes(if x >= 0 then x else x + U16_LIMIT, 2)
  }

  /** Reading two little-endian bytes back as an `i16`. */
  function I16FromLe(bs: seq<Byte>): int
    requires |bs| == 2
  {
    var u := Decoders.U64FromLe(bs);
    if u < 0x8000 then u else u - U16_LIMIT
  }

  lemma I16RoundTrip(x: I16)
    ensures I16FromLe(I16Le(x)) == x
  {
    Pow2Table();
    Decoders.LeBytesRoundTrip(if x >= 0 then x else x + U16_LIMIT, 2);
  }

  /** The samples, two little-endian bytes each (`flat_map(|x| x.to_le_bytes())`). */
  function SamplesLe(samples: seq<I16>): (bs: seq<Byte>)
    ensures |bs| == 2 * |samples|
  {
    if |samples| == 0 then [] else I16Le(samples[0]) + SamplesLe(samples[1..])
  }

  /** Bytes `2k` and `2k + 1` of the encoding are sample `k`. */
  lemma {:induction false} SamplesLeRoundTrip(samples: seq<I16>, k: nat)
    requires k < |samples|
    ensures I16FromLe(SamplesLe(samples)[2 * k..2 * k + 2]) == samples[k]
  {
    var bs := SamplesLe(samples);
    if k == 0 {
      assert bs[0..2] == I16Le(samples[0]);
      I16RoundTrip(samples[0]);
    } else {
      SamplesLeRoundTrip(samples[1..], k - 1);
      assert bs[2 * k..2 * k + 2] == SamplesLe(samples[1..])[2 * (k - 1)..2 * (k - 1) + 2];
    }
  }

  /** The bytes of a four-letter ASCII tag. */
  function Tag(s: string): seq<Byte>
    requires |s| == 4 && forall i | 0 <= i < 4 :: s[i] as int < 256
  {
    seq(4, i requires 0 <= i < 4 => s[i] as int)
  }

  // ---------------------------------------------------------------------
  // generate_wav_header
  // ---------------------------------------------------------------------

  /** "RIFF", the size of what follows (`36 + data_size`, wrapping at 32 bits), "WAVE". */
  function RiffChunk(dataSize: nat): (c: seq<Byte>)
    ensures |c| == 12
  {
    Tag("RIFF") + Decoders.LeBytes(WrapU32(36 + dataSize), 4) + Tag("WAVE")
  }

  /**
   * The PCM format chunk; the byte-rate product wraps at 32 bits and the
   * block-align product at 16 bits, as release builds compute them.
   */
  function ByteRate(channels: nat, rate: nat, bits: nat): (v: nat)
    ensures IsU32(v)
  {
    WrapU32(rate * channels * bits) / 8
  }

  function BlockAlign(channels: nat, bits: nat): (v: nat)
    ensures v < U16_LIMIT
  {
    ((channels * bits) % U16_LIMIT) / 8
  }

  /** The first half of the format chunk: its tag, size, PCM format code and channel count. */
  function FmtHead(channels: nat): (c: seq<Byte>)
    ensures |c| == 12
  {
    Tag("fmt ") + Decoders.LeBytes(16, 4) + Decoders.LeBytes(1, 2) + Decoders.LeBytes(channels, 2)
  }

  /** The second half: sample rate, byte rate, block align and sample width. */
  function FmtRates(rate: nat, byteRate: nat, align: nat, bits: nat): (c: seq<Byte>)
    ensures |c| == 12
  {
    Decoders.LeBytes(rate, 4) + Decoders.LeBytes(byteRate, 4) + Decoders.LeBytes(align, 2) + Decoders.LeBytes(bits, 2)
  }

  function DataChunkHeader(dataSize: nat): (c: seq<Byte>)
    ensures |c| == 8
  {
    Tag("data") + Decoders.LeBytes(dataSize, 4)
  }

  /** `generate_wav_header`: the 44-byte RIFF/WAVE PCM header. */
  function WavHeader(channels: nat, rate: nat, bits: nat, dataSize: nat): (h: seq<Byte>)
    ensures |h| == 44
  {
    WavBytes(channels, rate, ByteRate(channels, rate, bits), BlockAlign(channels, bits), bits, dataSize)
  }

  /** The four chunks of the header, laid end to end. */
  function WavBytes(channels: nat, rate: nat, byteRate: nat, align: nat, bits: nat, dataSize: nat): (h: seq<Byte>)
    ensures |h| == 44
  {
    RiffChunk(dataSize) + FmtHead(channels) + FmtRates(rate, byteRate, align, bits) + DataChunkHeader(dataSize)
  }

  /** The little-endian value of `h[at..at + n]`. */
  function FieldAt(h: seq<Byte>, at: nat, n: nat): nat
    requires at + n <= |h|
  {
    Decoders.U64FromLe(h[at..at + n])
  }

  /** A field holding `n` little-endian bytes of `v` reads back as `v`. */
  lemma LeField(c: seq<Byte>, at: nat, v: nat, n: nat)
    requires n == 2 || n == 4
    requires if n == 2 then v < U16_LIMIT else IsU32(v)
    requires at + n <= |c| && c[at..at + n] == Decoders.LeBytes(v, n)
    ensures FieldAt(c, at, n) == v
  {
    Pow2Table();
    Decoders.LeBytesRoundTrip(v, n);
  }

  /** Where each of four concatenated parts lies in the whole. */
  lemma Pieces4(a: seq<Byte>, b: seq<Byte>, c: seq<Byte>, d: seq<Byte>)
    ensures var s := a + b + c + d;
      s[0..|a|] == a && s[|a|..|a| + |b|] == b &&
      s[|a| + |b|..|a| + |b| + |c|] == c && s[|a| + |b| + |c|..|s|] == d
  {
  }

  /** A field inside a part is the field of the whole, shifted by the part's start. */
  lemma FieldInPart(h: seq<Byte>, lo: nat, part: seq<Byte>, at: nat, n: nat)
    requires lo + |part| <= |h| && h[lo..lo + |part|] == part && at + n <= |part|
    ensures h[lo + at..lo + at + n] == part[at..at + n]
    ensures FieldAt(h, lo + at, n) == FieldAt(part, at, n)
  {
    var whole, sub := h[lo + at..lo + at + n], part[at..at + n];
    forall i | 0 <= i < n
      ensures whole[i] == sub[i]
    {
      assert h[lo..lo + |part|][at + i] == h[lo + at + i];
    }
    assert whole == sub;
  }

  lemma RiffChunkLayout(dataSize: nat)
    ensures var c := RiffChunk(dataSize);
      c[0..4] == Tag("RIFF") && FieldAt(c, 4, 4) == WrapU32(36 + dataSize) && c[8..12] == Tag("WAVE")
  {
    var c := RiffChunk(dataSize);
    Pieces4(Tag("RIFF"), Decoders.LeBytes(WrapU32(36 + dataSize), 4), Tag("WAVE"), []);
    assert c + [] == c;
    LeField(c, 4, WrapU32(36 + dataSize), 4);
  }

  lemma FmtHeadLayout(channels: nat)
    requires channels < U16_LIMIT
    ensures var c := FmtHead(channels);
      c[0..4] == Tag("fmt ") && FieldAt(c, 4, 4) == 16 && FieldAt(c, 8, 2) == 1 && FieldAt(c, 10, 2) == channels
  {
    var c := FmtHead(channels);
    Pieces4(Tag("fmt "), Decoders.LeBytes(16, 4), Decoders.LeBytes(1, 2), Decoders.LeBytes(channels, 2));
    LeField(c, 4, 16, 4);
    LeField(c, 8, 1, 2);
    LeField(c, 10, channels, 2);
  }

  lemma FmtRatesLayout(rate: nat, byteRate: nat, align: nat, bits: nat)
    requires bits < U16_LIMIT && IsU32(rate) && IsU32(byteRate) && align < U16_LIMIT
    ensures var c := FmtRates(rate, byteRate, align, bits);
      FieldAt(c, 0, 4) == rate && FieldAt(c, 4, 4) == byteRate && FieldAt(c, 8, 2) == align && FieldAt(c, 10, 2) == bits
  {
    var c := FmtRates(rate, byteRate, align, bits);
    Pieces4(Decoders.LeBytes(rate, 4), Decoders.LeBytes(byteRate, 4), Decoders.LeBytes(align, 2), Decoders.LeBytes(bits, 2));
    LeField(c, 0, rate, 4);
    LeField(c, 4, byteRate, 4);
    LeField(c, 8, align, 2);
    LeField(c, 10, bits, 2);
  }

  lemma DataChunkLayout(dataSize: nat)
    requires IsU32(dataSize)
    ensures var c := DataChunkHeader(dataSize);
      c[0..4] == Tag("data") && FieldAt(c, 4, 4) == dataSize
  {
    var c := DataChunkHeader(dataSize);
    Pieces4(Tag("data"), Decoders.LeBytes(dataSize, 4), [], []);
    assert c + [] + [] == c;
    LeField(c, 4, dataSize, 4);
  }

  /** The four chunks sit at offsets 0, 12, 24 and 36 of the header. */
  lemma WavBytesChunks(channels: nat, rate: nat, byteRate: nat, align: nat, bits: nat, dataSize: nat)
    ensures var h := WavBytes(channels, rate, byteRate, align, bits, dataSize);
      h[0..12] == RiffChunk(dataSize) && h[12..24] == FmtHead(channels) &&
      h[24..36] == FmtRates(rate, byteRate, align, bits) && h[36..44] == DataChunkHeader(dataSize)
  {
    Pieces4(RiffChunk(dataSize), FmtHead(channels), FmtRates(rate, byteRate, align, bits), DataChunkHeader(dataSize));
  }

  /*
   * A reader of the header finds every field where the WAVE layout puts
   * it: the RIFF size at 4, PCM format 1 at 20, the channel count at 22,
   * the sample rate at 24, the byte rate at 28, the block align at 32,
   * the sample width at 34 and the data size at 40. One lemma per chunk.
   */

  lemma WavHeaderRiff(channels: nat, rate: nat, bits: nat, dataSize: nat)
    ensures var h := WavHeader(channels, rate, bits, dataSize);
      h[0..4] == Tag("RIFF") && h[8..12] == Tag("WAVE") && FieldAt(h, 4, 4) == WrapU32(36 + dataSize)
  {
    var h := WavBytes(channels, rate, ByteRate(channels, rate, bits), BlockAlign(channels, bits), bits, dataSize);
    WavBytesChunks(channels, rate, ByteRate(channels, rate, bits), BlockAlign(channels, bits), bits, dataSize);
    RiffChunkLayout(dataSize);
    FieldInPart(h, 0, RiffChunk(dataSize), 0, 4);
    FieldInPart(h, 0, RiffChunk(dataSize), 4, 4);
    FieldInPart(h, 0, RiffChunk(dataSize), 8, 4);
  }

  lemma WavHeaderFmt(channels: nat, rate: nat, bits: nat, dataSize: nat)
    requires channels < U16_LIMIT
    ensures var h := WavHeader(channels, rate, bits, dataSize);
      h[12..16] == Tag("fmt ") && FieldAt(h, 16, 4) == 16 && FieldAt(h, 20, 2) == 1 && FieldAt(h, 22, 2) == channels
  {
    var h := WavBytes(channels, rate, ByteRate(channels, rate, bits), BlockAlign(channels, bits), bits, dataSize);
    WavBytesChunks(channels, rate, ByteRate(channels, rate, bits), BlockAlign(channels, bits), bits, dataSize);
    FmtHeadLayout(channels);
    FieldInPart(h, 12, FmtHead(channels), 0, 4);
    FieldInPart(h, 12, FmtHead(channels), 4, 4);
    FieldInPart(h, 12, FmtHead(channels), 8, 2);
    FieldInPart(h, 12, FmtHead(channels), 10, 2);
  }

  lemma WavHeaderRates(channels: nat, rate: nat, bits: nat, dataSize: nat)
    requires bits < U16_LIMIT && IsU32(rate)
    ensures var h := WavHeader(channels, rate, bits, dataSize);
      FieldAt(h, 24, 4) == rate && FieldAt(h, 28, 4) == ByteRate(channels, rate, bits) &&
      FieldAt(h, 32, 2) == BlockAlign(channels, bits) && FieldAt(h, 34, 2) == bits
  {
    var byteRate, align := ByteRate(channels, rate, bits), BlockAlign(channels, bits);
    var h := WavBytes(channels, rate, byteRate, align, bits, dataSize);
    WavBytesChunks(channels, rate, byteRate, align, bits, dataSize);
    FmtRatesLayout(rate, byteRate, align, bits);
    FieldInPart(h, 24, FmtRates(rate, byteRate, align, bits), 0, 4);
    FieldInPart(h, 24, FmtRates(rate, byteRate, align, bits), 4, 4);
    FieldInPart(h, 24, FmtRates(rate, byteRate, align, bits), 8, 2);
    FieldInPart(h, 24, FmtRates(rate, byteRate, align, bits), 10, 2);
  }

  lemma WavHeaderData(channels: nat, rate: nat, bits: nat, dataSize: nat)
    requires IsU32(dataSize)
    ensures var h := WavHeader(channels, rate, bits, dataSize);
      h[36..40] == Tag("data") && FieldAt(h, 40, 4) == dataSize
  {
    var h := WavBytes(channels, rate, ByteRate(channels, rate, bits), BlockAlign(channels, bits), bits, dataSize);
    WavBytesChunks(channels, rate, ByteRate(channels, rate, bits), BlockAlign(channels, bits), bits, dataSize);
    DataChunkLayout(dataSize);
    FieldInPart(h, 36, DataChunkHeader(dataSize), 0, 4);
    FieldInPart(h, 36, DataChunkHeader(dataSize), 4, 4);
  }

  // ---------------------------------------------------------------------
  // Decoding
  // ---------------------------------------------------------------------

  /** The decode buffer after the decoder wrote `written` into its zeros. */
  function Filled(written: seq<I16>): (buf: seq<I16>)
    ensures |buf| == DECODE_BUFFER_LEN
  {
    seq(DECODE_BUFFER_LEN, i requires 0 <= i < DECODE_BUFFER_LEN => if i < |written| then written[i] else 0)
  }

  /**
   * `parse_voice_chunk_new_format`: one decode into a 1024-sample buffer,
   * cut to the count the decoder reports; a decoder error is
   * MalformedVoicePacket.
   */
  function DecodeChunk<S>(codec: Codec<S>, state: S, bytes: seq<Byte>): (r: Result<(seq<I16>, S), DemoParserError>)
    ensures r.Failure? <==> codec.decode(state, bytes).None?
    ensures r.Failure? ==> r.error == MalformedVoicePacket
    ensures r.Success? ==>
      var (n, written, _) := codec.decode(state, bytes).value;
      |r.value.0| == (if n < DECODE_BUFFER_LEN then n else DECODE_BUFFER_LEN) &&
      forall i | 0 <= i < |r.value.0| :: r.value.0[i] == (if i < |written| then written[i] else 0)
  {
    match codec.decode(state, bytes)
    case None => Failure(MalformedVoicePacket)
    case Some((n, written, next)) =>
      var buf := Filled(written);
      Success((if n < |buf| then buf[..n] else buf, next))
  }

  /** The payload bytes of one speaker's packets, decoded in order from `state`. */
  function SpeakerPayload<S>(codec: Codec<S>, state: S, packets: seq<VoiceMsg>): (r: Result<seq<Byte>, DemoParserError>)
    ensures r.Failure? ==> r.error == UnkVoiceFormat || r.error == MalformedVoicePacket
    ensures r.Success? ==> |r.value| % 2 == 0
  {
    if |packets| == 0 then Success([])
    else
      match packets[0].audio
      case None => SpeakerPayload(codec, state, packets[1..])
      case Some(audio) =>
        if audio.format == FormatEngine then Failure(UnkVoiceFormat)
        else
          var (samples, next) :- DecodeChunk(codec, state, audio.voiceData);
          var rest :- SpeakerPayload(codec, next, packets[1..]);
          Success(SamplesLe(samples) + rest)
  }

  /** An Engine-format packet with audio among a speaker's packets. */
  predicate HasEnginePacket(packets: seq<VoiceMsg>) {
    exists i | 0 <= i < |packets| :: packets[i].audio.Some? && packets[i].audio.value.format == FormatEngine
  }

  /** A decoder that never fails. */
  ghost predicate NeverFails<S(!new)>(codec: Codec<S>) {
    forall s, bytes :: codec.decode(s, bytes).Some?
  }

  /**
   * A speaker fails with UnkVoiceFormat if it has an Engine packet, and
   * with a decoder that never fails, only then.
   */
  lemma {:induction false} EnginePacketFails<S(!new)>(codec: Codec<S>, state: S, packets: seq<VoiceMsg>)
    ensures HasEnginePacket(packets) ==> SpeakerPayload(codec, state, packets).Failure?
    ensures NeverFails(codec) ==> (SpeakerPayload(codec, state, packets).Failure? <==> HasEnginePacket(packets))
  {
    if |packets| > 0 {
      assert forall i | 1 <= i < |packets| :: packets[1..][i - 1] == packets[i];
      match packets[0].audio
      case None =>
        EnginePacketFails(codec, state, packets[1..]);
      case Some(audio) =>
        if audio.format != FormatEngine {
          var d := DecodeChunk(codec, state, audio.voiceData);
          if d.Success? {
            EnginePacketFails(codec, d.value.1, packets[1..]);
          }
        }
    }
  }

  // ---------------------------------------------------------------------
  // convert_voice_data_to_wav
  // ---------------------------------------------------------------------

  /** The messages of speaker `xuid`, in stream order. */
  function PacketsOf(msgs: seq<VoiceMsg>, xuid: nat): (r: seq<VoiceMsg>)
    ensures forall i | 0 <= i < |r| :: r[i].xuid == xuid && r[i] in msgs
    ensures forall m | m in msgs && m.xuid == xuid :: m in r
  {
    if |msgs| == 0 then []
    else
      assert msgs == [msgs[0]] + msgs[1..];
      (if msgs[0].xuid == xuid then [msgs[0]] else []) + PacketsOf(msgs[1..], xuid)
  }

  /** Grouping keeps stream order: the packets of a speaker in a concatenation come from each part in turn. */
  lemma {:induction false} PacketsOfKeepsOrder(a: seq<VoiceMsg>, b: seq<VoiceMsg>, xuid: nat)
    ensures PacketsOf(a + b, xuid) == PacketsOf(a, xuid) + PacketsOf(b, xuid)
  {
    if |a| == 0 {
      assert a + b == b;
    } else {
      assert (a + b)[0] == a[0] && (a + b)[1..] == a[1..] + b;
      PacketsOfKeepsOrder(a[1..], b, xuid);
    }
  }

  /** One speaker's WAV file: the header for the payload, then the payload. */
  function SpeakerWav<S>(codec: Codec<S>, packets: seq<VoiceMsg>): (r: Result<seq<Byte>, DemoParserError>)
    ensures r.Failure? <==> SpeakerPayload(codec, codec.init, packets).Failure?
    ensures r.Failure? ==> r.error == SpeakerPayload(codec, codec.init, packets).error
  {
    var payload :- SpeakerPayload(codec, codec.init, packets);
    Success(WavHeader(1, 48000, 16, WrapU32(|payload|)) + payload)
  }

  /**
   * `wav` is the file of speaker `xuid` named `name`: the decimal xuid,
   * then a header announcing the length (modulo 2^32) of the payload that
   * follows it.
   */
  predicate IsSpeakerFile<S>(codec: Codec<S>, msgs: seq<VoiceMsg>, xuid: nat, name: string, wav: seq<Byte>) {
    name == NatToString(xuid) && |wav| >= 44 &&
    wav[..44] == WavHeader(1, 48000, 16, WrapU32(|wav| - 44)) &&
    SpeakerPayload(codec, codec.init, PacketsOf(msgs, xuid)) == Success(wav[44..])
  }

  lemma SpeakerWavSplits<S>(codec: Codec<S>, msgs: seq<VoiceMsg>, xuid: nat, wav: seq<Byte>)
    requires SpeakerWav(codec, PacketsOf(msgs, xuid)) == Success(wav)
    ensures IsSpeakerFile(codec, msgs, xuid, NatToString(xuid), wav)
  {
    var payload := SpeakerPayload(codec, codec.init, PacketsOf(msgs, xuid)).value;
    var h := WavHeader(1, 48000, 16, WrapU32(|payload|));
    assert wav == h + payload;
    assert wav[..44] == h && wav[44..] == payload;
  }

  /** `order` lists each speaker of `msgs` exactly once. */
  ghost predicate ListsSpeakers(msgs: seq<VoiceMsg>, order: seq<nat>) {
    (forall x :: x in order <==> exists i | 0 <= i < |msgs| :: msgs[i].xuid == x) &&
    (forall i, j | 0 <= i < j < |order| :: order[i] != order[j])
  }

  /** A speaker whose packets do not decode. */
  predicate SpeakerFails<S>(codec: Codec<S>, msgs: seq<VoiceMsg>, xuid: nat) {
    SpeakerPayload(codec, codec.init, PacketsOf(msgs, xuid)).Failure?
  }

  /** The per-speaker files, the first error in `order` ending the walk. */
  function CollectSpeakers<S>(codec: Codec<S>, msgs: seq<VoiceMsg>, order: seq<nat>): (r: Result<seq<(string, seq<Byte>)>, DemoParserError>)
    ensures r.Success? ==> |r.value| == |order|
    ensures r.Success? ==> forall k | 0 <= k < |order| :: IsSpeakerFile(codec, msgs, order[k], r.value[k].0, r.value[k].1)
    ensures r.Failure? ==> r.error == UnkVoiceFormat || r.error == MalformedVoicePacket
  {
    if |order| == 0 then Success([])
    else
      var wav :- SpeakerWav(codec, PacketsOf(msgs, order[0]));
      SpeakerWavSplits(codec, msgs, order[0], wav);
      var rest :- CollectSpeakers(codec, msgs, order[1..]);
      Success([(NatToString(order[0]), wav)] + rest)
  }

  /** The walk fails exactly when some listed speaker's packets do not decode. */
  lemma {:induction false} CollectSpeakersFails<S>(codec: Codec<S>, msgs: seq<VoiceMsg>, order: seq<nat>)
    ensures CollectSpeakers(codec, msgs, order).Failure? <==> exists k | 0 <= k < |order| :: SpeakerFails(codec, msgs, order[k])
  {
    if |order| > 0 {
      assert forall k | 1 <= k < |order| :: order[1..][k - 1] == order[k];
      CollectSpeakersFails(codec, msgs, order[1..]);
    }
  }

  /**
   * `convert_voice_data_to_wav`: one WAV per speaker, named by the
   * decimal xuid, whose header announces exactly the payload that follows
   * it (modulo 2^32); any speaker's error is the whole call's error.
   */
  function ConvertVoiceDataToWav<S>(codec: Codec<S>, msgs: seq<VoiceMsg>, order: seq<nat>): (r: Result<seq<(string, seq<Byte>)>, DemoParserError>)
    requires ListsSpeakers(msgs, order)
    ensures r.Failure? <==> exists k | 0 <= k < |order| :: SpeakerFails(codec, msgs, order[k])
    ensures r.Failure? ==> r.error == UnkVoiceFormat || r.error == MalformedVoicePacket
    ensures r.Success? ==> |r.value| == |order|
    ensures r.Success? ==> forall k | 0 <= k < |order| :: IsSpeakerFile(codec, msgs, order[k], r.value[k].0, r.value[k].1)
  {
    CollectSpeakersFails(codec, msgs, order);
    CollectSpeakers(codec, msgs, order)
  }
}
