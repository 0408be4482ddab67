/**
 * The property decoders of second_pass/decoder.rs: the `Decoder` enum and
 * `Bitreader::decode`, which reads one property value of the decoder's
 * kind from the bit stream.
 *
 * The integer, boolean and string arms are modelled exactly, and so are
 * the two raw-`f32` arms (`NoscaleDecoder`, `VectorNoscaleDecoder`), which
 * only reinterpret 32-bit patterns.  Every other floating-point arm is
 * delegated to a `FloatArms` function given as a parameter.
 */
module Decoders {
  import opened Wrappers
  import opened Ints
  import opened Errors
  import opened BitReader
  import opened Variants
  import ReadBytes
  import opened Utf8

  /**
   * The decoders a field can carry.  The quantized-float index is a key of
   * the quantized-float map; the source narrows it to `u8` when it builds
   * the decoder, and `Sendtables.FindFloatDecoder` makes that narrowing
   * explicit.
   */
  datatype Decoder =
    | QuantalizedFloatDecoder(qfIdx: nat)
    | VectorNormalDecoder
    | VectorNoscaleDecoder
    | VectorFloatCoordDecoder
    | Unsigned64Decoder
    | CentityHandleDecoder
    | NoscaleDecoder
    | BooleanDecoder
    | StringDecoder
    | SignedDecoder
    | UnsignedDecoder
    | ComponentDecoder
    | FloatCoordDecoder
    | FloatSimulationTimeDecoder
    | Fixed64Decoder
    | QanglePitchYawDecoder
    | Qangle3Decoder
    | QangleVarDecoder
    | BaseDecoder
    | AmmoDecoder
    | QanglePresDecoder
    | GameModeRulesDecoder

  /** The arms whose value needs float arithmetic. */
  predicate IsFloatArm(d: Decoder) {
    d.QuantalizedFloatDecoder? || d.VectorNormalDecoder? || d.VectorFloatCoordDecoder? ||
    d.FloatCoordDecoder? || d.FloatSimulationTimeDecoder? || d.QanglePitchYawDecoder? ||
    d.Qangle3Decoder? || d.QangleVarDecoder? || d.QanglePresDecoder?
  }

  /** The float decoders (quantized floats, bit coords, angles, normals, simulation time). */
  type FloatArms = (Decoder, Reader) -> Result<(Variant, Reader), DemoParserError>

  /** A raw 32-bit read taken as the bit pattern of an `f32` (`f32::from_bits`). */
  function ReadF32Bits(r: Reader): (res: (Float32, Reader))
    ensures res.0 == ReadNBits(r, 32).0 && res.1 == r.(pos := r.pos + 32)
  {
    var (b, r') := ReadNBits(r, 32);
    Pow2Table();
    (b, r')
  }

  /** `decode_ammo`: the varint less one, except that 0 stays 0. */
  function DecodeAmmo(r: Reader): (res: (nat, Reader))
    ensures IsU32(res.0) && res.1 == ReadVarint(r).1
    ensures ReadVarint(r).0 > 0 ==> res.0 + 1 == ReadVarint(r).0
    ensures ReadVarint(r).0 == 0 ==> res.0 == 0
  {
    var (ammo, r') := ReadVarint(r);
    if ammo > 0 then (ammo - 1, r') else (ammo, r')
  }

  /** The value of eight bytes in little-endian order (`from_ne_bytes` on a little-endian host). */
  function U64FromLe(bs: seq<Byte>): (v: nat)
    ensures v < Pow2(8 * |bs|)
  {
    if |bs| == 0 then 0
    else
      assert Pow2(8 * |bs|) == Pow2(8) * Pow2(8 * (|bs| - 1)) by { Pow2Add(8, 8 * (|bs| - 1)); }
      assert Pow2(8) == 256;
      bs[0] + 256 * U64FromLe(bs[1..])
  }

  /** The `n` little-endian bytes of `v`. */
  function LeBytes(v: nat, n: nat): (bs: seq<Byte>)
    ensures |bs| == n
  {
    if n == 0 then [] else [v % 256] + LeBytes(v / 256, n - 1)
  }

  lemma {:induction false} LeBytesRoundTrip(v: nat, n: nat)
    requires v < Pow2(8 * n)
    ensures U64FromLe(LeBytes(v, n)) == v
  {
    if n > 0 {
      assert Pow2(8 * n) == Pow2(8) * Pow2(8 * (n - 1)) by { Pow2Add(8, 8 * (n - 1)); }
      assert Pow2(8) == 256;
      LeBytesRoundTrip(v / 256, n - 1);
      assert LeBytes(v, n)[1..] == LeBytes(v / 256, n - 1);
    }
  }

  /** `decode_uint64`: eight whole bytes, or the byte read's error. */
  function DecodeUint64(r: Reader): (res: Result<(nat, Reader), DemoParserError>)
    ensures res.Failure? <==> BitsRemaining(r) < 64
    ensures res.Failure? ==> res.error == FailedByteRead(BitsRemaining(r) / 8, 8)
    ensures res.Success? ==> res.value.0 < U64_LIMIT && res.value.1 == r.(pos := r.pos + 64)
  {
    var (bytes, r') :- ReadNBytes(r, 8);
    Pow2Table();
    Success((U64FromLe(bytes), r'))
  }

  // ---------------------------------------------------------------- strings

  /**
   * The byte loop of `read_string`: 8-bit reads up to and including the
   * first zero byte, which is not kept.  Zero bits past the end of the
   * stream end the loop.
   */
  function ReadStringBytes(r: Reader): (res: (seq<Byte>, Reader))
    ensures res.1.bits == r.bits && res.1.pos == r.pos + 8 * (|res.0| + 1)
    ensures forall i :: 0 <= i < |res.0| ==> res.0[i] != 0
    decreases BitsRemaining(r)
  {
    var (c, r1) := ReadNBits(r, 8);
    assert Pow2(8) == 256;
    if c == 0 then ([], r1)
    else
      NonzeroReadIsInside(r, 8);
      var (rest, r2) := ReadStringBytes(r1);
      ([c as Byte] + rest, r2)
  }

  /**
   * `read_string`: the bytes up to the zero terminator, decoded by
   * `String::from_utf8_lossy`.  The terminator is consumed and is never
   * part of the string.
   */
  function ReadString(r: Reader): (res: (string, Reader))
    ensures res.1 == ReadStringBytes(r).1
    ensures '\0' !in res.0
  {
    var (bs, r') := ReadStringBytes(r);
    LossyZeroFree(bs);
    (Lossy(bs), r')
  }

  lemma ByteAtZero(r: Reader)
    ensures ByteAt(r, 0) == ReadNBits(r, 8).0
  {
    assert Reader(r.bits, r.pos + 8 * 0) == r;
  }

  lemma ByteAtNext(r: Reader, i: nat)
    ensures ByteAt(Reader(r.bits, r.pos + 8), i) == ByteAt(r, i + 1)
  {
    assert r.pos + 8 + 8 * i == r.pos + 8 * (i + 1);
  }

  /**
   * When the bytes under the cursor are a zero-free `s` and then a zero,
   * the string loop returns `s` and stops just past the zero.
   */
  lemma {:induction false} ReadStringOfReads(r: Reader, s: seq<Byte>, end: nat)
    requires ZeroFree(s) && ByteAt(r, |s|) == 0 && end == r.pos + 8 * (|s| + 1)
    requires forall i {:trigger ByteAt(r, i)} :: 0 <= i < |s| ==> ByteAt(r, i) == s[i]
    ensures ReadStringBytes(r) == (s, Reader(r.bits, end))
    decreases |s|
  {
    ByteAtZero(r);
    if |s| == 0 {
      ReadStringEmpty(r, s, end);
    } else {
      var r1 := Reader(r.bits, r.pos + 8);
      forall i | 0 <= i < |s[1..]|
        ensures ByteAt(r1, i) == s[1..][i]
      {
        ByteAtNext(r, i);
      }
      ByteAtNext(r, |s| - 1);
      ReadStringOfReads(r1, s[1..], end);
      ReadStringCons(r, s, r1, end);
    }
  }

  lemma ReadStringEmpty(r: Reader, s: seq<Byte>, end: nat)
    requires |s| == 0 && ReadNBits(r, 8).0 == 0 && end == r.pos + 8
    ensures ReadStringBytes(r) == (s, Reader(r.bits, end))
  {
    assert s == [];
    ReadStringStops(r);
  }

  lemma ReadStringCons(r: Reader, s: seq<Byte>, r1: Reader, end: nat)
    requires |s| > 0 && ReadNBits(r, 8).0 == s[0] && s[0] != 0 && r1 == Reader(r.bits, r.pos + 8)
    requires ReadStringBytes(r1) == (s[1..], Reader(r.bits, end))
    ensures ReadStringBytes(r) == (s, Reader(r.bits, end))
  {
    ReadStringGoesOn(r, s[0], r1);
    ConsTail(s, ReadStringBytes(r1).0);
  }

  lemma ReadStringStops(r: Reader)
    requires ReadNBits(r, 8).0 == 0
    ensures ReadStringBytes(r) == ([], Reader(r.bits, r.pos + 8))
  {
  }

  lemma ReadStringGoesOn(r: Reader, c: Byte, r1: Reader)
    requires ReadNBits(r, 8).0 == c && c != 0 && r1 == Reader(r.bits, r.pos + 8)
    ensures ReadStringBytes(r) == ([c] + ReadStringBytes(r1).0, ReadStringBytes(r1).1)
  {
  }

  lemma ConsTail(s: seq<Byte>, tail: seq<Byte>)
    requires |s| > 0 && tail == s[1..]
    ensures [s[0]] + tail == s
  {
  }

  /**
   * Over a byte buffer: a zero-free byte string followed by its
   * terminator reads back as itself, and the reader ends just past the
   * terminator.
   */
  lemma ReadStringOfBytes(bytes: seq<Byte>, bits: seq<bool>, p: nat, s: seq<Byte>)
    requires bits == BytesToBits(bytes) && ZeroFree(s)
    requires p + |s| < |bytes| && bytes[p..p + |s|] == s && bytes[p + |s|] == 0
    ensures ReadStringBytes(Reader(bits, 8 * p)) == (s, Reader(bits, 8 * (p + |s| + 1)))
  {
    var r := Reader(bits, 8 * p);
    var end := 8 * (p + |s| + 1);
    assert end == r.pos + 8 * (|s| + 1);
    ByteAtsOfBytes(bytes, bits, p, r.pos, s);
    ReadStringOfReads(r, s, end);
  }

  lemma ByteAtsOfBytes(bytes: seq<Byte>, bits: seq<bool>, p: nat, pos: nat, s: seq<Byte>)
    requires bits == BytesToBits(bytes) && pos == 8 * p
    requires p + |s| < |bytes| && bytes[p..p + |s|] == s && bytes[p + |s|] == 0
    ensures ByteAt(Reader(bits, pos), |s|) == 0
    ensures forall i {:trigger ByteAt(Reader(bits, pos), i)} :: 0 <= i < |s| ==> ByteAt(Reader(bits, pos), i) == s[i]
  {
    forall i | 0 <= i < |s|
      ensures ByteAt(Reader(bits, pos), i) == s[i]
    {
      ByteAtOfBytes(bytes, bits, p, pos, i);
      assert bytes[p..p + |s|][i] == bytes[p + i];
    }
    ByteAtOfBytes(bytes, bits, p, pos, |s|);
  }

  // ---------------------------------------------------------------- decode

  /**
   * `Bitreader::decode`.  The integer arms: Unsigned, Base and
   * CentityHandle read a u32 varint, Signed a ZigZag i32, Unsigned64 a u64
   * varint, Fixed64 eight little-endian bytes, Ammo the ammo varint and
   * GameModeRules seven bits; Boolean and Component read one bit.  A
   * quantized float whose index has no entry in the quantized-float map
   * is MalformedMessage.
   */
  function Decode(r: Reader, d: Decoder, qfKeys: set<nat>, floats: FloatArms): (res: Result<(Variant, Reader), DemoParserError>)
    ensures res.Success? && !IsFloatArm(d) ==> res.value.1.bits == r.bits
    ensures d.QuantalizedFloatDecoder? && d.qfIdx !in qfKeys ==> res == Failure(MalformedMessage)
  {
    match d
    case NoscaleDecoder => var (f, r') := ReadF32Bits(r); Success((F32(f), r'))
    case UnsignedDecoder => var (v, r') := ReadVarint(r); Success((U32(v), r'))
    case BaseDecoder => var (v, r') := ReadVarint(r); Success((U32(v), r'))
    case CentityHandleDecoder => var (v, r') := ReadVarint(r); Success((U32(v), r'))
    case QuantalizedFloatDecoder(idx) => if idx in qfKeys then floats(d, r) else Failure(MalformedMessage)
    case SignedDecoder => var (v, r') := ReadVarint32(r); Success((I32(v), r'))
    case VectorNoscaleDecoder =>
      var (x, r1) := ReadF32Bits(r);
      var (y, r2) := ReadF32Bits(r1);
      var (z, r3) := ReadF32Bits(r2);
      Success((VecXYZ(Vec3(x, y, z)), r3))
    case BooleanDecoder => var (b, r') := ReadBoolean(r); Success((Bool(b), r'))
    case ComponentDecoder => var (b, r') := ReadBoolean(r); Success((Bool(b), r'))
    case StringDecoder => var (s, r') := ReadString(r); Success((String(s), r'))
    case Unsigned64Decoder => var (v, r') :- ReadVarintU64(r); Success((U64(v), r'))
    case Fixed64Decoder => var (v, r') :- DecodeUint64(r); Success((U64(v), r'))
    case AmmoDecoder => var (v, r') := DecodeAmmo(r); Success((U32(v), r'))
    case GameModeRulesDecoder => var (v, r') := ReadNBits(r, 7); Success((U32(v), r'))
    case _ => floats(d, r)
  }

  lemma DecodeStringArm(r: Reader, qfKeys: set<nat>, floats: FloatArms)
    ensures Decode(r, StringDecoder, qfKeys, floats)
         == Success((String(Lossy(ReadStringBytes(r).0)), ReadStringBytes(r).1))
  {
  }

  lemma DecodeVarintArm(r: Reader, d: Decoder, qfKeys: set<nat>, floats: FloatArms)
    requires IsU32VarintArm(d)
    ensures Decode(r, d, qfKeys, floats) == Success((U32(ReadVarint(r).0), ReadVarint(r).1))
  {
  }

  lemma DecodeSignedArm(r: Reader, qfKeys: set<nat>, floats: FloatArms)
    ensures Decode(r, SignedDecoder, qfKeys, floats) == Success((I32(ReadVarint32(r).0), ReadVarint32(r).1))
  {
  }

  lemma DecodeAmmoArm(r: Reader, qfKeys: set<nat>, floats: FloatArms)
    ensures Decode(r, AmmoDecoder, qfKeys, floats) == Success((U32(DecodeAmmo(r).0), DecodeAmmo(r).1))
  {
  }

  lemma DecodeFixed64Arm(r: Reader, qfKeys: set<nat>, floats: FloatArms)
    ensures DecodeUint64(r).Success? ==>
      Decode(r, Fixed64Decoder, qfKeys, floats) == Success((U64(DecodeUint64(r).value.0), DecodeUint64(r).value.1))
    ensures DecodeUint64(r).Failure? ==> Decode(r, Fixed64Decoder, qfKeys, floats).Failure?
  {
  }

  /** The arms that read a plain u32 varint. */
  predicate IsU32VarintArm(d: Decoder) {
    d.UnsignedDecoder? || d.BaseDecoder? || d.CentityHandleDecoder?
  }

  /** A u32 written as a varint decodes back to itself under Unsigned, Base and CentityHandle. */
  lemma DecodeU32RoundTrip(bytes: seq<Byte>, ptr: nat, v: nat, d: Decoder, qfKeys: set<nat>, floats: FloatArms)
    requires IsU32VarintArm(d) && IsU32(v)
    requires ptr + |ReadBytes.Leb128(v)| <= |bytes| && bytes[ptr..ptr + |ReadBytes.Leb128(v)|] == ReadBytes.Leb128(v)
    ensures Decode(Reader(BytesToBits(bytes), 8 * ptr), d, qfKeys, floats)
         == Success((U32(v), Reader(BytesToBits(bytes), 8 * (ptr + |ReadBytes.Leb128(v)|))))
  {
    DecodeVarintArm(Reader(BytesToBits(bytes), 8 * ptr), d, qfKeys, floats);
    ReadVarintRoundTrip(bytes, ptr, v);
  }

  /** An i32 written as the varint of its ZigZag code decodes back to itself under Signed. */
  lemma DecodeSignedRoundTrip(bytes: seq<Byte>, ptr: nat, n: int, qfKeys: set<nat>, floats: FloatArms)
    requires IsI32(n)
    requires var enc := ReadBytes.Leb128(ZigZagEncode(n));
      ptr + |enc| <= |bytes| && bytes[ptr..ptr + |enc|] == enc
    ensures Decode(Reader(BytesToBits(bytes), 8 * ptr), SignedDecoder, qfKeys, floats)
         == Success((I32(n), Reader(BytesToBits(bytes), 8 * (ptr + |ReadBytes.Leb128(ZigZagEncode(n))|))))
  {
    var r := Reader(BytesToBits(bytes), 8 * ptr);
    DecodeSignedArm(r, qfKeys, floats);
    ReadVarintRoundTrip(bytes, ptr, ZigZagEncode(n));
    SignedOfVarint(r, n);
  }

  lemma SignedOfVarint(r: Reader, n: int)
    requires IsI32(n) && ReadVarint(r).0 == ZigZagEncode(n)
    ensures ReadVarint32(r).0 == n
  {
    ZigZagDecodeEncode(n);
  }

  /** A u64 written as a varint decodes back to itself under Unsigned64. */
  lemma DecodeU64RoundTrip(bytes: seq<Byte>, ptr: nat, v: nat, qfKeys: set<nat>, floats: FloatArms)
    requires v < U64_LIMIT
    requires ptr + |ReadBytes.Leb128(v)| <= |bytes| && bytes[ptr..ptr + |ReadBytes.Leb128(v)|] == ReadBytes.Leb128(v)
    ensures Decode(Reader(BytesToBits(bytes), 8 * ptr), Unsigned64Decoder, qfKeys, floats)
         == Success((U64(v), Reader(BytesToBits(bytes), 8 * (ptr + |ReadBytes.Leb128(v)|))))
  {
    ReadVarintU64RoundTrip(bytes, ptr, v);
  }

  /** A u64 stored as eight little-endian bytes decodes back to itself under Fixed64, consuming exactly those bytes. */
  lemma DecodeFixed64RoundTrip(bytes: seq<Byte>, ptr: nat, v: nat, qfKeys: set<nat>, floats: FloatArms)
    requires v < U64_LIMIT && ptr + 8 <= |bytes| && bytes[ptr..ptr + 8] == LeBytes(v, 8)
    ensures Decode(Reader(BytesToBits(bytes), 8 * ptr), Fixed64Decoder, qfKeys, floats)
         == Success((U64(v), Reader(BytesToBits(bytes), 8 * (ptr + 8))))
  {
    var bits := BytesToBits(bytes);
    DecodeFixed64Arm(Reader(bits, 8 * ptr), qfKeys, floats);
    ReadNBytesOfBytes(bytes, bits, ptr, 8 * ptr, 8, ptr + 8, 8 * (ptr + 8));
    Pow2Table();
    LeBytesRoundTrip(v, 8);
  }

  /** Fewer than eight bytes left is a failed byte read under Fixed64. */
  lemma DecodeFixed64Short(bytes: seq<Byte>, ptr: nat, qfKeys: set<nat>, floats: FloatArms)
    requires ptr <= |bytes| && ptr + 8 > |bytes|
    ensures Decode(Reader(BytesToBits(bytes), 8 * ptr), Fixed64Decoder, qfKeys, floats).Failure?
  {
    var r := Reader(BytesToBits(bytes), 8 * ptr);
    DecodeFixed64Arm(r, qfKeys, floats);
    RemainingOfBytes(bytes, r.bits, ptr, r.pos, 8);
  }

  /** An ammo count `a` is stored as the varint of `a + 1`; a raw 0 also reads as 0. */
  lemma DecodeAmmoRoundTrip(bytes: seq<Byte>, ptr: nat, a: nat, qfKeys: set<nat>, floats: FloatArms)
    requires IsU32(a + 1)
    requires ptr + |ReadBytes.Leb128(a + 1)| <= |bytes| && bytes[ptr..ptr + |ReadBytes.Leb128(a + 1)|] == ReadBytes.Leb128(a + 1)
    ensures Decode(Reader(BytesToBits(bytes), 8 * ptr), AmmoDecoder, qfKeys, floats)
         == Success((U32(a), Reader(BytesToBits(bytes), 8 * (ptr + |ReadBytes.Leb128(a + 1)|))))
  {
    DecodeAmmoArm(Reader(BytesToBits(bytes), 8 * ptr), qfKeys, floats);
    ReadVarintRoundTrip(bytes, ptr, a + 1);
  }

  /** Boolean and Component read exactly the next bit. */
  lemma DecodeBoolRoundTrip(pre: seq<bool>, b: bool, post: seq<bool>, d: Decoder, qfKeys: set<nat>, floats: FloatArms)
    requires d.BooleanDecoder? || d.ComponentDecoder?
    ensures Decode(Reader(pre + [b] + post, |pre|), d, qfKeys, floats) == Success((Bool(b), Reader(pre + [b] + post, |pre| + 1)))
  {
    assert (pre + [b] + post)[|pre|] == b;
  }

  /** GameModeRules reads exactly seven bits as an unsigned value. */
  lemma DecodeGameModeRulesRoundTrip(pre: seq<bool>, v: nat, post: seq<bool>, qfKeys: set<nat>, floats: FloatArms)
    requires v < 128
    ensures Decode(Reader(pre + Bits(v, 7) + post, |pre|), GameModeRulesDecoder, qfKeys, floats)
         == Success((U32(v), Reader(pre + Bits(v, 7) + post, |pre| + 7)))
  {
    Pow2Table();
    ReadNBitsOfBits(pre, v, 7, post);
  }

  /** A string without U+0000 written as UTF-8 bytes and a terminator reads back as itself. */
  lemma ReadStringOfString(bytes: seq<Byte>, ptr: nat, s: string)
    requires '\0' !in s
    requires ptr + |Encode(s)| < |bytes| && bytes[ptr..ptr + |Encode(s)|] == Encode(s) && bytes[ptr + |Encode(s)|] == 0
    ensures ReadString(Reader(BytesToBits(bytes), 8 * ptr)) == (s, Reader(BytesToBits(bytes), 8 * (ptr + |Encode(s)| + 1)))
  {
    EncodeZeroFree(s);
    LossyEncode(s);
    ReadStringOfEncoded(bytes, ptr, Encode(s), s);
  }

  lemma ReadStringOfEncoded(bytes: seq<Byte>, ptr: nat, e: seq<Byte>, s: string)
    requires ZeroFree(e) && Lossy(e) == s
    requires ptr + |e| < |bytes| && bytes[ptr..ptr + |e|] == e && bytes[ptr + |e|] == 0
    ensures ReadString(Reader(BytesToBits(bytes), 8 * ptr)) == (s, Reader(BytesToBits(bytes), 8 * (ptr + |e| + 1)))
  {
    ReadStringOfBytes(bytes, BytesToBits(bytes), ptr, e);
  }

  /**
   * Any string without U+0000, written as its UTF-8 bytes and a zero
   * terminator, decodes back to that string under String, and the reader
   * ends just past the terminator.
   */
  lemma DecodeStringRoundTrip(bytes: seq<Byte>, ptr: nat, s: string, qfKeys: set<nat>, floats: FloatArms)
    requires '\0' !in s
    requires ptr + |Encode(s)| < |bytes| && bytes[ptr..ptr + |Encode(s)|] == Encode(s) && bytes[ptr + |Encode(s)|] == 0
    ensures Decode(Reader(BytesToBits(bytes), 8 * ptr), StringDecoder, qfKeys, floats)
         == Success((String(s), Reader(BytesToBits(bytes), 8 * (ptr + |Encode(s)| + 1))))
  {
    var r := Reader(BytesToBits(bytes), 8 * ptr);
    ReadStringOfString(bytes, ptr, s);
    DecodeStringArm(r, qfKeys, floats);
  }
}
