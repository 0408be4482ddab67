/**
 * The bit-level `Bitreader` of first_pass/read_bits.rs.  The stream is a
 * sequence of bits, least significant bit of each byte first, with a
 * cursor.  The source reads through a little-endian lookahead cache; its
 * `read_nbits` never reports an error and, once the input is exhausted,
 * produces zero bits, so here every bit at or past the end reads as 0.
 */
module BitReader {
  import opened Wrappers
  import opened Ints
  import opened Errors
  import ReadBytes

  datatype Reader = Reader(bits: seq<bool>, pos: nat)

  /** Bit `i` of the stream; zero past the end. */
  function BitAt(bits: seq<bool>, i: nat): bool {
    if i < |bits| then bits[i] else false
  }

  /** The unsigned value of a bit string read least significant bit first. */
  function Value(w: seq<bool>): (v: nat)
    ensures v < Pow2(|w|)
  {
    if |w| == 0 then 0 else (if w[0] then 1 else 0) + 2 * Value(w[1..])
  }

  /** The low `n` bits of `v`, least significant first. */
  function Bits(v: nat, n: nat): (w: seq<bool>)
    ensures |w| == n
  {
    if n == 0 then [] else [v % 2 == 1] + Bits(v / 2, n - 1)
  }

  lemma {:induction false} ValueOfBits(v: nat, n: nat)
    requires v < Pow2(n)
    ensures Value(Bits(v, n)) == v
  {
    if n > 0 {
      ValueOfBits(v / 2, n - 1);
      assert Bits(v, n)[1..] == Bits(v / 2, n - 1);
    }
  }

  lemma {:induction false} BitsOfValue(w: seq<bool>)
    ensures Bits(Value(w), |w|) == w
  {
    if |w| > 0 {
      BitsOfValue(w[1..]);
      var v := Value(w);
      assert v % 2 == 1 <==> w[0];
      assert v / 2 == Value(w[1..]);
    }
  }

  /** Splitting a bit string splits its value at the bit position. */
  lemma {:induction false} ValueAppend(a: seq<bool>, b: seq<bool>)
    ensures Value(a + b) == Value(a) + Pow2(|a|) * Value(b)
  {
    if |a| > 0 {
      assert (a + b)[1..] == a[1..] + b;
      ValueAppend(a[1..], b);
      ValueStep(a + b);
      ValueStep(a);
      AppendArith(if a[0] then 1 else 0, Value(a[1..]), Pow2(|a| - 1), Value(b), Value(a[1..] + b));
    } else {
      assert a + b == b;
    }
  }

  lemma ValueStep(w: seq<bool>)
    requires |w| > 0
    ensures Value(w) == (if w[0] then 1 else 0) + 2 * Value(w[1..])
    ensures Pow2(|w|) == 2 * Pow2(|w| - 1)
  {
  }

  lemma AppendArith(bit: nat, va: nat, p: nat, vb: nat, vab: nat)
    requires vab == va + p * vb
    ensures bit + 2 * vab == (bit + 2 * va) + (2 * p) * vb
  {
  }

  /** The `n` bits at the cursor, zero-filled past the end. */
  function Peek(r: Reader, n: nat): (w: seq<bool>)
    ensures |w| == n
  {
    seq(n, i requires 0 <= i < n => BitAt(r.bits, r.pos + i))
  }

  lemma PeekBits(r: Reader, n: nat)
    ensures forall i :: 0 <= i < n ==> Peek(r, n)[i] == BitAt(r.bits, r.pos + i)
  {
  }

  lemma PeekInRange(r: Reader, n: nat)
    requires r.pos + n <= |r.bits|
    ensures Peek(r, n) == r.bits[r.pos..r.pos + n]
  {
    PeekBits(r, n);
  }

  /** `read_nbits(n)`: the next `n` bits as an unsigned number; never fails. */
  function ReadNBits(r: Reader, n: nat): (res: (nat, Reader))
    ensures res.0 < Pow2(n)
    ensures res.1 == r.(pos := r.pos + n)
  {
    (Value(Peek(r, n)), r.(pos := r.pos + n))
  }

  /** What was written with `Bits` reads back, wherever it sits in the stream. */
  lemma ReadNBitsOfBits(pre: seq<bool>, v: nat, n: nat, post: seq<bool>)
    requires v < Pow2(n)
    ensures ReadNBits(Reader(pre + Bits(v, n) + post, |pre|), n) == (v, Reader(pre + Bits(v, n) + post, |pre| + n))
  {
    var r := Reader(pre + Bits(v, n) + post, |pre|);
    PeekInRange(r, n);
    assert r.bits[|pre|..|pre| + n] == Bits(v, n);
    ValueOfBits(v, n);
  }

  /** Once the stream is exhausted every read gives 0. */
  lemma ReadNBitsPastEnd(r: Reader, n: nat)
    requires r.pos >= |r.bits|
    ensures ReadNBits(r, n).0 == 0
  {
    var w := Peek(r, n);
    PeekBits(r, n);
    assert forall i :: 0 <= i < n ==> !w[i];
    AllFalseIsZero(w);
  }

  lemma {:induction false} AllFalseIsZero(w: seq<bool>)
    requires forall i :: 0 <= i < |w| ==> !w[i]
    ensures Value(w) == 0
  {
    if |w| > 0 {
      AllFalseIsZero(w[1..]);
    }
  }

  /** A nonzero read must have seen a bit inside the stream. */
  lemma NonzeroReadIsInside(r: Reader, n: nat)
    requires ReadNBits(r, n).0 != 0
    ensures r.pos < |r.bits|
  {
    if r.pos >= |r.bits| {
      ReadNBitsPastEnd(r, n);
    }
  }

  /** A byte read of at least 128 has its top bit set, so all eight bits lie inside the stream. */
  lemma HighByteIsInside(r: Reader)
    requires ReadNBits(r, 8).0 >= 128
    ensures r.pos + 8 <= |r.bits|
  {
    var w := Peek(r, 8);
    PeekBits(r, 8);
    assert w == w[..7] + w[7..];
    ValueAppend(w[..7], w[7..]);
    assert Pow2(7) == 128;
    if r.pos + 8 > |r.bits| {
      TopBitClear(w[..7], w[7..]);
    }
  }

  lemma TopBitClear(lo: seq<bool>, hi: seq<bool>)
    requires |lo| == 7 && |hi| == 1 && !hi[0]
    ensures Value(lo) + Pow2(7) * Value(hi) < 128
  {
    assert Value(hi) == 0;
    assert Pow2(7) == 128;
  }

  /** `read_boolean`: one bit. */
  function ReadBoolean(r: Reader): (res: (bool, Reader))
    ensures res.0 == BitAt(r.bits, r.pos)
    ensures res.1 == r.(pos := r.pos + 1)
  {
    var (b, r') := ReadNBits(r, 1);
    (b != 0, r')
  }

  // ---------------------------------------------------------------- bytes as bits

  /** The stream a byte buffer is read as: each byte's bits, least significant first. */
  function BytesToBits(bytes: seq<Byte>): (w: seq<bool>)
    ensures |w| == 8 * |bytes|
  {
    if |bytes| == 0 then [] else Bits(bytes[0], 8) + BytesToBits(bytes[1..])
  }

  lemma {:induction false} BytesToBitsAt(bytes: seq<Byte>, p: nat)
    requires p < |bytes|
    ensures BytesToBits(bytes)[8 * p..8 * p + 8] == Bits(bytes[p], 8)
  {
    if p > 0 {
      BytesToBitsAt(bytes[1..], p - 1);
      assert BytesToBits(bytes)[8 * p..8 * p + 8] == BytesToBits(bytes[1..])[8 * (p - 1)..8 * (p - 1) + 8];
    }
  }

  /** Reading eight bits at a byte boundary gives that byte. */
  lemma ReadByteAt(bytes: seq<Byte>, p: nat)
    requires p < |bytes|
    ensures ReadNBits(Reader(BytesToBits(bytes), 8 * p), 8) == (bytes[p], Reader(BytesToBits(bytes), 8 * p + 8))
  {
    var r := Reader(BytesToBits(bytes), 8 * p);
    PeekInRange(r, 8);
    BytesToBitsAt(bytes, p);
    Pow2Table();
    ValueOfBits(bytes[p], 8);
  }

  // ---------------------------------------------------------------- varints

  /**
   * `Bitreader::read_varint`: the byte loop of the free `read_varint`
   * with each byte taken as the next eight bits.  It cannot fail: past
   * the end a zero byte terminates it.
   */
  function VarintBitsLoop(r: Reader, count: nat, acc: nat): (res: (nat, Reader))
    requires count <= 5
    decreases 5 - count
  {
    if count >= 5 then (acc, r)
    else
      var (b, r') := ReadNBits(r, 8);
      var acc' := ReadBytes.AddGroup(acc, b, count);
      if b < 128 then (acc', r') else VarintBitsLoop(r', count + 1, acc')
  }

  function ReadVarint(r: Reader): (res: (nat, Reader))
    ensures IsU32(res.0)
  {
    VarintBitsLoop(r, 0, 0)
  }

  lemma {:induction false} VarintBitsAgree(bytes: seq<Byte>, ptr: nat, count: nat, acc: nat)
    requires count <= 5
    requires ReadBytes.VarintLoop(bytes, ptr, count, acc, 0).Success?
    ensures var (v, end) := ReadBytes.VarintLoop(bytes, ptr, count, acc, 0).value;
      VarintBitsLoop(Reader(BytesToBits(bytes), 8 * ptr), count, acc) == (v, Reader(BytesToBits(bytes), 8 * end))
    decreases 5 - count
  {
    if count < 5 {
      ReadByteAt(bytes, ptr);
      var acc' := ReadBytes.AddGroup(acc, bytes[ptr], count);
      if bytes[ptr] >= 128 {
        VarintBitsAgree(bytes, ptr + 1, count + 1, acc');
        assert 8 * ptr + 8 == 8 * (ptr + 1);
      }
    }
  }

  /**
   * Over a byte buffer the bit reader's varint is the byte reader's
   * varint whenever the latter succeeds, and it ends on the same byte.
   */
  lemma ReadVarintOfBytes(bytes: seq<Byte>, ptr: nat, v: nat, end: nat)
    requires ReadBytes.ReadVarint(bytes, ptr) == Success((v, end))
    ensures ReadVarint(Reader(BytesToBits(bytes), 8 * ptr)) == (v, Reader(BytesToBits(bytes), 8 * end))
  {
    VarintBitsAgree(bytes, ptr, 0, 0);
  }

  /** A u32 written as a Base 128 varint reads back through the bit reader. */
  lemma ReadVarintRoundTrip(bytes: seq<Byte>, ptr: nat, v: nat)
    requires IsU32(v)
    requires ptr + |ReadBytes.Leb128(v)| <= |bytes| && bytes[ptr..ptr + |ReadBytes.Leb128(v)|] == ReadBytes.Leb128(v)
    ensures ReadVarint(Reader(BytesToBits(bytes), 8 * ptr)) == (v, Reader(BytesToBits(bytes), 8 * (ptr + |ReadBytes.Leb128(v)|)))
  {
    ReadBytes.ReadVarintRoundTrip(bytes, ptr, v);
    ReadVarintOfBytes(bytes, ptr, v, ptr + |ReadBytes.Leb128(v)|);
  }

  /** `bits_remaining()`: zero once the cursor is at or past the end. */
  function BitsRemaining(r: Reader): nat {
    if r.pos <= |r.bits| then |r.bits| - r.pos else 0
  }

  // ---------------------------------------------------------------- u64 varint

  /**
   * The loop of `read_varint_u_64`: continuation bytes add their low seven
   * bits at `7 * count`; the terminating byte is added whole, unless it is
   * the tenth byte and above 1 or a later byte, which is MalformedMessage.
   * The loop has no byte cap of its own: past the end of the stream a zero
   * byte stops it.  Groups are disjoint, so the source's `|` is `+` here;
   * the wrapped shifts of bytes beyond the tenth only feed discarded values.
   */
  function VarintU64Loop(r: Reader, count: nat, acc: nat): (res: Result<(nat, Reader), DemoParserError>)
    ensures res.Success? ==> res.value.1.bits == r.bits
    ensures res.Failure? ==> res.error == MalformedMessage
    decreases BitsRemaining(r)
  {
    var b := ReadNBits(r, 8).0;
    if b < 128 then
      if count > 9 || (count == 9 && b > 1) then Failure(MalformedMessage)
      else Success((acc + Shl(b, 7 * count), r.(pos := r.pos + 8)))
    else
      HighByteIsInside(r);
      VarintU64Loop(r.(pos := r.pos + 8), count + 1, AddGroup64(acc, b, count))
  }

  /** `result |= ((b as u64) & 127) << s` with `s == 7 * count`, the groups being disjoint. */
  function AddGroup64(acc: nat, b: nat, count: nat): nat {
    acc + Shl(b % 128, 7 * count)
  }

  /** `read_varint_u_64`. */
  function ReadVarintU64(r: Reader): (res: Result<(nat, Reader), DemoParserError>)
    ensures res.Success? ==> res.value.0 < U64_LIMIT && res.value.1.bits == r.bits
    ensures res.Failure? ==> res.error == MalformedMessage
  {
    VarintU64Bound(r, 0, 0);
    VarintU64Loop(r, 0, 0)
  }

  lemma GroupWidth(count: nat)
    ensures Pow2(7 * count) * 128 == Pow2(7 * (count + 1))
  {
    Pow2Add(7 * count, 7);
    assert Pow2(7) == 128;
  }

  /** A terminating byte accepted in group `count` keeps the value below 2^64. */
  lemma U64LastGroup(acc: nat, b: nat, count: nat)
    requires acc < Pow2(7 * count) && b < 128
    requires count < 9 || (count == 9 && b <= 1)
    ensures acc + Shl(b, 7 * count) < U64_LIMIT
  {
    var P := Pow2(7 * count);
    Pow2Table();
    if count < 9 {
      assert acc + b * P < P * 128 by { ReadBytes.MulLe(b, 127, P); }
      GroupWidth(count);
      Pow2Monotone(7 * (count + 1), 63);
    } else {
      ReadBytes.MulLe(b, 1, P);
    }
  }

  /** A continuation byte keeps the accumulator below the next group. */
  lemma U64NextGroup(acc: nat, b: nat, count: nat)
    requires acc < Pow2(7 * count)
    ensures AddGroup64(acc, b, count) < Pow2(7 * (count + 1))
  {
    ReadBytes.GroupStep(acc, b, Pow2(7 * count));
    GroupWidth(count);
  }

  /** Whatever the stream, an accepted value fits in 64 bits. */
  lemma {:induction false} VarintU64Bound(r: Reader, count: nat, acc: nat)
    requires acc < Pow2(7 * count)
    ensures VarintU64Loop(r, count, acc).Success? ==> VarintU64Loop(r, count, acc).value.0 < U64_LIMIT
    decreases BitsRemaining(r), 1
  {
    var b := ReadNBits(r, 8).0;
    if b < 128 {
      U64Stop(r, count, acc);
      if !(count > 9 || (count == 9 && b > 1)) {
        U64LastGroup(acc, b, count);
      }
    } else {
      VarintU64BoundGoesOn(r, count, acc);
    }
  }

  lemma {:induction false} VarintU64BoundGoesOn(r: Reader, count: nat, acc: nat)
    requires acc < Pow2(7 * count) && ReadNBits(r, 8).0 >= 128
    ensures VarintU64Loop(r, count, acc).Success? ==> VarintU64Loop(r, count, acc).value.0 < U64_LIMIT
    decreases BitsRemaining(r), 0
  {
    HighByteIsInside(r);
    U64NextGroup(acc, ReadNBits(r, 8).0, count);
    U64Step(r, count, acc);
    VarintU64Bound(r.(pos := r.pos + 8), count + 1, AddGroup64(acc, ReadNBits(r, 8).0, count));
  }


  /** One continuation bit read: the loop moves on to the next group. */
  lemma U64Step(r: Reader, count: nat, acc: nat)
    requires ReadNBits(r, 8).0 >= 128
    ensures VarintU64Loop(r, count, acc)
         == VarintU64Loop(r.(pos := r.pos + 8), count + 1, AddGroup64(acc, ReadNBits(r, 8).0, count))
  {
  }

  /** A terminating byte read: the loop stops. */
  lemma U64Stop(r: Reader, count: nat, acc: nat)
    requires ReadNBits(r, 8).0 < 128
    ensures var b := ReadNBits(r, 8).0;
      VarintU64Loop(r, count, acc)
      == if count > 9 || (count == 9 && b > 1) then Failure(MalformedMessage)
         else Success((acc + Shl(b, 7 * count), r.(pos := r.pos + 8)))
  {
  }

  /** Once ten groups have gone by, whatever follows is MalformedMessage. */
  lemma {:induction false} VarintU64TooLong(r: Reader, count: nat, acc: nat)
    requires count >= 10
    ensures VarintU64Loop(r, count, acc) == Failure(MalformedMessage)
    decreases BitsRemaining(r), 1
  {
    if ReadNBits(r, 8).0 < 128 {
      U64Stop(r, count, acc);
    } else {
      VarintU64TooLongGoesOn(r, count, acc);
    }
  }

  lemma {:induction false} VarintU64TooLongGoesOn(r: Reader, count: nat, acc: nat)
    requires count >= 10 && ReadNBits(r, 8).0 >= 128
    ensures VarintU64Loop(r, count, acc) == Failure(MalformedMessage)
    decreases BitsRemaining(r), 0
  {
    HighByteIsInside(r);
    U64Step(r, count, acc);
    VarintU64TooLong(r.(pos := r.pos + 8), count + 1, AddGroup64(acc, ReadNBits(r, 8).0, count));
  }



  /** `ReadByteAt`, with the stream and the bit position named. */
  lemma ReadByteAtPos(bytes: seq<Byte>, bits: seq<bool>, p: nat, pos: nat)
    requires bits == BytesToBits(bytes) && pos == 8 * p && p < |bytes|
    ensures ReadNBits(Reader(bits, pos), 8) == (bytes[p], Reader(bits, pos + 8))
  {
    assert Reader(bits, pos) == Reader(BytesToBits(bytes), 8 * p);
    ReadByteAt(bytes, p);
  }

  /** One continuation byte read from a byte buffer. */
  lemma U64LoopStep(bytes: seq<Byte>, bits: seq<bool>, p: nat, pos: nat, next: nat, count: nat, acc: nat)
    requires bits == BytesToBits(bytes) && p < |bytes| && bytes[p] >= 128
    requires pos == 8 * p && next == pos + 8
    ensures VarintU64Loop(Reader(bits, pos), count, acc)
         == VarintU64Loop(Reader(bits, next), count + 1, AddGroup64(acc, bytes[p], count))
  {
    ReadByteAtPos(bytes, bits, p, pos);
    U64Step(Reader(bits, pos), count, acc);
  }

  /** The terminating byte read from a byte buffer. */
  lemma U64LoopLast(bytes: seq<Byte>, bits: seq<bool>, p: nat, pos: nat, next: nat, count: nat, acc: nat, total: nat)
    requires bits == BytesToBits(bytes) && p < |bytes|
    requires pos == 8 * p && next == pos + 8
    requires bytes[p] < 128 && (count < 9 || (count == 9 && bytes[p] <= 1))
    requires total == acc + Shl(bytes[p], 7 * count)
    ensures VarintU64Loop(Reader(bits, pos), count, acc) == Success((total, Reader(bits, next)))
  {
    ReadByteAtPos(bytes, bits, p, pos);
    U64Stop(Reader(bits, pos), count, acc);
  }

  /** The low group of `w` moves into the accumulator; the rest stays to be read. */
  lemma U64LebStep(acc: nat, w: nat, b: nat, count: nat, total: nat)
    requires w >= 128 && b == w % 128 + 128
    requires acc < Pow2(7 * count) && total == acc + w * Pow2(7 * count)
    ensures AddGroup64(acc, b, count) < Pow2(7 * (count + 1))
    ensures total == AddGroup64(acc, b, count) + (w / 128) * Pow2(7 * (count + 1))
  {
    assert b % 128 == w % 128;
    ReadBytes.GroupStep(acc, w, Pow2(7 * count));
    GroupWidth(count);
  }

  /** A last group in the tenth byte that leaves the value below 2^64 is 0 or 1. */
  lemma TenthGroup(acc: nat, w: nat)
    requires acc + w * Pow2(63) < U64_LIMIT
    ensures w <= 1
  {
    Pow2Table();
    AtLeastTwice(w, Pow2(63));
  }

  lemma AtLeastTwice(w: nat, P: nat)
    ensures w >= 2 ==> 2 * P <= w * P
  {
    if w >= 2 { ReadBytes.MulLe(2, w, P); }
  }

  /** The one-byte encoding of the last group. */
  lemma U64LebLast(bytes: seq<Byte>, bits: seq<bool>, p: nat, count: nat, acc: nat, w: nat, total: nat, end: nat)
    requires bits == BytesToBits(bytes) && w < 128
    requires count + 1 <= 10 && total == acc + w * Pow2(7 * count) && total < U64_LIMIT
    requires end == p + |ReadBytes.Leb128(w)| && end <= |bytes| && bytes[p..end] == ReadBytes.Leb128(w)
    ensures VarintU64Loop(Reader(bits, 8 * p), count, acc) == Success((total, Reader(bits, 8 * end)))
  {
    assert |ReadBytes.Leb128(w)| == 1;
    assert bytes[p] == w by { assert bytes[p] == ReadBytes.Leb128(w)[0]; }
    if count == 9 {
      TenthGroup(acc, w);
    }
    U64LoopLast(bytes, bits, p, 8 * p, 8 * end, count, acc, total);
  }

  lemma {:induction false} U64LoopReadsLeb128(bytes: seq<Byte>, bits: seq<bool>, p: nat, count: nat, acc: nat, w: nat, total: nat, end: nat)
    requires bits == BytesToBits(bytes)
    requires count + |ReadBytes.Leb128(w)| <= 10
    requires acc < Pow2(7 * count)
    requires total == acc + w * Pow2(7 * count) && total < U64_LIMIT
    requires end == p + |ReadBytes.Leb128(w)| && end <= |bytes| && bytes[p..end] == ReadBytes.Leb128(w)
    ensures VarintU64Loop(Reader(bits, 8 * p), count, acc) == Success((total, Reader(bits, 8 * end)))
    decreases w
  {
    if w < 128 {
      U64LebLast(bytes, bits, p, count, acc, w, total, end);
    } else {
      ReadBytes.Leb128Split(bytes, p, w);
      assert end == p + 1 + |ReadBytes.Leb128(w / 128)|;
      var acc' := AddGroup64(acc, bytes[p], count);
      U64LebStep(acc, w, bytes[p], count, total);
      U64LoopStep(bytes, bits, p, 8 * p, 8 * (p + 1), count, acc);
      U64LoopReadsLeb128(bytes, bits, p + 1, count + 1, acc', w / 128, total, end);
    }
  }

  /** `read_varint_u_64` reads back the Base 128 encoding of any u64. */
  lemma ReadVarintU64RoundTrip(bytes: seq<Byte>, ptr: nat, v: nat)
    requires v < U64_LIMIT
    requires ptr + |ReadBytes.Leb128(v)| <= |bytes| && bytes[ptr..ptr + |ReadBytes.Leb128(v)|] == ReadBytes.Leb128(v)
    ensures ReadVarintU64(Reader(BytesToBits(bytes), 8 * ptr))
         == Success((v, Reader(BytesToBits(bytes), 8 * (ptr + |ReadBytes.Leb128(v)|))))
  {
    U64Leb128Length(v);
    var end := ptr + |ReadBytes.Leb128(v)|;
    U64LoopReadsLeb128(bytes, BytesToBits(bytes), ptr, 0, 0, v, v, end);
  }

  /** A u64 takes at most ten Base 128 bytes. */
  lemma U64Leb128Length(v: nat)
    requires v < U64_LIMIT
    ensures |ReadBytes.Leb128(v)| <= 10
  {
    assert Pow2(70) > U64_LIMIT by {
      Pow2Table();
      Pow2Add(64, 6);
    }
    ReadBytes.Leb128Length(v, 10);
  }

  // ---------------------------------------------------------------- byte reads

  /** The byte at offset `k` bytes from the cursor. */
  function ByteAt(r: Reader, k: nat): Byte {
    assert Pow2(8) == 256;
    ReadNBits(Reader(r.bits, r.pos + 8 * k), 8).0
  }

  /** `n` consecutive bytes from the cursor. */
  function GatherBytes(r: Reader, n: nat): (bs: seq<Byte>)
    ensures |bs| == n
  {
    seq(n, k requires 0 <= k < n => ByteAt(r, k))
  }

  /**
   * `read_n_bytes`: `n` whole bytes, or FailedByteRead carrying the whole
   * bytes left and the request when fewer than `8 * n` bits remain.
   */
  function ReadNBytes(r: Reader, n: nat): (res: Result<(seq<Byte>, Reader), DemoParserError>)
    ensures res.Failure? <==> BitsRemaining(r) < 8 * n
    ensures res.Failure? ==> res.error == FailedByteRead(BitsRemaining(r) / 8, n)
    ensures res.Success? ==> |res.value.0| == n && res.value.1 == r.(pos := r.pos + 8 * n)
  {
    if BitsRemaining(r) < 8 * n then Failure(FailedByteRead(BitsRemaining(r) / 8, n))
    else Success((GatherBytes(r, n), r.(pos := r.pos + 8 * n)))
  }

  lemma ByteAtOfBytes(bytes: seq<Byte>, bits: seq<bool>, p: nat, pos: nat, k: nat)
    requires bits == BytesToBits(bytes) && pos == 8 * p && p + k < |bytes|
    ensures ByteAt(Reader(bits, pos), k) == bytes[p + k]
  {
    ByteAtShift(Reader(bits, pos), k, p + k);
    ByteOfReader(bytes, Reader(bits, 8 * (p + k)), p + k);
  }

  lemma ByteAtShift(r: Reader, k: nat, q: nat)
    requires r.pos + 8 * k == 8 * q
    ensures ByteAt(r, k) == ReadNBits(Reader(r.bits, 8 * q), 8).0
  {
  }

  lemma ByteOfReader(bytes: seq<Byte>, r: Reader, p: nat)
    requires r.bits == BytesToBits(bytes) && r.pos == 8 * p && p < |bytes|
    ensures ReadNBits(r, 8).0 == bytes[p]
  {
    ReadByteAt(bytes, p);
  }

  lemma GatherBytesAre(r: Reader, n: nat, want: seq<Byte>)
    requires |want| == n && forall k | 0 <= k < n :: ByteAt(r, k) == want[k]
    ensures GatherBytes(r, n) == want
  {
  }

  lemma GatherBytesOfBytes(bytes: seq<Byte>, bits: seq<bool>, p: nat, pos: nat, n: nat, end: nat)
    requires bits == BytesToBits(bytes) && pos == 8 * p && end == p + n && end <= |bytes|
    ensures GatherBytes(Reader(bits, pos), n) == bytes[p..end]
  {
    forall k | 0 <= k < n
      ensures ByteAt(Reader(bits, pos), k) == bytes[p..end][k]
    {
      ByteAtOfBytes(bytes, bits, p, pos, k);
    }
    GatherBytesAre(Reader(bits, pos), n, bytes[p..end]);
  }

  /**
   * Over a byte buffer, `read_n_bytes` at byte `p` returns the bytes
   * `p..end` and moves to byte `end`, exactly when they exist.
   */
  lemma ReadNBytesOfBytes(bytes: seq<Byte>, bits: seq<bool>, p: nat, pos: nat, n: nat, end: nat, next: nat)
    requires bits == BytesToBits(bytes) && pos == 8 * p && p <= |bytes| && end == p + n && next == 8 * end
    ensures ReadNBytes(Reader(bits, pos), n).Success? <==> end <= |bytes|
    ensures end <= |bytes| ==> ReadNBytes(Reader(bits, pos), n) == Success((bytes[p..end], Reader(bits, next)))
  {
    RemainingOfBytes(bytes, bits, p, pos, n);
    if end <= |bytes| {
      ReadNBytesInside(bytes, bits, p, pos, n, end, next);
    }
  }

  lemma RemainingOfBytes(bytes: seq<Byte>, bits: seq<bool>, p: nat, pos: nat, n: nat)
    requires bits == BytesToBits(bytes) && pos == 8 * p && p <= |bytes|
    ensures BitsRemaining(Reader(bits, pos)) < 8 * n <==> p + n > |bytes|
  {
    assert |bits| == 8 * |bytes|;
    assert BitsRemaining(Reader(bits, pos)) == 8 * (|bytes| - p);
  }

  lemma ReadNBytesInside(bytes: seq<Byte>, bits: seq<bool>, p: nat, pos: nat, n: nat, end: nat, next: nat)
    requires bits == BytesToBits(bytes) && pos == 8 * p && end == p + n && end <= |bytes| && next == 8 * end
    requires BitsRemaining(Reader(bits, pos)) >= 8 * n
    ensures ReadNBytes(Reader(bits, pos), n) == Success((bytes[p..end], Reader(bits, next)))
  {
    GatherBytesOfBytes(bytes, bits, p, pos, n, end);
    ReadNBytesGathers(Reader(bits, pos), n, bytes[p..end], next);
  }

  lemma ReadNBytesGathers(r: Reader, n: nat, want: seq<Byte>, next: nat)
    requires BitsRemaining(r) >= 8 * n && GatherBytes(r, n) == want && next == r.pos + 8 * n
    ensures ReadNBytes(r, n) == Success((want, Reader(r.bits, next)))
  {
  }

  /**
   * `read_n_bytes_mut`: fills `buf[..n]`.  A buffer shorter than `n` is
   * MalformedMessage before anything is read; the rest of `buf` is kept.
   */
  function ReadNBytesMut(r: Reader, n: nat, buf: seq<Byte>): (res: Result<(seq<Byte>, Reader), DemoParserError>)
    ensures |buf| < n ==> res == Failure(MalformedMessage)
    ensures |buf| >= n ==> (res.Failure? <==> ReadNBytes(r, n).Failure?)
    ensures res.Success? ==> var (out, r') := res.value;
      |out| == |buf| && out[n..] == buf[n..] && (out[..n], r') == ReadNBytes(r, n).value
  {
    if |buf| < n then Failure(MalformedMessage)
    else
      var (data, r') :- ReadNBytes(r, n);
      Success((data + buf[n..], r'))
  }

  // ---------------------------------------------------------------- ZigZag

  /**
   * ZigZag decoding as the Protocol Buffers encoding guide defines it
   * ("Signed Integers"): raw 2k is k and raw 2k+1 is -(k+1).
   */
  function ZigZagDecode(u: nat): (n: int)
    requires IsU32(u)
    ensures IsI32(n)
    ensures n >= 0 <==> u % 2 == 0
  {
    if u % 2 == 0 then u / 2 else -(u / 2) - 1
  }

  function ZigZagEncode(n: int): (u: nat)
    requires IsI32(n)
    ensures IsU32(u)
  {
    if n >= 0 then 2 * n else -2 * n - 1
  }

  lemma ZigZagDecodeEncode(n: int)
    requires IsI32(n)
    ensures ZigZagDecode(ZigZagEncode(n)) == n
  {
  }

  lemma ZigZagEncodeDecode(u: nat)
    requires IsU32(u)
    ensures ZigZagEncode(ZigZagDecode(u)) == u
  {
  }

  /**
   * `read_varint32` as written: the raw u32 is cast to i32 and shifted
   * right arithmetically, `(x >> 1)` then `!y` when the low bit is set.
   * For raw values of 2^31 and above the sign bit leaks into the result.
   */
  function ZigZagAsWritten(u: nat): (n: int)
    requires IsU32(u)
    ensures IsI32(n)
  {
    var x := U32AsI32(u);
    var y := x / 2;
    if x % 2 != 0 then -y - 1 else y
  }

  /** Below 2^31 the arithmetic shift is harmless. */
  lemma ZigZagAsWrittenBelowSignBit(u: nat)
    requires u < 0x8000_0000
    ensures ZigZagAsWritten(u) == ZigZagDecode(u)
  {
  }

  /** Raw 0x80000000 (bytes 80 80 80 80 08) should be 2^30 but comes out as -2^30, and raw 0x80000001 flips too. */
  lemma ZigZagAsWrittenCounterexample()
    ensures ZigZagAsWritten(0x8000_0000) == -0x4000_0000
    ensures ZigZagDecode(0x8000_0000) == 0x4000_0000
    ensures ZigZagAsWritten(0x8000_0001) == 0x3FFF_FFFF
    ensures ZigZagDecode(0x8000_0001) == -0x4000_0001
  {
  }

  /** `read_varint32`, with the ZigZag decoding the format defines. */
  function ReadVarint32(r: Reader): (res: (int, Reader))
    ensures IsI32(res.0)
    ensures res.1 == ReadVarint(r).1
    ensures ZigZagEncode(res.0) == ReadVarint(r).0
  {
    var (u, r') := ReadVarint(r);
    ZigZagEncodeDecode(u);
    (ZigZagDecode(u), r')
  }

  // ---------------------------------------------------------------- ubitvar

  /**
   * `read_u_bit_var`: a 6-bit header whose bits 4-5 select how many more
   * bits follow (none, 4, 8 or 28); those bits go above the header's low
   * nibble.
   */
  function ReadUBitVar(r: Reader): (res: (nat, Reader))
    ensures IsU32(res.0)
    ensures res.1.bits == r.bits && res.1.pos - r.pos in {6, 10, 14, 34}
  {
    var (h, r1) := ReadNBits(r, 6);
    var sel := h / 16;
    var k := UBitVarWidth(sel);
    if k == 0 then
      assert Pow2(6) == 64;
      (h, r1)
    else
      var (x, r2) := ReadNBits(r1, k);
      NibbleJoin(h % 16, x, k);
      (h % 16 + 16 * x, r2)
  }

  /**
   * A header whose bits 4-5 are clear is the whole value; otherwise the
   * header's low nibble is the value's low nibble and the payload the rest.
   */
  lemma ReadUBitVarHeader(r: Reader)
    ensures var (h, r1) := ReadNBits(r, 6);
      h / 16 == 0 ==> ReadUBitVar(r) == (h, r1)
    ensures var (h, r1) := ReadNBits(r, 6);
      var (x, r2) := ReadNBits(r1, UBitVarWidth(h / 16));
      h / 16 != 0 ==> ReadUBitVar(r) == (h % 16 + 16 * x, r2)
  {
  }

  /** How many bits follow a header whose bits 4-5 are `sel`. */
  function UBitVarWidth(sel: nat): (k: nat)
    ensures k <= 28
  {
    if sel == 1 then 4 else if sel == 2 then 8 else if sel == 3 then 28 else 0
  }

  /** `low | x << 4` on u32 for a payload of at most 28 bits. */
  lemma NibbleJoin(low: nat, x: nat, k: nat)
    requires low < 16 && k <= 28 && x < Pow2(k)
    ensures low + 16 * x < U32_LIMIT && (low + 16 * x) % 16 == low && (low + 16 * x) / 16 == x
  {
    Pow2Monotone(k, 28);
    Pow2Table();
  }

  /** The shortest encoding `read_u_bit_var` accepts for `v`. */
  function UBitVarBits(v: nat): (w: seq<bool>)
    requires IsU32(v)
  {
    if v < 16 then Bits(v, 6)
    else
      var sel := if v < 0x100 then 1 else if v < 0x1000 then 2 else 3;
      Bits(sel * 16 + v % 16, 6) + Bits(v / 16, UBitVarWidth(sel))
  }

  /** A header of `sel * 16 + low` followed by `k` bits of `x`. */
  lemma HeaderThenPayload(pre: seq<bool>, sel: nat, low: nat, k: nat, x: nat, enc: seq<bool>, post: seq<bool>)
    requires sel < 4 && low < 16 && x < Pow2(k)
    requires enc == Bits(sel * 16 + low, 6) + Bits(x, k)
    ensures ReadNBits(Reader(pre + enc + post, |pre|), 6).0 == sel * 16 + low
    ensures ReadNBits(Reader(pre + enc + post, |pre| + 6), k).0 == x
  {
    var h := sel * 16 + low;
    assert Pow2(6) == 64;
    var bits := pre + enc + post;
    assert bits == pre + Bits(h, 6) + (Bits(x, k) + post);
    ReadNBitsOfBits(pre, h, 6, Bits(x, k) + post);
    assert bits == (pre + Bits(h, 6)) + Bits(x, k) + post;
    ReadNBitsOfBits(pre + Bits(h, 6), x, k, post);
  }

  /** Bounds on the payload of the shortest encoding. */
  lemma UBitVarPayloadFits(v: nat)
    requires IsU32(v) && v >= 16
    ensures var sel := if v < 0x100 then 1 else if v < 0x1000 then 2 else 3;
      v / 16 < Pow2(UBitVarWidth(sel))
  {
    Pow2Table();
  }

  /** `read_u_bit_var` in terms of the header and payload it reads. */
  lemma ReadUBitVarOfParts(r: Reader, sel: nat, low: nat, x: nat)
    requires 1 <= sel <= 3 && low < 16
    requires ReadNBits(r, 6).0 == sel * 16 + low
    requires ReadNBits(r.(pos := r.pos + 6), UBitVarWidth(sel)).0 == x
    ensures ReadUBitVar(r) == (low + 16 * x, r.(pos := r.pos + 6 + UBitVarWidth(sel)))
  {
    var h := sel * 16 + low;
    assert h / 16 == sel && h % 16 == low;
  }

  lemma ReadUBitVarRoundTrip(pre: seq<bool>, v: nat, post: seq<bool>)
    requires IsU32(v)
    ensures var bits := pre + UBitVarBits(v) + post;
      ReadUBitVar(Reader(bits, |pre|)) == (v, Reader(bits, |pre| + |UBitVarBits(v)|))
  {
    if v < 16 {
      assert Pow2(6) == 64;
      ReadNBitsOfBits(pre, v, 6, post);
    } else {
      var sel := if v < 0x100 then 1 else if v < 0x1000 then 2 else 3;
      UBitVarPayloadFits(v);
      ReadUBitVarLong(pre, v, sel, UBitVarBits(v), post);
    }
  }

  lemma ReadUBitVarLong(pre: seq<bool>, v: nat, sel: nat, enc: seq<bool>, post: seq<bool>)
    requires IsU32(v) && v >= 16 && 1 <= sel <= 3 && v / 16 < Pow2(UBitVarWidth(sel))
    requires enc == Bits(sel * 16 + v % 16, 6) + Bits(v / 16, UBitVarWidth(sel))
    ensures ReadUBitVar(Reader(pre + enc + post, |pre|)) == (v, Reader(pre + enc + post, |pre| + |enc|))
  {
    var r := Reader(pre + enc + post, |pre|);
    HeaderThenPayload(pre, sel, v % 16, UBitVarWidth(sel), v / 16, enc, post);
    ReadUBitVarOfParts(r, sel, v % 16, v / 16);
    Div16(v);
  }

  lemma Div16(v: nat)
    ensures v % 16 + 16 * (v / 16) == v
  {
  }

  // ---------------------------------------------------------------- field-path varint

  /**
   * `read_ubit_var_fp`: a unary prefix of up to four booleans; the first set
   * bit selects a 2, 4, 10 or 17-bit payload, four clear bits a 31-bit one.
   */
  function ReadUBitVarFp(r: Reader): (res: (nat, Reader))
    ensures res.1.bits == r.bits && 3 <= res.1.pos - r.pos <= 35
  {
    var zeros := FpZerosAt(r);
    ReadNBits(r.(pos := r.pos + |FpPrefix(zeros)|), FpWidth(zeros))
  }

  /** How many of the (at most four) prefix booleans read false. */
  function FpZerosAt(r: Reader): (zeros: nat)
    ensures zeros <= 4
  {
    if BitAt(r.bits, r.pos) then 0
    else if BitAt(r.bits, r.pos + 1) then 1
    else if BitAt(r.bits, r.pos + 2) then 2
    else if BitAt(r.bits, r.pos + 3) then 3
    else 4
  }

  /** Whatever the prefix, the value fits in 31 bits. */
  lemma ReadUBitVarFpBound(r: Reader)
    ensures ReadUBitVarFp(r).0 < 0x8000_0000
  {
    var zeros := FpZerosAt(r);
    Pow2Table();
    Pow2Monotone(FpWidth(zeros), 31);
  }

  /** Payload width after `zeros` clear prefix bits. */
  function FpWidth(zeros: nat): nat {
    if zeros == 0 then 2 else if zeros == 1 then 4 else if zeros == 2 then 10 else if zeros == 3 then 17 else 31
  }

  /** The unary prefix: `zeros` clear bits, then a set bit unless all four are clear. */
  function FpPrefix(zeros: nat): (w: seq<bool>)
    requires zeros <= 4
  {
    if zeros == 0 then [true]
    else if zeros == 1 then [false, true]
    else if zeros == 2 then [false, false, true]
    else if zeros == 3 then [false, false, false, true]
    else [false, false, false, false]
  }

  /** How many clear prefix bits the shortest encoding of `v` uses. */
  function FpZeros(v: nat): (zeros: nat)
    requires v < 0x8000_0000
    ensures zeros <= 4 && v < Pow2(FpWidth(zeros))
  {
    Pow2Table();
    if v < 4 then 0 else if v < 16 then 1 else if v < 0x400 then 2 else if v < 0x2_0000 then 3 else 4
  }

  /** The shortest encoding `read_ubit_var_fp` accepts for `v`. */
  function UBitVarFpBits(v: nat): (w: seq<bool>)
    requires v < 0x8000_0000
  {
    var zeros := FpZeros(v);
    FpPrefix(zeros) + Bits(v, FpWidth(zeros))
  }

  /** A unary prefix followed by an `n`-bit payload, wherever it sits. */
  lemma PrefixThenPayload(pre: seq<bool>, prefix: seq<bool>, v: nat, n: nat, enc: seq<bool>, post: seq<bool>)
    requires v < Pow2(n) && enc == prefix + Bits(v, n)
    ensures forall i :: 0 <= i < |prefix| ==> BitAt(pre + enc + post, |pre| + i) == prefix[i]
    ensures ReadNBits(Reader(pre + enc + post, |pre| + |prefix|), n) == (v, Reader(pre + enc + post, |pre| + |enc|))
  {
    assert pre + enc + post == (pre + prefix) + Bits(v, n) + post;
    ReadNBitsOfBits(pre + prefix, v, n, post);
  }

  /** One prefix length at a time: the encoding reads back. */
  lemma FpRoundTripCase(pre: seq<bool>, zeros: nat, v: nat, enc: seq<bool>, post: seq<bool>)
    requires zeros <= 4 && v < Pow2(FpWidth(zeros))
    requires enc == FpPrefix(zeros) + Bits(v, FpWidth(zeros))
    ensures ReadUBitVarFp(Reader(pre + enc + post, |pre|)) == (v, Reader(pre + enc + post, |pre| + |enc|))
  {
    var prefix := FpPrefix(zeros);
    var bits := pre + enc + post;
    PrefixThenPayload(pre, prefix, v, FpWidth(zeros), enc, post);
    assert BitAt(bits, |pre| + 0) == prefix[0];
    if zeros >= 1 { assert BitAt(bits, |pre| + 1) == prefix[1]; }
    if zeros >= 2 { assert BitAt(bits, |pre| + 2) == prefix[2]; }
    if zeros >= 3 { assert BitAt(bits, |pre| + 3) == prefix[3]; }
    assert FpZerosAt(Reader(bits, |pre|)) == zeros;
  }

  lemma ReadUBitVarFpRoundTrip(pre: seq<bool>, v: nat, post: seq<bool>)
    requires v < 0x8000_0000
    ensures var bits := pre + UBitVarFpBits(v) + post;
      ReadUBitVarFp(Reader(bits, |pre|)) == (v, Reader(bits, |pre| + |UBitVarFpBits(v)|))
  {
    FpRoundTripCase(pre, FpZeros(v), v, UBitVarFpBits(v), post);
  }
}
