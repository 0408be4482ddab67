/**
 * UTF-8 as the Rust standard library reads it: the well-formed characters
 * of section 4 of RFC 3629 (what `std::str::from_utf8` accepts),
 * `String::from_utf8_lossy`, which decodes well-formed characters and puts
 * one U+FFFD in place of each maximal invalid subpart, and `str::get(0..n)`,
 * which cuts a string at a byte offset only on a character boundary.
 */
module Utf8 {
  import opened Wrappers
  import opened Ints

  /** U+FFFD, the character `from_utf8_lossy` puts in place of invalid bytes. */
  const REPLACEMENT: char := '\U{FFFD}'

  predicate IsTail(b: Byte) {
    0x80 <= b <= 0xBF
  }

  /**
   * `utf8_char_width`: the length a lead byte announces, 0 for a byte that
   * cannot start a character.
   */
  function Width(b: Byte): (w: nat)
    ensures w <= 4
  {
    if b < 0x80 then 1
    else if 0xC2 <= b <= 0xDF then 2
    else if 0xE0 <= b <= 0xEF then 3
    else if 0xF0 <= b <= 0xF4 then 4
    else 0
  }

  /**
   * The range the byte after a lead byte must fall in; narrower than a
   * plain continuation byte after E0 and F0 (no overlong forms), ED (no
   * surrogates) and F4 (nothing above U+10FFFF).
   */
  predicate SecondOk(lead: Byte, b: Byte) {
    var lo := if lead == 0xE0 then 0xA0 else if lead == 0xF0 then 0x90 else 0x80;
    var hi := if lead == 0xED then 0x9F else if lead == 0xF4 then 0x8F else 0xBF;
    lo <= b <= hi
  }

  /**
   * The length of the well-formed UTF-8 character at the start of `s`, or
   * 0 when none starts there.
   */
  function CharLength(s: seq<Byte>): (n: nat)
    ensures n <= 4 && n <= |s|
    ensures n > 0 ==> n == Width(s[0]) && forall k | 1 <= k < n :: IsTail(s[k])
  {
    if |s| == 0 then 0
    else
      var w := Width(s[0]);
      if w == 0 || |s| < w then 0
      else if w == 1 then 1
      else if w == 2 then (if SecondOk(s[0], s[1]) then 2 else 0)
      else if w == 3 then (if SecondOk(s[0], s[1]) && IsTail(s[2]) then 3 else 0)
      else if SecondOk(s[0], s[1]) && IsTail(s[2]) && IsTail(s[3]) then 4 else 0
  }

  /** `s` is a sequence of well-formed UTF-8 characters. */
  predicate IsUtf8(s: seq<Byte>)
    decreases |s|
  {
    |s| == 0 || (CharLength(s) > 0 && IsUtf8(s[CharLength(s)..]))
  }

  /** An ASCII byte string, by its bytes. */
  predicate IsAscii(s: seq<Byte>) {
    forall k | 0 <= k < |s| :: s[k] < 0x80
  }

  /** No byte of `s` is zero. */
  predicate ZeroFree(s: seq<Byte>) {
    forall i :: 0 <= i < |s| ==> s[i] != 0
  }

  /** Every byte below 0x80 is a one-byte character, so ASCII text is UTF-8. */
  lemma {:induction false} AsciiIsUtf8(s: seq<Byte>)
    requires IsAscii(s)
    ensures IsUtf8(s)
    decreases |s|
  {
    if |s| > 0 {
      assert CharLength(s) == 1;
      AsciiIsUtf8(s[1..]);
    }
  }

  // ---------------------------------------------------------------------
  // Decoding
  // ---------------------------------------------------------------------

  /** The scalar value of the well-formed character at the start of `s`. */
  function DecodeChar(s: seq<Byte>): (c: char)
    requires CharLength(s) > 0
    ensures CharLength(s) == 1 <==> (c as int) < 0x80
    ensures CharLength(s) == 1 ==> c as int == s[0]
  {
    var n := CharLength(s);
    if n == 1 then s[0] as char
    else if n == 2 then
      ((s[0] as int - 0xC0) * 64 + (s[1] as int - 0x80)) as char
    else if n == 3 then
      var v := (s[0] as int - 0xE0) * 4096 + (s[1] as int - 0x80) * 64 + (s[2] as int - 0x80);
      assert s[0] == 0xED ==> v < 0xD800;
      assert s[0] == 0xE0 ==> v >= 0x800;
      v as char
    else
      var v := (s[0] as int - 0xF0) * 0x4_0000 + (s[1] as int - 0x80) * 4096 + (s[2] as int - 0x80) * 64 + (s[3] as int - 0x80);
      assert v < 0x11_0000;
      v as char
  }

  /**
   * The length of the invalid subpart at the start of `s`, as
   * `Utf8Chunks` measures it: the lead byte and every following byte that
   * could still continue the character it announces, up to the first that
   * cannot (or the end of the input).
   */
  function InvalidLength(s: seq<Byte>): (n: nat)
    requires |s| > 0 && CharLength(s) == 0
    ensures 1 <= n <= 3 && n <= |s|
    ensures n < Width(s[0]) || n == 1
  {
    var w := Width(s[0]);
    if w <= 2 || |s| < 2 || !SecondOk(s[0], s[1]) then 1
    else if w == 3 || |s| < 3 || !IsTail(s[2]) then 2
    else 3
  }

  /**
   * `String::from_utf8_lossy`: each well-formed character decodes to
   * itself and each maximal invalid subpart becomes one U+FFFD.
   */
  function Lossy(bs: seq<Byte>): (s: string)
    ensures |s| <= |bs|
    ensures |bs| > 0 ==> |s| > 0
    decreases |bs|
  {
    if |bs| == 0 then []
    else if CharLength(bs) > 0 then [DecodeChar(bs)] + Lossy(bs[CharLength(bs)..])
    else [REPLACEMENT] + Lossy(bs[InvalidLength(bs)..])
  }

  // ---------------------------------------------------------------------
  // Encoding
  // ---------------------------------------------------------------------

  /** The UTF-8 bytes of one character. */
  function CharBytes(c: char): (bs: seq<Byte>)
    ensures 1 <= |bs| <= 4
    ensures |bs| == 1 <==> (c as int) < 0x80
    ensures bs[0] != 0 <==> c != '\0'
  {
    var v := c as int;
    if v < 0x80 then [v]
    else if v < 0x800 then [0xC0 + v / 64, 0x80 + v % 64]
    else if v < 0x1_0000 then [0xE0 + v / 64 / 64, 0x80 + v / 64 % 64, 0x80 + v % 64]
    else [0xF0 + v / 64 / 64 / 64, 0x80 + v / 64 / 64 % 64, 0x80 + v / 64 % 64, 0x80 + v % 64]
  }

  /** The UTF-8 bytes of a string: what a Rust `String` holds. */
  function Encode(s: string): (bs: seq<Byte>)
    ensures |bs| >= |s|
  {
    if |s| == 0 then [] else CharBytes(s[0]) + Encode(s[1..])
  }

  lemma {:induction false} EncodeAppend(a: string, b: string)
    ensures Encode(a + b) == Encode(a) + Encode(b)
    decreases |a|
  {
    if |a| > 0 {
      assert (a + b)[0] == a[0] && (a + b)[1..] == a[1..] + b;
      EncodeAppend(a[1..], b);
      calc {
        Encode(a + b);
        CharBytes(a[0]) + Encode(a[1..] + b);
        CharBytes(a[0]) + (Encode(a[1..]) + Encode(b));
        (CharBytes(a[0]) + Encode(a[1..])) + Encode(b);
      }
    } else {
      assert a + b == b;
    }
  }

  // One width at a time: the bytes of a character read back as that character.

  lemma CharBytesRead1(c: char, rest: seq<Byte>)
    requires (c as int) < 0x80
    ensures CharLength(CharBytes(c) + rest) == 1
    ensures DecodeChar(CharBytes(c) + rest) == c
  {
  }

  lemma CharBytesRead2(c: char, rest: seq<Byte>)
    requires 0x80 <= (c as int) < 0x800
    ensures CharLength(CharBytes(c) + rest) == 2
    ensures DecodeChar(CharBytes(c) + rest) == c
  {
    var v := c as int;
    var s := CharBytes(c) + rest;
    assert s[0] == 0xC0 + v / 64 && s[1] == 0x80 + v % 64;
  }

  lemma CharBytesRead3(c: char, rest: seq<Byte>)
    requires 0x800 <= (c as int) < 0x1_0000
    ensures CharLength(CharBytes(c) + rest) == 3
    ensures DecodeChar(CharBytes(c) + rest) == c
  {
    var v := c as int;
    var q0, d0 := v / 64, v % 64;
    var q1, d1 := q0 / 64, q0 % 64;
    assert v == q0 * 64 + d0 && q0 == q1 * 64 + d1;
    var s := CharBytes(c) + rest;
    assert s[0] == 0xE0 + q1 && s[1] == 0x80 + d1 && s[2] == 0x80 + d0;
    assert q1 == 0 ==> d1 >= 0x20;
    assert q1 == 0xD ==> d1 < 0x20;
  }

  lemma CharBytesRead4(c: char, rest: seq<Byte>)
    requires 0x1_0000 <= (c as int)
    ensures CharLength(CharBytes(c) + rest) == 4
    ensures DecodeChar(CharBytes(c) + rest) == c
  {
    var v := c as int;
    var q0, d0 := v / 64, v % 64;
    var q1, d1 := q0 / 64, q0 % 64;
    var q2, d2 := q1 / 64, q1 % 64;
    assert v == q0 * 64 + d0 && q0 == q1 * 64 + d1 && q1 == q2 * 64 + d2;
    var s := CharBytes(c) + rest;
    assert s[0] == 0xF0 + q2 && s[1] == 0x80 + d2 && s[2] == 0x80 + d1 && s[3] == 0x80 + d0;
    assert q2 == 0 ==> d2 >= 0x10;
    assert q2 == 4 ==> d2 < 0x10;
  }

  /** The bytes of a character, followed by anything, read back as that character. */
  lemma CharBytesRead(c: char, rest: seq<Byte>)
    ensures CharLength(CharBytes(c) + rest) == |CharBytes(c)|
    ensures DecodeChar(CharBytes(c) + rest) == c
  {
    var v := c as int;
    if v < 0x80 { CharBytesRead1(c, rest); }
    else if v < 0x800 { CharBytesRead2(c, rest); }
    else if v < 0x1_0000 { CharBytesRead3(c, rest); }
    else { CharBytesRead4(c, rest); }
  }

  /** Decoding the UTF-8 bytes of a string gives the string back. */
  lemma {:induction false} LossyEncode(s: string)
    ensures Lossy(Encode(s)) == s
    decreases |s|
  {
    if |s| > 0 {
      var head, tail := CharBytes(s[0]), Encode(s[1..]);
      assert Encode(s) == head + tail;
      CharBytesRead(s[0], tail);
      assert Encode(s)[|head|..] == tail;
      LossyEncode(s[1..]);
    }
  }

  /** Splitting a number into a quotient and a six-bit digit, and back. */
  lemma DivMod64(q: nat, d: nat)
    requires d < 64
    ensures (q * 64 + d) / 64 == q && (q * 64 + d) % 64 == d
  {
  }

  /** A well-formed character is the encoding of the character it decodes to. */
  lemma DecodeCharBytes(s: seq<Byte>)
    requires CharLength(s) > 0
    ensures CharBytes(DecodeChar(s)) == s[..CharLength(s)]
  {
    var n := CharLength(s);
    var v := DecodeChar(s) as int;
    if n == 2 {
      DivMod64(s[0] as int - 0xC0, s[1] as int - 0x80);
    } else if n == 3 {
      var q1 := s[0] as int - 0xE0;
      DivMod64(q1 * 64 + (s[1] as int - 0x80), s[2] as int - 0x80);
      DivMod64(q1, s[1] as int - 0x80);
    } else if n == 4 {
      var q2 := s[0] as int - 0xF0;
      var q1 := q2 * 64 + (s[1] as int - 0x80);
      DivMod64(q1 * 64 + (s[2] as int - 0x80), s[3] as int - 0x80);
      DivMod64(q1, s[2] as int - 0x80);
      DivMod64(q2, s[1] as int - 0x80);
    }
  }

  lemma TakeDrop(s: seq<Byte>, n: nat)
    requires n <= |s|
    ensures s[..n] + s[n..] == s
  {
  }

  lemma EncodeCons(c: char, s: string)
    ensures Encode([c] + s) == CharBytes(c) + Encode(s)
  {
    assert ([c] + s)[1..] == s;
  }

  /** Well-formed UTF-8 survives the lossy decoding unchanged: encoding the result gives the bytes back. */
  lemma {:induction false} EncodeLossyValid(bs: seq<Byte>)
    requires IsUtf8(bs)
    ensures Encode(Lossy(bs)) == bs
    decreases |bs|
  {
    if |bs| > 0 {
      var n := CharLength(bs);
      var rest := bs[n..];
      DecodeCharBytes(bs);
      EncodeLossyValid(rest);
      assert Lossy(bs) == [DecodeChar(bs)] + Lossy(rest);
      EncodeCons(DecodeChar(bs), Lossy(rest));
      TakeDrop(bs, n);
    }
  }

  /** The encoding of a string is well-formed UTF-8. */
  lemma {:induction false} EncodeIsUtf8(s: string)
    ensures IsUtf8(Encode(s))
    decreases |s|
  {
    if |s| > 0 {
      var head, tail := CharBytes(s[0]), Encode(s[1..]);
      CharBytesRead(s[0], tail);
      assert Encode(s)[|head|..] == tail;
      EncodeIsUtf8(s[1..]);
    }
  }

  /** A string's encoding has a zero byte exactly when the string has U+0000. */
  lemma {:induction false} EncodeZeroFree(s: string)
    ensures ZeroFree(Encode(s)) <==> '\0' !in s
    decreases |s|
  {
    if |s| > 0 {
      var head, tail := CharBytes(s[0]), Encode(s[1..]);
      assert Encode(s) == head + tail;
      assert s == [s[0]] + s[1..];
      EncodeZeroFree(s[1..]);
      CharBytesZeroFree(s[0]);
      if ZeroFree(Encode(s)) {
        assert head[0] == Encode(s)[0];
        assert ZeroFree(tail) by {
          forall i | 0 <= i < |tail| ensures tail[i] != 0 {
            assert tail[i] == Encode(s)[|head| + i];
          }
        }
      }
      if '\0' !in s {
        assert '\0' !in s[1..];
        forall i | 0 <= i < |Encode(s)| ensures Encode(s)[i] != 0 {
          if i < |head| {
            assert Encode(s)[i] == head[i];
          } else {
            assert Encode(s)[i] == tail[i - |head|];
          }
        }
      }
    }
  }

  /** Only the first byte of a character's encoding can be zero. */
  lemma CharBytesZeroFree(c: char)
    ensures ZeroFree(CharBytes(c)) <==> c != '\0'
  {
  }

  /** Lossy decoding yields U+0000 only for a zero byte, so zero-free bytes give a NUL-free string. */
  lemma {:induction false} LossyZeroFree(bs: seq<Byte>)
    requires ZeroFree(bs)
    ensures '\0' !in Lossy(bs)
    decreases |bs|
  {
    if |bs| > 0 {
      var n := if CharLength(bs) > 0 then CharLength(bs) else InvalidLength(bs);
      assert ZeroFree(bs[n..]);
      LossyZeroFree(bs[n..]);
    }
  }

  /** On ASCII bytes, lossy decoding maps each byte to the character with its value. */
  lemma {:induction false} LossyAscii(bs: seq<Byte>)
    requires IsAscii(bs)
    ensures |Lossy(bs)| == |bs|
    ensures forall i | 0 <= i < |bs| :: Lossy(bs)[i] as int == bs[i]
    decreases |bs|
  {
    if |bs| > 0 {
      assert CharLength(bs) == 1;
      LossyAscii(bs[1..]);
    }
  }

  /** Every byte of ASCII text is its own one-byte encoding. */
  lemma {:induction false} EncodeAsciiLength(s: string)
    requires forall i | 0 <= i < |s| :: (s[i] as int) < 0x80
    ensures |Encode(s)| == |s|
    decreases |s|
  {
    if |s| > 0 {
      EncodeAsciiLength(s[1..]);
    }
  }

  // Concrete readings that show maximal-subpart replacement.

  /** A two-byte character decodes to one character ("é"). */
  lemma LossyTwoByteChar()
    ensures Lossy([0xC3, 0xA9]) == ['é']
  {
    var s: seq<Byte> := [0xC3, 0xA9];
    assert CharLength(s) == 2;
    assert s[2..] == [];
  }

  /** A lead byte whose follower is not a continuation byte is one U+FFFD on its own. */
  lemma LossyBrokenPair()
    ensures Lossy([0xC3, 0x28]) == [REPLACEMENT, '(']
  {
    var s: seq<Byte> := [0xC3, 0x28];
    assert CharLength(s) == 0 && InvalidLength(s) == 1;
    assert s[1..] == [0x28];
    assert CharLength(s[1..]) == 1 && s[1..][1..] == [];
  }

  /** A truncated three-byte character at the end is a single U+FFFD. */
  lemma LossyTruncatedThree()
    ensures Lossy([0xE2, 0x82]) == [REPLACEMENT]
  {
    var s: seq<Byte> := [0xE2, 0x82];
    assert CharLength(s) == 0 && InvalidLength(s) == 2;
    assert s[2..] == [];
  }

  /** Three bytes of a four-byte character cut short by 'A': one U+FFFD, then 'A'. */
  lemma LossyTruncatedFour()
    ensures Lossy([0xF0, 0x9F, 0x98, 0x41]) == [REPLACEMENT, 'A']
  {
    var s: seq<Byte> := [0xF0, 0x9F, 0x98, 0x41];
    assert CharLength(s) == 0 && InvalidLength(s) == 3;
    assert s[3..] == [0x41];
    assert CharLength(s[3..]) == 1 && s[3..][1..] == [];
  }

  /** An overlong form: C0 can never start a character, so each byte is its own U+FFFD. */
  lemma LossyOverlong()
    ensures Lossy([0xC0, 0x80]) == [REPLACEMENT, REPLACEMENT]
  {
    var s: seq<Byte> := [0xC0, 0x80];
    assert CharLength(s) == 0 && InvalidLength(s) == 1;
    assert s[1..] == [0x80];
    assert CharLength(s[1..]) == 0 && InvalidLength(s[1..]) == 1 && s[1..][1..] == [];
  }

  // ---------------------------------------------------------------------
  // Byte-offset slicing
  // ---------------------------------------------------------------------

  /** The prefix of `s` one character longer than `s[1..][..k]`. */
  lemma PrefixStep(s: string, k: nat)
    requires 0 < k <= |s|
    ensures Encode(s[..k]) == CharBytes(s[0]) + Encode(s[1..][..k - 1])
  {
    assert s[..k] == [s[0]] + s[1..][..k - 1];
    assert s[..k][1..] == s[1..][..k - 1];
  }

  /**
   * `str::get(0..n)`: the prefix of `s` whose UTF-8 bytes are the first
   * `n`, or None when byte `n` falls inside a character or past the end.
   */
  function ByteSlice(s: string, n: nat): (r: Option<string>)
    ensures r.Some? ==> |r.value| <= |s| && r.value == s[..|r.value|] && |Encode(r.value)| == n
    ensures r.None? ==> forall k | 0 <= k <= |s| :: |Encode(s[..k])| != n
    decreases |s|
  {
    if n == 0 then Some([])
    else if |s| == 0 then None
    else
      var w := |CharBytes(s[0])|;
      if n < w then
        assert forall k | 0 < k <= |s| :: |Encode(s[..k])| >= w by {
          forall k | 0 < k <= |s| ensures |Encode(s[..k])| >= w { PrefixStep(s, k); }
        }
        None
      else
        match ByteSlice(s[1..], n - w)
        case Some(p) =>
          assert [s[0]] + p == s[..|p| + 1];
          assert ([s[0]] + p)[1..] == p;
          Some([s[0]] + p)
        case None =>
          assert forall k | 0 < k <= |s| :: |Encode(s[..k])| != n by {
            forall k | 0 < k <= |s| ensures |Encode(s[..k])| != n { PrefixStep(s, k); }
          }
          None
  }

  /** An offset at a character boundary always slices, and gives that prefix. */
  lemma ByteSliceAtBoundary(s: string, k: nat)
    requires k <= |s|
    ensures ByteSlice(s, |Encode(s[..k])|) == Some(s[..k])
  {
    var r := ByteSlice(s, |Encode(s[..k])|);
    assert r.Some?;
    PrefixLengthsDiffer(s, |r.value|, k);
  }

  /** Longer prefixes have longer encodings. */
  lemma PrefixLengthsIncrease(s: string, i: nat, j: nat)
    requires i < j <= |s|
    ensures |Encode(s[..i])| < |Encode(s[..j])|
  {
    assert s[..j] == s[..i] + s[i..j];
    EncodeAppend(s[..i], s[i..j]);
  }

  /** Two prefixes have encodings of the same length only when they are the same prefix. */
  lemma PrefixLengthsDiffer(s: string, i: nat, j: nat)
    requires i <= |s| && j <= |s|
    ensures |Encode(s[..i])| == |Encode(s[..j])| <==> i == j
  {
    if i < j {
      PrefixLengthsIncrease(s, i, j);
    } else if j < i {
      PrefixLengthsIncrease(s, j, i);
    }
  }

  /** On ASCII text byte offsets are character offsets, so every cut up to the end slices. */
  lemma ByteSliceAscii(s: string, n: nat)
    requires forall i | 0 <= i < |s| :: (s[i] as int) < 0x80
    requires n <= |s|
    ensures ByteSlice(s, n) == Some(s[..n])
  {
    EncodeAsciiLength(s[..n]);
    ByteSliceAtBoundary(s, n);
  }

  /** A cut inside a two-byte character does not slice ("é" cut after one byte). */
  lemma ByteSliceInsideChar()
    ensures ByteSlice(['é'], 1) == None
  {
    assert |CharBytes('é')| == 2;
  }
}
