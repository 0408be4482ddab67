/**
 * The KeyValues reader of the item and translation files
 * (csgoproto/src/parser.rs): a winnow grammar for Valve's JSON-like
 * text.  A document is one `"key" value` pair; a value is a quoted
 * string or a braced list of pairs; keys are ASCII-lowercased; a
 * repeated key merges into the first; whitespace and `//` comments may
 * sit between entries.
 *
 * winnow's two failure modes are kept apart: Backtrack lets an
 * enclosing `alt` or repetition try something else, Cut (what
 * `cut_err` produces) ends the whole parse.  Reading the file, the
 * byte-order-mark trim and the `" n\\"` rewrite in `read_file` are I/O
 * and are not modelled; the text handed to the grammar is a parameter.
 */
module KeyValues {
  import opened Wrappers
  import opened Text

  /** `JsonValue`: a string, or an object keyed by (lowercased) strings. */
  datatype JsonValue = Str(s: string) | Object(entries: map<string, JsonValue>)

  /** A parser's outcome: the value and the unread rest, or one of winnow's two errors. */
  datatype Parsed<+T> = Ok(value: T, rest: string) | Backtrack | Cut

  // ---------------------------------------------------------------------
  // JsonValue::extend_from and the duplicate-key fold
  // ---------------------------------------------------------------------

  /**
   * `extend_from`: an object absorbs the entries of a later object, the
   * later value winning on a shared key; in every other case the
   * earlier value stays as it was.
   */
  function ExtendFrom(self: JsonValue, other: JsonValue): (r: JsonValue)
    ensures r.Object? <==> self.Object?
    ensures !(self.Object? && other.Object?) ==> r == self
    ensures self.Object? && other.Object? ==>
      r.entries.Keys == self.entries.Keys + other.entries.Keys &&
      (forall k | k in other.entries :: r.entries[k] == other.entries[k]) &&
      (forall k | k in self.entries && k !in other.entries :: r.entries[k] == self.entries[k])
  {
    if self.Object? && other.Object? then Object(self.entries + other.entries) else self
  }

  /** The fold of `json_value` over an object's entries, from accumulator `acc`. */
  function MergeInto(acc: map<string, JsonValue>, entries: seq<(string, JsonValue)>): (m: map<string, JsonValue>)
    decreases |entries|
  {
    if |entries| == 0 then acc
    else
      var (k, v) := entries[0];
      MergeInto(if k in acc then acc[k := ExtendFrom(acc[k], v)] else acc[k := v], entries[1..])
  }

  function Merge(entries: seq<(string, JsonValue)>): map<string, JsonValue> {
    MergeInto(map[], entries)
  }

  /** The values given to key `k`, in order. */
  function ValuesFor(entries: seq<(string, JsonValue)>, k: string): (vs: seq<JsonValue>)
    ensures |vs| <= |entries|
  {
    if |entries| == 0 then []
    else (if entries[0].0 == k then [entries[0].1] else []) + ValuesFor(entries[1..], k)
  }

  /** `start` extended by each of `vs` in turn. */
  function ExtendAll(start: JsonValue, vs: seq<JsonValue>): JsonValue
    decreases |vs|
  {
    if |vs| == 0 then start else ExtendAll(ExtendFrom(start, vs[0]), vs[1..])
  }

  /**
   * The fold, stated per key: a key is present exactly when it was in
   * the accumulator or given a value, and its value is the first one
   * extended by every later one, in order.
   */
  lemma {:induction false} MergeIntoPerKey(acc: map<string, JsonValue>, entries: seq<(string, JsonValue)>, k: string)
    ensures k in MergeInto(acc, entries) <==> k in acc || |ValuesFor(entries, k)| > 0
    ensures k in acc ==> MergeInto(acc, entries)[k] == ExtendAll(acc[k], ValuesFor(entries, k))
    ensures k !in acc && |ValuesFor(entries, k)| > 0 ==>
      MergeInto(acc, entries)[k] == ExtendAll(ValuesFor(entries, k)[0], ValuesFor(entries, k)[1..])
    decreases |entries|
  {
    if |entries| > 0 {
      var (k0, v) := entries[0];
      var next := if k0 in acc then acc[k0 := ExtendFrom(acc[k0], v)] else acc[k0 := v];
      MergeIntoPerKey(next, entries[1..], k);
      if k0 == k {
        assert ValuesFor(entries, k) == [v] + ValuesFor(entries[1..], k);
        assert ([v] + ValuesFor(entries[1..], k))[1..] == ValuesFor(entries[1..], k);
      } else {
        assert ValuesFor(entries, k) == ValuesFor(entries[1..], k);
      }
    }
  }

  /** An earlier string absorbs nothing. */
  lemma {:induction false} StringAbsorbsNothing(s: string, vs: seq<JsonValue>)
    ensures ExtendAll(Str(s), vs) == Str(s)
    decreases |vs|
  {
    if |vs| > 0 {
      StringAbsorbsNothing(s, vs[1..]);
    }
  }

  /** An object stays an object and keeps every key it had. */
  lemma {:induction false} ObjectKeepsKeys(m: map<string, JsonValue>, vs: seq<JsonValue>)
    ensures ExtendAll(Object(m), vs).Object?
    ensures m.Keys <= ExtendAll(Object(m), vs).entries.Keys
    decreases |vs|
  {
    if |vs| > 0 {
      ObjectKeepsKeys(ExtendFrom(Object(m), vs[0]).entries, vs[1..]);
    }
  }

  /**
   * A repeated key in an object: the first value decides; a first string
   * is kept whatever follows, a first object stays an object holding
   * at least its own keys, with later objects' entries merged in.
   */
  lemma DuplicateKeys(entries: seq<(string, JsonValue)>, k: string)
    ensures k in Merge(entries) <==> |ValuesFor(entries, k)| > 0
    ensures |ValuesFor(entries, k)| > 0 && ValuesFor(entries, k)[0].Str? ==>
      Merge(entries)[k] == ValuesFor(entries, k)[0]
    ensures |ValuesFor(entries, k)| > 0 && ValuesFor(entries, k)[0].Object? ==>
      Merge(entries)[k].Object? && ValuesFor(entries, k)[0].entries.Keys <= Merge(entries)[k].entries.Keys
  {
    MergeIntoPerKey(map[], entries, k);
    var vs := ValuesFor(entries, k);
    if |vs| > 0 {
      match vs[0]
      case Str(s) => StringAbsorbsNothing(s, vs[1..]);
      case Object(m) => ObjectKeepsKeys(m, vs[1..]);
    }
  }

  // ---------------------------------------------------------------------
  // ASCII case
  // ---------------------------------------------------------------------

  predicate IsAsciiUpper(c: char) {
    'A' <= c <= 'Z'
  }

  predicate IsLowercase(s: string) {
    forall i | 0 <= i < |s| :: !IsAsciiUpper(s[i])
  }

  /** Lowercasing leaves no ASCII capital, changes nothing already lowercase, and so is idempotent. */
  lemma LowercaseIsIdempotent(s: string)
    ensures IsLowercase(Lower(s))
    ensures IsLowercase(s) ==> Lower(s) == s
    ensures Lower(Lower(s)) == Lower(s)
  {
  }

  /** Every key, at every depth, is lowercase. */
  predicate KeysLowercase(v: JsonValue) {
    match v
    case Str(_) => true
    case Object(m) => forall k | k in m :: IsLowercase(k) && KeysLowercase(m[k])
  }

  predicate EntriesLowercase(entries: seq<(string, JsonValue)>) {
    forall i | 0 <= i < |entries| :: IsLowercase(entries[i].0) && KeysLowercase(entries[i].1)
  }

  lemma {:induction false} MergeKeepsLowercase(acc: map<string, JsonValue>, entries: seq<(string, JsonValue)>)
    requires KeysLowercase(Object(acc)) && EntriesLowercase(entries)
    ensures KeysLowercase(Object(MergeInto(acc, entries)))
    decreases |entries|
  {
    if |entries| > 0 {
      var (k, v) := entries[0];
      var next := if k in acc then acc[k := ExtendFrom(acc[k], v)] else acc[k := v];
      assert KeysLowercase(Object(next));
      assert forall i | 1 <= i < |entries| :: entries[1..][i - 1] == entries[i];
      MergeKeepsLowercase(next, entries[1..]);
    }
  }

  // ---------------------------------------------------------------------
  // Whitespace and comments
  // ---------------------------------------------------------------------

  /** The characters of winnow's `multispace0`. */
  predicate IsSpace(c: char) {
    c == ' ' || c == '\t' || c == '\r' || c == '\n'
  }

  predicate IsLineEnd(c: char) {
    c == '\n' || c == '\r'
  }

  /** `multispace0`: drop leading whitespace. */
  function Multispace0(s: string): (r: string)
    ensures |r| <= |s|
    ensures |r| == 0 || !IsSpace(r[0])
  {
    if |s| > 0 && IsSpace(s[0]) then Multispace0(s[1..]) else s
  }

  /** `take_till(0.., ['\n', '\r'])`: drop up to the first line end, or to the end of the text. */
  function TillLineEnd(s: string): (r: string)
    ensures |r| <= |s|
    ensures |r| == 0 || IsLineEnd(r[0])
  {
    if |s| > 0 && !IsLineEnd(s[0]) then TillLineEnd(s[1..]) else s
  }

  predicate StartsComment(s: string) {
    |s| >= 2 && s[0] == '/' && s[1] == '/'
  }

  /** `repeat(0.., preceded("//", terminated(take_till(..), multispace0)))`. */
  function Comments(s: string): (r: string)
    ensures |r| <= |s|
    decreases |s|
  {
    if StartsComment(s) then Comments(Multispace0(TillLineEnd(s[2..]))) else s
  }

  /** `multispace_with_opt_comment`. */
  function SkipSep(s: string): (r: string)
    ensures |r| <= |s|
  {
    Comments(Multispace0(s))
  }

  /** Filler between entries: a whitespace character, or a `//` comment closed by a line end. */
  datatype Gap = Space(c: char) | LineComment(text: string)

  predicate ValidGap(g: Gap) {
    match g
    case Space(c) => IsSpace(c)
    case LineComment(text) => forall i | 0 <= i < |text| :: !IsLineEnd(text[i])
  }

  function RenderGaps(gaps: seq<Gap>): string {
    if |gaps| == 0 then "" else RenderGap(gaps[0]) + RenderGaps(gaps[1..])
  }

  /** One loop over the filler, equal to the source's whitespace-then-comments structure. */
  function Skip(s: string): (r: string)
    decreases |s|
  {
    if |s| > 0 && IsSpace(s[0]) then Skip(s[1..])
    else if StartsComment(s) then Skip(TillLineEnd(s[2..]))
    else s
  }

  lemma {:induction false} SkipAfterSpaces(s: string)
    ensures Skip(Multispace0(s)) == Skip(s)
    decreases |s|
  {
    if |s| > 0 && IsSpace(s[0]) {
      SkipAfterSpaces(s[1..]);
    }
  }

  lemma {:induction false} CommentsIsSkip(s: string)
    requires |s| == 0 || !IsSpace(s[0])
    ensures Comments(s) == Skip(s)
    decreases |s|
  {
    if StartsComment(s) {
      var t := TillLineEnd(s[2..]);
      CommentsIsSkip(Multispace0(t));
      SkipAfterSpaces(t);
    }
  }

  lemma SkipSepIsSkip(s: string)
    ensures SkipSep(s) == Skip(s)
  {
    CommentsIsSkip(Multispace0(s));
    SkipAfterSpaces(s);
  }

  lemma {:induction false} TillLineEndSkipsText(text: string, rest: string)
    requires forall i | 0 <= i < |text| :: !IsLineEnd(text[i])
    ensures TillLineEnd(text + "\n" + rest) == "\n" + rest
    decreases |text|
  {
    if |text| > 0 {
      assert (text + "\n" + rest)[1..] == text[1..] + "\n" + rest;
      TillLineEndSkipsText(text[1..], rest);
    } else {
      assert text + "\n" + rest == "\n" + rest;
    }
  }

  /**
   * The separator skips whitespace and line comments: it stops at the
   * first character that starts neither, and any filler in front of
   * the text is skipped as if it were absent.
   */
  lemma {:induction false} SkipSepSkipsGaps(gaps: seq<Gap>, s: string)
    requires forall i | 0 <= i < |gaps| :: ValidGap(gaps[i])
    ensures SkipSep(RenderGaps(gaps) + s) == SkipSep(s)
    decreases |gaps|
  {
    SkipSepIsSkip(RenderGaps(gaps) + s);
    SkipSepIsSkip(s);
    SkipSkipsGaps(gaps, s);
  }

  lemma {:induction false} SkipSkipsGaps(gaps: seq<Gap>, s: string)
    requires forall i | 0 <= i < |gaps| :: ValidGap(gaps[i])
    ensures Skip(RenderGaps(gaps) + s) == Skip(s)
    decreases |gaps|
  {
    if |gaps| > 0 {
      var tail := RenderGaps(gaps[1..]) + s;
      assert forall i | 1 <= i < |gaps| :: gaps[1..][i - 1] == gaps[i];
      SkipSkipsGaps(gaps[1..], s);
      SkipSkipsGap(gaps[0], tail);
      assert RenderGaps(gaps) + s == RenderGap(gaps[0]) + tail;
    } else {
      assert RenderGaps(gaps) + s == s;
    }
  }

  function RenderGap(g: Gap): string {
    match g
    case Space(c) => [c]
    case LineComment(text) => "//" + text + "\n"
  }

  lemma SkipSkipsGap(g: Gap, tail: string)
    requires ValidGap(g)
    ensures Skip(RenderGap(g) + tail) == Skip(tail)
  {
    match g
    case Space(c) =>
      assert ([c] + tail)[1..] == tail;
    case LineComment(text) =>
      assert ("//" + text + "\n" + tail)[2..] == text + "\n" + tail;
      TillLineEndSkipsText(text, tail);
      assert ("\n" + tail)[1..] == tail;
  }

  lemma SkipSepStops(s: string)
    ensures var r := SkipSep(s); !(|r| > 0 && IsSpace(r[0])) && !StartsComment(r)
  {
    SkipSepIsSkip(s);
    SkipStops(s);
  }

  lemma {:induction false} SkipStops(s: string)
    ensures var r := Skip(s); !(|r| > 0 && IsSpace(r[0])) && !StartsComment(r)
    decreases |s|
  {
    if |s| > 0 && IsSpace(s[0]) {
      SkipStops(s[1..]);
    } else if StartsComment(s) {
      SkipStops(TillLineEnd(s[2..]));
    }
  }

  // ---------------------------------------------------------------------
  // u16_hex
  // ---------------------------------------------------------------------

  /** A digit of `from_str_radix(_, 16)`: 0-9, a-f, A-F. */
  function HexDigit(c: char): (d: Option<nat>)
    ensures d.Some? ==> d.value < 16
  {
    if '0' <= c <= '9' then Some(c as int - '0' as int)
    else if 'a' <= c <= 'f' then Some(c as int - 'a' as int + 10)
    else if 'A' <= c <= 'F' then Some(c as int - 'A' as int + 10)
    else None
  }

  /** The value of a run of hex digits, most significant first; None on any other character. */
  function HexValue(s: string): (v: Option<nat>)
    ensures v.Some? <==> forall i | 0 <= i < |s| :: HexDigit(s[i]).Some?
    decreases |s|
  {
    if |s| == 0 then Some(0)
    else
      match HexValue(s[..|s| - 1])
      case None => None
      case Some(high) =>
        match HexDigit(s[|s| - 1])
        case None => None
        case Some(d) => Some(high * 16 + d)
  }

  const U16_END: nat := 0x1_0000

  /**
   * `u16::from_str_radix(s, 16)`: a leading '+' is accepted when digits
   * follow it; an empty text or a value past the type is an error.
   */
  function FromStrRadix16(s: string): (v: Option<nat>)
    ensures v.Some? ==> v.value < U16_END
  {
    if |s| == 0 then None
    else
      var digits := if s[0] == '+' then s[1..] else s;
      if |digits| == 0 then None
      else
        match HexValue(digits)
        case None => None
        case Some(v) => if v < U16_END then Some(v) else None
  }

  /** `u16_hex` as written: four characters through `from_str_radix`. */
  function U16HexAsWritten(s: string): (r: Parsed<nat>)
    ensures r.Ok? ==> |s| >= 4 && r.value < U16_END && r.rest == s[4..]
    ensures !r.Cut?
  {
    if |s| < 4 then Backtrack
    else
      match FromStrRadix16(s[..4])
      case None => Backtrack
      case Some(v) => Ok(v, s[4..])
  }

  /** `u16_hex` as intended: exactly four hex digits. */
  function U16Hex(s: string): (r: Parsed<nat>)
    ensures r.Ok? <==> |s| >= 4 && forall i | 0 <= i < 4 :: HexDigit(s[i]).Some?
    ensures r.Ok? ==> |s| >= 4 && r.value < U16_END && r.rest == s[4..]
    ensures !r.Cut?
  {
    if |s| < 4 then Backtrack
    else
      assert forall i | 0 <= i < 4 :: s[..4][i] == s[i];
      match HexValue(s[..4])
      case None => Backtrack
      case Some(v) =>
        FourDigitsBound(s[..4]);
        Ok(v, s[4..])
  }

  /** The lowercase hex digit of `d`. */
  function HexChar(d: nat): (c: char)
    requires d < 16
    ensures HexDigit(c) == Some(d)
  {
    if d < 10 then ('0' as int + d) as char else ('a' as int + d - 10) as char
  }

  /** Four hex digits of `v`, most significant first. */
  function Hex4(v: nat): (s: string)
    requires v < U16_END
    ensures |s| == 4
  {
    [HexChar(v / 0x1000), HexChar(v / 0x100 % 16), HexChar(v / 0x10 % 16), HexChar(v % 16)]
  }

  lemma HexValueSnoc(s: string, c: char)
    ensures HexValue(s + [c]) ==
      if HexValue(s).Some? && HexDigit(c).Some? then Some(HexValue(s).value * 16 + HexDigit(c).value) else None
  {
    assert (s + [c])[..|s|] == s;
  }

  /** Four digits read as the number they spell. */
  lemma HexValueOf4(s: string)
    requires |s| == 4 && forall i | 0 <= i < 4 :: HexDigit(s[i]).Some?
    ensures HexValue(s) == Some(((HexDigit(s[0]).value * 16 + HexDigit(s[1]).value) * 16
      + HexDigit(s[2]).value) * 16 + HexDigit(s[3]).value)
  {
    assert s == s[..3] + [s[3]];
    assert s[..3] == s[..2] + [s[2]];
    assert s[..2] == s[..1] + [s[1]];
    assert s[..1] == [] + [s[0]];
    HexValueSnoc(s[..3], s[3]);
    HexValueSnoc(s[..2], s[2]);
    HexValueSnoc(s[..1], s[1]);
    HexValueSnoc([], s[0]);
  }

  lemma Hex4Digits(v: nat)
    requires v < U16_END
    ensures ((v / 0x1000 * 16 + v / 0x100 % 16) * 16 + v / 0x10 % 16) * 16 + v % 16 == v
  {
  }

  /** Reading four hex digits back gives the number written. */
  lemma U16HexRoundTrip(v: nat, rest: string)
    requires v < U16_END
    ensures U16Hex(Hex4(v) + rest) == Ok(v, rest)
    ensures U16HexAsWritten(Hex4(v) + rest) == Ok(v, rest)
  {
    var h := Hex4(v);
    HexValueOf4(h);
    Hex4Digits(v);
    assert (h + rest)[..4] == h && (h + rest)[4..] == rest;
    assert h[0] != '+';
  }

  /** The two readings agree on every text that does not start with '+'. */
  lemma U16HexAgreesWithoutPlus(s: string)
    requires |s| > 0 && s[0] != '+'
    ensures U16HexAsWritten(s) == U16Hex(s)
  {
    if |s| >= 4 {
      var h := HexValue(s[..4]);
      if h.Some? {
        assert h.value < U16_END by {
          FourDigitsBound(s[..4]);
        }
      }
    }
  }

  /** Four hex digits never reach 2^16. */
  lemma FourDigitsBound(s: string)
    requires |s| == 4 && HexValue(s).Some?
    ensures HexValue(s).value < U16_END
  {
    HexValueOf4(s);
  }

  /**
   * A '+' and three hex digits: as written a code (the sign is taken for
   * `from_str_radix`'s optional plus), as intended no code at all.
   */
  lemma {:induction false} PlusSignPassesAsWritten(a: char, b: char, c: char, rest: string)
    requires HexDigit(a).Some? && HexDigit(b).Some? && HexDigit(c).Some?
    ensures U16HexAsWritten(['+', a, b, c] + rest) ==
      Ok((HexDigit(a).value * 16 + HexDigit(b).value) * 16 + HexDigit(c).value, rest)
    ensures U16Hex(['+', a, b, c] + rest) == Backtrack
  {
    var s := ['+', a, b, c] + rest;
    assert s[..4] == ['+', a, b, c] && s[4..] == rest;
    assert s[..4][1..] == [a, b, c];
    HexValueSnoc([], a);
    HexValueSnoc([a], b);
    HexValueSnoc([a, b], c);
    assert [] + [a] == [a] && [a] + [b] == [a, b] && [a, b] + [c] == [a, b, c];
    assert HexDigit(s[..4][0]).None?;
  }

  /** So `\u+041` names U+0041, 'A'. */
  lemma PlusSignExample()
    ensures U16HexAsWritten("+041") == Ok(0x41, "")
    ensures U16Hex("+041") == Backtrack
  {
    PlusSignPassesAsWritten('0', '4', '1', "");
    assert ['+', '0', '4', '1'] + "" == "+041";
  }

  // ---------------------------------------------------------------------
  // UTF-16 surrogates (section 2.2 of RFC 2781)
  // ---------------------------------------------------------------------

  predicate IsHighSurrogate(u: nat) {
    0xD800 <= u < 0xDC00
  }

  predicate IsLowSurrogate(u: nat) {
    0xDC00 <= u < 0xE000
  }

  predicate IsSurrogate(u: nat) {
    0xD800 <= u < 0xE000
  }

  /**
   * The code point of a surrogate pair.  The source shifts the high ten
   * bits left by 10 in a u32; they are below 2^10, so nothing is lost.
   */
  function CombineSurrogates(high: nat, low: nat): (cp: nat)
    requires IsHighSurrogate(high) && IsLowSurrogate(low)
    ensures 0x10000 <= cp < 0x110000
  {
    (high - 0xD800) * 0x400 + (low - 0xDC00) + 0x10000
  }

  /** The pair encoding a supplementary code point (section 2.1 of RFC 2781). */
  function HighSurrogate(cp: nat): (u: nat)
    requires 0x10000 <= cp < 0x110000
    ensures IsHighSurrogate(u)
  {
    0xD800 + (cp - 0x10000) / 0x400
  }

  function LowSurrogate(cp: nat): (u: nat)
    requires 0x10000 <= cp < 0x110000
    ensures IsLowSurrogate(u)
  {
    0xDC00 + (cp - 0x10000) % 0x400
  }

  /** Decoding undoes encoding, and encoding undoes decoding. */
  lemma SurrogatesRoundTrip(cp: nat, high: nat, low: nat)
    requires 0x10000 <= cp < 0x110000
    requires IsHighSurrogate(high) && IsLowSurrogate(low)
    ensures CombineSurrogates(HighSurrogate(cp), LowSurrogate(cp)) == cp
    ensures var c := CombineSurrogates(high, low); HighSurrogate(c) == high && LowSurrogate(c) == low
  {
  }

  // ---------------------------------------------------------------------
  // Characters and strings
  // ---------------------------------------------------------------------

  /** The one-letter escapes of `character`; None for every other letter. */
  function SimpleEscape(c: char): Option<char> {
    if c == '"' || c == '\'' || c == '\\' || c == '/' then Some(c)
    else if c == 'b' then Some(8 as char)
    else if c == 'f' then Some(12 as char)
    else if c == 'n' then Some('\n')
    else if c == 'r' then Some('\r')
    else if c == 't' then Some('\t')
    else None
  }

  /**
   * `unicode_escape`: four hex digits naming a code point outside the
   * surrogate range, or else a high surrogate, `\u`, and a low one.
   */
  function UnicodeEscape(s: string): (r: Parsed<char>)
    ensures r.Ok? ==> |r.rest| + 4 <= |s|
    ensures !r.Cut?
  {
    match U16Hex(s)
    case Ok(cp, rest) =>
      if !IsSurrogate(cp) then Ok(cp as char, rest) else SurrogatePair(s)
    case _ => SurrogatePair(s)
  }

  /** The second alternative of `unicode_escape`. */
  function SurrogatePair(s: string): (r: Parsed<char>)
    ensures r.Ok? ==> |r.rest| + 10 <= |s|
    ensures !r.Cut?
  {
    match U16Hex(s)
    case Ok(high, afterHigh) =>
      if |afterHigh| >= 2 && afterHigh[0] == '\\' && afterHigh[1] == 'u' then
        match U16Hex(afterHigh[2..])
        case Ok(low, rest) =>
          if IsHighSurrogate(high) && IsLowSurrogate(low) then Ok(CombineSurrogates(high, low) as char, rest)
          else Backtrack
        case _ => Backtrack
      else Backtrack
    case _ => Backtrack
  }

  /**
   * `character`: any character but '"'; a backslash starts an escape,
   * and a backslash with no valid escape after it is no character.
   */
  function Character(s: string): (r: Parsed<char>)
    ensures r.Ok? ==> |r.rest| < |s|
    ensures !r.Cut?
  {
    if |s| == 0 || s[0] == '"' then Backtrack
    else if s[0] != '\\' then Ok(s[0], s[1..])
    else if |s| == 1 then Backtrack
    else
      match SimpleEscape(s[1])
      case Some(c) => Ok(c, s[2..])
      case None => if s[1] == 'u' || s[1] == 'x' then UnicodeEscape(s[2..]) else Backtrack
  }

  /** `repeat(0.., character)`: the characters read and the text after them. */
  function Chars(s: string): (r: (string, string))
    ensures |r.1| <= |s|
    decreases |s|
  {
    match Character(s)
    case Ok(c, rest) =>
      var (more, after) := Chars(rest);
      ([c] + more, after)
    case _ => ("", s)
  }

  /** `string`: a quoted run of characters; once the quote is open, any failure is a Cut. */
  function StringLit(s: string): (r: Parsed<string>)
    ensures r.Ok? ==> |r.rest| + 2 <= |s|
    ensures r.Backtrack? <==> |s| == 0 || s[0] != '"'
  {
    if |s| == 0 || s[0] != '"' then Backtrack
    else
      var (body, after) := Chars(s[1..]);
      if |after| > 0 && after[0] == '"' then Ok(body, after[1..]) else Cut
  }

  /** Each one-letter escape reads as its character. */
  lemma SimpleEscapes(c: char, rest: string)
    requires SimpleEscape(c).Some?
    ensures Character(['\\', c] + rest) == Ok(SimpleEscape(c).value, rest)
  {
    assert (['\\', c] + rest)[2..] == rest;
  }

  /** Any other letter but `u` and `x` after a backslash is no character. */
  lemma UnknownEscape(c: char, rest: string)
    requires SimpleEscape(c).None? && c != 'u' && c != 'x'
    ensures Character(['\\', c] + rest) == Backtrack
  {
  }

  /** A character a quoted string holds as itself. */
  predicate Plain(c: char) {
    c != '"' && c != '\\'
  }

  lemma {:induction false} CharsPlainPrefix(p: string, s: string)
    requires forall i | 0 <= i < |p| :: Plain(p[i])
    ensures Chars(p + s) == (p + Chars(s).0, Chars(s).1)
    decreases |p|
  {
    if |p| > 0 {
      assert (p + s)[1..] == p[1..] + s;
      CharsPlainPrefix(p[1..], s);
      assert [p[0]] + (p[1..] + Chars(s).0) == p + Chars(s).0;
    } else {
      assert p + s == s && p + Chars(s).0 == Chars(s).0;
    }
  }

  /** A string holding an unknown escape fails for good, after any plain prefix. */
  lemma UnknownEscapeCuts(p: string, c: char, rest: string)
    requires forall i | 0 <= i < |p| :: Plain(p[i])
    requires SimpleEscape(c).None? && c != 'u' && c != 'x'
    ensures StringLit("\"" + p + ['\\', c] + rest) == Cut
  {
    var s := "\"" + p + ['\\', c] + rest;
    assert s[1..] == p + (['\\', c] + rest);
    CharsPlainPrefix(p, ['\\', c] + rest);
    UnknownEscape(c, rest);
  }

  /** A code point outside the surrogates, written as `\u` and four hex digits, reads back. */
  lemma BmpEscape(cp: nat, rest: string)
    requires cp < U16_END && !IsSurrogate(cp)
    ensures UnicodeEscape(Hex4(cp) + rest) == Ok(cp as char, rest)
  {
    U16HexRoundTrip(cp, rest);
  }

  /** A high and a low surrogate joined by `\u` read as the code point they encode. */
  lemma PairReads(high: nat, low: nat, rest: string)
    requires IsHighSurrogate(high) && IsLowSurrogate(low)
    ensures UnicodeEscape(Hex4(high) + "\\u" + Hex4(low) + rest) == Ok(CombineSurrogates(high, low) as char, rest)
  {
    var tail := "\\u" + Hex4(low) + rest;
    assert Hex4(high) + "\\u" + Hex4(low) + rest == Hex4(high) + tail;
    U16HexRoundTrip(high, tail);
    assert tail[2..] == Hex4(low) + rest;
    U16HexRoundTrip(low, rest);
  }

  /** A supplementary code point, written as its surrogate pair, reads back. */
  lemma SurrogatePairEscape(cp: nat, rest: string)
    requires 0x10000 <= cp < 0x110000
    ensures UnicodeEscape(Hex4(HighSurrogate(cp)) + "\\u" + Hex4(LowSurrogate(cp)) + rest) == Ok(cp as char, rest)
  {
    PairReads(HighSurrogate(cp), LowSurrogate(cp), rest);
    SurrogatesRoundTrip(cp, HighSurrogate(cp), LowSurrogate(cp));
  }

  /** A high surrogate with no `\u` after it is no escape. */
  lemma LoneHighSurrogate(high: nat, rest: string)
    requires IsHighSurrogate(high)
    requires !(|rest| >= 2 && rest[0] == '\\' && rest[1] == 'u')
    ensures UnicodeEscape(Hex4(high) + rest) == Backtrack
  {
    U16HexRoundTrip(high, rest);
  }

  /** The escaped form of a string: a backslash before every '"' and '\\'. */
  function Escape(s: string): (e: string)
    ensures |e| >= |s|
  {
    if |s| == 0 then ""
    else (if Plain(s[0]) then [s[0]] else ['\\', s[0]]) + Escape(s[1..])
  }

  lemma {:induction false} CharsReadsEscaped(s: string, rest: string)
    ensures Chars(Escape(s) + "\"" + rest) == (s, "\"" + rest)
    decreases |s|
  {
    if |s| == 0 {
      assert Escape(s) + "\"" + rest == "\"" + rest;
    } else {
      CharsReadsEscaped(s[1..], rest);
      EscapedStep(s, rest);
      assert [s[0]] + s[1..] == s;
    }
  }

  /** The first escaped character of a run reads back as itself, ahead of the rest. */
  lemma EscapedStep(s: string, rest: string)
    requires |s| > 0
    ensures var tail := Escape(s[1..]) + "\"" + rest;
      Chars(Escape(s) + "\"" + rest) == ([s[0]] + Chars(tail).0, Chars(tail).1)
  {
    var tail := Escape(s[1..]) + "\"" + rest;
    var lead := if Plain(s[0]) then [s[0]] else ['\\', s[0]];
    assert Escape(s) + "\"" + rest == lead + tail;
    if Plain(s[0]) {
      PlainCharacter(s[0], tail);
    } else {
      SimpleEscapes(s[0], tail);
    }
    CharsAfterOne(lead, s[0], tail);
  }

  /** A plain character reads as itself. */
  lemma PlainCharacter(c: char, rest: string)
    requires Plain(c)
    ensures Character([c] + rest) == Ok(c, rest)
  {
    assert ([c] + rest)[1..] == rest;
  }

  /** Once one character is read off the front, the rest of the run follows it. */
  lemma CharsAfterOne(lead: string, c: char, rest: string)
    requires Character(lead + rest) == Ok(c, rest)
    ensures Chars(lead + rest) == ([c] + Chars(rest).0, Chars(rest).1)
  {
  }

  /** Reading a quoted, escaped string gives the string back. */
  lemma StringRoundTrip(s: string, rest: string)
    ensures StringLit("\"" + Escape(s) + "\"" + rest) == Ok(s, rest)
  {
    var t := "\"" + Escape(s) + "\"" + rest;
    assert t[1..] == Escape(s) + "\"" + rest;
    CharsReadsEscaped(s, rest);
    assert ("\"" + rest)[1..] == rest;
  }

  // ---------------------------------------------------------------------
  // Objects and values
  // ---------------------------------------------------------------------

  /** `key_value`: a string key, lowercased, optional whitespace, and a value. */
  function KeyValue(s: string): (r: Parsed<(string, JsonValue)>)
    ensures r.Ok? ==> |r.rest| < |s|
    ensures r.Ok? ==> IsLowercase(r.value.0) && KeysLowercase(r.value.1)
    decreases |s|, 0
  {
    match StringLit(s)
    case Backtrack => Backtrack
    case Cut => Cut
    case Ok(key, afterKey) =>
      LowercaseIsIdempotent(key);
      match JsonValueOf(Multispace0(afterKey))
      case Ok(v, rest) => Ok((Lower(key), v), rest)
      case Backtrack => Backtrack
      case Cut => Cut
  }

  /** `json_value`: a string, or else an object whose repeated keys are merged. */
  function JsonValueOf(s: string): (r: Parsed<JsonValue>)
    ensures r.Ok? ==> |r.rest| < |s|
    ensures r.Ok? ==> KeysLowercase(r.value)
    decreases |s|, 2
  {
    match StringLit(s)
    case Ok(str, rest) => Ok(Str(str), rest)
    case Cut => Cut
    case Backtrack =>
      match ObjectOf(s)
      case Ok(entries, rest) =>
        MergeKeepsLowercase(map[], entries);
        Ok(Object(Merge(entries)), rest)
      case Backtrack => Backtrack
      case Cut => Cut
  }

  /**
   * `object`: '{', the entries separated by filler, and filler before
   * '}'; after the brace every failure is a Cut.
   */
  function ObjectOf(s: string): (r: Parsed<seq<(string, JsonValue)>>)
    ensures r.Ok? ==> |r.rest| < |s|
    ensures r.Ok? ==> EntriesLowercase(r.value)
    ensures r.Backtrack? <==> |s| == 0 || s[0] != '{'
    decreases |s|, 1
  {
    if |s| == 0 || s[0] != '{' then Backtrack
    else
      match Entries(SkipSep(s[1..]))
      case Ok(entries, afterEntries) =>
        var close := SkipSep(afterEntries);
        if |close| > 0 && close[0] == '}' then Ok(entries, close[1..]) else Cut
      case _ => Cut
  }

  /** `separated(0.., key_value, multispace_with_opt_comment)`: never a Backtrack. */
  function Entries(s: string): (r: Parsed<seq<(string, JsonValue)>>)
    ensures r.Ok? ==> |r.rest| <= |s|
    ensures r.Ok? ==> EntriesLowercase(r.value)
    ensures !r.Backtrack?
    decreases |s|, 1
  {
    match KeyValue(s)
    case Backtrack => Ok([], s)
    case Cut => Cut
    case Ok(kv, afterFirst) =>
      match MoreEntries(afterFirst)
      case Ok(more, rest) => Ok([kv] + more, rest)
      case _ => Cut
  }

  /**
   * The loop of `separated` after an entry: a separator, then another
   * entry, or else the text as it was before the separator.  winnow's
   * `separated` insists that the separator consume input, and in release
   * builds reports a Cut when it does not.
   */
  function MoreEntries(s: string): (r: Parsed<seq<(string, JsonValue)>>)
    ensures r.Ok? ==> |r.rest| <= |s|
    ensures r.Ok? ==> EntriesLowercase(r.value)
    ensures !r.Backtrack?
    decreases |s|, 1
  {
    var sep := SkipSep(s);
    if |sep| == |s| then Cut
    else
      match KeyValue(sep)
      case Backtrack => Ok([], s)
      case Cut => Cut
      case Ok(kv, afterEntry) =>
        match MoreEntries(afterEntry)
        case Ok(more, rest) => Ok([kv] + more, rest)
        case _ => Cut
  }

  /**
   * `json_like` under `read_file`: the document's one pair, wrapped in an
   * object; None where `read_file` panics on a parse error.
   */
  function Document(text: string): (r: Option<JsonValue>)
    ensures r.Some? ==> r.value.Object? && |r.value.entries| == 1 && KeysLowercase(r.value)
  {
    match KeyValue(Multispace0(text))
    case Ok((k, v), _) => Some(Object(map[k := v]))
    case _ => None
  }

  /** Filler after an object's opening brace is skipped as if absent. */
  lemma ObjectSkipsLeadingGaps(gaps: seq<Gap>, body: string)
    requires forall i | 0 <= i < |gaps| :: ValidGap(gaps[i])
    ensures ObjectOf("{" + RenderGaps(gaps) + body) == ObjectOf("{" + body)
  {
    SkipSepSkipsGaps(gaps, body);
    ObjectOfAfterBrace(RenderGaps(gaps), body);
  }

  /** An object depends only on what follows its brace once the filler is skipped. */
  lemma ObjectOfAfterBrace(pre: string, t: string)
    requires SkipSep(pre + t) == SkipSep(t)
    ensures ObjectOf("{" + pre + t) == ObjectOf("{" + t)
  {
    assert ("{" + pre + t)[1..] == pre + t && ("{" + t)[1..] == t;
  }

  // ---------------------------------------------------------------------
  // Translation and GameItems
  // ---------------------------------------------------------------------

  /** The `lang` → `tokens` object of a translation file. */
  datatype Translation = Translation(tokens: map<string, JsonValue>)

  /** `Translation::try_from` after the file is read: None is its io error. */
  function TranslationOf(doc: JsonValue): (r: Option<Translation>)
    ensures r.Some? <==>
      doc.Object? && "lang" in doc.entries && doc.entries["lang"].Object? &&
      "tokens" in doc.entries["lang"].entries && doc.entries["lang"].entries["tokens"].Object?
    ensures r.Some? ==> r.value.tokens == doc.entries["lang"].entries["tokens"].entries
  {
    if doc.Object? && "lang" in doc.entries && doc.entries["lang"].Object? then
      var lang := doc.entries["lang"].entries;
      if "tokens" in lang && lang["tokens"].Object? then Some(Translation(lang["tokens"].entries)) else None
    else None
  }

  /** `trim_start_matches('#')`: every leading '#' goes. */
  function TrimHashes(key: string): (r: string)
    ensures |r| <= |key| && r == key[|key| - |r|..]
    ensures |r| == 0 || r[0] != '#'
  {
    if |key| > 0 && key[0] == '#' then TrimHashes(key[1..]) else key
  }

  function NormalKey(key: string): string {
    Lower(TrimHashes(key))
  }

  /** `Translation::get`: the token's text, or None when it is missing or not a string. */
  function Get(t: Translation, key: string): (r: Option<string>)
    ensures r.Some? <==> NormalKey(key) in t.tokens && t.tokens[NormalKey(key)].Str?
    ensures r.Some? ==> t.tokens[NormalKey(key)] == Str(r.value)
  {
    var k := NormalKey(key);
    if k in t.tokens then
      match t.tokens[k]
      case Str(v) => Some(v)
      case Object(_) => None
    else None
  }

  lemma {:induction false} LowercaseKeepsHashes(key: string)
    ensures TrimHashes(Lower(key)) == Lower(TrimHashes(key))
    decreases |key|
  {
    if |key| > 0 && key[0] == '#' {
      assert Lower(key)[1..] == Lower(key[1..]);
      LowercaseKeepsHashes(key[1..]);
    }
  }

  /** A lookup ignores a leading '#': the `#Name` form of a localisation reference finds the token. */
  lemma GetIgnoresHash(t: Translation, key: string)
    ensures Get(t, "#" + key) == Get(t, key)
  {
    assert ("#" + key)[1..] == key;
  }

  /** A lookup ignores ASCII case. */
  lemma GetIgnoresCase(t: Translation, key: string)
    ensures Get(t, Lower(key)) == Get(t, key)
  {
    LowercaseKeepsHashes(key);
    LowercaseIsIdempotent(TrimHashes(key));
  }

  /** A parsed translation file answers every lowercase token that holds a string. */
  lemma GetFindsTokens(t: Translation, key: string)
    requires IsLowercase(key) && (|key| == 0 || key[0] != '#')
    requires key in t.tokens && t.tokens[key].Str?
    ensures Get(t, key) == Some(t.tokens[key].s)
  {
    LowercaseIsIdempotent(key);
  }

  /** The `items_game` object of an items file. */
  datatype GameItems = GameItems(items: map<string, JsonValue>)

  /** `GameItems::try_from` after the file is read: None is its io error. */
  function GameItemsOf(doc: JsonValue): (r: Option<GameItems>)
    ensures r.Some? <==> doc.Object? && "items_game" in doc.entries && doc.entries["items_game"].Object?
    ensures r.Some? ==> r.value.items == doc.entries["items_game"].entries
  {
    if doc.Object? && "items_game" in doc.entries && doc.entries["items_game"].Object? then
      Some(GameItems(doc.entries["items_game"].entries))
    else None
  }

  /** `GameItems::get`: the section under `key` (taken as given), if it is an object. */
  function GetSection(g: GameItems, key: string): (r: Option<map<string, JsonValue>>)
    ensures r.Some? <==> key in g.items && g.items[key].Object?
    ensures r.Some? ==> g.items[key] == Object(r.value)
  {
    if key in g.items && g.items[key].Object? then Some(g.items[key].entries) else None
  }
}
