/**
 * The few standard-library string operations the parser leans on:
 * decimal rendering of unsigned integers (`to_string`), ASCII
 * lower-casing, prefix and substring tests, and splitting on '.'.
 */
module Text {
  import opened Wrappers

  predicate IsDigit(c: char) {
    '0' <= c <= '9'
  }

  function DigitChar(d: nat): (c: char)
    requires d < 10
    ensures IsDigit(c) && c as int - '0' as int == d
  {
    ('0' as int + d) as char
  }

  /** `n.to_string()` for an unsigned integer: no sign, no leading zeros. */
  function NatToString(n: nat): (s: string)
    ensures |s| >= 1 && forall i :: 0 <= i < |s| ==> IsDigit(s[i])
    ensures |s| > 1 ==> s[0] != '0'
    decreases n
  {
    if n < 10 then [DigitChar(n)] else NatToString(n / 10) + [DigitChar(n % 10)]
  }

  /** The value of a string of decimal digits. */
  function DecimalValue(s: string): nat
    requires forall i :: 0 <= i < |s| ==> IsDigit(s[i])
  {
    if |s| == 0 then 0
    else
      assert IsDigit(s[|s| - 1]);
      10 * DecimalValue(s[..|s| - 1]) + (s[|s| - 1] as int - '0' as int)
  }

  /** Rendering then reading back gives the number. */
  lemma {:induction false} DecimalRoundTrip(n: nat)
    ensures DecimalValue(NatToString(n)) == n
    decreases n
  {
    if n >= 10 {
      var s := NatToString(n);
      DecimalRoundTrip(n / 10);
      assert s[..|s| - 1] == NatToString(n / 10);
    }
  }

  /** Different numbers render differently. */
  lemma NatToStringInjective(a: nat, b: nat)
    requires NatToString(a) == NatToString(b)
    ensures a == b
  {
    DecimalRoundTrip(a);
    DecimalRoundTrip(b);
  }

  predicate AllDigits(s: string) {
    forall i | 0 <= i < |s| :: IsDigit(s[i])
  }

  /** The digits `parse::<u32>` reads: the text after one optional leading '+'. */
  function UnsignedDigits(s: string): (d: string)
    ensures d == s || (|s| > 0 && s[0] == '+' && d == s[1..])
  {
    if |s| > 0 && s[0] == '+' then s[1..] else s
  }

  /**
   * `s.parse::<u32>()`: an optional '+' and then at least one decimal
   * digit, whose value must fit in 32 bits.
   */
  function ParseU32(s: string): (r: Option<nat>)
    ensures r.Some? ==> r.value < 0x1_0000_0000
    ensures r.Some? ==> |UnsignedDigits(s)| > 0 && AllDigits(UnsignedDigits(s))
  {
    var d := UnsignedDigits(s);
    if |d| == 0 || !AllDigits(d) then None
    else
      var v := DecimalValue(d);
      if v < 0x1_0000_0000 then Some(v) else None
  }

  /** A rendered 32-bit number parses back, with or without a '+'. */
  lemma ParseU32RoundTrip(n: nat)
    requires n < 0x1_0000_0000
    ensures ParseU32(NatToString(n)) == Some(n)
    ensures ParseU32("+" + NatToString(n)) == Some(n)
  {
    DecimalRoundTrip(n);
    var s := NatToString(n);
    assert IsDigit(s[0]);
    assert ("+" + s)[1..] == s;
  }

  /** A value that needs more than 32 bits does not parse. */
  lemma ParseU32Overflow(n: nat)
    requires n >= 0x1_0000_0000
    ensures ParseU32(NatToString(n)).None?
  {
    DecimalRoundTrip(n);
    assert IsDigit(NatToString(n)[0]);
  }

  /** ASCII lower-casing of one character. */
  function LowerChar(c: char): (l: char)
    ensures 'A' <= c <= 'Z' ==> l as int == c as int + 32
    ensures !('A' <= c <= 'Z') ==> l == c
  {
    if 'A' <= c <= 'Z' then (c as int + 32) as char else c
  }

  /** `to_ascii_lowercase`. */
  function Lower(s: string): (l: string)
    ensures |l| == |s| && forall i :: 0 <= i < |s| ==> l[i] == LowerChar(s[i])
  {
    seq(|s|, i requires 0 <= i < |s| => LowerChar(s[i]))
  }

  lemma LowerIdempotent(s: string)
    ensures Lower(Lower(s)) == Lower(s)
  {
  }

  predicate StartsWith(s: string, prefix: string) {
    |prefix| <= |s| && s[..|prefix|] == prefix
  }

  predicate OccursAt(s: string, t: string, i: nat) {
    i + |t| <= |s| && s[i..i + |t|] == t
  }

  /** `s.contains(t)`: `t` starts at some position of `s`. */
  predicate Contains(s: string, t: string)
    decreases |s|
  {
    StartsWith(s, t) || (|s| > 0 && Contains(s[1..], t))
  }

  /** An occurrence anywhere makes `Contains` true. */
  lemma {:induction false} OccurrenceContains(s: string, t: string, i: nat)
    requires OccursAt(s, t, i)
    ensures Contains(s, t)
    decreases i
  {
    if i > 0 {
      assert s[1..][i - 1..i - 1 + |t|] == s[i..i + |t|];
      OccurrenceContains(s[1..], t, i - 1);
    }
  }

  /** `Contains` names a position where `t` occurs. */
  lemma {:induction false} ContainsOccurrence(s: string, t: string) returns (i: nat)
    requires Contains(s, t)
    ensures OccursAt(s, t, i)
    decreases |s|
  {
    if StartsWith(s, t) {
      i := 0;
    } else {
      var k := ContainsOccurrence(s[1..], t);
      assert s[1..][k..k + |t|] == s[k + 1..k + 1 + |t|];
      i := k + 1;
    }
  }

  /** Index of the first '.', if any. */
  function FirstDot(s: string): (i: int)
    ensures -1 <= i < |s|
    ensures i >= 0 ==> s[i] == '.' && forall j :: 0 <= j < i ==> s[j] != '.'
    ensures i == -1 ==> forall j :: 0 <= j < |s| ==> s[j] != '.'
    decreases |s|
  {
    if |s| == 0 then -1
    else if s[0] == '.' then 0
    else var k := FirstDot(s[1..]); if k == -1 then -1 else k + 1
  }

  /** `s.split(".").next()`: the text before the first '.'. */
  function FirstComponent(s: string): (c: string)
    ensures StartsWith(s, c)
    ensures forall j :: 0 <= j < |c| ==> c[j] != '.'
  {
    var i := FirstDot(s);
    if i == -1 then s else s[..i]
  }

  /** `s.split(".")` without its first part, joined by '.' again: the text after the first '.'. */
  function AfterFirstDot(s: string): (rest: string)
    ensures FirstDot(s) == -1 ==> rest == []
    ensures FirstDot(s) >= 0 ==> FirstComponent(s) + "." + rest == s
  {
    var i := FirstDot(s);
    if i == -1 then [] else
      assert s[..i] + "." + s[i + 1..] == s;
      s[i + 1..]
  }

  /** The first component has no '.', so it is its own first component. */
  lemma FirstComponentIdempotent(s: string)
    ensures FirstComponent(FirstComponent(s)) == FirstComponent(s)
  {
    var c := FirstComponent(s);
    NoDotFirstDot(c);
  }

  /** In `c + "." + rest` with no '.' in `c`, the first '.' is the one after `c`. */
  lemma {:induction false} FirstDotOfJoin(c: string, rest: string)
    requires forall j | 0 <= j < |c| :: c[j] != '.'
    ensures FirstDot(c + "." + rest) == |c|
    decreases |c|
  {
    if |c| > 0 {
      assert (c + "." + rest)[1..] == c[1..] + "." + rest;
      FirstDotOfJoin(c[1..], rest);
    }
  }

  lemma {:induction false} NoDotFirstDot(c: string)
    requires forall j :: 0 <= j < |c| ==> c[j] != '.'
    ensures FirstDot(c) == -1
    decreases |c|
  {
    if |c| > 0 {
      NoDotFirstDot(c[1..]);
    }
  }
}
