/**
 * The check that closes `FrameParser::par_start` (first_pass/frameparser.rs):
 * the byte ranges found by the chunk scans, sorted and deduplicated, must
 * cover the file from the first frame at byte 16 to its last byte.
 */
module FrameCoverage {
  import opened Frames

  /** The outcome of `check_all_bytes_are_covered`: the verdict and the ranges it sent. */
  datatype Coverage = Coverage(ok: bool, sent: seq<StartEndOffset>)

  /** Byte `b` lies in one of the ranges. */
  predicate Covered(s: seq<StartEndOffset>, b: nat) {
    exists o :: o in s && o.start <= b < o.end
  }

  predicate SortedByStart(s: seq<StartEndOffset>) {
    forall i, j :: 0 <= i < j < |s| ==> s[i].start <= s[j].start
  }

  /** Puts `x` in front of the first range that starts no earlier than it. */
  function InsertByStart(x: StartEndOffset, s: seq<StartEndOffset>): (r: seq<StartEndOffset>)
    ensures |r| == |s| + 1
  {
    if |s| == 0 || x.start <= s[0].start then [x] + s
    else [s[0]] + InsertByStart(x, s[1..])
  }

  /** Inserting adds `x` and keeps every range already there. */
  lemma {:induction false} InsertAddsOne(x: StartEndOffset, s: seq<StartEndOffset>)
    ensures multiset(InsertByStart(x, s)) == multiset(s) + multiset{x}
  {
    if |s| > 0 && x.start > s[0].start {
      InsertAddsOne(x, s[1..]);
      assert s == [s[0]] + s[1..];
    }
  }

  /** A lower bound on the starts of `s` and of `x` bounds the starts after inserting. */
  lemma {:induction false} InsertKeepsLowerBound(x: StartEndOffset, s: seq<StartEndOffset>, lo: nat)
    requires lo <= x.start && forall i :: 0 <= i < |s| ==> lo <= s[i].start
    ensures forall i :: 0 <= i < |s| + 1 ==> lo <= InsertByStart(x, s)[i].start
  {
    if |s| > 0 && x.start > s[0].start {
      InsertKeepsLowerBound(x, s[1..], lo);
    }
  }

  /** Inserting into a sorted sequence keeps it sorted. */
  lemma {:induction false} InsertKeepsSorted(x: StartEndOffset, s: seq<StartEndOffset>)
    requires SortedByStart(s)
    ensures SortedByStart(InsertByStart(x, s))
  {
    if |s| > 0 && x.start > s[0].start {
      InsertKeepsSorted(x, s[1..]);
      InsertKeepsLowerBound(x, s[1..], s[0].start);
    }
  }

  /** `sort_by_key(|o| o.start)`: a stable sort by start offset. */
  function SortByStart(s: seq<StartEndOffset>): (r: seq<StartEndOffset>)
    ensures SortedByStart(r) && multiset(r) == multiset(s)
  {
    if |s| == 0 then []
    else
      var sorted := SortByStart(s[1..]);
      InsertKeepsSorted(s[0], sorted);
      InsertAddsOne(s[0], sorted);
      assert s == [s[0]] + s[1..];
      InsertByStart(s[0], sorted)
  }

  /** Sorting what is already sorted changes nothing. */
  lemma {:induction false} SortSortedIsIdentity(s: seq<StartEndOffset>)
    requires SortedByStart(s)
    ensures SortByStart(s) == s
  {
    if |s| > 0 {
      SortSortedIsIdentity(s[1..]);
    }
  }

  /** `Vec::dedup`: drops every range equal to the one before it. */
  function Dedup(s: seq<StartEndOffset>): (r: seq<StartEndOffset>)
    ensures forall x :: x in r <==> x in s
    ensures forall i :: 0 <= i < |r| - 1 ==> r[i] != r[i + 1]
    ensures |r| <= |s| && (|s| > 0 ==> |r| > 0 && r[0] == s[0])
    ensures SortedByStart(s) ==> SortedByStart(r)
    ensures (forall i :: 0 <= i < |s| - 1 ==> s[i] != s[i + 1]) ==> r == s
  {
    if |s| <= 1 then s
    else
      var rest := Dedup(s[1..]);
      assert s == [s[0]] + s[1..];
      if s[0] == s[1] then rest else [s[0]] + rest
  }

  function MinStart(s: seq<StartEndOffset>): (m: nat)
    requires |s| > 0
    ensures forall i :: 0 <= i < |s| ==> m <= s[i].start
    ensures exists i :: 0 <= i < |s| && s[i].start == m
  {
    if |s| == 1 then s[0].start
    else
      var m := MinStart(s[1..]);
      assert forall i :: 1 <= i < |s| ==> s[i] == s[1..][i - 1];
      if s[0].start <= m then s[0].start else m
  }

  function MaxEnd(s: seq<StartEndOffset>): (m: nat)
    requires |s| > 0
    ensures forall i :: 0 <= i < |s| ==> s[i].end <= m
    ensures exists i :: 0 <= i < |s| && s[i].end == m
  {
    if |s| == 1 then s[0].end
    else
      var m := MaxEnd(s[1..]);
      assert forall i :: 1 <= i < |s| ==> s[i] == s[1..][i - 1];
      if s[0].end >= m then s[0].end else m
  }

  /**
   * `check_all_bytes_are_covered`: sorted by start and deduplicated, the
   * ranges must abut; a missing tail up to the file length is sent as one
   * more range (`sendOk` is whether that send went through); the verdict
   * is that the ranges start at 16 and, with the tail, end at the file
   * length.  When it holds, every byte from 16 to the end of the file lies
   * in one of the ranges or in the range sent.
   */
  function CheckAllBytesAreCovered(offsets: seq<StartEndOffset>, demoLen: nat, sendOk: bool): (c: Coverage)
    ensures |c.sent| <= 1 && forall o :: o in c.sent ==> o.end == demoLen && o.msgType == OK
    ensures c.ok && |c.sent| == 1 ==> sendOk
    ensures c.ok ==> |offsets| > 0 && exists o :: o in offsets && o.start == HEADER_ENDS_AT_BYTE
    ensures c.ok ==> forall o :: o in offsets ==> HEADER_ENDS_AT_BYTE <= o.start && o.end <= demoLen
    ensures c.ok ==> forall b :: HEADER_ENDS_AT_BYTE <= b < demoLen ==> Covered(offsets + c.sent, b)
  {
    var d := Dedup(SortByStart(offsets));
    if !Abut(d) || |d| == 0 then Coverage(false, [])
    else
      var smallest := MinStart(d);
      var largest := MaxEnd(d);
      var c :=
        if largest != demoLen then
          // the tail range is pushed, so the largest end is recomputed over it too
          var largest' := if largest > demoLen then largest else demoLen;
          Coverage(smallest == HEADER_ENDS_AT_BYTE && largest' == demoLen && sendOk, [StartEndOffset(largest, demoLen, OK)])
        else Coverage(smallest == HEADER_ENDS_AT_BYTE, []);
      CoverageFacts(offsets, d, demoLen, c);
      c
  }

  lemma CoverageFacts(offsets: seq<StartEndOffset>, d: seq<StartEndOffset>, demoLen: nat, c: Coverage)
    requires d == Dedup(SortByStart(offsets)) && Abut(d) && |d| > 0
    requires c.ok ==> MinStart(d) == HEADER_ENDS_AT_BYTE && MaxEnd(d) <= demoLen
    requires c.ok && MaxEnd(d) != demoLen ==> c.sent == [StartEndOffset(MaxEnd(d), demoLen, OK)]
    ensures c.ok ==> |offsets| > 0 && exists o :: o in offsets && o.start == HEADER_ENDS_AT_BYTE
    ensures c.ok ==> forall o :: o in offsets ==> HEADER_ENDS_AT_BYTE <= o.start && o.end <= demoLen
    ensures c.ok ==> forall b :: HEADER_ENDS_AT_BYTE <= b < demoLen ==> Covered(offsets + c.sent, b)
  {
    if c.ok {
      var sorted := SortByStart(offsets);
      assert forall o :: o in offsets <==> o in d by {
        forall o
          ensures o in offsets <==> o in sorted
        {
          assert o in offsets <==> o in multiset(offsets);
          assert o in sorted <==> o in multiset(sorted);
        }
      }
      assert d[0].start <= HEADER_ENDS_AT_BYTE;
      forall b | HEADER_ENDS_AT_BYTE <= b < demoLen
        ensures Covered(offsets + c.sent, b)
      {
        if b < MaxEnd(d) {
          AbutCovers(d, b);
          var i :| 0 <= i < |d| && d[i].start <= b < d[i].end;
          assert d[i] in offsets + c.sent;
        } else {
          assert c.sent[0] in offsets + c.sent;
        }
      }
    }
  }

  /** Abutting ranges cover every byte from the first start below the largest end. */
  lemma {:induction false} AbutCovers(d: seq<StartEndOffset>, b: nat)
    requires Abut(d) && |d| > 0 && d[0].start <= b < MaxEnd(d)
    ensures exists i :: 0 <= i < |d| && d[i].start <= b < d[i].end
    decreases |d|
  {
    if b >= d[0].end {
      var t := d[1..];
      MaxEndCons(d);
      AbutTail(d);
      AbutCovers(t, b);
      var i :| 0 <= i < |t| && t[i].start <= b < t[i].end;
      assert d[i + 1] == t[i];
    }
  }

  lemma MaxEndCons(d: seq<StartEndOffset>)
    requires |d| > 0
    ensures |d| == 1 ==> MaxEnd(d) == d[0].end
    ensures |d| > 1 ==> MaxEnd(d) == if d[0].end >= MaxEnd(d[1..]) then d[0].end else MaxEnd(d[1..])
  {
  }

  lemma AbutTail(d: seq<StartEndOffset>)
    requires Abut(d) && |d| > 1
    ensures Abut(d[1..]) && d[1..][0].start == d[0].end
  {
    var t := d[1..];
    forall i | 0 <= i < |t| - 1
      ensures t[i].end == t[i + 1].start
    {
      assert t[i] == d[i + 1] && t[i + 1] == d[i + 2];
    }
  }

  /** Ranges laid end to end, each non-empty: what a complete set of chunk scans yields. */
  predicate Tiles(s: seq<StartEndOffset>) {
    Abut(s) && forall i :: 0 <= i < |s| ==> s[i].start < s[i].end
  }

  /** Ranges that tile the file from byte 16 to its end pass the check, and nothing is sent. */
  lemma TilingIsCovered(offsets: seq<StartEndOffset>, demoLen: nat, sendOk: bool)
    requires Tiles(offsets) && |offsets| > 0
    requires offsets[0].start == HEADER_ENDS_AT_BYTE && offsets[|offsets| - 1].end == demoLen
    ensures CheckAllBytesAreCovered(offsets, demoLen, sendOk) == Coverage(true, [])
  {
    TilesIncrease(offsets);
    SortSortedIsIdentity(offsets);
    assert Dedup(SortByStart(offsets)) == offsets;
    IncreasingBounds(offsets);
  }

  /** When starts and ends increase, the first range starts lowest and the last ends highest. */
  lemma IncreasingBounds(s: seq<StartEndOffset>)
    requires |s| > 0
    requires forall i, j :: 0 <= i < j < |s| ==> s[i].start < s[j].start && s[i].end < s[j].end
    ensures MinStart(s) == s[0].start && MaxEnd(s) == s[|s| - 1].end
  {
    var last := |s| - 1;
    var m, n := MinStart(s), MaxEnd(s);
    var i :| 0 <= i < |s| && s[i].start == m;
    var j :| 0 <= j < |s| && s[j].end == n;
    FirstStartsLowest(s, i);
    LastEndsHighest(s, j);
  }

  lemma FirstStartsLowest(s: seq<StartEndOffset>, k: nat)
    requires k < |s|
    requires forall i, j :: 0 <= i < j < |s| ==> s[i].start < s[j].start && s[i].end < s[j].end
    ensures s[0].start <= s[k].start
  {
    if 0 < k {
      assert s[0].start < s[k].start;
    }
  }

  lemma LastEndsHighest(s: seq<StartEndOffset>, k: nat)
    requires k < |s|
    requires forall i, j :: 0 <= i < j < |s| ==> s[i].start < s[j].start && s[i].end < s[j].end
    ensures s[k].end <= s[|s| - 1].end
  {
    if k < |s| - 1 {
      assert s[k].end < s[|s| - 1].end;
    }
  }

  /** In a tiling, starts and ends both strictly increase. */
  lemma {:induction false} TilesIncrease(s: seq<StartEndOffset>)
    requires Tiles(s)
    ensures forall i, j :: 0 <= i < j < |s| ==> s[i].start < s[j].start && s[i].end < s[j].end
    ensures SortedByStart(s)
    ensures forall i :: 0 <= i < |s| - 1 ==> s[i] != s[i + 1]
    decreases |s|
  {
    if |s| > 1 {
      var t := s[1..];
      assert Tiles(t) by {
        forall i | 0 <= i < |t| - 1
          ensures t[i].end == t[i + 1].start
        {
          assert t[i] == s[i + 1] && t[i + 1] == s[i + 2];
        }
      }
      TilesIncrease(t);
      forall i, j | 0 <= i < j < |s|
        ensures s[i].start < s[j].start && s[i].end < s[j].end
      {
        if i > 0 {
          assert s[i] == t[i - 1] && s[j] == t[j - 1];
        } else if j > 1 {
          assert s[1] == t[0] && s[j] == t[j - 1];
        }
      }
    }
  }

  // The four cases of the module's own unit tests; the receiving end of the
  // channel is dropped there, so every send fails.

  lemma ContiguousRangesAreCovered()
    ensures CheckAllBytesAreCovered([StartEndOffset(16, 20, OK), StartEndOffset(20, 30, OK), StartEndOffset(30, 40, OK)], 40, false).ok
  {
    TilingIsCovered([StartEndOffset(16, 20, OK), StartEndOffset(20, 30, OK), StartEndOffset(30, 40, OK)], 40, false);
  }

  lemma RangeGapIsNotCovered()
    ensures !CheckAllBytesAreCovered([StartEndOffset(16, 20, OK), StartEndOffset(20, 30, OK), StartEndOffset(40, 50, OK)], 30, false).ok
  {
    var s := [StartEndOffset(16, 20, OK), StartEndOffset(20, 30, OK), StartEndOffset(40, 50, OK)];
    assert StartEndOffset(40, 50, OK) in s;
  }

  lemma MissingStartByteIsNotCovered()
    ensures !CheckAllBytesAreCovered([StartEndOffset(14, 20, OK), StartEndOffset(20, 30, OK), StartEndOffset(30, 40, OK)], 50, false).ok
  {
    var s := [StartEndOffset(14, 20, OK), StartEndOffset(20, 30, OK), StartEndOffset(30, 40, OK)];
    assert StartEndOffset(14, 20, OK) in s;
  }

  lemma MissingEndByteIsNotCovered()
    ensures !CheckAllBytesAreCovered([StartEndOffset(16, 20, OK), StartEndOffset(20, 30, OK), StartEndOffset(30, 40, OK)], 33, false).ok
  {
    var s := [StartEndOffset(16, 20, OK), StartEndOffset(20, 30, OK), StartEndOffset(30, 40, OK)];
    assert StartEndOffset(30, 40, OK) in s;
  }
}
