/**
 * Field paths and the 39 field-path operations of second_pass/path_ops.rs.
 *
 * A field path is seven `i32` slots and the index `last` of the deepest
 * live slot.  Each operation moves `last` and adjusts slots, reading its
 * operands from the bit stream.  Slot arithmetic wraps as `i32` and `last`
 * wraps as a 64-bit `usize`, which is how the parser behaves in a release
 * build.  The only way an operation can fail is a slot index of 7 or more
 * (IllegalPathOp); an opcode above 38 is UnknownPathOP.
 */
module PathOps {
  import opened Wrappers
  import opened Ints
  import opened Errors
  import opened BitReader

  /** The number of slots in a field path. */
  const SLOTS: nat := 7
  /** `usize` on the 64-bit targets the parser is built for. */
  const USIZE_LIMIT: nat := U64_LIMIT

  /** `wrapping_add` / `wrapping_sub` on `usize`. */
  function WrapUsize(x: int): (r: nat)
    ensures r < USIZE_LIMIT
    ensures 0 <= x < USIZE_LIMIT ==> r == x
  {
    x % USIZE_LIMIT
  }

  datatype FieldPath = FieldPath(path: seq<int>, last: nat)

  /** Seven `i32` slots and a `usize` index: the shape of the source's struct. */
  predicate Valid(fp: FieldPath) {
    |fp.path| == SLOTS && (forall i :: 0 <= i < |fp.path| ==> IsI32(fp.path[i])) && fp.last < USIZE_LIMIT
  }

  /**
   * The shape the operations keep: `last` names a slot and every slot
   * above it is zero (popping zeroes the slots it leaves).
   */
  predicate Canonical(fp: FieldPath) {
    Valid(fp) && fp.last < SLOTS && forall i :: fp.last < i < |fp.path| ==> fp.path[i] == 0
  }

  /** `generate_fp`: the root path, one live slot holding -1. */
  function GenerateFp(): (fp: FieldPath)
    ensures Canonical(fp) && fp.last == 0 && fp.path[0] == -1
  {
    FieldPath([-1, 0, 0, 0, 0, 0, 0], 0)
  }

  /** `get_entry_mut`: the slot, or IllegalPathOp past the seventh. */
  function GetEntry(fp: FieldPath, idx: nat): (res: Result<int, DemoParserError>)
    requires Valid(fp)
    ensures res.Success? <==> idx < SLOTS
    ensures res.Failure? ==> res.error == IllegalPathOp
    ensures res.Success? ==> res.value == fp.path[idx]
  {
    if idx < |fp.path| then Success(fp.path[idx]) else Failure(IllegalPathOp)
  }

  /** `*get_entry_mut(idx)? = v`: only slot `idx` changes. */
  function SetAt(fp: FieldPath, idx: nat, v: int): (res: Result<FieldPath, DemoParserError>)
    requires Valid(fp) && IsI32(v)
    ensures res.Success? <==> idx < SLOTS
    ensures res.Failure? ==> res.error == IllegalPathOp
    ensures res.Success? ==> Valid(res.value) && res.value.last == fp.last && res.value.path[idx] == v
    ensures res.Success? ==> forall i :: 0 <= i < SLOTS && i != idx ==> res.value.path[i] == fp.path[i]
  {
    var _ :- GetEntry(fp, idx);
    Success(fp.(path := fp.path[idx := v]))
  }

  /** `*get_entry_mut(idx)? += d` with `i32` wrap-around: only slot `idx` changes. */
  function AddAt(fp: FieldPath, idx: nat, d: int): (res: Result<FieldPath, DemoParserError>)
    requires Valid(fp) && IsI32(d)
    ensures res.Success? <==> idx < SLOTS
    ensures res.Failure? ==> res.error == IllegalPathOp
    ensures res.Success? ==> Valid(res.value) && res.value.last == fp.last
    ensures res.Success? ==> res.value.path[idx] == WrapI32(fp.path[idx] + d)
    ensures res.Success? ==> forall i :: 0 <= i < SLOTS && i != idx ==> res.value.path[i] == fp.path[i]
  {
    var cur :- GetEntry(fp, idx);
    SetAt(fp, idx, WrapI32(cur + d))
  }

  /** `last += 1`. */
  function Push(fp: FieldPath): (p: FieldPath)
    requires Valid(fp)
    ensures Valid(p)
  {
    fp.(last := WrapUsize(fp.last + 1))
  }

  /** The path with slots `lo..hi` zeroed. */
  function ZeroRange(path: seq<int>, lo: nat, hi: nat): (z: seq<int>)
    ensures |z| == |path|
  {
    seq(|path|, i requires 0 <= i < |path| => if lo <= i < hi then 0 else path[i])
  }

  /**
   * `pop_special(n)`: `n` times, zero slot `last` and decrement `last`.
   * Popping one more slot than is live wraps `last` to `usize::MAX`;
   * popping further is IllegalPathOp.
   */
  function PopSpecial(fp: FieldPath, n: nat): (res: Result<FieldPath, DemoParserError>)
    requires Valid(fp)
    ensures res.Failure? ==> res.error == IllegalPathOp
    ensures res.Success? ==> Valid(res.value)
    ensures fp.last >= SLOTS && n > 0 ==> res == Failure(IllegalPathOp)
    ensures fp.last < SLOTS ==> (res.Success? <==> n <= fp.last + 1)
    ensures fp.last < SLOTS && n <= fp.last + 1 ==>
      res.value == FieldPath(ZeroRange(fp.path, fp.last + 1 - n, fp.last + 1), WrapUsize(fp.last - n))
    decreases n
  {
    if n == 0 then
      assert ZeroRange(fp.path, fp.last + 1, fp.last + 1) == fp.path;
      Success(fp)
    else
      var fp1 :- SetAt(fp, fp.last, 0);
      var res := PopSpecial(fp1.(last := WrapUsize(fp1.last - 1)), n - 1);
      assert fp.last < SLOTS && n <= fp.last + 1 ==>
        ZeroRange(fp1.path, fp.last + 1 - n, fp.last) == ZeroRange(fp.path, fp.last + 1 - n, fp.last + 1);
      res
  }

  // ---------------------------------------------------------------- operands

  /** `read_ubit_var_fp() as i32`: below 2^31, so the cast keeps the value. */
  function ReadFp(r: Reader): (res: (int, Reader))
    ensures 0 <= res.0 < 0x8000_0000 && IsI32(res.0)
    ensures res.0 == ReadUBitVarFp(r).0 && res.1 == ReadUBitVarFp(r).1
  {
    var (v, r') := ReadUBitVarFp(r);
    ReadUBitVarFpBound(r);
    (U32AsI32(v), r')
  }

  /** `read_nbits(n)` for a small `n`, as `i32`. */
  function ReadSmall(r: Reader, n: nat): (res: (int, Reader))
    requires n <= 6
    ensures 0 <= res.0 < Pow2(n) && res.0 < 64 && IsI32(res.0)
    ensures res.0 == ReadNBits(r, n).0 && res.1 == ReadNBits(r, n).1
  {
    Pow2Monotone(n, 6);
    Pow2Table();
    ReadNBits(r, n)
  }

  /** How a pushed slot is filled: added to or assigned, from an fp-varint or five bits. */
  datatype Fill = AddFp | SetFp | AddPack5 | SetPack5

  function ReadFill(f: Fill, r: Reader): (res: (int, Reader))
    ensures IsI32(res.0)
  {
    if f.AddFp? || f.SetFp? then ReadFp(r) else ReadSmall(r, 5)
  }

  /**
   * `last += 1` and then the new slot is filled.  On a canonical path the
   * new slot is zero, so adding and assigning agree.
   */
  function PushOne(fp: FieldPath, r: Reader, f: Fill): (res: Step)
    requires Valid(fp)
    ensures Sound(res)
    ensures Canonical(fp) ==> (res.Success? <==> fp.last + 1 < SLOTS)
    ensures Canonical(fp) && res.Success? ==>
      res.value == (FieldPath(fp.path[fp.last + 1 := ReadFill(f, r).0], fp.last + 1), ReadFill(f, r).1)
  {
    var fp1 := Push(fp);
    var (v, r1) := ReadFill(f, r);
    var fp2 :- if f.AddFp? || f.AddPack5? then AddAt(fp1, fp1.last, v) else SetAt(fp1, fp1.last, v);
    Success((fp2, r1))
  }

  /** `n` pushes of the same kind. */
  function PushMany(fp: FieldPath, r: Reader, n: nat, f: Fill): (res: Step)
    requires Valid(fp)
    ensures Sound(res)
    ensures Canonical(fp) ==> (res.Success? <==> fp.last + n < SLOTS)
    ensures Canonical(fp) && res.Success? ==>
      Canonical(res.value.0) && res.value.0.last == fp.last + n &&
      forall i :: 0 <= i <= fp.last ==> res.value.0.path[i] == fp.path[i]
    decreases n
  {
    if n == 0 then Success((fp, r))
    else
      var (fp1, r1) :- PushOne(fp, r, f);
      PushMany(fp1, r1, n - 1, f)
  }

  /** What a non-topological pass adds to a flagged slot. */
  datatype Delta = VarintPlusOne | Varint | Pack4

  function ReadDelta(k: Delta, r: Reader): (res: (int, Reader))
    ensures IsI32(res.0)
  {
    match k
    case VarintPlusOne => var (v, r1) := ReadVarint32(r); (WrapI32(v + 1), r1)
    case Varint => ReadVarint32(r)
    case Pack4 => var (v, r1) := ReadSmall(r, 4); (v - 7, r1)
  }

  /**
   * The loop `for i in start..end`: a flag bit per slot, and a delta added
   * to each flagged slot.  Slots at or above `end` and `last` do not change.
   */
  function NonTopoLoop(fp: FieldPath, r: Reader, i: nat, end: nat, k: Delta): (res: Step)
    requires Valid(fp)
    ensures Sound(res)
    ensures end <= SLOTS ==> res.Success?
    ensures res.Success? ==> res.value.0.last == fp.last
    ensures res.Success? ==> forall j :: end <= j < SLOTS ==> res.value.0.path[j] == fp.path[j]
    decreases end - i
  {
    if i >= end then Success((fp, r))
    else
      var (b, r1) := ReadBoolean(r);
      if b then
        var (d, r2) := ReadDelta(k, r1);
        var fp1 :- AddAt(fp, i, d);
        NonTopoLoop(fp1, r2, i + 1, end, k)
      else NonTopoLoop(fp, r1, i + 1, end, k)
  }

  /** `for i in 0..field_path.last + 1` with the `usize` addition. */
  function NonTopo(fp: FieldPath, r: Reader, k: Delta): (res: Step)
    requires Valid(fp)
    ensures Sound(res) && KeepsCanonical(fp, res)
    ensures Canonical(fp) ==> res.Success?
    ensures res.Success? ==> res.value.0.last == fp.last
  {
    NonTopoLoop(fp, r, 0, WrapUsize(fp.last + 1), k)
  }

  // ---------------------------------------------------------------- the operations

  type Step = Result<(FieldPath, Reader), DemoParserError>

  /** The only error an operation raises is IllegalPathOp, and it keeps the struct's shape. */
  predicate Sound(res: Step) {
    (res.Failure? ==> res.error == IllegalPathOp) && (res.Success? ==> Valid(res.value.0))
  }

  predicate KeepsCanonical(fp: FieldPath, res: Step) {
    Canonical(fp) && res.Success? ==> Canonical(res.value.0)
  }

  /** The depth of a canonical path changes by `d`. */
  predicate Deepens(fp: FieldPath, res: Step, d: int) {
    Canonical(fp) && res.Success? ==> res.value.0.last == fp.last + d
  }

  /** Slot `last` grew by `d` (wrapping) and nothing else changed. */
  predicate AddsToLast(fp: FieldPath, p: FieldPath, d: int)
    requires Valid(fp) && fp.last < SLOTS
  {
    p.last == fp.last && |p.path| == SLOTS && p.path[fp.last] == WrapI32(fp.path[fp.last] + d) &&
    forall i :: 0 <= i < SLOTS && i != fp.last ==> p.path[i] == fp.path[i]
  }

  function AddLast(fp: FieldPath, r: Reader, d: int): (res: Step)
    requires Valid(fp) && IsI32(d)
    ensures Sound(res) && KeepsCanonical(fp, res)
    ensures res.Success? <==> fp.last < SLOTS
    ensures res.Success? ==> AddsToLast(fp, res.value.0, d) && res.value.1 == r
  {
    var fp1 :- AddAt(fp, fp.last, d);
    Success((fp1, r))
  }

  function PlusOne(fp: FieldPath, r: Reader): (res: Step)
    requires Valid(fp)
    ensures Sound(res) && KeepsCanonical(fp, res)
    ensures res.Success? <==> fp.last < SLOTS
    ensures res.Success? ==> AddsToLast(fp, res.value.0, 1) && res.value.1 == r
  {
    AddLast(fp, r, 1)
  }

  function PlusTwo(fp: FieldPath, r: Reader): (res: Step)
    requires Valid(fp)
    ensures Sound(res) && KeepsCanonical(fp, res)
    ensures res.Success? <==> fp.last < SLOTS
    ensures res.Success? ==> AddsToLast(fp, res.value.0, 2) && res.value.1 == r
  {
    AddLast(fp, r, 2)
  }

  function PlusThree(fp: FieldPath, r: Reader): (res: Step)
    requires Valid(fp)
    ensures Sound(res) && KeepsCanonical(fp, res)
    ensures res.Success? <==> fp.last < SLOTS
    ensures res.Success? ==> AddsToLast(fp, res.value.0, 3) && res.value.1 == r
  {
    AddLast(fp, r, 3)
  }

  function PlusFour(fp: FieldPath, r: Reader): (res: Step)
    requires Valid(fp)
    ensures Sound(res) && KeepsCanonical(fp, res)
    ensures res.Success? <==> fp.last < SLOTS
    ensures res.Success? ==> AddsToLast(fp, res.value.0, 4) && res.value.1 == r
  {
    AddLast(fp, r, 4)
  }

  /** The fp-varint plus five (an `i32` addition) is added to slot `last`. */
  function PlusN(fp: FieldPath, r: Reader): (res: Step)
    requires Valid(fp)
    ensures Sound(res) && KeepsCanonical(fp, res)
    ensures res.Success? <==> fp.last < SLOTS
    ensures res.Success? ==>
      AddsToLast(fp, res.value.0, WrapI32(ReadUBitVarFp(r).0 + 5)) && res.value.1 == ReadUBitVarFp(r).1
  {
    var (v, r1) := ReadFp(r);
    AddLast(fp, r1, WrapI32(v + 5))
  }

  function PushOneLeftDeltaZeroRightZero(fp: FieldPath, r: Reader): (res: Step)
    requires Valid(fp)
    ensures Sound(res) && KeepsCanonical(fp, res) && Deepens(fp, res, 1)
    ensures res.Success? <==> WrapUsize(fp.last + 1) < SLOTS
    ensures res.Success? ==> var p := res.value.0;
      p.last == WrapUsize(fp.last + 1) && p.path == fp.path[p.last := 0] && res.value.1 == r
  {
    var fp1 := Push(fp);
    var fp2 :- SetAt(fp1, fp1.last, 0);
    Success((fp2, r))
  }

  function PushOneLeftDeltaZeroRightNonZero(fp: FieldPath, r: Reader): (res: Step)
    requires Valid(fp)
    ensures Sound(res) && KeepsCanonical(fp, res) && Deepens(fp, res, 1)
  {
    PushOne(fp, r, AddFp)
  }

  /** Slot `last` grows by `d`, then one slot is pushed and filled. */
  function BumpThenPush(fp: FieldPath, r: Reader, d: int, f: Fill): (res: Step)
    requires Valid(fp) && IsI32(d)
    ensures Sound(res) && KeepsCanonical(fp, res) && Deepens(fp, res, 1)
  {
    var (fp1, r1) :- AddLast(fp, r, d);
    PushOne(fp1, r1, f)
  }

  function PushOneLeftDeltaOneRightZero(fp: FieldPath, r: Reader): (res: Step)
    requires Valid(fp)
    ensures Sound(res) && KeepsCanonical(fp, res) && Deepens(fp, res, 1)
    ensures res.Success? ==> res.value.1 == r
  {
    var (fp1, _) :- AddLast(fp, r, 1);
    var fp2 := Push(fp1);
    var fp3 :- SetAt(fp2, fp2.last, 0);
    Success((fp3, r))
  }

  function PushOneLeftDeltaOneRightNonZero(fp: FieldPath, r: Reader): (res: Step)
    requires Valid(fp)
    ensures Sound(res) && KeepsCanonical(fp, res) && Deepens(fp, res, 1)
  {
    BumpThenPush(fp, r, 1, SetFp)
  }

  function PushOneLeftDeltaNRightZero(fp: FieldPath, r: Reader): (res: Step)
    requires Valid(fp)
    ensures Sound(res) && KeepsCanonical(fp, res) && Deepens(fp, res, 1)
  {
    var (v, r1) := ReadFp(r);
    var (fp1, _) :- AddLast(fp, r1, v);
    var fp2 := Push(fp1);
    var fp3 :- SetAt(fp2, fp2.last, 0);
    Success((fp3, r1))
  }

  function PushOneLeftDeltaNRightNonZero(fp: FieldPath, r: Reader): (res: Step)
    requires Valid(fp)
    ensures Sound(res) && KeepsCanonical(fp, res) && Deepens(fp, res, 1)
  {
    var (a, r1) := ReadFp(r);
    var (fp1, _) :- AddLast(fp, r1, WrapI32(a + 2));
    var fp2 := Push(fp1);
    var (b, r2) := ReadFp(r1);
    var fp3 :- SetAt(fp2, fp2.last, WrapI32(b + 1));
    Success((fp3, r2))
  }

  /** The `pack6` and `pack8` variants: `width`-bit operands, plus two and plus one. */
  function PushOneLeftDeltaNRightNonZeroPacked(fp: FieldPath, r: Reader, width: nat): (res: Step)
    requires Valid(fp) && width <= 4
    ensures Sound(res) && KeepsCanonical(fp, res) && Deepens(fp, res, 1)
  {
    var (a, r1) := ReadSmall(r, width);
    var (fp1, _) :- AddLast(fp, r1, a + 2);
    var fp2 := Push(fp1);
    var (b, r2) := ReadSmall(r1, width);
    var fp3 :- SetAt(fp2, fp2.last, b + 1);
    Success((fp3, r2))
  }

  function PushOneLeftDeltaNRightNonZeroPack6Bits(fp: FieldPath, r: Reader): (res: Step)
    requires Valid(fp)
    ensures Sound(res) && KeepsCanonical(fp, res) && Deepens(fp, res, 1)
  {
    PushOneLeftDeltaNRightNonZeroPacked(fp, r, 3)
  }

  function PushOneLeftDeltaNRightNonZeroPack8Bits(fp: FieldPath, r: Reader): (res: Step)
    requires Valid(fp)
    ensures Sound(res) && KeepsCanonical(fp, res) && Deepens(fp, res, 1)
  {
    PushOneLeftDeltaNRightNonZeroPacked(fp, r, 4)
  }

  function PushTwoLeftDeltaZero(fp: FieldPath, r: Reader): (res: Step)
    requires Valid(fp)
    ensures Sound(res) && KeepsCanonical(fp, res) && Deepens(fp, res, 2)
  {
    PushMany(fp, r, 2, AddFp)
  }

  function PushTwoPack5LeftDeltaZero(fp: FieldPath, r: Reader): (res: Step)
    requires Valid(fp)
    ensures Sound(res) && KeepsCanonical(fp, res) && Deepens(fp, res, 2)
  {
    PushMany(fp, r, 2, SetPack5)
  }

  function PushThreeLeftDeltaZero(fp: FieldPath, r: Reader): (res: Step)
    requires Valid(fp)
    ensures Sound(res) && KeepsCanonical(fp, res) && Deepens(fp, res, 3)
  {
    PushMany(fp, r, 3, AddFp)
  }

  function PushThreePack5LeftDeltaZero(fp: FieldPath, r: Reader): (res: Step)
    requires Valid(fp)
    ensures Sound(res) && KeepsCanonical(fp, res) && Deepens(fp, res, 3)
  {
    PushMany(fp, r, 3, SetPack5)
  }

  /** Slot `last` grows by `d`, then `n` slots are pushed. */
  function BumpThenPushMany(fp: FieldPath, r: Reader, d: int, n: nat, f: Fill): (res: Step)
    requires Valid(fp) && IsI32(d)
    ensures Sound(res) && KeepsCanonical(fp, res) && Deepens(fp, res, n)
  {
    var (fp1, r1) :- AddLast(fp, r, d);
    PushMany(fp1, r1, n, f)
  }

  function PushTwoLeftDeltaOne(fp: FieldPath, r: Reader): (res: Step)
    requires Valid(fp)
    ensures Sound(res) && KeepsCanonical(fp, res) && Deepens(fp, res, 2)
  {
    BumpThenPushMany(fp, r, 1, 2, AddFp)
  }

  function PushTwoPack5LeftDeltaOne(fp: FieldPath, r: Reader): (res: Step)
    requires Valid(fp)
    ensures Sound(res) && KeepsCanonical(fp, res) && Deepens(fp, res, 2)
  {
    BumpThenPushMany(fp, r, 1, 2, AddPack5)
  }

  function PushThreeLeftDeltaOne(fp: FieldPath, r: Reader): (res: Step)
    requires Valid(fp)
    ensures Sound(res) && KeepsCanonical(fp, res) && Deepens(fp, res, 3)
  {
    BumpThenPushMany(fp, r, 1, 3, AddFp)
  }

  function PushThreePack5LeftDeltaOne(fp: FieldPath, r: Reader): (res: Step)
    requires Valid(fp)
    ensures Sound(res) && KeepsCanonical(fp, res) && Deepens(fp, res, 3)
  {
    BumpThenPushMany(fp, r, 1, 3, AddPack5)
  }

  /** `(read_u_bit_var() + 2) as i32`: a `u32` addition, then the cast. */
  function ReadUBitVarPlusTwo(r: Reader): (res: (int, Reader))
    ensures IsI32(res.0) && res.1 == ReadUBitVar(r).1
  {
    var (u, r1) := ReadUBitVar(r);
    (U32AsI32(WrapU32(u + 2)), r1)
  }

  function PushTwoLeftDeltaN(fp: FieldPath, r: Reader): (res: Step)
    requires Valid(fp)
    ensures Sound(res) && KeepsCanonical(fp, res) && Deepens(fp, res, 2)
  {
    var (d, r1) := ReadUBitVarPlusTwo(r);
    BumpThenPushMany(fp, r1, d, 2, AddFp)
  }

  function PushTwoPack5LeftDeltaN(fp: FieldPath, r: Reader): (res: Step)
    requires Valid(fp)
    ensures Sound(res) && KeepsCanonical(fp, res) && Deepens(fp, res, 2)
  {
    var (d, r1) := ReadUBitVarPlusTwo(r);
    BumpThenPushMany(fp, r1, d, 2, AddPack5)
  }

  function PushThreeLeftDeltaN(fp: FieldPath, r: Reader): (res: Step)
    requires Valid(fp)
    ensures Sound(res) && KeepsCanonical(fp, res) && Deepens(fp, res, 3)
  {
    var (d, r1) := ReadUBitVarPlusTwo(r);
    BumpThenPushMany(fp, r1, d, 3, AddFp)
  }

  function PushThreePack5LeftDeltaN(fp: FieldPath, r: Reader): (res: Step)
    requires Valid(fp)
    ensures Sound(res) && KeepsCanonical(fp, res) && Deepens(fp, res, 3)
  {
    var (d, r1) := ReadUBitVarPlusTwo(r);
    BumpThenPushMany(fp, r1, d, 3, AddPack5)
  }

  /**
   * `push_n`: a count (cast to `i32`, so a count of 2^31 or more pushes
   * nothing), a delta for slot `last`, then that many pushed slots.
   */
  function PushN(fp: FieldPath, r: Reader): (res: Step)
    requires Valid(fp)
    ensures Sound(res) && KeepsCanonical(fp, res)
  {
    var (n0, r1) := ReadUBitVar(r);
    var n := U32AsI32(n0);
    var (d, r2) := ReadUBitVar(r1);
    BumpThenPushMany(fp, r2, U32AsI32(d), if n < 0 then 0 else n, AddFp)
  }

  /** `push_n_and_non_topological`: a pass over the live slots, then pushed slots. */
  function PushNAndNonTopological(fp: FieldPath, r: Reader): (res: Step)
    requires Valid(fp)
    ensures Sound(res) && KeepsCanonical(fp, res)
  {
    var (fp1, r1) :- NonTopo(fp, r, VarintPlusOne);
    var (count, r2) := ReadUBitVar(r1);
    PushMany(fp1, r2, count, SetFp)
  }

  /** Pop `n` slots, then add `d` to the new slot `last`. */
  function PopThenAdd(fp: FieldPath, r: Reader, n: nat, d: int): (res: Step)
    requires Valid(fp) && IsI32(d)
    ensures Sound(res) && KeepsCanonical(fp, res)
    ensures Canonical(fp) ==> (res.Success? <==> n <= fp.last)
    ensures Canonical(fp) && res.Success? ==> res.value.0.last == fp.last - n && res.value.1 == r
  {
    var fp1 :- PopSpecial(fp, n);
    var fp2 :- AddAt(fp1, fp1.last, d);
    Success((fp2, r))
  }

  /** `pop_special(last)`, then add `d` to the root slot. */
  function PopToRootThenAdd(fp: FieldPath, r: Reader, d: int): (res: Step)
    requires Valid(fp) && IsI32(d)
    ensures Sound(res) && KeepsCanonical(fp, res)
    ensures fp.last < SLOTS ==> res.Success?
    ensures fp.last < SLOTS ==> var p := res.value.0;
      p.last == 0 && p.path[0] == WrapI32(fp.path[0] + d) &&
      (forall i :: 0 < i <= fp.last ==> p.path[i] == 0) &&
      (forall i :: fp.last < i < SLOTS ==> p.path[i] == fp.path[i]) && res.value.1 == r
  {
    var fp1 :- PopSpecial(fp, fp.last);
    // slot 0 always exists, so this `?` never fires
    Success((AddAt(fp1, 0, d).value, r))
  }

  function PopOnePlusOne(fp: FieldPath, r: Reader): (res: Step)
    requires Valid(fp)
    ensures Sound(res) && KeepsCanonical(fp, res) && Deepens(fp, res, -1)
    ensures res.Success? ==> res.value.1 == r
  {
    PopThenAdd(fp, r, 1, 1)
  }

  function PopOnePlusN(fp: FieldPath, r: Reader): (res: Step)
    requires Valid(fp)
    ensures Sound(res) && KeepsCanonical(fp, res) && Deepens(fp, res, -1)
  {
    var (v, r1) := ReadFp(r);
    PopThenAdd(fp, r1, 1, WrapI32(v + 1))
  }

  /**
   * `pop_all_but_one_plus_one`: back to the root slot, which grows by
   * one; every slot that was live above it is now zero.
   */
  function PopAllButOnePlusOne(fp: FieldPath, r: Reader): (res: Step)
    requires Valid(fp)
    ensures Sound(res) && KeepsCanonical(fp, res)
    ensures fp.last < SLOTS ==> res.Success?
    ensures fp.last < SLOTS ==> var p := res.value.0;
      p.last == 0 && p.path[0] == WrapI32(fp.path[0] + 1) &&
      (forall i :: 0 < i <= fp.last ==> p.path[i] == 0) &&
      (forall i :: fp.last < i < SLOTS ==> p.path[i] == fp.path[i]) && res.value.1 == r
  {
    PopToRootThenAdd(fp, r, 1)
  }

  function PopAllButOnePlusN(fp: FieldPath, r: Reader): (res: Step)
    requires Valid(fp)
    ensures Sound(res) && KeepsCanonical(fp, res)
    ensures Canonical(fp) ==> res.Success? && res.value.0.last == 0
  {
    var (v, r1) := ReadFp(r);
    PopToRootThenAdd(fp, r1, WrapI32(v + 1))
  }

  function PopAllButOnePlusNPacked(fp: FieldPath, r: Reader, width: nat): (res: Step)
    requires Valid(fp) && width <= 6
    ensures Sound(res) && KeepsCanonical(fp, res)
    ensures Canonical(fp) ==> res.Success? && res.value.0.last == 0
  {
    var (v, r1) := ReadSmall(r, width);
    PopToRootThenAdd(fp, r1, v + 1)
  }

  function PopAllButOnePlusNPack3Bits(fp: FieldPath, r: Reader): (res: Step)
    requires Valid(fp)
    ensures Sound(res) && KeepsCanonical(fp, res)
    ensures Canonical(fp) ==> res.Success? && res.value.0.last == 0
  {
    PopAllButOnePlusNPacked(fp, r, 3)
  }

  function PopAllButOnePlusNPack6Bits(fp: FieldPath, r: Reader): (res: Step)
    requires Valid(fp)
    ensures Sound(res) && KeepsCanonical(fp, res)
    ensures Canonical(fp) ==> res.Success? && res.value.0.last == 0
  {
    PopAllButOnePlusNPacked(fp, r, 6)
  }

  /** `pop_n_plus_one`: the pop count is an fp-varint. */
  function PopNPlusOne(fp: FieldPath, r: Reader): (res: Step)
    requires Valid(fp)
    ensures Sound(res) && KeepsCanonical(fp, res)
    ensures Canonical(fp) ==> (res.Success? <==> ReadUBitVarFp(r).0 <= fp.last)
  {
    var (n, r1) := ReadFp(r);
    PopThenAdd(fp, r1, n, 1)
  }

  function PopNPlusN(fp: FieldPath, r: Reader): (res: Step)
    requires Valid(fp)
    ensures Sound(res) && KeepsCanonical(fp, res)
  {
    var (n, r1) := ReadFp(r);
    var fp1 :- PopSpecial(fp, n);
    var (d, r2) := ReadVarint32(r1);
    var fp2 :- AddAt(fp1, fp1.last, d);
    Success((fp2, r2))
  }

  /**
   * `pop_n_and_non_topographical`.  Popping every live slot leaves `last`
   * at `usize::MAX`; the pass then covers `0..0` and the operation
   * succeeds with an all-zero path.
   */
  function PopNAndNonTopographical(fp: FieldPath, r: Reader): (res: Step)
    requires Valid(fp)
    ensures Sound(res)
    ensures Canonical(fp) && res.Success? ==> Canonical(res.value.0) || RootPopped(res.value.0)
    ensures Canonical(fp) ==> (res.Success? <==> ReadUBitVarFp(r).0 <= fp.last + 1)
  {
    var (n, r1) := ReadFp(r);
    PopSpecialCanonical(fp, n);
    var fp1 :- PopSpecial(fp, n);
    NonTopo(fp1, r1, Varint)
  }

  /**
   * On a canonical path, popping at most the live slots above the root
   * stays canonical, and popping the root too leaves RootPopped.
   */
  lemma PopSpecialCanonical(fp: FieldPath, n: nat)
    requires Valid(fp)
    ensures Canonical(fp) && n <= fp.last ==>
      PopSpecial(fp, n).Success? && Canonical(PopSpecial(fp, n).value) && PopSpecial(fp, n).value.last == fp.last - n
    ensures Canonical(fp) && n == fp.last + 1 ==> PopSpecial(fp, n).Success? && RootPopped(PopSpecial(fp, n).value)
  {
  }

  /** The state left by popping the root slot: `last` wrapped, every slot zero. */
  predicate RootPopped(fp: FieldPath) {
    fp.last == USIZE_LIMIT - 1 && |fp.path| == SLOTS && forall i :: 0 <= i < SLOTS ==> fp.path[i] == 0
  }

  function NonTopoComplex(fp: FieldPath, r: Reader): (res: Step)
    requires Valid(fp)
    ensures Sound(res) && KeepsCanonical(fp, res) && Deepens(fp, res, 0)
    ensures Canonical(fp) ==> res.Success?
  {
    NonTopo(fp, r, Varint)
  }

  /** `non_topo_penultimate_plus_one`: slot `last - 1` (a `usize` subtraction) grows by one. */
  function NonTopoPenultimatePlusOne(fp: FieldPath, r: Reader): (res: Step)
    requires Valid(fp)
    ensures Sound(res) && KeepsCanonical(fp, res)
    ensures res.Success? <==> 1 <= fp.last <= SLOTS
    ensures res.Success? ==> var p := res.value.0;
      p.last == fp.last && p.path[fp.last - 1] == WrapI32(fp.path[fp.last - 1] + 1) &&
      (forall i :: 0 <= i < SLOTS && i != fp.last - 1 ==> p.path[i] == fp.path[i]) && res.value.1 == r
  {
    var fp1 :- AddAt(fp, WrapUsize(fp.last - 1), 1);
    Success((fp1, r))
  }

  function NonTopoComplexPack4Bits(fp: FieldPath, r: Reader): (res: Step)
    requires Valid(fp)
    ensures Sound(res) && KeepsCanonical(fp, res) && Deepens(fp, res, 0)
    ensures Canonical(fp) ==> res.Success?
  {
    NonTopo(fp, r, Pack4)
  }

  // ---------------------------------------------------------------- dispatch

  /** The highest opcode `do_op` knows. */
  const MAX_OPCODE: nat := 38

  /**
   * `do_op`.  Opcodes 0 to 38 select an operation, which can only fail
   * with IllegalPathOp; any other opcode is UnknownPathOP.  Every
   * operation keeps a canonical path canonical, except that op 35 may
   * pop the root slot.
   */
  function DoOp(opcode: Byte, r: Reader, fp: FieldPath): (res: Step)
    requires Valid(fp)
    ensures opcode > MAX_OPCODE <==> res == Failure(UnknownPathOP)
    ensures opcode <= MAX_OPCODE ==> Sound(res)
    ensures opcode != 35 ==> KeepsCanonical(fp, res)
    ensures Canonical(fp) && res.Success? ==> Canonical(res.value.0) || RootPopped(res.value.0)
  {
    match opcode
    case 0 => PlusOne(fp, r)
    case 1 => PlusTwo(fp, r)
    case 2 => PlusThree(fp, r)
    case 3 => PlusFour(fp, r)
    case 4 => PlusN(fp, r)
    case 5 => PushOneLeftDeltaZeroRightZero(fp, r)
    case 6 => PushOneLeftDeltaZeroRightNonZero(fp, r)
    case 7 => PushOneLeftDeltaOneRightZero(fp, r)
    case 8 => PushOneLeftDeltaOneRightNonZero(fp, r)
    case 9 => PushOneLeftDeltaNRightZero(fp, r)
    case 10 => PushOneLeftDeltaNRightNonZero(fp, r)
    case 11 => PushOneLeftDeltaNRightNonZeroPack6Bits(fp, r)
    case 12 => PushOneLeftDeltaNRightNonZeroPack8Bits(fp, r)
    case 13 => PushTwoLeftDeltaZero(fp, r)
    case 14 => PushTwoPack5LeftDeltaZero(fp, r)
    case 15 => PushThreeLeftDeltaZero(fp, r)
    case 16 => PushThreePack5LeftDeltaZero(fp, r)
    case 17 => PushTwoLeftDeltaOne(fp, r)
    case 18 => PushTwoPack5LeftDeltaOne(fp, r)
    case 19 => PushThreeLeftDeltaOne(fp, r)
    case 20 => PushThreePack5LeftDeltaOne(fp, r)
    case 21 => PushTwoLeftDeltaN(fp, r)
    case 22 => PushTwoPack5LeftDeltaN(fp, r)
    case 23 => PushThreeLeftDeltaN(fp, r)
    case 24 => PushThreePack5LeftDeltaN(fp, r)
    case 25 => PushN(fp, r)
    case 26 => PushNAndNonTopological(fp, r)
    case 27 => PopOnePlusOne(fp, r)
    case 28 => PopOnePlusN(fp, r)
    case 29 => PopAllButOnePlusOne(fp, r)
    case 30 => PopAllButOnePlusN(fp, r)
    case 31 => PopAllButOnePlusNPack3Bits(fp, r)
    case 32 => PopAllButOnePlusNPack6Bits(fp, r)
    case 33 => PopNPlusOne(fp, r)
    case 34 => PopNPlusN(fp, r)
    case 35 => PopNAndNonTopographical(fp, r)
    case 36 => NonTopoComplex(fp, r)
    case 37 => NonTopoPenultimatePlusOne(fp, r)
    case 38 => NonTopoComplexPack4Bits(fp, r)
    case _ => Failure(UnknownPathOP)
  }

  // ---------------------------------------------------------------- stack laws

  /**
   * Popping what was pushed gives back the path: pushed slots land above
   * `last`, and popping zeroes them again.
   */
  lemma PopUndoesPush(fp: FieldPath, r: Reader, n: nat, f: Fill, pushed: FieldPath, r': Reader)
    requires Canonical(fp) && PushMany(fp, r, n, f) == Success((pushed, r'))
    ensures PopSpecial(pushed, n) == Success(fp)
  {
    ZeroAboveRestores(pushed.path, fp.path, fp.last, pushed.last);
    PopSpecialCanonicalValue(pushed, n, fp.last);
  }

  /** `pop_special(n)` on a canonical path, with the resulting depth named. */
  lemma PopSpecialCanonicalValue(fp: FieldPath, n: nat, depth: nat)
    requires Canonical(fp) && depth + n == fp.last
    ensures PopSpecial(fp, n) == Success(FieldPath(ZeroRange(fp.path, depth + 1, fp.last + 1), depth))
  {
  }

  /** Zeroing the slots above `last` of a path that agrees with `orig` up to `last` gives `orig` back. */
  lemma ZeroAboveRestores(path: seq<int>, orig: seq<int>, last: nat, top: nat)
    requires |path| == |orig| && last <= top < |path|
    requires forall i :: 0 <= i <= last ==> path[i] == orig[i]
    requires forall i :: last < i < |orig| ==> orig[i] == 0
    requires forall i :: top < i < |path| ==> path[i] == 0
    ensures ZeroRange(path, last + 1, top + 1) == orig
  {
  }

  /** On a canonical path the `+=` and `=` forms of a push agree. */
  lemma PushAddAgreesWithSet(fp: FieldPath, r: Reader)
    requires Canonical(fp)
    ensures PushOne(fp, r, AddFp) == PushOne(fp, r, SetFp)
    ensures PushOne(fp, r, AddPack5) == PushOne(fp, r, SetPack5)
  {
  }
}
