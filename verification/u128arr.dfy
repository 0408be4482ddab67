/**
 * `U128Arr` (parsing/u128arr.rs): a `u128` used as an array of eight
 * 16-bit slots, slot `i` being bits `16*i .. 16*i+15`.  Every mask and
 * shift in the source is a multiple of 16 bits, so the value is modelled
 * by its eight 16-bit chunks, lowest first; `FromSlots` gives back the
 * integer.  The all-ones slot reads as -1.  An index above 7 panics.
 */
module U128Arrays {
  import opened Wrappers
  import opened Ints
  import opened Errors

  const SLOT_COUNT: nat := 8
  const U128_LIMIT: nat := 0x1_0000_0000_0000_0000_0000_0000_0000_0000
  /** The slot pattern that reads as -1. */
  const ALL_ONES: nat := 0xFFFF

  /** One 16-bit chunk. */
  type Slot = x: nat | x < 0x1_0000

  datatype U128Arr = U128Arr(slots: seq<Slot>)

  predicate Valid(a: U128Arr) {
    |a.slots| == SLOT_COUNT
  }

  /** The `u128` a chunk sequence spells, lowest chunk first. */
  function FromSlots(s: seq<Slot>): nat {
    if |s| == 0 then 0 else s[0] + U16_LIMIT * FromSlots(s[1..])
  }

  /** `U128Arr::new`: slot 0 all ones (so it reads -1), the others zero. */
  function New(): (a: U128Arr)
    ensures Valid(a) && FromSlots(a.slots) == 0xFFFF
    ensures Get(a, 0) == Success(-1) && forall i :: 1 <= i < SLOT_COUNT ==> Get(a, i) == Success(0)
  {
    var a := U128Arr([ALL_ONES, 0, 0, 0, 0, 0, 0, 0]);
    ZerosValue(a.slots[1..]);
    a
  }

  /** `get`: the slot as a number, -1 for all ones; panics past slot 7. */
  function Get(a: U128Arr, idx: nat): (res: Result<int, Abort>)
    requires Valid(a)
    ensures res.Failure? <==> idx >= SLOT_COUNT
    ensures res.Failure? ==> res.error == Panic
    ensures res.Success? ==> -1 <= res.value < 0xFFFF
    ensures res.Success? ==> (res.value == -1 <==> a.slots[idx] == ALL_ONES)
  {
    if idx >= SLOT_COUNT then Failure(Panic)
    else
      var x := a.slots[idx];
      Success(if x == ALL_ONES then -1 else x)
  }

  /** `clear_idx`: slot `idx` becomes zero and no other slot changes; panics past slot 7. */
  function ClearIdx(a: U128Arr, idx: nat): (res: Result<U128Arr, Abort>)
    requires Valid(a)
    ensures res.Failure? <==> idx >= SLOT_COUNT
    ensures res.Failure? ==> res.error == Panic
    ensures res.Success? ==> Valid(res.value) && res.value.slots[idx] == 0
    ensures res.Success? ==> forall j :: 0 <= j < SLOT_COUNT && j != idx ==> res.value.slots[j] == a.slots[j]
  {
    if idx >= SLOT_COUNT then Failure(Panic)
    else Success(U128Arr(a.slots[idx := 0]))
  }

  /**
   * `val as u128` for an `i32`: two's complement sign extension, so a
   * negative value fills chunks 2 to 7 with ones.
   */
  function I32AsU128(val: int): (s: seq<Slot>)
    requires IsI32(val)
    ensures |s| == SLOT_COUNT
    ensures FromSlots(s) == val % U128_LIMIT
  {
    var lo := val % U16_LIMIT;
    var hi := (val / U16_LIMIT) % U16_LIMIT;
    var fill: Slot := if val < 0 then ALL_ONES else 0;
    var s := [lo, hi, fill, fill, fill, fill, fill, fill];
    I32AsU128Value(val, lo, hi, s);
    s
  }

  lemma I32AsU128Value(val: int, lo: int, hi: int, s: seq<Slot>)
    requires IsI32(val) && lo == val % U16_LIMIT && hi == (val / U16_LIMIT) % U16_LIMIT
    requires |s| == SLOT_COUNT && s[0] == lo && s[1] == hi
    requires forall j :: 2 <= j < SLOT_COUNT ==> s[j] == (if val < 0 then ALL_ONES else 0)
    ensures FromSlots(s) == val % U128_LIMIT
  {
    var fill: Slot := if val < 0 then ALL_ONES else 0;
    FillValue(s[2..], fill);
    assert s[2..] == s[1..][1..];
    assert FromSlots(s) == lo + U16_LIMIT * hi + U32_LIMIT * FromSlots(s[2..]);
    if val < 0 {
      assert U32_LIMIT * (0x1_0000_0000_0000_0000_0000_0000 - 1) == U128_LIMIT - U32_LIMIT;
      assert lo + U16_LIMIT * hi == val + U32_LIMIT;
    } else {
      assert lo + U16_LIMIT * hi == val;
    }
  }

  /** Six equal chunks spell the chunk's value in each 16-bit position. */
  lemma FillValue(s: seq<Slot>, fill: Slot)
    requires |s| == 6 && forall j :: 0 <= j < 6 ==> s[j] == fill
    requires fill == 0 || fill == ALL_ONES
    ensures FromSlots(s) == if fill == 0 then 0 else 0x1_0000_0000_0000_0000_0000_0000 - 1
  {
    if fill == 0 {
      ZerosValue(s);
    } else {
      OnesValue(s);
      Pow2Table();
      Pow2Add(64, 32);
    }
  }

  lemma {:induction false} ZerosValue(s: seq<Slot>)
    requires forall j :: 0 <= j < |s| ==> s[j] == 0
    ensures FromSlots(s) == 0
  {
    if |s| > 0 {
      ZerosValue(s[1..]);
    }
  }

  lemma {:induction false} OnesValue(s: seq<Slot>)
    requires forall j :: 0 <= j < |s| ==> s[j] == ALL_ONES
    ensures FromSlots(s) + 1 == Pow2(16 * |s|)
  {
    if |s| > 0 {
      OnesValue(s[1..]);
      Pow2Table();
      Pow2Add(16, 16 * (|s| - 1));
    }
  }

  /** `big <<= k * 16` on a `u128`: chunks move up `k` places, those past the top are lost. */
  function ShiftSlots(s: seq<Slot>, k: nat): (t: seq<Slot>)
    requires |s| == SLOT_COUNT
    ensures |t| == SLOT_COUNT
  {
    seq(SLOT_COUNT, j requires 0 <= j < SLOT_COUNT => if j < k then 0 else s[j - k])
  }

  /** `self.v |= big`, chunk by chunk. */
  function OrSlots(s: seq<Slot>, t: seq<Slot>): (u: seq<Slot>)
    requires |s| == |t| == SLOT_COUNT
    ensures |u| == SLOT_COUNT
  {
    seq(SLOT_COUNT, j requires 0 <= j < SLOT_COUNT => OrSlot(s[j], t[j]))
  }

  /** Bitwise OR of two naturals, bit by bit from the lowest. */
  function BitOr(a: nat, b: nat): nat
    decreases a + b
  {
    if a == 0 then b
    else if b == 0 then a
    else (if a % 2 == 1 || b % 2 == 1 then 1 else 0) + 2 * BitOr(a / 2, b / 2)
  }

  /** OR of two `k`-bit numbers is a `k`-bit number. */
  lemma {:induction false} BitOrBelow(a: nat, b: nat, k: nat)
    requires a < Pow2(k) && b < Pow2(k)
    ensures BitOr(a, b) < Pow2(k)
    decreases a + b
  {
    if a != 0 && b != 0 {
      BitOrBelow(a / 2, b / 2, k - 1);
    }
  }

  /** OR with all ones gives all ones. */
  lemma {:induction false} BitOrOnes(a: nat, k: nat)
    requires a < Pow2(k)
    ensures BitOr(a, Pow2(k) - 1) == Pow2(k) - 1
    decreases k
  {
    if a != 0 {
      assert (Pow2(k) - 1) / 2 == Pow2(k - 1) - 1;
      BitOrOnes(a / 2, k - 1);
    }
  }

  function OrSlot(a: Slot, b: Slot): (c: Slot)
    ensures b == 0 ==> c == a
    ensures a == 0 ==> c == b
    ensures b == ALL_ONES ==> c == ALL_ONES
  {
    Pow2Table();
    BitOrBelow(a, b, 16);
    BitOrOnes(a, 16);
    BitOr(a, b)
  }

  /**
   * `set` as written: clear the slot, then OR in `val as u128` shifted to
   * the slot.  A value outside 0..65535 also writes into higher slots.
   */
  function SetAsWritten(a: U128Arr, idx: nat, val: int): (res: Result<U128Arr, Abort>)
    requires Valid(a) && IsI32(val)
    ensures res.Failure? <==> idx >= SLOT_COUNT
    ensures res.Success? ==> Valid(res.value)
    ensures res.Success? && 0 <= val < U16_LIMIT ==>
      res.value.slots[idx] == val && forall j :: 0 <= j < SLOT_COUNT && j != idx ==> res.value.slots[j] == a.slots[j]
    ensures res.Success? && val < 0 ==> forall j :: idx + 2 <= j < SLOT_COUNT ==> res.value.slots[j] == ALL_ONES
  {
    var cleared :- ClearIdx(a, idx);
    Success(U128Arr(OrSlots(cleared.slots, ShiftSlots(I32AsU128(val), idx))))
  }

  /** Setting -1 in slot 1 of a fresh array also makes slot 2 read -1. */
  lemma SetAsWrittenClobbers()
    ensures Get(New(), 2) == Success(0)
    ensures SetAsWritten(New(), 1, -1).Success?
    ensures Get(SetAsWritten(New(), 1, -1).value, 2) == Success(-1)
  {
    var s := SetAsWritten(New(), 1, -1).value;
    assert s.slots[3] == ALL_ONES;
  }

  /** `set` as intended: only the low 16 bits of `val` go into slot `idx`. */
  function Set(a: U128Arr, idx: nat, val: int): (res: Result<U128Arr, Abort>)
    requires Valid(a) && IsI32(val)
    ensures res.Failure? <==> idx >= SLOT_COUNT
    ensures res.Failure? ==> res.error == Panic
    ensures res.Success? ==> Valid(res.value) && res.value.slots[idx] == val % U16_LIMIT
    ensures res.Success? ==> forall j :: 0 <= j < SLOT_COUNT && j != idx ==> res.value.slots[j] == a.slots[j]
  {
    var cleared :- ClearIdx(a, idx);
    Success(U128Arr(OrSlots(cleared.slots, ShiftSlots(Low16(val), idx))))
  }

  /** `(val as u16) as u128`. */
  function Low16(val: int): (s: seq<Slot>)
    ensures |s| == SLOT_COUNT && s[0] == val % U16_LIMIT
    ensures forall j :: 1 <= j < SLOT_COUNT ==> s[j] == 0
  {
    [(val % U16_LIMIT), 0, 0, 0, 0, 0, 0, 0]
  }

  /** For a value that fits the slot, the source's `set` and the intended one agree. */
  lemma SetAgreesOnSlotValues(a: U128Arr, idx: nat, val: int)
    requires Valid(a) && 0 <= val < U16_LIMIT
    ensures SetAsWritten(a, idx, val) == Set(a, idx, val)
  {
    if idx < SLOT_COUNT {
      var w := SetAsWritten(a, idx, val).value.slots;
      var c := Set(a, idx, val).value.slots;
      assert forall j :: 0 <= j < SLOT_COUNT ==> w[j] == c[j];
    }
  }

  /** `get` after `set` gives back any value `get` can return, and reads of other slots do not change. */
  lemma SetThenGet(a: U128Arr, idx: nat, val: int, j: nat)
    requires Valid(a) && idx < SLOT_COUNT && -1 <= val < 0xFFFF
    ensures Set(a, idx, val).Success?
    ensures Get(Set(a, idx, val).value, j) == if j == idx then Success(val) else Get(a, j)
  {
  }

  /** `incr_idx`: `set(idx, get(idx) + k)`, the addition wrapping as `i32`. */
  function IncrIdx(a: U128Arr, idx: nat, k: int): (res: Result<U128Arr, Abort>)
    requires Valid(a) && IsI32(k)
    ensures res.Failure? <==> idx >= SLOT_COUNT
    ensures res.Success? ==> Valid(res.value)
    ensures res.Success? ==> forall j :: 0 <= j < SLOT_COUNT && j != idx ==> res.value.slots[j] == a.slots[j]
    ensures res.Success? && -1 <= Get(a, idx).value + k < 0xFFFF ==>
      Get(res.value, idx) == Success(Get(a, idx).value + k)
  {
    var cur :- Get(a, idx);
    Set(a, idx, WrapI32(cur + k))
  }
}
