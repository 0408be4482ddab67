/**
 * Property values and the lazily typed column store of
 * second_pass/variants.rs.  A column starts untyped, counting the Nones
 * pushed into it, and takes the kind of the first value it receives.
 *
 * `f32` payloads are kept as their 32-bit patterns: no float arithmetic is
 * modelled.  A `VarVec` of any of the thirteen Rust kinds is one kind tag
 * plus one sequence of cells; list kinds (StringVec, U64Vec, U32Vec,
 * Stickers, InputHistory) store `Some(list)` in every cell and an empty
 * list where the scalar kinds store `None`.
 */
module Variants {
  import opened Wrappers
  import opened Ints
  import opened Text

  /** An `f32` as its IEEE-754 bit pattern. */
  type Float32 = x: nat | x < 0x1_0000_0000

  datatype Vec2 = Vec2(x: Float32, y: Float32)
  datatype Vec3 = Vec3(x: Float32, y: Float32, z: Float32)

  datatype Sticker = Sticker(name: string, wear: Float32, id: nat, x: Float32, y: Float32)

  datatype InputHistoryEntry = InputHistoryEntry(
    x: Float32, y: Float32, z: Float32,
    renderTickCount: int, renderTickFraction: Float32,
    playerTickCount: int, playerTickFraction: Float32)

  datatype Variant =
    | Bool(b: bool)
    | U32(u32: nat)
    | I32(i32: int)
    | F32(f32: Float32)
    | U64(u64: nat)
    | String(s: string)
    | VecXY(xy: Vec2)
    | VecXYZ(xyz: Vec3)
    | StringVec(strings: seq<string>)
    | U32Vec(u32s: seq<nat>)
    | U64Vec(u64s: seq<nat>)
    | Stickers(stickers: seq<Sticker>)
    | InputHistory(history: seq<InputHistoryEntry>)

  /** The `VarVec` kinds, in the order of their `get_type` codes 0..12. */
  datatype Kind =
    | BoolCol | F32Col | I32Col | StringCol | U32Col | U64Col | StringVecCol
    | U64VecCol | XYCol | XYZCol | StickersCol | U32VecCol | InputHistoryCol

  /** `VarVec::new`: the kind of column a value starts. */
  function KindOf(v: Variant): Kind {
    match v
    case Bool(_) => BoolCol
    case U32(_) => U32Col
    case I32(_) => I32Col
    case F32(_) => F32Col
    case U64(_) => U64Col
    case String(_) => StringCol
    case VecXY(_) => XYCol
    case VecXYZ(_) => XYZCol
    case StringVec(_) => StringVecCol
    case U32Vec(_) => U32VecCol
    case U64Vec(_) => U64VecCol
    case Stickers(_) => StickersCol
    case InputHistory(_) => InputHistoryCol
  }

  predicate IsListKind(k: Kind) {
    k.StringVecCol? || k.U64VecCol? || k.U32VecCol? || k.StickersCol? || k.InputHistoryCol?
  }

  /** `get_type` of a column of kind `k`. */
  function KindCode(k: Kind): (code: nat)
    ensures code <= 12
  {
    match k
    case BoolCol => 0
    case F32Col => 1
    case I32Col => 2
    case StringCol => 3
    case U32Col => 4
    case U64Col => 5
    case StringVecCol => 6
    case U64VecCol => 7
    case XYCol => 8
    case XYZCol => 9
    case StickersCol => 10
    case U32VecCol => 11
    case InputHistoryCol => 12
  }

  /** The kind `resolve_vec_type` installs for a type code, if any. */
  function KindOfCode(code: nat): (k: Option<Kind>)
    ensures k.Some? <==> code <= 12
    ensures k.Some? ==> KindCode(k.value) == code
  {
    if code == 0 then Some(BoolCol)
    else if code == 1 then Some(F32Col)
    else if code == 2 then Some(I32Col)
    else if code == 3 then Some(StringCol)
    else if code == 4 then Some(U32Col)
    else if code == 5 then Some(U64Col)
    else if code == 6 then Some(StringVecCol)
    else if code == 7 then Some(U64VecCol)
    else if code == 8 then Some(XYCol)
    else if code == 9 then Some(XYZCol)
    else if code == 10 then Some(StickersCol)
    else if code == 11 then Some(U32VecCol)
    else if code == 12 then Some(InputHistoryCol)
    else None
  }

  lemma KindCodeRoundTrip(k: Kind)
    ensures KindOfCode(KindCode(k)) == Some(k)
  {
  }

  /** What `push_none` stores: None for scalar kinds, an empty list for list kinds. */
  function NoneCell(k: Kind): (c: Option<Variant>)
    ensures c.Some? <==> IsListKind(k)
    ensures c.Some? ==> KindOf(c.value) == k
  {
    match k
    case StringVecCol => Some(StringVec([]))
    case U64VecCol => Some(U64Vec([]))
    case U32VecCol => Some(U32Vec([]))
    case StickersCol => Some(Stickers([]))
    case InputHistoryCol => Some(InputHistory([]))
    case _ => None
  }

  /** A cell a column of kind `k` can hold. */
  predicate CellFits(k: Kind, c: Option<Variant>) {
    match c
    case None => !IsListKind(k)
    case Some(v) => KindOf(v) == k
  }

  datatype VarVec = VarVec(kind: Kind, cells: seq<Option<Variant>>) {
    predicate Valid() {
      forall i :: 0 <= i < |cells| ==> CellFits(kind, cells[i])
    }
  }

  /** `push_none`. */
  function PushNone(v: VarVec): (r: VarVec)
    ensures r.kind == v.kind && |r.cells| == |v.cells| + 1 && r.cells[..|v.cells|] == v.cells
    ensures r.cells[|v.cells|].None? <==> !IsListKind(v.kind)
    ensures v.Valid() ==> r.Valid()
  {
    VarVec(v.kind, v.cells + [NoneCell(v.kind)])
  }

  /** `n` calls of `push_none`. */
  function PushNones(v: VarVec, n: nat): (r: VarVec)
    ensures r.kind == v.kind && |r.cells| == |v.cells| + n && r.cells[..|v.cells|] == v.cells
    ensures forall i :: |v.cells| <= i < |r.cells| ==> r.cells[i] == NoneCell(v.kind)
    ensures v.Valid() ==> r.Valid()
  {
    VarVec(v.kind, v.cells + seq(n, _ => NoneCell(v.kind)))
  }

  /** Whether `push_variant` stores `item` in a column of kind `k` (None always goes in). */
  predicate Accepts(k: Kind, item: Option<Variant>) {
    item.None? || KindOf(item.value) == k
  }

  /**
   * `push_variant`: None becomes `push_none`, a value of the column's kind
   * is appended, and a value of any other kind is silently dropped.
   */
  function PushVariant(v: VarVec, item: Option<Variant>): (r: VarVec)
    ensures r.kind == v.kind && |r.cells| == |v.cells| + (if Accepts(v.kind, item) then 1 else 0)
    ensures r.cells[..|v.cells|] == v.cells
    ensures Accepts(v.kind, item) && item.Some? ==> r.cells[|v.cells|] == item
    ensures v.Valid() ==> r.Valid()
  {
    match item
    case None => PushNone(v)
    case Some(x) => if KindOf(x) == v.kind then VarVec(v.kind, v.cells + [item]) else v
  }

  /** A column: typed data, or the number of Nones pushed while untyped. */
  datatype PropColumn = PropColumn(data: Option<VarVec>, numNones: nat) {
    predicate Valid() {
      data.Some? ==> data.value.Valid()
    }
  }

  /** `PropColumn::new`. */
  function NewColumn(): (c: PropColumn)
    ensures c.data.None? && Len(c) == 0
  {
    PropColumn(None, 0)
  }

  /** `len`: the typed cells, or the None count of an untyped column. */
  function Len(c: PropColumn): nat {
    match c.data
    case Some(v) => |v.cells|
    case None => c.numNones
  }

  /** Row `i` as `val.get(i)` sees it: an untyped column has no values. */
  function Cell(c: PropColumn, i: nat): Option<Variant> {
    match c.data
    case Some(v) => if i < |v.cells| then v.cells[i] else None
    case None => None
  }

  /**
   * `push`: an untyped column counts a None; its first value starts a
   * typed vector of that value's kind, filled with the Nones counted so
   * far; after that `push_variant` decides.
   */
  function Push(c: PropColumn, item: Option<Variant>): (r: PropColumn)
    ensures c.Valid() ==> r.Valid()
  {
    match c.data
    case Some(v) => c.(data := Some(PushVariant(v, item)))
    case None =>
      match item
      case None => PropColumn(None, c.numNones + 1)
      case Some(x) => PropColumn(Some(PushVariant(PushNones(VarVec(KindOf(x), []), c.numNones), item)), 0)
  }

  /** Whether `push` of `item` lengthens `c`. */
  predicate Takes(c: PropColumn, item: Option<Variant>) {
    c.data.None? || Accepts(c.data.value.kind, item)
  }

  /**
   * A push that lands lengthens the column by exactly one and puts the
   * item in the new row; on a typed column every earlier row is kept, and
   * a push of a value of another kind changes nothing.
   */
  lemma PushAppends(c: PropColumn, item: Option<Variant>)
    ensures var r := Push(c, item);
      Len(r) == Len(c) + (if Takes(c, item) then 1 else 0) &&
      (c.data.Some? ==> forall i :: 0 <= i < Len(c) ==> Cell(r, i) == Cell(c, i)) &&
      (!Takes(c, item) ==> r == c) &&
      (item.Some? && Takes(c, item) ==> Cell(r, Len(c)) == item)
  {
    var r := Push(c, item);
    match c.data
    case Some(v) =>
      var w := PushVariant(v, item);
      forall i | 0 <= i < Len(c)
        ensures Cell(r, i) == Cell(c, i)
      {
        assert w.cells[..|v.cells|][i] == w.cells[i];
      }
    case None =>
  }

  /** The first value pushed into an untyped column follows the Nones counted before it. */
  lemma FirstValueTypesColumn(n: nat, x: Variant)
    ensures var r := Push(PropColumn(None, n), Some(x));
      r.data.Some? && r.data.value.kind == KindOf(x) && r.numNones == 0 && Len(r) == n + 1 &&
      (forall i :: 0 <= i < n ==> r.data.value.cells[i] == NoneCell(KindOf(x))) &&
      r.data.value.cells[n] == Some(x)
  {
    var v := PushNones(VarVec(KindOf(x), []), n);
    var w := PushVariant(v, Some(x));
    forall i | 0 <= i < n
      ensures w.cells[i] == NoneCell(KindOf(x))
    {
      assert w.cells[..|v.cells|][i] == w.cells[i];
    }
  }

  /** `get_type`. */
  function GetType(data: Option<VarVec>): (code: Option<nat>)
    ensures code.Some? <==> data.Some?
    ensures data.Some? ==> KindOfCode(code.value) == Some(data.value.kind)
  {
    match data
    case Some(v) => Some(KindCode(v.kind))
    case None => None
  }

  /**
   * `resolve_vec_type`: a typed column is left alone; an untyped one
   * becomes a column of the coded kind, and then one `push(None)` runs for
   * each None it had counted (the count itself is not reset).  With no
   * kind to install, those pushes land on the still untyped column and
   * double its count.
   */
  function ResolveVecType(c: PropColumn, code: Option<nat>): (r: PropColumn)
  {
    if c.data.Some? then c
    else
      var k := if code.Some? then KindOfCode(code.value) else None;
      match k
      case Some(kind) => PropColumn(Some(PushNones(VarVec(kind, []), c.numNones)), c.numNones)
      case None => PropColumn(None, c.numNones + c.numNones)
  }

  /** `resolve_vec_type(get_type(..))` of a typed column gives an untyped column that kind and keeps its rows. */
  lemma ResolveTakesKind(c: PropColumn, other: VarVec)
    requires c.data.None?
    ensures var r := ResolveVecType(c, GetType(Some(other)));
      r.data.Some? && r.data.value.kind == other.kind && Len(r) == Len(c) && r.Valid()
  {
  }

  lemma ResolveTypedIsNoOp(c: PropColumn, code: Option<nat>)
    requires c.data.Some?
    ensures ResolveVecType(c, code) == c
  {
  }

  /** What `extend_from` appends to a column of kind `k` for the rows of `other`. */
  function ExtensionCells(k: Kind, other: PropColumn): seq<Option<Variant>> {
    match other.data
    case Some(o) => o.cells
    case None => seq(other.numNones, _ => NoneCell(k))
  }

  /** Whether `extend_from` can join `other` onto a column of kind `k`. */
  predicate Joins(k: Kind, other: PropColumn) {
    other.data.None? || other.data.value.kind == k
  }

  /**
   * `extend_from`: matching kinds concatenate, an untyped `other` adds its
   * Nones, mismatched kinds leave `self` as it is, and an untyped `self`
   * first takes the kind of `other` and then extends.
   */
  function ExtendFrom(self: PropColumn, other: PropColumn): (r: PropColumn)
  {
    match self.data
    case Some(v) =>
      if Joins(v.kind, other) then self.(data := Some(VarVec(v.kind, v.cells + ExtensionCells(v.kind, other))))
      else self
    case None =>
      match other.data
      case Some(o) =>
        var resolved := ResolveVecType(self, GetType(other.data));
        resolved.(data := Some(VarVec(o.kind, resolved.data.value.cells + o.cells)))
      case None => PropColumn(None, self.numNones + other.numNones)
  }

  /** Whether the two columns can be joined at all. */
  predicate Compatible(self: PropColumn, other: PropColumn) {
    self.data.None? || Joins(self.data.value.kind, other)
  }

  /**
   * Lengths add when the kinds agree or either side is untyped; otherwise
   * nothing changes.  The rows of `self` come first, then those of `other`.
   */
  lemma ExtendFromLength(self: PropColumn, other: PropColumn)
    ensures var r := ExtendFrom(self, other);
      (Compatible(self, other) ==> Len(r) == Len(self) + Len(other)) &&
      (!Compatible(self, other) ==> r == self)
  {
    match self.data
    case Some(v) =>
    case None =>
      match other.data
      case Some(o) => ResolveTakesKind(self, o);
      case None =>
  }

  lemma ExtendFromRows(self: PropColumn, other: PropColumn, i: nat)
    requires self.data.Some? && Joins(self.data.value.kind, other) && i < Len(self) + Len(other)
    ensures var r := ExtendFrom(self, other);
      Cell(r, i) == if i < Len(self) then Cell(self, i) else ExtensionCells(self.data.value.kind, other)[i - Len(self)]
  {
  }

  /** Two untyped columns just add their None counts. */
  lemma ExtendUntyped(self: PropColumn, other: PropColumn)
    requires self.data.None? && other.data.None?
    ensures ExtendFrom(self, other) == PropColumn(None, self.numNones + other.numNones)
  {
  }

  /**
   * `slice_to_new`: row `k` of the result is row `indices[k]` of the
   * source; an untyped source gives an untyped column of `|indices|` Nones.
   * Indexing past a typed column panics in the source, hence the
   * precondition.
   */
  function SliceToNew(c: PropColumn, indices: seq<nat>): (r: PropColumn)
    requires c.data.Some? ==> forall k :: 0 <= k < |indices| ==> indices[k] < |c.data.value.cells|
    ensures Len(r) == |indices|
    ensures forall k :: 0 <= k < |indices| ==> Cell(r, k) == Cell(c, indices[k])
    ensures c.Valid() ==> r.Valid()
  {
    match c.data
    case None => PropColumn(None, |indices|)
    case Some(v) => PropColumn(Some(VarVec(v.kind, seq(|indices|, k requires 0 <= k < |indices| => v.cells[indices[k]]))), 0)
  }

  /**
   * How `soa_to_aos` shows row `idx` of a typed column: a u64 becomes its
   * decimal string, a missing row is None, anything else is as stored.
   */
  function RenderCell(v: VarVec, idx: nat): (cell: Option<Variant>)
    ensures idx >= |v.cells| ==> cell.None?
    ensures idx < |v.cells| && v.cells[idx].Some? && v.cells[idx].value.U64? ==>
      cell == Some(String(NatToString(v.cells[idx].value.u64)))
    ensures idx < |v.cells| && (v.cells[idx].None? || !v.cells[idx].value.U64?) ==> cell == v.cells[idx]
  {
    if idx >= |v.cells| then None
    else match v.cells[idx]
      case Some(U64(u)) => Some(String(NatToString(u)))
      case c => c
  }

  /** A property column of the output: its id and its friendly name. */
  datatype OutputProp = OutputProp(id: nat, friendlyName: string)

  /** Whether `p` contributes a field to every row: its column exists and is typed. */
  predicate Shown(p: OutputProp, inner: map<nat, PropColumn>) {
    p.id in inner && inner[p.id].data.Some?
  }

  /** One row of `soa_to_aos`; a later property with the same name overwrites an earlier one. */
  function RowOf(props: seq<OutputProp>, inner: map<nat, PropColumn>, idx: nat): map<string, Option<Variant>>
    decreases |props|
  {
    if |props| == 0 then map[]
    else
      var m := RowOf(props[..|props| - 1], inner, idx);
      var p := props[|props| - 1];
      if Shown(p, inner) then m[p.friendlyName := RenderCell(inner[p.id].data.value, idx)] else m
  }

  /**
   * `soa_to_aos`: the row count is the length of whichever column the
   * map's iteration visits last (`order` is that iteration order), and
   * each row maps the friendly names of the typed columns to their cells.
   */
  function SoaToAos(props: seq<OutputProp>, inner: map<nat, PropColumn>, order: seq<nat>): (rows: seq<map<string, Option<Variant>>>)
    requires forall k :: 0 <= k < |order| ==> order[k] in inner
    ensures |order| == 0 ==> |rows| == 0
    ensures |order| > 0 ==> |rows| == Len(inner[order[|order| - 1]])
    ensures forall idx :: 0 <= idx < |rows| ==> rows[idx] == RowOf(props, inner, idx)
  {
    var total := if |order| == 0 then 0 else Len(inner[order[|order| - 1]]);
    seq(total, idx requires 0 <= idx => RowOf(props, inner, idx))
  }

  /** A row has a field exactly for the names of typed columns; untyped columns are skipped. */
  lemma {:induction false} RowKeys(props: seq<OutputProp>, inner: map<nat, PropColumn>, idx: nat, name: string)
    ensures name in RowOf(props, inner, idx) <==>
      exists k :: 0 <= k < |props| && props[k].friendlyName == name && Shown(props[k], inner)
    decreases |props|
  {
    if |props| > 0 {
      var init := props[..|props| - 1];
      RowKeys(init, inner, idx, name);
      if name in RowOf(props, inner, idx) && name !in RowOf(init, inner, idx) {
        assert props[|props| - 1].friendlyName == name;
      }
      if exists k :: 0 <= k < |props| && props[k].friendlyName == name && Shown(props[k], inner) {
        var k :| 0 <= k < |props| && props[k].friendlyName == name && Shown(props[k], inner);
        if k < |props| - 1 {
          assert init[k] == props[k];
        }
      }
    }
  }

  /** The value under a name comes from the last typed column with that name. */
  lemma RowValue(props: seq<OutputProp>, inner: map<nat, PropColumn>, idx: nat, k: nat)
    requires k < |props| && Shown(props[k], inner)
    requires forall j :: k < j < |props| ==> props[j].friendlyName != props[k].friendlyName
    ensures props[k].friendlyName in RowOf(props, inner, idx)
    ensures RowOf(props, inner, idx)[props[k].friendlyName] == RenderCell(inner[props[k].id].data.value, idx)
    decreases |props|
  {
    if k < |props| - 1 {
      var init := props[..|props| - 1];
      assert init[k] == props[k];
      RowValue(init, inner, idx, k);
    }
  }
}
