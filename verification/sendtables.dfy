/**
 * The serializer field tree of first_pass/sendtables.rs: looking a field
 * up by field path, the decoder and property id a field carries, and the
 * rules that give a field from the flattened serializer message its
 * category and decoder.
 *
 * A field is an array or vector of one element field, a nested
 * serializer, a pointer to a serializer, a value, or nothing.  The type
 * string parser (a regular expression), the protobuf message and the
 * table of base-type decoders are not modelled; the table is a parameter.
 */
module Sendtables {
  import opened Wrappers
  import opened Ints
  import opened Errors
  import opened Decoders
  import opened PathOps
  import opened PropIds

  datatype Serializer = Serializer(name: string, fields: seq<Field>)

  datatype ValueField = ValueField(decoder: Decoder, name: string, shouldParse: bool, propId: nat, fullName: string)

  datatype Field =
    | Array(element: Field, length: nat)
    | Vector(element: Field, decoder: Decoder)
    /** `Field::Serializer`: a serializer embedded in place. */
    | Nested(serializer: Serializer)
    | Pointer(decoder: Decoder, serializer: Serializer)
    | Value(value: ValueField)
    | NoField

  /** The decoder, parse flag and property id the entity decoder needs for one field path. */
  datatype FieldInfo = FieldInfo(decoder: Decoder, shouldParse: bool, propId: nat)

  /** `i32 as usize`: a negative slot sign-extends to an index no field list has. */
  function AsIndex(v: int): (i: nat)
    requires IsI32(v)
    ensures 0 <= v ==> i == v
    ensures v < 0 ==> i >= U32_LIMIT
  {
    WrapUsize(v)
  }

  predicate SlotsAreI32(path: seq<int>) {
    forall j | 0 <= j < |path| :: IsI32(path[j])
  }

  /** `Field::get_inner`: the child a path slot selects. */
  function GetInner(f: Field, idx: nat): (r: Result<Field, DemoParserError>)
    ensures (f.Array? || f.Vector?) ==> r == Success(f.element)
    ensures (f.Nested? || f.Pointer?) ==> (r.Success? <==> idx < |f.serializer.fields|)
    ensures (f.Nested? || f.Pointer?) && r.Success? ==> r.value == f.serializer.fields[idx]
    ensures f.Value? || f.NoField? ==> r.Failure?
    ensures r.Failure? ==> r.error == IllegalPathOp
    ensures r.Success? ==> r.value < f
  {
    match f
    case Array(element, _) => Success(element)
    case Vector(element, _) => Success(element)
    case Nested(ser) => if idx < |ser.fields| then Success(ser.fields[idx]) else Failure(IllegalPathOp)
    case Pointer(_, ser) => if idx < |ser.fields| then Success(ser.fields[idx]) else Failure(IllegalPathOp)
    case Value(_) => Failure(IllegalPathOp)
    case NoField => Failure(IllegalPathOp)
  }

  /** Follows slots `i..=last` of `path` down from `f`. */
  function Descend(f: Field, path: seq<int>, i: nat, last: nat): (r: Result<Field, DemoParserError>)
    requires 1 <= i <= last + 1 <= |path| && SlotsAreI32(path)
    ensures r.Failure? ==> r.error == IllegalPathOp
    ensures r.Success? ==> r.value == f || r.value < f
    decreases last + 1 - i
  {
    if i > last then Success(f)
    else
      var g :- GetInner(f, AsIndex(path[i]));
      Descend(g, path, i + 1, last)
  }

  /** `find_field`: the field a path names, for paths of at most six live slots. */
  function FindField(fp: FieldPath, ser: Serializer): (r: Result<Field, DemoParserError>)
    requires Valid(fp)
    ensures AsIndex(fp.path[0]) >= |ser.fields| ==> r == Failure(IllegalPathOp)
    ensures fp.last > 5 ==> r == Failure(IllegalPathOp)
    ensures r.Failure? ==> r.error == IllegalPathOp
    ensures fp.last == 0 && AsIndex(fp.path[0]) < |ser.fields| ==> r == Success(ser.fields[AsIndex(fp.path[0])])
  {
    if AsIndex(fp.path[0]) >= |ser.fields| then Failure(IllegalPathOp)
    else if fp.last > 5 then Failure(IllegalPathOp)
    else Descend(ser.fields[AsIndex(fp.path[0])], fp.path, 1, fp.last)
  }

  /** Descending one slot further is one more `get_inner` on where the shorter walk ended. */
  lemma {:induction false} DescendOneMore(f: Field, path: seq<int>, i: nat, last: nat)
    requires 1 <= i <= last + 1 && last + 2 <= |path| && SlotsAreI32(path)
    ensures Descend(f, path, i, last + 1) ==
      match Descend(f, path, i, last)
      case Success(g) => GetInner(g, AsIndex(path[last + 1]))
      case Failure(e) => Failure(e)
    decreases last + 1 - i
  {
    if i <= last {
      match GetInner(f, AsIndex(path[i]))
      case Success(g) => DescendOneMore(g, path, i + 1, last);
      case Failure(_) =>
    }
  }

  /**
   * Lengthening a path by one slot looks one level deeper: the field the
   * longer path names is the child, at the new slot, of the field the
   * shorter path names.
   */
  lemma FindFieldOneDeeper(fp: FieldPath, ser: Serializer)
    requires Valid(fp) && fp.last < 5
    ensures FindField(fp.(last := fp.last + 1), ser) ==
      match FindField(fp, ser)
      case Success(g) => GetInner(g, AsIndex(fp.path[fp.last + 1]))
      case Failure(e) => Failure(e)
  {
    if AsIndex(fp.path[0]) < |ser.fields| {
      DescendOneMore(ser.fields[AsIndex(fp.path[0])], fp.path, 1, fp.last);
    }
  }

  /** A path cannot look inside a value: a value field has no children. */
  lemma NothingBelowAValue(fp: FieldPath, ser: Serializer)
    requires Valid(fp) && fp.last < 5
    requires FindField(fp, ser).Success? && FindField(fp, ser).value.Value?
    ensures FindField(fp.(last := fp.last + 1), ser) == Failure(IllegalPathOp)
  {
    FindFieldOneDeeper(fp, ser);
  }

  /** `get_decoder_from_field`. */
  function GetDecoderFromField(f: Field): (r: Result<Decoder, DemoParserError>)
    ensures r.Success? <==> f.Value? || f.Vector? || f.Pointer?
    ensures r.Failure? ==> r.error == FieldNoDecoder
    ensures f.Value? ==> r == Success(f.value.decoder)
    ensures f.Vector? ==> r == Success(UnsignedDecoder)
    ensures f.Pointer? ==> r == Success(f.decoder)
  {
    match f
    case Value(v) => Success(v.decoder)
    case Vector(_, _) => Success(UnsignedDecoder)
    case Pointer(d, _) => Success(d)
    case _ => Failure(FieldNoDecoder)
  }

  /** The id a flattened vector entry gets: `base + slot as u32`, wrapping. */
  function Offset(base: nat, slot: int): (r: nat)
    requires IsI32(slot)
    ensures IsU32(r)
    ensures 0 <= slot && IsU32(base + slot) ==> r == base + slot
  {
    WrapU32(base + I32AsU32(slot))
  }

  /** The five item-purchase ranges of the flattening, tested one after another. */
  function FlattenPurchase(id: nat, slot: int, k: nat): (r: nat)
    requires IsI32(slot) && k <= |PURCHASE_BASES|
    decreases |PURCHASE_BASES| - k
  {
    if k == |PURCHASE_BASES| then id
    else
      var base := PURCHASE_BASES[k];
      var id' := if base <= id < base + FLATTENED_VEC_MAX_LEN then Offset(base, slot) else id;
      FlattenPurchase(id', slot, k + 1)
  }

  /** The flattening of vector properties in `get_propinfo`, applied to the id the field carries. */
  function FlattenId(id: nat, fp: FieldPath): nat
    requires Valid(fp)
  {
    var weapons := if id == MY_WEAPONS_OFFSET && fp.last != 1 then Offset(MY_WEAPONS_OFFSET + 1, fp.path[2]) else id;
    var skin := if weapons == WEAPON_SKIN_ID then Offset(WEAPON_SKIN_ID, fp.path[1]) else weapons;
    var glove := if skin == GLOVE_PAINT_ID then Offset(GLOVE_PAINT_ID, fp.path[1]) else skin;
    if fp.path[1] != 1 then FlattenPurchase(glove, fp.path[2], 0) else glove
  }

  /** `get_propinfo`: values and vectors of values carry property info. */
  function GetPropinfo(f: Field, fp: FieldPath): (r: Option<FieldInfo>)
    requires Valid(fp)
    ensures r.Some? <==> f.Value? || (f.Vector? && f.element.Value?)
    ensures f.Value? ==> r == Some(FieldInfo(f.value.decoder, f.value.shouldParse, FlattenId(f.value.propId, fp)))
    ensures f.Vector? && f.element.Value? ==>
      r == Some(FieldInfo(f.decoder, f.element.value.shouldParse, FlattenId(f.element.value.propId, fp)))
  {
    match f
    case Value(v) => Some(FieldInfo(v.decoder, v.shouldParse, FlattenId(v.propId, fp)))
    case Vector(_, d) =>
      (match GetInner(f, 0)
       case Success(Value(inner)) => Some(FieldInfo(d, inner.shouldParse, FlattenId(inner.propId, fp)))
       case _ => None)
    case _ => None
  }

  /** A weapon slot of `m_hMyWeapons` gets its own id after the base, one per slot. */
  lemma MyWeaponsFlattened(fp: FieldPath)
    requires Valid(fp) && fp.last != 1 && 0 <= fp.path[2] < FLATTENED_VEC_MAX_LEN
    ensures FlattenId(MY_WEAPONS_OFFSET, fp) == MY_WEAPONS_OFFSET + fp.path[2] + 1
  {
    BelowPurchaseRanges(MY_WEAPONS_OFFSET + fp.path[2] + 1, fp.path[2]);
  }

  /** ... except for the vector's own length, at path depth 1. */
  lemma MyWeaponsLengthKept(fp: FieldPath)
    requires Valid(fp) && fp.last == 1
    ensures FlattenId(MY_WEAPONS_OFFSET, fp) == MY_WEAPONS_OFFSET
  {
    BelowPurchaseRanges(MY_WEAPONS_OFFSET, fp.path[2]);
  }

  /** Skin and glove paint ids are offset by the slot at depth 1. */
  lemma PaintFlattened(fp: FieldPath, base: nat)
    requires Valid(fp) && (base == WEAPON_SKIN_ID || base == GLOVE_PAINT_ID) && 0 <= fp.path[1] < FLATTENED_VEC_MAX_LEN
    ensures FlattenId(base, fp) == base + fp.path[1]
  {
    BelowPurchaseRanges(base + fp.path[1], fp.path[2]);
  }

  /** Whether `id` lies in the `k`th item-purchase range. */
  predicate InPurchaseRange(id: nat, k: nat)
    requires k < |PURCHASE_BASES|
  {
    PURCHASE_BASES[k] <= id < PURCHASE_BASES[k] + FLATTENED_VEC_MAX_LEN
  }

  /** The purchase ranges are pairwise disjoint. */
  lemma PurchaseRangesDisjoint(id: nat, j: nat, k: nat)
    requires j < k < |PURCHASE_BASES|
    ensures !(InPurchaseRange(id, j) && InPurchaseRange(id, k))
  {
    assert PURCHASE_BASES[j] + FLATTENED_VEC_MAX_LEN <= PURCHASE_BASES[k];
  }

  /** An id in none of the ranges from `k` on passes the remaining tests unchanged. */
  lemma {:induction false} PurchaseRangesMiss(id: nat, slot: int, k: nat)
    requires IsI32(slot) && k <= |PURCHASE_BASES|
    requires forall j | k <= j < |PURCHASE_BASES| :: !InPurchaseRange(id, j)
    ensures FlattenPurchase(id, slot, k) == id
    decreases |PURCHASE_BASES| - k
  {
    if k < |PURCHASE_BASES| {
      assert !InPurchaseRange(id, k);
      PurchaseRangesMiss(id, slot, k + 1);
    }
  }

  /** Ids below the first purchase range are in none of them. */
  lemma BelowPurchaseRanges(id: nat, slot: int)
    requires IsI32(slot) && id < ITEM_PURCHASE_COUNT
    ensures FlattenPurchase(id, slot, 0) == id
  {
    PurchaseRangesMiss(id, slot, 0);
  }

  /**
   * An item-purchase id is replaced by its range's base plus the slot at
   * depth 2, unless the slot at depth 1 is 1 (the vector's length).
   */
  lemma PurchaseFlattened(fp: FieldPath, k: nat, id: nat)
    requires Valid(fp) && k < |PURCHASE_BASES|
    requires InPurchaseRange(id, k)
    requires 0 <= fp.path[2] < FLATTENED_VEC_MAX_LEN
    ensures fp.path[1] != 1 ==> FlattenId(id, fp) == PURCHASE_BASES[k] + fp.path[2]
    ensures fp.path[1] == 1 ==> FlattenId(id, fp) == id
  {
    if fp.path[1] != 1 {
      PurchaseStep(id, fp.path[2], 0, k);
    }
  }

  lemma {:induction false} PurchaseStep(id: nat, slot: int, j: nat, k: nat)
    requires IsI32(slot) && 0 <= slot < FLATTENED_VEC_MAX_LEN && j <= k < |PURCHASE_BASES|
    requires InPurchaseRange(id, k)
    ensures FlattenPurchase(id, slot, j) == PURCHASE_BASES[k] + slot
    decreases |PURCHASE_BASES| - j
  {
    if j < k {
      PurchaseRangesDisjoint(id, j, k);
      PurchaseStep(id, slot, j + 1, k);
    } else {
      var id' := PURCHASE_BASES[k] + slot;
      assert InPurchaseRange(id', k);
      forall j' | k + 1 <= j' < |PURCHASE_BASES|
        ensures !InPurchaseRange(id', j')
      {
        PurchaseRangesDisjoint(id', k, j');
      }
      PurchaseRangesMiss(id', slot, k + 1);
    }
  }

  /** Ids outside every special id and range are passed through as they are. */
  lemma OrdinaryIdKept(fp: FieldPath, id: nat)
    requires Valid(fp)
    requires id != MY_WEAPONS_OFFSET && id != WEAPON_SKIN_ID && id != GLOVE_PAINT_ID && id < ITEM_PURCHASE_COUNT
    ensures FlattenId(id, fp) == id
  {
    BelowPurchaseRanges(id, fp.path[2]);
  }

  /**
   * The decoder `get_propinfo` reports is the one `get_decoder_from_field`
   * gives, for every field whose vector decoder is the one `VectorField::new`
   * installs.
   */
  lemma PropinfoDecoderAgrees(f: Field, fp: FieldPath)
    requires Valid(fp)
    requires f.Vector? ==> f.decoder == UnsignedDecoder
    requires GetPropinfo(f, fp).Some?
    ensures GetDecoderFromField(f) == Success(GetPropinfo(f, fp).value.decoder)
  {
  }

  /* ---------------- Building fields from the serializer message ---------------- */

  datatype FieldCategory = CategoryPointer | CategoryVector | CategoryArray | CategoryValue

  /** The parts of a parsed field type the category rules read. */
  datatype FieldType = FieldType(baseType: string, pointer: bool, count: Option<int>)

  /** A field of the flattened serializer message, before it becomes a `Field`. */
  datatype ConstructorField = ConstructorField(
    varName: string,
    serializerName: Option<string>,
    encoder: string,
    encodeFlags: int,
    bitcount: int,
    fieldType: FieldType,
    decoder: Decoder,
    category: FieldCategory)

  const POINTER_TYPES: seq<string> :=
    ["CBodyComponent", "CLightComponent", "CPhysicsComponent", "CRenderComponent", "CPlayerLocalData"]

  predicate IsPointer(f: ConstructorField) {
    f.fieldType.pointer || f.fieldType.baseType in POINTER_TYPES
  }

  predicate IsVector(f: ConstructorField) {
    f.serializerName.Some? || f.fieldType.baseType == "CUtlVector" || f.fieldType.baseType == "CNetworkUtlVectorBase"
  }

  predicate IsArray(f: ConstructorField) {
    f.fieldType.count.Some? && f.fieldType.baseType != "char"
  }

  /** `find_category`: pointer before vector before array before value. */
  function FindCategory(f: ConstructorField): (c: FieldCategory)
    ensures c == CategoryPointer <==> IsPointer(f)
    ensures c == CategoryVector <==> !IsPointer(f) && IsVector(f)
    ensures c == CategoryArray <==> !IsPointer(f) && !IsVector(f) && IsArray(f)
  {
    if IsPointer(f) then CategoryPointer
    else if IsVector(f) then CategoryVector
    else if IsArray(f) then CategoryArray
    else CategoryValue
  }

  /** A `char[N]` is a string value, not an array. */
  lemma CharArraysAreValues(f: ConstructorField)
    requires f.fieldType.baseType == "char" && !f.fieldType.pointer && f.serializerName.None?
    ensures FindCategory(f) == CategoryValue
  {
    assert "char" !in POINTER_TYPES;
  }

  /** A field naming a serializer is a vector of it unless it is a pointer. */
  lemma SerializerNameMakesVector(f: ConstructorField)
    requires f.serializerName.Some? && !IsPointer(f)
    ensures FindCategory(f) == CategoryVector
  {
  }

  /** `PointerField::new`. */
  function PointerFieldNew(ser: Serializer): (f: Field)
    ensures f.Pointer? && f.serializer == ser
    ensures f.decoder == (if ser.name == "CCSGameModeRules" then GameModeRulesDecoder else BooleanDecoder)
  {
    Pointer(if ser.name == "CCSGameModeRules" then GameModeRulesDecoder else BooleanDecoder, ser)
  }

  /** `ValueField::new`: not parsed and id 0 until the property controller assigns one. */
  function ValueFieldNew(decoder: Decoder, name: string): (v: ValueField)
    ensures v.decoder == decoder && v.name == name && v.fullName == name && !v.shouldParse && v.propId == 0
  {
    ValueField(decoder, name, false, 0, name)
  }

  /**
   * `create_field`: the element (a serializer looked up by name, or a
   * value), wrapped as the category says.  An unknown serializer name is
   * MalformedMessage.
   */
  function CreateField(fd: ConstructorField, serializers: map<string, Serializer>): (r: Result<Field, DemoParserError>)
    ensures fd.serializerName.Some? && fd.serializerName.value !in serializers ==> r == Failure(MalformedMessage)
    ensures r.Failure? ==> r.error == MalformedMessage
    ensures r.Success? && fd.category == CategoryArray ==> r.value.Array?
    ensures r.Success? && fd.category == CategoryVector ==> r.value.Vector? && r.value.decoder == UnsignedDecoder
  {
    var element :- match fd.serializerName
      case Some(name) =>
        if name !in serializers then Failure(MalformedMessage)
        else if fd.category == CategoryPointer then Success(PointerFieldNew(serializers[name]))
        else Success(Nested(serializers[name]))
      case None => Success(Value(ValueFieldNew(fd.decoder, fd.varName)));
    match fd.category
    case CategoryArray =>
      var n := if fd.fieldType.count.Some? then CountAsUsize(fd.fieldType.count.value) else 0;
      Success(Array(element, n))
    case CategoryVector => Success(Vector(element, UnsignedDecoder))
    case _ => Success(element)
  }

  /** `count as usize` for a parsed array length (an `i32`, sign-extended). */
  function CountAsUsize(n: int): nat {
    WrapUsize(n)
  }

  /**
   * A field built by `create_field` from a plain value gets exactly the
   * decoder it was given, and a vector field gets UnsignedDecoder, both in
   * `get_decoder_from_field` and in `get_propinfo`.
   */
  lemma CreatedFieldDecoders(fd: ConstructorField, serializers: map<string, Serializer>, fp: FieldPath)
    requires Valid(fp) && fd.serializerName.None?
    requires fd.category == CategoryValue || fd.category == CategoryVector
    ensures CreateField(fd, serializers).Success?
    ensures fd.category == CategoryValue ==> GetDecoderFromField(CreateField(fd, serializers).value) == Success(fd.decoder)
    ensures fd.category == CategoryVector ==>
      GetPropinfo(CreateField(fd, serializers).value, fp).Some? &&
      GetPropinfo(CreateField(fd, serializers).value, fp).value.decoder == UnsignedDecoder
  {
  }

  /* ---------------- Decoder choice ---------------- */

  /** The parameters of one quantized float (its float bounds are not modelled). */
  datatype QfParams = QfParams(bitcount: nat, encodeFlags: int)

  /** `QfMapper`: the quantized floats registered so far, keyed by the index they were given. */
  datatype QfMapper = QfMapper(idx: nat, qfs: map<nat, QfParams>)

  /** Registers the field's quantized float under the next index. */
  function Register(f: ConstructorField, qf: QfMapper): (qf': QfMapper)
    requires 0 < f.bitcount < 32
    ensures qf'.idx == qf.idx + 1 && qf'.qfs == qf.qfs[qf.idx := QfParams(f.bitcount, f.encodeFlags)]
  {
    QfMapper(qf.idx + 1, qf.qfs[qf.idx := QfParams(f.bitcount, f.encodeFlags)])
  }

  /** Whether `find_float_decoder` registers a quantized float for the field. */
  predicate IsQuantized(f: ConstructorField) {
    && f.varName != "m_flSimulationTime" && f.varName != "m_flAnimTime"
    && f.encoder != "coord" && f.encoder != "m_flSimulationTime"
    && 0 < f.bitcount < 32
  }

  /** The decoder of a float that is not quantized. */
  function PlainFloatDecoder(f: ConstructorField): Decoder
    requires !IsQuantized(f)
  {
    if f.varName == "m_flSimulationTime" || f.varName == "m_flAnimTime" then FloatSimulationTimeDecoder
    else if f.encoder == "coord" then FloatCoordDecoder
    else if f.encoder == "m_flSimulationTime" then FloatSimulationTimeDecoder
    else NoscaleDecoder
  }

  /**
   * `find_float_decoder` as written: the quantized float is stored under
   * `qf_map.idx`, but the decoder keeps only `idx as u8`.
   */
  function FindFloatDecoderU8(f: ConstructorField, qf: QfMapper): (r: (Decoder, QfMapper))
    ensures !IsQuantized(f) ==> r == (PlainFloatDecoder(f), qf)
    ensures IsQuantized(f) ==> r.1 == Register(f, qf) && r.0 == QuantalizedFloatDecoder(qf.idx % 256)
  {
    if !IsQuantized(f) then (PlainFloatDecoder(f), qf)
    else (QuantalizedFloatDecoder(TruncU8(qf.idx)), Register(f, qf))
  }

  /**
   * With 256 quantized floats registered, the 257th quantized field gets
   * a decoder that reads the first field's parameters, not its own.
   */
  lemma QuantizedIndexAliases(f: ConstructorField, first: QfParams, qf: QfMapper)
    requires IsQuantized(f) && qf.idx == 256 && 0 in qf.qfs && qf.qfs[0] == first
    requires first != QfParams(f.bitcount, f.encodeFlags)
    ensures var (d, qf') := FindFloatDecoderU8(f, qf);
      d.qfIdx in qf'.qfs && qf'.qfs[d.qfIdx] != QfParams(f.bitcount, f.encodeFlags)
  {
  }

  /**
   * `find_float_decoder` with the decoder holding the full index, as the
   * map key does; this is the version the rest of the model uses.
   */
  function FindFloatDecoder(f: ConstructorField, qf: QfMapper): (r: (Decoder, QfMapper))
    ensures !IsQuantized(f) ==> r == (PlainFloatDecoder(f), qf)
    ensures IsQuantized(f) ==> r.1 == Register(f, qf) && r.0.QuantalizedFloatDecoder?
  {
    if !IsQuantized(f) then (PlainFloatDecoder(f), qf)
    else (QuantalizedFloatDecoder(qf.idx), Register(f, qf))
  }

  /** Each quantized field's decoder finds that field's own parameters, however many came before. */
  lemma QuantizedDecoderFindsOwnParams(f: ConstructorField, qf: QfMapper)
    requires IsQuantized(f)
    ensures var (d, qf') := FindFloatDecoder(f, qf);
      d.qfIdx in qf'.qfs && qf'.qfs[d.qfIdx] == QfParams(f.bitcount, f.encodeFlags)
  {
  }

  /** Registering keeps every earlier quantized float under its index. */
  lemma RegisterKeepsEarlier(f: ConstructorField, qf: QfMapper, k: nat)
    requires IsQuantized(f) && k in qf.qfs && k < qf.idx
    ensures var qf' := FindFloatDecoder(f, qf).1; k in qf'.qfs && qf'.qfs[k] == qf.qfs[k]
  {
  }

  /** `find_uint_decoder`. */
  function FindUintDecoder(f: ConstructorField): (d: Decoder)
    ensures d == Fixed64Decoder <==> f.encoder == "fixed64"
    ensures d == Fixed64Decoder || d == Unsigned64Decoder
  {
    if f.encoder == "fixed64" then Fixed64Decoder else Unsigned64Decoder
  }

  /** `find_qangle_decoder`. */
  function FindQangleDecoder(f: ConstructorField): (d: Decoder)
    ensures d == QanglePitchYawDecoder <==> f.varName == "m_angEyeAngles"
    ensures f.varName != "m_angEyeAngles" ==> (d == Qangle3Decoder <==> f.bitcount != 0)
    ensures d == QanglePitchYawDecoder || d == Qangle3Decoder || d == QangleVarDecoder
  {
    if f.varName == "m_angEyeAngles" then QanglePitchYawDecoder
    else if f.bitcount != 0 then Qangle3Decoder
    else QangleVarDecoder
  }

  /**
   * `find_vector_type`: normal vectors, else the float decoder of the
   * components decides; a quantized component still registers its float.
   */
  function FindVectorType(f: ConstructorField, n: nat, qf: QfMapper): (r: (Decoder, QfMapper))
    ensures n == 3 && f.encoder == "normal" ==> r == (VectorNormalDecoder, qf)
    ensures r.0 == VectorNormalDecoder || r.0 == VectorNoscaleDecoder || r.0 == VectorFloatCoordDecoder
    ensures !(n == 3 && f.encoder == "normal") ==> r.1 == FindFloatDecoder(f, qf).1
  {
    if n == 3 && f.encoder == "normal" then (VectorNormalDecoder, qf)
    else
      var (floatType, qf') := FindFloatDecoder(f, qf);
      match floatType
      case NoscaleDecoder => (VectorNoscaleDecoder, qf')
      case FloatCoordDecoder => (VectorFloatCoordDecoder, qf')
      case _ => (VectorNormalDecoder, qf')
  }

  /** The base types `find_decoder` handles itself when the decoder table does not list them. */
  const SPECIAL_BASE_TYPES: seq<string> :=
    ["float32", "Vector", "Vector2D", "Vector4D", "uint64", "QAngle", "CHandle",
     "CNetworkedQuantizedFloat", "CStrongHandle", "CEntityHandle"]

  /** `find_decoder`, with the base-type decoder table as a parameter. */
  function FindDecoder(f: ConstructorField, qf: QfMapper, baseTypeDecoders: map<string, Decoder>): (r: (Decoder, QfMapper))
    ensures f.varName == "m_iClip1" ==> r == (AmmoDecoder, qf)
    ensures f.varName != "m_iClip1" && f.fieldType.baseType in baseTypeDecoders ==>
      r == (baseTypeDecoders[f.fieldType.baseType], qf)
    ensures (f.varName != "m_iClip1" && f.fieldType.baseType !in baseTypeDecoders
             && f.fieldType.baseType !in SPECIAL_BASE_TYPES) ==> r == (UnsignedDecoder, qf)
    ensures r.1 == qf || (IsQuantized(f) && r.1 == Register(f, qf))
  {
    if f.varName == "m_iClip1" then (AmmoDecoder, qf)
    else if f.fieldType.baseType in baseTypeDecoders then (baseTypeDecoders[f.fieldType.baseType], qf)
    else
      var t := f.fieldType.baseType;
      if t == "float32" || t == "CNetworkedQuantizedFloat" then FindFloatDecoder(f, qf)
      else if t == "Vector" then FindVectorType(f, 3, qf)
      else if t == "Vector2D" then FindVectorType(f, 2, qf)
      else if t == "Vector4D" then FindVectorType(f, 4, qf)
      else if t == "uint64" || t == "CStrongHandle" || t == "CEntityHandle" then (FindUintDecoder(f), qf)
      else if t == "QAngle" then (FindQangleDecoder(f), qf)
      else (UnsignedDecoder, qf)
  }

  /** Every quantized-float decoder `find_decoder` hands out names a registered float. */
  lemma FindDecoderQuantizedRegistered(f: ConstructorField, qf: QfMapper, baseTypeDecoders: map<string, Decoder>)
    requires forall d | d in baseTypeDecoders.Values :: !d.QuantalizedFloatDecoder?
    ensures var (d, qf') := FindDecoder(f, qf, baseTypeDecoders);
      d.QuantalizedFloatDecoder? ==> d.qfIdx in qf'.qfs && qf'.qfs[d.qfIdx] == QfParams(f.bitcount, f.encodeFlags)
  {
    var (d, qf') := FindDecoder(f, qf, baseTypeDecoders);
    if d.QuantalizedFloatDecoder? {
      assert f.varName != "m_iClip1";
      if f.fieldType.baseType in baseTypeDecoders {
        assert false;
      }
    }
  }
}
