/**
 * The per-tick collection of the second pass (second_pass/collect_data.rs):
 * every wanted property of every tracked player is looked up and pushed
 * into its output column, or, while parsing projectiles, one row per
 * thrown grenade.
 *
 * Lookups are pure functions of a `Collector`, a read-only view of the
 * second-pass parser state.  The players map and the projectile set are
 * a `BTreeMap` and a `BTreeSet` in the source, so they are walked in
 * ascending entity-id order (`PlayerOrder`, `ProjectileOrder`).  Float arithmetic is not modelled: the value an `f32` bit pattern
 * denotes, the rounding of a real back to `f32`, and the custom
 * properties that need float arithmetic (velocity, skin ids, paint seed)
 * are parameters.
 */
module CollectData {
  import opened Wrappers
  import opened Ints
  import opened Text
  import opened Variants
  import opened PropIds
  import opened PropControl
  import opened Entities
  import opened Sendtables
  import StringTables
  import opened OrderedIds

  datatype PropCollectionError =
    | PlayerSpecialIDCellXMissing | PlayerSpecialIDCellYMissing | PlayerSpecialIDCellZMissing
    | PlayerSpecialIDOffsetXMissing | PlayerSpecialIDOffsetYMissing | PlayerSpecialIDOffsetZMissing
    | GrenadeSpecialIDCellXMissing | GrenadeSpecialIDCellYMissing | GrenadeSpecialIDCellZMissing
    | GrenadeSpecialIDOffsetXMissing | GrenadeSpecialIDOffsetYMissing | GrenadeSpecialIDOffsetZMissing
    | CoordinateOffsetNone | CoordinateCellNone | CoordinateIncorrectTypes | CoordinateBothNone
    | GrenadeOffsetVariantNone | PlayerMetaDataNameNone
    | ButtonsSpecialIDNone | ButtonsMapNoEntryFound
    | GetPropFromEntEntityNotFound | GetPropFromEntPropNotFound
    | ButtonMaskNotU64Variant | RulesEntityIdNotSet | ControllerEntityIdNotSet
    | SpecialidsEyeAnglesNotSet | SpecialidsItemDefNotSet | EyeAnglesWrongVariant
    | WeaponIdxMappingNotFound | WeaponDefVariantWrongType
    | SpecialidsPlayerTeamPointerNotSet | TeamNumIncorrectVariant | IllegalTeamValue | TeamEntityIdNotSet
    | GrenadeOwnerIdNotSet | GrenadeOwnerIdPropIncorrectVariant | PlayerNotFound
    | SpecialidsActiveWeaponNotSet | WeaponHandleIncorrectVariant | UnknownCustomPropName | UnknownCoordinateAxis
    | WeaponEntityNotFound | WeaponEntityWantedPropNotFound
    | WeaponSkinFloatConvertionError | WeaponSkinNoSkinMapping | WeaponSkinIdxIncorrectVariant
    | OriginalOwnerXuidIdLowNotSet | OriginalOwnerXuidIdHighNotSet
    | OriginalOwnerXuidLowNotFound | OriginalOwnerXuidHighNotFound
    | OriginalOwnerXuidlowIncorrectVariant | OriginalOwnerXuidHighIncorrectVariant
    | SpottedIncorrectVariant | VelocityNotFound
    | AgentIdNotFound | AgentIncorrectVariant | AgentPropNotFound | AgentSpecialIdNotSet
    | UseridNotFound | InventoryMaxNotFound
    | GloveSkinFloatConvertionError | GloveSkinIdxIncorrectVariant

  type Lookup = Result<Variant, PropCollectionError>

  /** The static tables of the `maps` crates this file reads, as uninterpreted maps. */
  datatype Lookups = Lookups(
    buttonFlags: map<string, nat>,
    weaponNames: map<nat, string>,
    agentNames: map<nat, string>,
    playerColors: map<int, string>,
    stickerNames: map<nat, string>)

  /**
   * What float arithmetic would compute: the real an `f32` pattern
   * denotes, the `f32` nearest a real, and the custom properties built
   * by float arithmetic (velocity from the output columns, skin ids
   * through `fract`, the paint seed through `as u32`), given the
   * property name, the entity and the player.
   */
  datatype FloatOps = FloatOps(
    value: Float32 -> real,
    round: real -> Float32,
    floatProp: (string, int, PlayerMetaData) -> Lookup)

  /** The second-pass state collection reads. */
  datatype Collector = Collector(
    t: Tracker,
    classNames: seq<string>,
    pc: PropController,
    /** `stringtable_players` in its (ascending user id) order. */
    stringtablePlayers: seq<StringTables.UserInfo>,
    tick: int,
    netTick: nat,
    wantedTicks: set<int>,
    wantedEvents: seq<string>,
    wantedPlayers: set<nat>,
    orderBySteamid: bool,
    parseGrenades: bool,
    lookups: Lookups,
    floats: FloatOps)

  /* ---------------- Iteration order ---------------- */

  /** `players` is a `BTreeMap<i32, _>`: loops over it visit the entity ids in ascending order. */
  function PlayerOrder(c: Collector): seq<int> {
    SortedIds(c.t.players.Keys)
  }

  /** `projectiles` is a `BTreeSet<i32>`: loops over it visit the entity ids in ascending order. */
  function ProjectileOrder(c: Collector): seq<int> {
    SortedIds(c.t.projectiles)
  }

  /* ---------------- Entity lookups ---------------- */

  predicate HasEntity(c: Collector, id: int) {
    0 <= id < |c.t.entities| && c.t.entities[id].Some?
  }

  /**
   * `get_prop_from_ent`: the stored value itself, or which of the two
   * lookups failed.  A negative id is past the end of the entity list.
   */
  function GetPropFromEnt(c: Collector, propId: nat, id: int): (r: Lookup)
    ensures r == Failure(GetPropFromEntEntityNotFound) <==> !HasEntity(c, id)
    ensures r.Success? <==> HasEntity(c, id) && propId in c.t.entities[id].value.props
    ensures r.Success? ==> r.value == c.t.entities[id].value.props[propId]
    ensures r.Failure? ==> r.error == GetPropFromEntEntityNotFound || r.error == GetPropFromEntPropNotFound
  {
    if !HasEntity(c, id) then Failure(GetPropFromEntEntityNotFound)
    else if propId in c.t.entities[id].value.props then Success(c.t.entities[id].value.props[propId])
    else Failure(GetPropFromEntPropNotFound)
  }

  /** The collector reads the same values the entity tracker stores. */
  lemma GetPropAgreesWithTracker(c: Collector, propId: nat, id: int)
    requires IsI32(id)
    ensures GetPropFromEnt(c, propId, id).Success? <==> PropOfEntity(c.t, id, propId).Some?
    ensures GetPropFromEnt(c, propId, id).Success? ==> GetPropFromEnt(c, propId, id).value == PropOfEntity(c.t, id, propId).value
  {
  }

  /** A value the entity decoder stores under a parsed field is what collection reads back. */
  lemma ReadsBackInsertedField(c: Collector, id: int, v: Variant, info: FieldInfo)
    requires HasEntity(c, id) && info.shouldParse
    ensures var e := InsertField(c.t.entities[id].value, v, Some(info));
      GetPropFromEnt(c.(t := PutEntity(c.t, id, e)), info.propId, id) == Success(v)
  {
  }

  /** The special id recorded under a property name, if any. */
  function SpecialId(c: Collector, key: string): (r: Option<nat>)
    ensures r.Some? <==> key in c.pc.specialIds
    ensures r.Some? ==> r.value == c.pc.specialIds[key]
  {
    if key in c.pc.specialIds then Some(c.pc.specialIds[key]) else None
  }

  const ACTIVE_WEAPON_KEY: string := "CCSPlayerPawn.CCSPlayer_WeaponServices.m_hActiveWeapon"
  const BUTTONS_KEY: string := "CCSPlayerPawn.CCSPlayer_MovementServices.m_nButtonDownMaskPrev"
  const TEAM_POINTER_KEY: string := "CCSPlayerPawn.m_iTeamNum"
  const EYE_ANGLES_KEY: string := "CCSPlayerPawn.m_angEyeAngles"
  const LIFE_STATE_KEY: string := "CCSPlayerPawn.m_lifeState"
  const AIRBORNE_KEY: string := "CCSPlayerPawn.m_hGroundEntity"
  const AGENT_SKIN_KEY: string := "CCSPlayerController.m_nPawnCharacterDefIndex"
  const ITEM_DEF_KEY: string := "m_iItemDefinitionIndex"
  const OWNER_ENTITY_KEY: string := "m_hOwnerEntity"
  const GRENADE_OWNER_KEY: string := "m_nOwnerId"
  const ORIGINAL_OWNER_LOW_KEY: string := "m_OriginalOwnerXuidLow"
  const ORIGINAL_OWNER_HIGH_KEY: string := "m_OriginalOwnerXuidHigh"

  /** `handle & 0x7FF`: the entity index an entity handle points at. */
  function HandleEntity(handle: nat): (id: int)
    ensures 0 <= id < 0x800
  {
    handle % 0x800
  }

  /** `get_controller_prop`: a property of the player's controller entity. */
  function GetControllerProp(c: Collector, propId: nat, player: PlayerMetaData): (r: Lookup)
    ensures player.controllerEntid.None? ==> r == Failure(ControllerEntityIdNotSet)
    ensures player.controllerEntid.Some? ==> r == GetPropFromEnt(c, propId, player.controllerEntid.value)
  {
    match player.controllerEntid
    case Some(e) => GetPropFromEnt(c, propId, e)
    case None => Failure(ControllerEntityIdNotSet)
  }

  /** `get_rules_prop`: a property of the game-rules entity. */
  function GetRulesProp(c: Collector, propId: nat): (r: Lookup)
    ensures c.t.rulesEntityId.None? ==> r == Failure(RulesEntityIdNotSet)
    ensures c.t.rulesEntityId.Some? ==> r == GetPropFromEnt(c, propId, c.t.rulesEntityId.value)
  {
    match c.t.rulesEntityId
    case Some(e) => GetPropFromEnt(c, propId, e)
    case None => Failure(RulesEntityIdNotSet)
  }

  /* ---------------- Weapon and team lookups ---------------- */

  /**
   * `find_weapon_prop`: a property of the weapon the player holds, found
   * through the active-weapon handle; the two not-found errors of the
   * weapon-side lookup are renamed, player-side errors pass through.
   */
  function FindWeaponProp(c: Collector, propId: nat, playerEntid: int): (r: Lookup)
    ensures ACTIVE_WEAPON_KEY !in c.pc.specialIds ==> r == Failure(SpecialidsActiveWeaponNotSet)
    ensures ACTIVE_WEAPON_KEY in c.pc.specialIds ==>
      var h := GetPropFromEnt(c, c.pc.specialIds[ACTIVE_WEAPON_KEY], playerEntid);
      && (h.Failure? ==> r == Failure(h.error))
      && (h.Success? && !h.value.U32? ==> r == Failure(WeaponHandleIncorrectVariant))
      && (h.Success? && h.value.U32? ==>
            var w := HandleEntity(h.value.u32);
            && (r == Failure(WeaponEntityNotFound) <==> !HasEntity(c, w))
            && (r.Success? <==> HasEntity(c, w) && propId in c.t.entities[w].value.props)
            && (r.Success? ==> r.value == c.t.entities[w].value.props[propId])
            && (r.Failure? ==> r.error == WeaponEntityNotFound || r.error == WeaponEntityWantedPropNotFound))
  {
    match SpecialId(c, ACTIVE_WEAPON_KEY)
    case None => Failure(SpecialidsActiveWeaponNotSet)
    case Some(p) =>
      match GetPropFromEnt(c, p, playerEntid)
      case Success(U32(handle)) =>
        (match GetPropFromEnt(c, propId, HandleEntity(handle))
         case Success(v) => Success(v)
         case Failure(GetPropFromEntEntityNotFound) => Failure(WeaponEntityNotFound)
         case Failure(GetPropFromEntPropNotFound) => Failure(WeaponEntityWantedPropNotFound)
         case Failure(e) => Failure(e))
      case Success(_) => Failure(WeaponHandleIncorrectVariant)
      case Failure(e) => Failure(e)
  }

  /** The team entity recorded for team number 1, 2 or 3. */
  function TeamSlot(teams: Teams, n: nat): Option<int>
    requires 1 <= n <= 3
  {
    if n == 1 then teams.team1 else if n == 2 then teams.team2 else teams.team3
  }

  /**
   * `find_team_prop`: a property of the team entity of the player's team
   * (1 spectators, 2 and 3 the playing sides).
   */
  function FindTeamProp(c: Collector, propId: nat, playerEntid: int): (r: Lookup)
    ensures TEAM_POINTER_KEY !in c.pc.specialIds ==> r == Failure(SpecialidsPlayerTeamPointerNotSet)
    ensures TEAM_POINTER_KEY in c.pc.specialIds ==>
      var n := GetPropFromEnt(c, c.pc.specialIds[TEAM_POINTER_KEY], playerEntid);
      && (n.Failure? ==> r == Failure(n.error))
      && (n.Success? && !n.value.U32? ==> r == Failure(TeamNumIncorrectVariant))
      && (n.Success? && n.value.U32? && !(1 <= n.value.u32 <= 3) ==> r == Failure(IllegalTeamValue))
      && (n.Success? && n.value.U32? && 1 <= n.value.u32 <= 3 ==>
            var slot := TeamSlot(c.t.teams, n.value.u32);
            && (slot.None? ==> r == Failure(TeamEntityIdNotSet))
            && (slot.Some? ==> r == GetPropFromEnt(c, propId, slot.value)))
  {
    match SpecialId(c, TEAM_POINTER_KEY)
    case None => Failure(SpecialidsPlayerTeamPointerNotSet)
    case Some(p) =>
      match GetPropFromEnt(c, p, playerEntid)
      case Success(U32(n)) =>
        if 1 <= n <= 3 then
          (match TeamSlot(c.t.teams, n)
           case Some(eid) => GetPropFromEnt(c, propId, eid)
           case None => Failure(TeamEntityIdNotSet))
        else Failure(IllegalTeamValue)
      case Success(_) => Failure(TeamNumIncorrectVariant)
      case Failure(e) => Failure(e)
  }

  /**
   * The team slot the entity bookkeeping fills from a team entity's team
   * number is the one team properties are then read from: a player on
   * that team sees the team entity's properties.
   */
  lemma RecordedTeamServesItsPlayers(c: Collector, ctx: EntityContext, teamId: int, n: nat, playerId: int, propId: nat)
    requires IsI32(teamId) && 1 <= n <= 3 && TeamTeamNum in ctx.special
    requires PropOfEntity(c.t, teamId, ctx.special[TeamTeamNum]) == Some(U32(n))
    requires TEAM_POINTER_KEY in c.pc.specialIds
    requires GetPropFromEnt(c, c.pc.specialIds[TEAM_POINTER_KEY], playerId) == Success(U32(n))
    ensures var c' := c.(t := RecordTeam(c.t, ctx, teamId));
      FindTeamProp(c', propId, playerId) == GetPropFromEnt(c', propId, teamId)
  {
    var c' := c.(t := RecordTeam(c.t, ctx, teamId));
    assert c'.t.entities == c.t.entities;
    assert TeamSlot(c'.t.teams, n) == Some(teamId);
  }

  /* ---------------- Buttons ---------------- */

  /** `a & b != 0` on two `u64` values. */
  predicate SharesBit(a: nat, b: nat) {
    (a % U64_LIMIT) as bv64 & (b % U64_LIMIT) as bv64 != 0
  }

  /**
   * `get_button_prop`: whether the button's flag is set in the player's
   * button mask.
   */
  function GetButtonProp(c: Collector, info: PropInfo, id: int): (r: Lookup)
    ensures BUTTONS_KEY !in c.pc.specialIds ==> r == Failure(ButtonsSpecialIDNone)
    ensures BUTTONS_KEY in c.pc.specialIds ==>
      var m := GetPropFromEnt(c, c.pc.specialIds[BUTTONS_KEY], id);
      && (m.Failure? ==> r == Failure(m.error))
      && (m.Success? && !m.value.U64? ==> r == Failure(ButtonMaskNotU64Variant))
      && (m.Success? && m.value.U64? && info.propName !in c.lookups.buttonFlags ==> r == Failure(ButtonsMapNoEntryFound))
      && (m.Success? && m.value.U64? && info.propName in c.lookups.buttonFlags ==>
            r == Success(Bool(SharesBit(m.value.u64, c.lookups.buttonFlags[info.propName]))))
  {
    match SpecialId(c, BUTTONS_KEY)
    case None => Failure(ButtonsSpecialIDNone)
    case Some(b) =>
      match GetPropFromEnt(c, b, id)
      case Success(U64(mask)) =>
        if info.propName in c.lookups.buttonFlags then Success(Bool(SharesBit(mask, c.lookups.buttonFlags[info.propName])))
        else Failure(ButtonsMapNoEntryFound)
      case Success(_) => Failure(ButtonMaskNotU64Variant)
      case Failure(e) => Failure(e)
  }

  /** A mask holding exactly the button's (non-zero) flag reads as pressed. */
  lemma ButtonPressedByItsFlag(c: Collector, info: PropInfo, id: int)
    requires BUTTONS_KEY in c.pc.specialIds && info.propName in c.lookups.buttonFlags
    requires c.lookups.buttonFlags[info.propName] % U64_LIMIT != 0
    requires GetPropFromEnt(c, c.pc.specialIds[BUTTONS_KEY], id) == Success(U64(c.lookups.buttonFlags[info.propName]))
    ensures GetButtonProp(c, info, id) == Success(Bool(true))
  {
    var f := (c.lookups.buttonFlags[info.propName] % U64_LIMIT) as bv64;
    assert f & f == f;
  }

  /* ---------------- Coordinates ---------------- */

  /** `1 << CELL_BITS`: the width of a coordinate cell. */
  const CELL_WIDTH: nat := 512
  /** `MAX_COORD`: the coordinate of cell 0's origin is its negation. */
  const MAX_COORD: real := 16384.0

  /**
   * `coord_from_cell` over the reals (f32 rounding is not modelled): the
   * cell's origin plus the offset inside it; otherwise which of the two
   * was missing, or that one had the wrong type.
   */
  function CoordFromCell(ops: FloatOps, cell: Lookup, offset: Lookup): (r: Result<real, PropCollectionError>)
    ensures r.Success? <==> offset.Success? && offset.value.F32? && cell.Success? && cell.value.U32?
    ensures r.Success? ==> r.value == (cell.value.u32 * CELL_WIDTH) as real - MAX_COORD + ops.value(offset.value.f32)
    ensures offset.Failure? && cell.Failure? ==> r == Failure(CoordinateBothNone)
    ensures offset.Success? && offset.value.F32? && cell.Failure? ==> r == Failure(CoordinateCellNone)
    ensures offset.Failure? && cell.Success? && cell.value.U32? ==> r == Failure(CoordinateOffsetNone)
    ensures (offset.Success? && !offset.value.F32?) || (cell.Success? && !cell.value.U32?) ==> r == Failure(CoordinateIncorrectTypes)
  {
    match (offset, cell)
    case (Success(F32(o)), Success(U32(n))) => Success((n * CELL_WIDTH) as real - MAX_COORD + ops.value(o))
    case (Failure(_), Failure(_)) => Failure(CoordinateBothNone)
    case (Success(F32(_)), Failure(_)) => Failure(CoordinateCellNone)
    case (Failure(_), Success(U32(_))) => Failure(CoordinateOffsetNone)
    case (_, _) => Failure(CoordinateIncorrectTypes)
  }

  /**
   * Cell and offset are recovered from the coordinate: with the offset
   * inside its cell, the coordinate lies in that cell and no other.
   */
  lemma CoordFromCellInverse(ops: FloatOps, cell: nat, offsetBits: Float32)
    requires 0.0 <= ops.value(offsetBits) < CELL_WIDTH as real
    ensures var r := CoordFromCell(ops, Success(U32(cell)), Success(F32(offsetBits)));
      && r.Success?
      && ((r.value + MAX_COORD) / CELL_WIDTH as real).Floor == cell
      && r.value + MAX_COORD - (cell * CELL_WIDTH) as real == ops.value(offsetBits)
  {
    var off := ops.value(offsetBits);
    var r := CoordFromCell(ops, Success(U32(cell)), Success(F32(offsetBits)));
    var q := (r.value + MAX_COORD) / CELL_WIDTH as real;
    assert q == cell as real + off / 512.0;
    assert 0.0 <= off / 512.0 < 1.0;
  }

  /** The bit pattern of the `f32` 42.0. */
  const F32_FORTY_TWO: Float32 := 0x4228_0000

  /** Cell 10 with offset 42 is at -11222. */
  lemma CoordExample(ops: FloatOps)
    requires ops.value(F32_FORTY_TWO) == 42.0
    ensures CoordFromCell(ops, Success(U32(10)), Success(F32(F32_FORTY_TWO))) == Success(-11222.0)
  {
  }

  datatype Owner = Pawn | Grenade
  datatype Axis = X | Y | Z

  function AxisName(a: Axis): string {
    match a
    case X => "X"
    case Y => "Y"
    case Z => "Z"
  }

  /** The special-id names of the cell and the offset of one axis: pawn names carry their class. */
  function CellKey(o: Owner, a: Axis): string {
    (if o.Pawn? then "CCSPlayerPawn." else "") + "CBodyComponentBaseAnimGraph.m_cell" + AxisName(a)
  }

  function OffsetKey(o: Owner, a: Axis): string {
    (if o.Pawn? then "CCSPlayerPawn." else "") + "CBodyComponentBaseAnimGraph.m_vec" + AxisName(a)
  }

  function CellIdMissing(o: Owner, a: Axis): PropCollectionError {
    match (o, a)
    case (Pawn, X) => PlayerSpecialIDCellXMissing
    case (Pawn, Y) => PlayerSpecialIDCellYMissing
    case (Pawn, Z) => PlayerSpecialIDCellZMissing
    case (Grenade, X) => GrenadeSpecialIDCellXMissing
    case (Grenade, Y) => GrenadeSpecialIDCellYMissing
    case (Grenade, Z) => GrenadeSpecialIDCellZMissing
  }

  function OffsetIdMissing(o: Owner, a: Axis): PropCollectionError {
    match (o, a)
    case (Pawn, X) => PlayerSpecialIDOffsetXMissing
    case (Pawn, Y) => PlayerSpecialIDOffsetYMissing
    case (Pawn, Z) => PlayerSpecialIDOffsetZMissing
    case (Grenade, X) => GrenadeSpecialIDOffsetXMissing
    case (Grenade, Y) => GrenadeSpecialIDOffsetYMissing
    case (Grenade, Z) => GrenadeSpecialIDOffsetZMissing
  }

  /**
   * `collect_cell_coordinate_player` / `_grenade`: a missing special id
   * is reported before any entity is looked at, the cell's id first.
   */
  function CollectCellCoordinate(c: Collector, o: Owner, a: Axis, id: int): (r: Lookup)
    ensures CellKey(o, a) !in c.pc.specialIds ==> r == Failure(CellIdMissing(o, a))
    ensures CellKey(o, a) in c.pc.specialIds && OffsetKey(o, a) !in c.pc.specialIds ==> r == Failure(OffsetIdMissing(o, a))
    ensures CellKey(o, a) in c.pc.specialIds && OffsetKey(o, a) in c.pc.specialIds ==>
      var coord := CoordFromCell(c.floats,
        GetPropFromEnt(c, c.pc.specialIds[CellKey(o, a)], id), GetPropFromEnt(c, c.pc.specialIds[OffsetKey(o, a)], id));
      && (r.Success? <==> coord.Success?)
      && (r.Success? ==> r.value == F32(c.floats.round(coord.value)))
      && (r.Failure? ==> r.error == coord.error)
  {
    match (SpecialId(c, CellKey(o, a)), SpecialId(c, OffsetKey(o, a)))
    case (None, _) => Failure(CellIdMissing(o, a))
    case (Some(_), None) => Failure(OffsetIdMissing(o, a))
    case (Some(cellId), Some(offsetId)) =>
      var coord :- CoordFromCell(c.floats, GetPropFromEnt(c, cellId, id), GetPropFromEnt(c, offsetId, id));
      Success(F32(c.floats.round(coord)))
  }

  /** The player and grenade special ids of the same axis are different names. */
  lemma CoordinateKeysDistinct(a: Axis, b: Axis)
    ensures CellKey(Pawn, a) != CellKey(Grenade, b) && OffsetKey(Pawn, a) != OffsetKey(Grenade, b)
    ensures CellKey(Pawn, a) != OffsetKey(Pawn, b) && CellKey(Grenade, a) != OffsetKey(Grenade, b)
    ensures a != b ==> CellKey(Pawn, a) != CellKey(Pawn, b) && OffsetKey(Grenade, a) != OffsetKey(Grenade, b)
  {
    assert CellKey(Pawn, a)[0] == 'C' && CellKey(Pawn, a)[1] == 'C';
    assert CellKey(Grenade, b)[1] == 'B';
    assert OffsetKey(Pawn, a)[1] == 'C' && OffsetKey(Grenade, b)[1] == 'B';
    assert CellKey(Pawn, a)[44] == 'c' && OffsetKey(Pawn, b)[44] == 'v';
    assert CellKey(Grenade, a)[30] == 'c' && OffsetKey(Grenade, b)[30] == 'v';
    if a != b {
      assert CellKey(Pawn, a)[48] == AxisName(a)[0] && CellKey(Pawn, b)[48] == AxisName(b)[0];
      assert OffsetKey(Grenade, a)[33] == AxisName(a)[0] && OffsetKey(Grenade, b)[33] == AxisName(b)[0];
    }
  }

  /* ---------------- Metadata and small custom props ---------------- */

  /** `find_pitch_or_yaw`: component 0 (pitch) or 1 (yaw) of the eye angles. */
  function FindPitchOrYaw(c: Collector, id: int, yaw: bool): (r: Lookup)
    ensures EYE_ANGLES_KEY !in c.pc.specialIds ==> r == Failure(SpecialidsEyeAnglesNotSet)
    ensures EYE_ANGLES_KEY in c.pc.specialIds ==>
      var v := GetPropFromEnt(c, c.pc.specialIds[EYE_ANGLES_KEY], id);
      && (v.Failure? ==> r == Failure(v.error))
      && (v.Success? && !v.value.VecXYZ? ==> r == Failure(EyeAnglesWrongVariant))
      && (v.Success? && v.value.VecXYZ? ==> r == Success(F32(if yaw then v.value.xyz.y else v.value.xyz.x)))
  {
    match SpecialId(c, EYE_ANGLES_KEY)
    case None => Failure(SpecialidsEyeAnglesNotSet)
    case Some(p) =>
      match GetPropFromEnt(c, p, id)
      case Success(VecXYZ(v)) => Success(F32(if yaw then v.y else v.x))
      case Success(_) => Failure(EyeAnglesWrongVariant)
      case Failure(e) => Failure(e)
  }

  /** `find_weapon_name`: the name of the held weapon's item definition. */
  function FindWeaponName(c: Collector, id: int): (r: Lookup)
    ensures ITEM_DEF_KEY !in c.pc.specialIds ==> r == Failure(SpecialidsItemDefNotSet)
    ensures r.Success? ==> r.value.String? && r.value.s in c.lookups.weaponNames.Values
    ensures ITEM_DEF_KEY in c.pc.specialIds ==>
      var d := FindWeaponProp(c, c.pc.specialIds[ITEM_DEF_KEY], id);
      && (d.Failure? ==> r == Failure(d.error))
      && (d.Success? && !d.value.U32? ==> r == Failure(WeaponDefVariantWrongType))
      && (d.Success? && d.value.U32? ==>
            r == (if d.value.u32 in c.lookups.weaponNames then Success(String(c.lookups.weaponNames[d.value.u32]))
                  else Failure(WeaponIdxMappingNotFound)))
  {
    match SpecialId(c, ITEM_DEF_KEY)
    case None => Failure(SpecialidsItemDefNotSet)
    case Some(itemDef) =>
      match FindWeaponProp(c, itemDef, id)
      case Success(U32(d)) =>
        if d in c.lookups.weaponNames then Success(String(c.lookups.weaponNames[d])) else Failure(WeaponIdxMappingNotFound)
      case Success(_) => Failure(WeaponDefVariantWrongType)
      case Failure(e) => Failure(e)
  }

  /** `find_is_alive`: a life state of exactly `U32(0)`; anything else, or nothing, is dead. */
  function FindIsAlive(c: Collector, id: int): (r: Lookup)
    ensures r.Success? && r.value.Bool?
    ensures r.value.b <==> (LIFE_STATE_KEY in c.pc.specialIds
      && GetPropFromEnt(c, c.pc.specialIds[LIFE_STATE_KEY], id) == Success(U32(0)))
  {
    match SpecialId(c, LIFE_STATE_KEY)
    case Some(p) => Success(Bool(GetPropFromEnt(c, p, id) == Success(U32(0))))
    case None => Success(Bool(false))
  }

  predicate IsAlive(c: Collector, id: int) {
    FindIsAlive(c, id) == Success(Bool(true))
  }

  /** `IS_AIRBORNE_CONST`: the ground-entity handle of a player touching no ground. */
  const IS_AIRBORNE_HANDLE: nat := 0xFF_FFFF

  /** `find_is_airborne`: the ground entity handle is the "none" handle; unknown counts as grounded. */
  function FindIsAirborne(c: Collector, player: PlayerMetaData): (r: Lookup)
    ensures r.Success? && r.value.Bool?
    ensures r.value.b <==> (player.playerEntityId.Some? && AIRBORNE_KEY in c.pc.specialIds
      && GetPropFromEnt(c, c.pc.specialIds[AIRBORNE_KEY], player.playerEntityId.value) == Success(U32(IS_AIRBORNE_HANDLE)))
  {
    match (player.playerEntityId, SpecialId(c, AIRBORNE_KEY))
    case (Some(e), Some(p)) =>
      (match GetPropFromEnt(c, p, e)
       case Success(U32(h)) => Success(Bool(h == IS_AIRBORNE_HANDLE))
       case _ => Success(Bool(false)))
    case _ => Success(Bool(false))
  }

  /** `create_steamid`: a missing steam id reads as 0. */
  function SteamidOr0(player: PlayerMetaData): nat {
    match player.steamid
    case Some(s) => s
    case None => 0
  }

  /** `create_name`. */
  function CreateName(player: PlayerMetaData): (r: Lookup)
    ensures r.Success? <==> player.name.Some?
    ensures r.Success? ==> r.value == String(player.name.value)
    ensures r.Failure? ==> r.error == PlayerMetaDataNameNone
  {
    match player.name
    case Some(n) => Success(String(n))
    case None => Failure(PlayerMetaDataNameNone)
  }

  /** The first string-table user in `users` with the player's steam id, as an index (|users| when none). */
  function FirstUserWithSteamid(users: seq<StringTables.UserInfo>, steamid: Option<nat>): (i: nat)
    ensures i <= |users|
    ensures i < |users| ==> steamid == Some(users[i].steamid)
    ensures forall j | 0 <= j < i :: steamid != Some(users[j].steamid)
    decreases |users|
  {
    if users == [] then 0
    else if steamid == Some(users[0].steamid) then 0
    else 1 + FirstUserWithSteamid(users[1..], steamid)
  }

  /** `get_userid`: the user id of the first string-table user with the player's steam id. */
  function GetUserid(c: Collector, player: PlayerMetaData): (r: Lookup)
    ensures r.Success? <==> exists i | 0 <= i < |c.stringtablePlayers| :: player.steamid == Some(c.stringtablePlayers[i].steamid)
    ensures r.Success? ==> exists i | 0 <= i < |c.stringtablePlayers| ::
      && player.steamid == Some(c.stringtablePlayers[i].steamid) && r.value == I32(c.stringtablePlayers[i].userid)
      && forall j | 0 <= j < i :: player.steamid != Some(c.stringtablePlayers[j].steamid)
    ensures r.Failure? ==> r.error == UseridNotFound
  {
    var i := FirstUserWithSteamid(c.stringtablePlayers, player.steamid);
    if i < |c.stringtablePlayers| then Success(I32(c.stringtablePlayers[i].userid)) else Failure(UseridNotFound)
  }

  /** `find_agent_skin`: the agent name of the controller's character definition. */
  function FindAgentSkin(c: Collector, player: PlayerMetaData): (r: Lookup)
    ensures AGENT_SKIN_KEY !in c.pc.specialIds ==> r == Failure(AgentSpecialIdNotSet)
    ensures AGENT_SKIN_KEY in c.pc.specialIds ==>
      var v := GetControllerProp(c, c.pc.specialIds[AGENT_SKIN_KEY], player);
      && (v.Failure? ==> r == Failure(AgentPropNotFound))
      && (v.Success? && !v.value.U32? ==> r == Failure(AgentIncorrectVariant))
      && (v.Success? && v.value.U32? ==>
            r == (if v.value.u32 in c.lookups.agentNames then Success(String(c.lookups.agentNames[v.value.u32]))
                  else Failure(AgentIdNotFound)))
  {
    match SpecialId(c, AGENT_SKIN_KEY)
    case None => Failure(AgentSpecialIdNotSet)
    case Some(id) =>
      match GetControllerProp(c, id, player)
      case Success(U32(a)) =>
        if a in c.lookups.agentNames then Success(String(c.lookups.agentNames[a])) else Failure(AgentIdNotFound)
      case Success(_) => Failure(AgentIncorrectVariant)
      case Failure(_) => Failure(AgentPropNotFound)
  }

  /** `i32::to_string`. */
  function IntToString(v: int): (s: string)
    ensures v >= 0 ==> s == NatToString(v)
    ensures v < 0 ==> s == "-" + NatToString(-v)
  {
    if v < 0 then "-" + NatToString(-v) else NatToString(v)
  }

  /**
   * `find_player_color`: the colour name of an `I32` controller value, or
   * the number itself; every other outcome is reported as UseridNotFound.
   */
  function FindPlayerColor(c: Collector, player: PlayerMetaData, info: PropInfo): (r: Lookup)
    ensures r.Success? <==> GetControllerProp(c, info.id, player).Success? && GetControllerProp(c, info.id, player).value.I32?
    ensures r.Success? ==> var v := GetControllerProp(c, info.id, player).value.i32;
      r.value == String(if v in c.lookups.playerColors then c.lookups.playerColors[v] else IntToString(v))
    ensures r.Failure? ==> r.error == UseridNotFound
  {
    match GetControllerProp(c, info.id, player)
    case Success(I32(v)) => Success(String(if v in c.lookups.playerColors then c.lookups.playerColors[v] else IntToString(v)))
    case _ => Failure(UseridNotFound)
  }

  /** `find_skin_float`: the paint wear of the held weapon. */
  function FindSkinFloat(c: Collector, player: PlayerMetaData): (r: Lookup)
    ensures player.playerEntityId.None? ==> r == Failure(PlayerNotFound)
    ensures player.playerEntityId.Some? ==> r == FindWeaponProp(c, WEAPON_FLOAT, player.playerEntityId.value)
  {
    match player.playerEntityId
    case Some(e) => FindWeaponProp(c, WEAPON_FLOAT, e)
    case None => Failure(PlayerNotFound)
  }

  /* ---------------- Original owner ---------------- */

  /** `(high as u64) << 32 | low as u64` of two `u32` halves. */
  function Xuid(high: nat, low: nat): (x: nat)
    ensures x < U64_LIMIT
  {
    WrapU32(high) * U32_LIMIT + WrapU32(low)
  }

  /**
   * `find_weapon_original_owner`: the held weapon's original owner's
   * 64-bit steam id, assembled from its halves and rendered in decimal.
   */
  function FindWeaponOriginalOwner(c: Collector, id: int): (r: Lookup)
    ensures ORIGINAL_OWNER_LOW_KEY !in c.pc.specialIds ==> r == Failure(OriginalOwnerXuidIdLowNotSet)
    ensures ORIGINAL_OWNER_LOW_KEY in c.pc.specialIds && ORIGINAL_OWNER_HIGH_KEY !in c.pc.specialIds
      ==> r == Failure(OriginalOwnerXuidIdHighNotSet)
    ensures ORIGINAL_OWNER_LOW_KEY in c.pc.specialIds && ORIGINAL_OWNER_HIGH_KEY in c.pc.specialIds ==>
      var lo := FindWeaponProp(c, c.pc.specialIds[ORIGINAL_OWNER_LOW_KEY], id);
      var hi := FindWeaponProp(c, c.pc.specialIds[ORIGINAL_OWNER_HIGH_KEY], id);
      && (lo.Failure? ==> r == Failure(OriginalOwnerXuidLowNotFound))
      && (lo.Success? && !lo.value.U32? ==> r == Failure(OriginalOwnerXuidlowIncorrectVariant))
      && (lo.Success? && lo.value.U32? && hi.Failure? ==> r == Failure(OriginalOwnerXuidHighNotFound))
      && (lo.Success? && lo.value.U32? && hi.Success? && !hi.value.U32? ==> r == Failure(OriginalOwnerXuidHighIncorrectVariant))
      && (lo.Success? && lo.value.U32? && hi.Success? && hi.value.U32? ==>
            r == Success(String(NatToString(Xuid(hi.value.u32, lo.value.u32)))))
  {
    match (SpecialId(c, ORIGINAL_OWNER_LOW_KEY), SpecialId(c, ORIGINAL_OWNER_HIGH_KEY))
    case (None, _) => Failure(OriginalOwnerXuidIdLowNotSet)
    case (Some(_), None) => Failure(OriginalOwnerXuidIdHighNotSet)
    case (Some(lowId), Some(highId)) =>
      match FindWeaponProp(c, lowId, id)
      case Failure(_) => Failure(OriginalOwnerXuidLowNotFound)
      case Success(U32(low)) =>
        (match FindWeaponProp(c, highId, id)
         case Failure(_) => Failure(OriginalOwnerXuidHighNotFound)
         case Success(U32(high)) => Success(String(NatToString(Xuid(high, low))))
         case Success(_) => Failure(OriginalOwnerXuidHighIncorrectVariant))
      case Success(_) => Failure(OriginalOwnerXuidlowIncorrectVariant)
  }

  /** The decimal steam id splits back into the two 32-bit halves it was built from. */
  lemma XuidRoundTrip(high: nat, low: nat)
    requires IsU32(high) && IsU32(low)
    ensures var s := NatToString(Xuid(high, low));
      DecimalValue(s) / U32_LIMIT == high && DecimalValue(s) % U32_LIMIT == low
  {
    DecimalRoundTrip(Xuid(high, low));
  }

  /* ---------------- Stickers ---------------- */

  /** `wear < 0.0` on an `f32` pattern: sign set, not -0.0, not NaN. */
  predicate IsNegativeF32(b: Float32) {
    b >= 0x8000_0000 && b % 0x8000_0000 != 0 && b % 0x8000_0000 <= 0x7F80_0000
  }

  /** The property `p` of the weapon holds an `F32`. */
  predicate F32At(c: Collector, weapon: int, p: nat) {
    GetPropFromEnt(c, p, weapon).Success? && GetPropFromEnt(c, p, weapon).value.F32?
  }

  /**
   * `find_sticker`: the four `F32` values of a sticker slot, starting at
   * property `base`; the id is the bit pattern of the first, a negative
   * wear reads as 0.0.
   */
  function FindSticker(c: Collector, weapon: int, base: nat): (r: Option<Sticker>)
    ensures r.Some? <==> F32At(c, weapon, base) && F32At(c, weapon, base + 1) && F32At(c, weapon, base + 2) && F32At(c, weapon, base + 3)
    ensures r.Some? ==> !IsNegativeF32(r.value.wear)
    ensures r.Some? ==> && r.value.id == GetPropFromEnt(c, base, weapon).value.f32
                        && r.value.x == GetPropFromEnt(c, base + 2, weapon).value.f32
                        && r.value.y == GetPropFromEnt(c, base + 3, weapon).value.f32
    ensures r.Some? && !IsNegativeF32(GetPropFromEnt(c, base + 1, weapon).value.f32) ==>
      r.value.wear == GetPropFromEnt(c, base + 1, weapon).value.f32
  {
    match (GetPropFromEnt(c, base, weapon), GetPropFromEnt(c, base + 1, weapon),
           GetPropFromEnt(c, base + 2, weapon), GetPropFromEnt(c, base + 3, weapon))
    case (Success(F32(id)), Success(F32(wear)), Success(F32(x)), Success(F32(y))) =>
      var name := if id in c.lookups.stickerNames then c.lookups.stickerNames[id] else "unknown";
      Some(Sticker(name, if IsNegativeF32(wear) then 0 else wear, id, x, y))
    case _ => None
  }

  /** The slots `(4..25).step_by(4)`: six of them, at 4, 8, .., 24 past the skin id. */
  const STICKER_SLOTS: seq<nat> := [4, 8, 12, 16, 20, 24]

  /** The stickers found in the slots `slots`, in slot order. */
  function StickersIn(c: Collector, weapon: int, slots: seq<nat>): (s: seq<Sticker>)
    ensures |s| <= |slots|
    ensures forall i | 0 <= i < |s| :: !IsNegativeF32(s[i].wear)
    decreases |slots|
  {
    if slots == [] then []
    else
      var rest := StickersIn(c, weapon, slots[1..]);
      match FindSticker(c, weapon, WEAPON_SKIN_ID + slots[0])
      case Some(st) => [st] + rest
      case None => rest
  }

  /** Every slot that holds four floats yields a sticker. */
  lemma {:induction false} FullSlotsGiveAllStickers(c: Collector, weapon: int, slots: seq<nat>)
    requires forall i | 0 <= i < |slots| :: FindSticker(c, weapon, WEAPON_SKIN_ID + slots[i]).Some?
    ensures |StickersIn(c, weapon, slots)| == |slots|
    decreases |slots|
  {
    if slots != [] {
      var rest := slots[1..];
      assert forall i | 0 <= i < |rest| :: FindSticker(c, weapon, WEAPON_SKIN_ID + rest[i]).Some? by {
        forall i | 0 <= i < |rest| ensures FindSticker(c, weapon, WEAPON_SKIN_ID + rest[i]).Some? {
          assert rest[i] == slots[i + 1];
        }
      }
      FullSlotsGiveAllStickers(c, weapon, rest);
      assert FindSticker(c, weapon, WEAPON_SKIN_ID + slots[0]).Some?;
    }
  }

  /** `find_stickers_from_active_weapon`: the stickers of the held weapon; never more than six. */
  function FindStickersFromActiveWeapon(c: Collector, player: PlayerMetaData): (r: Lookup)
    ensures ACTIVE_WEAPON_KEY !in c.pc.specialIds ==> r == Failure(SpecialidsActiveWeaponNotSet)
    ensures ACTIVE_WEAPON_KEY in c.pc.specialIds && player.playerEntityId.None? ==> r == Failure(PlayerNotFound)
    ensures r.Success? ==> r.value.Stickers? && |r.value.stickers| <= 6
    ensures ACTIVE_WEAPON_KEY in c.pc.specialIds && player.playerEntityId.Some? ==>
      var h := GetPropFromEnt(c, c.pc.specialIds[ACTIVE_WEAPON_KEY], player.playerEntityId.value);
      && (h.Failure? ==> r == Failure(h.error))
      && (h.Success? && !h.value.U32? ==> r == Failure(WeaponHandleIncorrectVariant))
      && (h.Success? && h.value.U32? ==> r == Success(Stickers(StickersIn(c, HandleEntity(h.value.u32), STICKER_SLOTS))))
  {
    match SpecialId(c, ACTIVE_WEAPON_KEY)
    case None => Failure(SpecialidsActiveWeaponNotSet)
    case Some(p) =>
      match player.playerEntityId
      case None => Failure(PlayerNotFound)
      case Some(e) =>
        match GetPropFromEnt(c, p, e)
        case Success(U32(handle)) => Success(Stickers(StickersIn(c, HandleEntity(handle), STICKER_SLOTS)))
        case Success(_) => Failure(WeaponHandleIncorrectVariant)
        case Failure(err) => Failure(err)
  }

  /* ---------------- Spotted ---------------- */

  /** `find_user_by_controller_id`: the first player, in iteration order, with that controller. */
  function ControllerUser(c: Collector, order: seq<int>, controllerId: int): (r: Option<PlayerMetaData>)
    ensures r.Some? ==> && r.value.controllerEntid == Some(controllerId)
                        && exists i | 0 <= i < |order| :: order[i] in c.t.players && c.t.players[order[i]] == r.value
    ensures r.None? ==> forall i | 0 <= i < |order| && order[i] in c.t.players ::
      c.t.players[order[i]].controllerEntid != Some(controllerId)
    decreases |order|
  {
    if order == [] then None
    else if order[0] in c.t.players && c.t.players[order[0]].controllerEntid == Some(controllerId) then Some(c.t.players[order[0]])
    else
      var r := ControllerUser(c, order[1..], controllerId);
      assert forall i | 1 <= i < |order| :: order[i] == order[1..][i - 1];
      r
  }

  /** The player `ControllerUser` returns sits at a position no earlier match precedes. */
  lemma {:induction false} ControllerUserFirst(c: Collector, order: seq<int>, controllerId: int)
    ensures var r := ControllerUser(c, order, controllerId);
      r.Some? ==> exists i | 0 <= i < |order| ::
        && order[i] in c.t.players && c.t.players[order[i]] == r.value
        && forall j | 0 <= j < i && order[j] in c.t.players :: c.t.players[order[j]].controllerEntid != Some(controllerId)
    decreases |order|
  {
    if order != [] && !(order[0] in c.t.players && c.t.players[order[0]].controllerEntid == Some(controllerId)) {
      ControllerUserFirst(c, order[1..], controllerId);
      var r := ControllerUser(c, order[1..], controllerId);
      if r.Some? {
        var i :| 0 <= i < |order[1..]| && order[1..][i] in c.t.players && c.t.players[order[1..][i]] == r.value
          && forall j | 0 <= j < i && order[1..][j] in c.t.players :: c.t.players[order[1..][j]].controllerEntid != Some(controllerId);
        assert order[i + 1] == order[1..][i];
        assert forall j | 1 <= j < i + 1 :: order[j] == order[1..][j - 1];
      }
    }
  }

  /**
   * Walked in ascending entity-id order, `find_user_by_controller_id`
   * finds the player with the lowest entity id among those with that
   * controller, and nothing when no player has it.
   */
  lemma ControllerUserIsLowest(c: Collector, controllerId: int)
    ensures var r := ControllerUser(c, PlayerOrder(c), controllerId);
      && (r.Some? ==> exists k | k in c.t.players ::
            && c.t.players[k] == r.value && r.value.controllerEntid == Some(controllerId)
            && forall k' | k' in c.t.players && k' < k :: c.t.players[k'].controllerEntid != Some(controllerId))
      && (r.None? ==> forall k | k in c.t.players :: c.t.players[k].controllerEntid != Some(controllerId))
  {
    var order := PlayerOrder(c);
    var r := ControllerUser(c, order, controllerId);
    if r.Some? {
      ControllerUserFirst(c, order, controllerId);
      var i :| 0 <= i < |order| && order[i] in c.t.players && c.t.players[order[i]] == r.value
        && forall j | 0 <= j < i && order[j] in c.t.players :: c.t.players[order[j]].controllerEntid != Some(controllerId);
      forall k' | k' in c.t.players && k' < order[i] ensures c.t.players[k'].controllerEntid != Some(controllerId) {
        SmallerIdComesEarlier(c.t.players.Keys, i, k');
      }
    } else {
      forall k | k in c.t.players ensures c.t.players[k].controllerEntid != Some(controllerId) {
        assert k in order;
      }
    }
  }

  /** `uid & (1 << i) != 0` on a `u32`. */
  predicate MaskBit(mask: nat, i: nat)
    requires i < 32
  {
    (mask % U32_LIMIT) as bv32 & ((1 as bv32) << i) != 0
  }

  /** `steamids_from_mask` over bits 0..n-1: the steam id (0 when unknown) of the player behind controller i+1 for each set bit i. */
  function SpottedSteamids(c: Collector, mask: nat, n: nat): (r: seq<nat>)
    requires n <= 16
    ensures |r| <= n
    ensures forall j | 0 <= j < |r| :: exists i | 0 <= i < n ::
      MaskBit(mask, i) && ControllerUser(c, PlayerOrder(c), i + 1).Some?
      && r[j] == SteamidOr0(ControllerUser(c, PlayerOrder(c), i + 1).value)
    ensures forall i | 0 <= i < n && MaskBit(mask, i) && ControllerUser(c, PlayerOrder(c), i + 1).Some? ::
      SteamidOr0(ControllerUser(c, PlayerOrder(c), i + 1).value) in r
  {
    if n == 0 then []
    else
      var rest := SpottedSteamids(c, mask, n - 1);
      var u := ControllerUser(c, PlayerOrder(c), n);
      if MaskBit(mask, n - 1) && u.Some? then rest + [SteamidOr0(u.value)] else rest
  }

  /** A mask of no bits spots nobody. */
  lemma {:induction false} EmptyMaskSpotsNobody(c: Collector, n: nat)
    requires n <= 16
    ensures SpottedSteamids(c, 0, n) == []
  {
    if n > 0 {
      EmptyMaskSpotsNobody(c, n - 1);
      assert !MaskBit(0, n - 1);
    }
  }

  /** `find_spotted`: the players whose bit is set in the spotted-by mask. */
  function FindSpotted(c: Collector, id: int, info: PropInfo): (r: Lookup)
    ensures var v := GetPropFromEnt(c, info.id, id);
      && (v.Failure? ==> r == Failure(v.error))
      && (v.Success? && !v.value.U32? ==> r == Failure(SpottedIncorrectVariant))
      && (v.Success? && v.value.U32? ==> r == Success(U64Vec(SpottedSteamids(c, v.value.u32, 16))))
  {
    match GetPropFromEnt(c, info.id, id)
    case Success(U32(mask)) => Success(U64Vec(SpottedSteamids(c, mask, 16)))
    case Success(_) => Failure(SpottedIncorrectVariant)
    case Failure(e) => Failure(e)
  }

  /* ---------------- Inventory ---------------- */

  /** The entity of the C4, through its owner handle. */
  function FindC4Owner(c: Collector): (r: Option<int>)
    ensures r.Some? ==> 0 <= r.value < 0x800
  {
    match (c.t.c4EntityId, SpecialId(c, OWNER_ENTITY_KEY))
    case (Some(c4), Some(p)) =>
      (match GetPropFromEnt(c, p, c4)
       case Success(U32(u)) => Some(HandleEntity(u))
       case _ => None)
    case _ => None
  }

  /** The inventory slot property `MY_WEAPONS_OFFSET + i` (`u32` addition). */
  function SlotProp(i: nat): nat {
    WrapU32(MY_WEAPONS_OFFSET + i)
  }

  /** The weapon entity in inventory slot `i` (handle & 0x3FFF), when the slot holds a `U32`. */
  function SlotEntity(c: Collector, player: int, i: nat): (r: Option<int>)
    ensures r.Some? ==> 0 <= r.value < 0x4000
  {
    match GetPropFromEnt(c, SlotProp(i), player)
    case Success(U32(x)) => Some(x % 0x4000)
    case _ => None
  }

  /** The weapon entities of slots 1..n, in slot order, repeats included. */
  function SlotEntities(c: Collector, player: int, n: nat): (s: seq<int>)
    ensures |s| <= n
  {
    if n == 0 then []
    else SlotEntities(c, player, n - 1) + (match SlotEntity(c, player, n) case Some(e) => [e] case None => [])
  }

  /** `s` with every repeat of an earlier element dropped. */
  function Dedup(s: seq<int>): (d: seq<int>)
    ensures |d| <= |s|
  {
    if s == [] then []
    else
      var d := Dedup(s[..|s| - 1]);
      if s[|s| - 1] in d then d else d + [s[|s| - 1]]
  }

  /** `Dedup` keeps every element of its input and adds none. */
  lemma {:induction false} DedupSameElements(s: seq<int>, x: int)
    ensures x in Dedup(s) <==> x in s
  {
    if s != [] {
      DedupSameElements(s[..|s| - 1], x);
      assert s == s[..|s| - 1] + [s[|s| - 1]];
    }
  }

  /** Each element of `Dedup` occurs once. */
  lemma {:induction false} DedupDistinct(s: seq<int>)
    ensures forall i, j | 0 <= i < j < |Dedup(s)| :: Dedup(s)[i] != Dedup(s)[j]
  {
    if s != [] {
      DedupDistinct(s[..|s| - 1]);
    }
  }

  /**
   * The item definitions one weapon entity adds to the inventory: none
   * without a known definition; a flashbang twice when the player's
   * grenade ammo is 2; the C4 only for the player who owns it.
   */
  function Equipment(c: Collector, player: int, weapon: int): (defs: seq<nat>)
    ensures |defs| <= 2
    ensures forall i | 0 <= i < |defs| :: defs[i] in c.lookups.weaponNames
    ensures |defs| == 2 ==> defs[0] == defs[1] && c.lookups.weaponNames[defs[0]] == "flashbang"
  {
    match SpecialId(c, ITEM_DEF_KEY)
    case None => []
    case Some(itemDef) =>
      match GetPropFromEnt(c, itemDef, weapon)
      case Success(U32(d)) =>
        if d !in c.lookups.weaponNames then []
        else if c.lookups.weaponNames[d] == "flashbang" then
          (if GetPropFromEnt(c, GRENADE_AMMO_ID, player) == Success(U32(2)) then [d, d] else [d])
        else if c.lookups.weaponNames[d] == "c4" then
          (if FindC4Owner(c) == Some(player) then [d] else [])
        else [d]
      case _ => []
  }

  /** The definitions the weapon entities `weapons` add, in order. */
  function EquipmentOf(c: Collector, player: int, weapons: seq<int>): (defs: seq<nat>)
    ensures forall i | 0 <= i < |defs| :: defs[i] in c.lookups.weaponNames
  {
    if weapons == [] then []
    else EquipmentOf(c, player, weapons[..|weapons| - 1]) + Equipment(c, player, weapons[|weapons| - 1])
  }

  /** One slot of the scan: a new weapon entity extends the seen list and the definitions, a repeat or an empty slot changes neither. */
  lemma ScanStep(c: Collector, player: int, i: nat, seen: seq<int>)
    requires i >= 1 && seen == Dedup(SlotEntities(c, player, i - 1))
    ensures var slot := SlotEntity(c, player, i);
      && (slot.Some? && slot.value !in seen ==>
            && Dedup(SlotEntities(c, player, i)) == seen + [slot.value]
            && EquipmentOf(c, player, seen + [slot.value]) == EquipmentOf(c, player, seen) + Equipment(c, player, slot.value))
      && (!(slot.Some? && slot.value !in seen) ==> Dedup(SlotEntities(c, player, i)) == seen)
  {
    var slot := SlotEntity(c, player, i);
    var all := SlotEntities(c, player, i - 1);
    if slot.Some? {
      assert SlotEntities(c, player, i) == all + [slot.value];
      assert (all + [slot.value])[..|all|] == all;
      if slot.value !in seen {
        assert (seen + [slot.value])[..|seen|] == seen;
      }
    } else {
      assert SlotEntities(c, player, i) == all;
    }
  }

  /** `1..inventory_max_len + 1` in `u32`: the slot count, none when the bound wraps to 0. */
  function SlotCount(maxLen: nat): (n: nat)
    ensures IsU32(maxLen) && maxLen < U32_MAX ==> n == maxLen
    ensures maxLen == U32_MAX ==> n == 0
  {
    var upper := WrapU32(maxLen + 1);
    if upper == 0 then 0 else upper - 1
  }

  /**
   * The item definitions of a player's inventory, shared by the three
   * inventory props: for a living player, each distinct weapon entity of
   * slots 1..max contributes its `Equipment`.
   */
  function InventoryDefs(c: Collector, player: int): (r: Result<seq<nat>, PropCollectionError>)
    ensures !IsAlive(c, player) ==> r == Success([])
    ensures IsAlive(c, player) && !(GetPropFromEnt(c, MY_WEAPONS_OFFSET, player).Success? && GetPropFromEnt(c, MY_WEAPONS_OFFSET, player).value.U32?)
      ==> r == Failure(InventoryMaxNotFound)
    ensures r.Failure? ==> r.error == InventoryMaxNotFound
    ensures r.Success? ==> forall i | 0 <= i < |r.value| :: r.value[i] in c.lookups.weaponNames
  {
    if !IsAlive(c, player) then Success([])
    else match GetPropFromEnt(c, MY_WEAPONS_OFFSET, player)
      case Success(U32(maxLen)) => Success(EquipmentOf(c, player, Dedup(SlotEntities(c, player, SlotCount(maxLen)))))
      case _ => Failure(InventoryMaxNotFound)
  }

  /**
   * The loop of `find_my_inventory*`: walk the slots once, remembering
   * the weapon entities already seen, and collect what each new one adds.
   */
  method ScanInventory(c: Collector, player: int) returns (r: Result<seq<nat>, PropCollectionError>)
    ensures r == InventoryDefs(c, player)
  {
    if !IsAlive(c, player) {
      return Success([]);
    }
    var maxLen := GetPropFromEnt(c, MY_WEAPONS_OFFSET, player);
    if !(maxLen.Success? && maxLen.value.U32?) {
      return Failure(InventoryMaxNotFound);
    }
    var n := SlotCount(maxLen.value.u32);
    var defs: seq<nat> := [];
    var seen: seq<int> := [];
    for i := 1 to n + 1
      invariant seen == Dedup(SlotEntities(c, player, i - 1))
      invariant defs == EquipmentOf(c, player, seen)
    {
      var slot := SlotEntity(c, player, i);
      ScanStep(c, player, i, seen);
      if slot.Some? && slot.value !in seen {
        seen := seen + [slot.value];
        defs := defs + Equipment(c, player, slot.value);
      }
    }
    return Success(defs);
  }

  /** Bit j of `m`. */
  predicate BitOf(m: nat, j: nat) {
    if j == 0 then m % 2 == 1 else BitOf(m / 2, j - 1)
  }

  /** `m | 1 << k`. */
  function SetBit(m: nat, k: nat): nat {
    if k == 0 then (if m % 2 == 1 then m else m + 1) else 2 * SetBit(m / 2, k - 1) + m % 2
  }

  /** No bit of 0 is set. */
  lemma {:induction false} ZeroHasNoBits(j: nat)
    ensures !BitOf(0, j)
  {
    if j > 0 {
      ZeroHasNoBits(j - 1);
    }
  }

  /** Setting bit k sets that bit and changes no other. */
  lemma {:induction false} SetBitBits(m: nat, k: nat, j: nat)
    ensures BitOf(SetBit(m, k), j) <==> BitOf(m, j) || j == k
  {
    if k == 0 {
      if j > 0 {
        assert SetBit(m, k) / 2 == m / 2;
      }
    } else {
      assert SetBit(m, k) / 2 == SetBit(m / 2, k - 1) && SetBit(m, k) % 2 == m % 2;
      if j > 0 {
        SetBitBits(m / 2, k - 1, j - 1);
      }
    }
  }

  /** Setting a bit below n keeps a value below 2^n. */
  lemma {:induction false} SetBitBound(m: nat, k: nat, n: nat)
    requires m < Pow2(n) && k < n
    ensures SetBit(m, k) < Pow2(n)
  {
    assert Pow2(n) == 2 * Pow2(n - 1);
    if k == 0 {
      assert Pow2(n) % 2 == 0;
    } else {
      assert m / 2 < Pow2(n - 1);
      SetBitBound(m / 2, k - 1, n - 1);
    }
  }

  /**
   * The inventory as a `u64` bitmask: `mask |= 1 << d` for every
   * definition, the shift taken modulo 64 as a release build does.
   */
  function DefMask(defs: seq<nat>): (m: nat)
    ensures m < U64_LIMIT
  {
    if defs == [] then 0
    else
      var init := DefMask(defs[..|defs| - 1]);
      Pow2Table();
      SetBitBound(init, defs[|defs| - 1] % 64, 64);
      SetBit(init, defs[|defs| - 1] % 64)
  }

  /** Some definition of `defs` lands on bit j. */
  predicate SomeDefOnBit(defs: seq<nat>, j: nat) {
    exists i | 0 <= i < |defs| :: defs[i] % 64 == j
  }

  lemma SomeDefOnBitSnoc(init: seq<nat>, d: nat, j: nat)
    ensures SomeDefOnBit(init + [d], j) <==> SomeDefOnBit(init, j) || d % 64 == j
  {
    var defs := init + [d];
    if SomeDefOnBit(defs, j) {
      var i :| 0 <= i < |defs| && defs[i] % 64 == j;
      if i < |init| {
        assert init[i] % 64 == j;
      }
    }
    if SomeDefOnBit(init, j) {
      var i :| 0 <= i < |init| && init[i] % 64 == j;
      assert defs[i] % 64 == j;
    }
    if d % 64 == j {
      assert defs[|init|] % 64 == j;
    }
  }

  /** Bit j of the mask is set exactly when some definition is j modulo 64. */
  lemma {:induction false} DefMaskBits(defs: seq<nat>, j: nat)
    ensures BitOf(DefMask(defs), j) <==> SomeDefOnBit(defs, j)
  {
    if defs == [] {
      ZeroHasNoBits(j);
    } else {
      var init := defs[..|defs| - 1];
      var d := defs[|defs| - 1];
      assert defs == init + [d];
      assert DefMask(defs) == SetBit(DefMask(init), d % 64);
      DefMaskBits(init, j);
      SetBitBits(DefMask(init), d % 64, j);
      SomeDefOnBitSnoc(init, d, j);
    }
  }

  /** `find_my_inventory`: the weapon names of the inventory. */
  function FindMyInventory(c: Collector, player: int): (r: Lookup)
    ensures !IsAlive(c, player) ==> r == Success(StringVec([]))
    ensures r.Success? ==> r.value.StringVec? && forall i | 0 <= i < |r.value.strings| :: r.value.strings[i] in c.lookups.weaponNames.Values
    ensures r.Success? <==> InventoryDefs(c, player).Success?
    ensures r.Success? ==> |r.value.strings| == |InventoryDefs(c, player).value|
    ensures r.Success? ==> forall i | 0 <= i < |r.value.strings| ::
      r.value.strings[i] == c.lookups.weaponNames[InventoryDefs(c, player).value[i]]
  {
    var defs :- InventoryDefs(c, player);
    Success(StringVec(seq(|defs|, i requires 0 <= i < |defs| => c.lookups.weaponNames[defs[i]])))
  }

  /** `find_my_inventory_as_ids`: the item definition indices of the inventory. */
  function FindMyInventoryAsIds(c: Collector, player: int): (r: Lookup)
    ensures !IsAlive(c, player) ==> r == Success(U32Vec([]))
    ensures r.Success? <==> InventoryDefs(c, player).Success?
    ensures r.Success? ==> r == Success(U32Vec(InventoryDefs(c, player).value))
  {
    var defs :- InventoryDefs(c, player);
    Success(U32Vec(defs))
  }

  /** `find_my_inventory_as_bitmask`: the inventory's definitions as bits of a `u64`. */
  function FindMyInventoryAsBitmask(c: Collector, player: int): (r: Lookup)
    ensures !IsAlive(c, player) ==> r == Success(U64(0))
    ensures r.Success? <==> InventoryDefs(c, player).Success?
    ensures r.Success? ==> r == Success(U64(DefMask(InventoryDefs(c, player).value)))
  {
    var defs :- InventoryDefs(c, player);
    Success(U64(DefMask(defs)))
  }

  /* ---------------- Custom props and dispatch ---------------- */

  /** The synthesised properties `create_custom_prop` knows. */
  datatype CustomProp =
    | CoordX | CoordY | CoordZ | Velocity | VelocityX | VelocityY | VelocityZ | Pitch | Yaw
    | WeaponName | WeaponSkin | WeaponSkinId | WeaponPaintSeed | WeaponFloat | WeaponStickers
    | ActiveWeaponOriginalOwner | Inventory | InventoryAsIds | InventoryAsBitmask | SpottedByMask
    | EntityId | Alive | UserId | Airborne | AgentSkin | TeammateColor | UsercmdInputHistory
    | GlovePaintId | GlovePaintSeed | GlovePaintFloat
  {
    /** Computed by float arithmetic, which is not modelled. */
    predicate NeedsFloats() {
      this in {Velocity, VelocityX, VelocityY, VelocityZ, WeaponSkin, WeaponSkinId, WeaponPaintSeed, GlovePaintId}
    }
  }

  /** The property name each custom property is requested by. */
  const CUSTOM_PROPS: map<string, CustomProp> := map[
    "X" := CoordX, "Y" := CoordY, "Z" := CoordZ,
    "velocity" := Velocity, "velocity_X" := VelocityX, "velocity_Y" := VelocityY, "velocity_Z" := VelocityZ,
    "pitch" := Pitch, "yaw" := Yaw, "weapon_name" := WeaponName, "weapon_skin" := WeaponSkin,
    "weapon_skin_id" := WeaponSkinId, "weapon_paint_seed" := WeaponPaintSeed, "weapon_float" := WeaponFloat,
    "weapon_stickers" := WeaponStickers, "active_weapon_original_owner" := ActiveWeaponOriginalOwner,
    "inventory" := Inventory, "inventory_as_ids" := InventoryAsIds, "inventory_as_bitmask" := InventoryAsBitmask,
    "CCSPlayerPawn.m_bSpottedByMask" := SpottedByMask, "entity_id" := EntityId, "is_alive" := Alive,
    "user_id" := UserId, "is_airborne" := Airborne, "agent_skin" := AgentSkin,
    "CCSPlayerController.m_iCompTeammateColor" := TeammateColor, "usercmd_input_history" := UsercmdInputHistory,
    "glove_paint_id" := GlovePaintId, "glove_paint_seed" := GlovePaintSeed, "glove_paint_float" := GlovePaintFloat]

  /** `create_custom_prop`: the computation behind each synthesised property. */
  function CreateCustomProp(c: Collector, prop: CustomProp, name: string, id: int, info: PropInfo, player: PlayerMetaData): (r: Lookup)
    ensures prop.NeedsFloats() ==> r == c.floats.floatProp(name, id, player)
    ensures prop == EntityId ==> r == Success(I32(id))
    ensures prop in {Alive, Airborne} ==> r.Success? && r.value.Bool?
  {
    match prop
    case CoordX => CollectCellCoordinate(c, Pawn, X, id)
    case CoordY => CollectCellCoordinate(c, Pawn, Y, id)
    case CoordZ => CollectCellCoordinate(c, Pawn, Z, id)
    case Pitch => FindPitchOrYaw(c, id, false)
    case Yaw => FindPitchOrYaw(c, id, true)
    case WeaponName => FindWeaponName(c, id)
    case WeaponFloat => FindSkinFloat(c, player)
    case WeaponStickers => FindStickersFromActiveWeapon(c, player)
    case ActiveWeaponOriginalOwner => FindWeaponOriginalOwner(c, id)
    case Inventory => FindMyInventory(c, id)
    case InventoryAsIds => FindMyInventoryAsIds(c, id)
    case InventoryAsBitmask => FindMyInventoryAsBitmask(c, id)
    case SpottedByMask => FindSpotted(c, id, info)
    case EntityId => Success(I32(id))
    case Alive => FindIsAlive(c, id)
    case UserId => GetUserid(c, player)
    case Airborne => FindIsAirborne(c, player)
    case AgentSkin => FindAgentSkin(c, player)
    case TeammateColor => FindPlayerColor(c, player, info)
    case UsercmdInputHistory => GetPropFromEnt(c, USERCMD_INPUT_HISTORY_BASEID, id)
    case GlovePaintSeed => GetPropFromEnt(c, GLOVE_PAINT_SEED, id)
    case GlovePaintFloat => GetPropFromEnt(c, GLOVE_PAINT_FLOAT, id)
    case _ => c.floats.floatProp(name, id, player)
  }

  /** `find_prop`: the value of one wanted property for one player, by the property's kind. */
  function FindProp(c: Collector, info: PropInfo, id: int, player: PlayerMetaData): (r: Lookup)
    ensures info.propType in {Tick, Steamid, GameTime} ==> r.Success?
    ensures info.propType == Name ==> (r.Success? <==> player.name.Some?)
    ensures info.propType == Custom && info.propName !in CUSTOM_PROPS ==> r == Failure(UnknownCustomPropName)
  {
    match info.propType
    case Tick => Success(I32(c.tick))
    case Name => CreateName(player)
    case Steamid => Success(U64(SteamidOr0(player)))
    case Player => GetPropFromEnt(c, info.id, id)
    case Team => FindTeamProp(c, info.id, id)
    case Custom =>
      if info.propName in CUSTOM_PROPS then CreateCustomProp(c, CUSTOM_PROPS[info.propName], info.propName, id, info, player)
      else Failure(UnknownCustomPropName)
    case Weapon => FindWeaponProp(c, info.id, id)
    case Button => GetButtonProp(c, info, id)
    case Controller => GetControllerProp(c, info.id, player)
    case Rules => GetRulesProp(c, info.id)
    case GameTime => Success(F32(c.floats.round(c.netTick as real / 64.0)))
  }

  /** A player property is the value the entity tracker stores for the player's pawn. */
  lemma PlayerPropIsStored(c: Collector, info: PropInfo, id: int, player: PlayerMetaData)
    requires info.propType == Player && IsI32(id)
    ensures FindProp(c, info, id, player).Success? <==> PropOfEntity(c.t, id, info.id).Some?
    ensures FindProp(c, info, id, player).Success? ==> FindProp(c, info, id, player).value == PropOfEntity(c.t, id, info.id).value
  {
    GetPropAgreesWithTracker(c, info.id, id);
  }

  /** A controller property is the value stored for the player's controller entity. */
  lemma ControllerPropIsStored(c: Collector, info: PropInfo, id: int, player: PlayerMetaData)
    requires info.propType == Controller && player.controllerEntid.Some? && IsI32(player.controllerEntid.value)
    ensures FindProp(c, info, id, player).Success? <==> PropOfEntity(c.t, player.controllerEntid.value, info.id).Some?
  {
    GetPropAgreesWithTracker(c, info.id, player.controllerEntid.value);
  }

  /* ---------------- One tick ---------------- */

  /** Where a pushed value goes: the shared output, or the frame of one steam id. */
  datatype Target = Output | PlayerFrame(steamid: nat)

  /** One push into a column. */
  datatype Row = Row(target: Target, propId: nat, value: Option<Variant>)

  function ToOption(r: Lookup): (o: Option<Variant>)
    ensures o.Some? <==> r.Success?
    ensures o.Some? ==> o.value == r.value
  {
    match r
    case Success(v) => Some(v)
    case Failure(_) => None
  }

  /** The early return of `collect_entities`: nothing is collected on this tick. */
  predicate SkipsTick(c: Collector) {
    !c.pc.eventWithVelocity && ((c.tick !in c.wantedTicks && |c.wantedTicks| != 0) || |c.wantedEvents| != 0)
  }

  /** Every wanted prop state holds for the player. */
  predicate StatesHold(c: Collector, id: int, player: PlayerMetaData) {
    forall i | 0 <= i < |c.pc.wantedPropStateInfos| ::
      FindProp(c, c.pc.wantedPropStateInfos[i].base, id, player) == Success(c.pc.wantedPropStateInfos[i].wantedPropState)
  }

  /** The player passes the wanted-players filter. */
  predicate Qualifies(c: Collector, player: PlayerMetaData) {
    c.wantedPlayers == {} || SteamidOr0(player) in c.wantedPlayers
  }

  function PlayerTarget(c: Collector, player: PlayerMetaData): Target {
    if c.orderBySteamid then PlayerFrame(SteamidOr0(player)) else Output
  }

  /** The pushes for the properties `infos` of one qualifying player, one per property, in order. */
  function PropRows(c: Collector, id: int, player: PlayerMetaData, infos: seq<PropInfo>): (rows: seq<Row>)
    ensures |rows| == |infos|
    ensures forall j | 0 <= j < |infos| :: rows[j].propId == infos[j].id && rows[j].target == PlayerTarget(c, player)
  {
    if infos == [] then []
    else
      var rest := PropRows(c, id, player, infos[1..]);
      assert forall j | 1 <= j < |infos| :: infos[j] == infos[1..][j - 1];
      [Row(PlayerTarget(c, player), infos[0].id, ToOption(FindProp(c, infos[0], id, player)))] + rest
  }

  /** The j-th push of a player carries the j-th property's value, or None when looking it up failed. */
  lemma {:induction false} PropRowsValues(c: Collector, id: int, player: PlayerMetaData, infos: seq<PropInfo>, j: nat)
    requires j < |infos|
    ensures PropRows(c, id, player, infos)[j].value == ToOption(FindProp(c, infos[j], id, player))
    decreases j
  {
    var rest := PropRows(c, id, player, infos[1..]);
    assert PropRows(c, id, player, infos) == [Row(PlayerTarget(c, player), infos[0].id, ToOption(FindProp(c, infos[0], id, player)))] + rest;
    if j > 0 {
      PropRowsValues(c, id, player, infos[1..], j - 1);
      assert infos[1..][j - 1] == infos[j];
    }
  }

  /** The pushes for one player: all wanted properties, or none when the player is filtered out. */
  function PlayerRows(c: Collector, id: int, player: PlayerMetaData): (rows: seq<Row>)
    ensures Qualifies(c, player) ==> rows == PropRows(c, id, player, c.pc.propInfos)
    ensures !Qualifies(c, player) ==> rows == []
  {
    if Qualifies(c, player) then PropRows(c, id, player, c.pc.propInfos) else []
  }

  /**
   * The player loop of `collect_entities` over `order`: a player whose
   * wanted prop states do not all hold ends the whole tick, keeping the
   * pushes of the players before it.
   */
  function PlayersRows(c: Collector, order: seq<int>): (rows: seq<Row>)
    decreases |order|
  {
    if order == [] then []
    else if order[0] !in c.t.players then PlayersRows(c, order[1..])
    else
      var player := c.t.players[order[0]];
      if !StatesHold(c, order[0], player) then []
      else PlayerRows(c, order[0], player) + PlayersRows(c, order[1..])
  }

  /** The players of `order` that pass the wanted-players filter. */
  function QualifyingCount(c: Collector, order: seq<int>): nat
    decreases |order|
  {
    if order == [] then 0
    else (if order[0] in c.t.players && Qualifies(c, c.t.players[order[0]]) then 1 else 0) + QualifyingCount(c, order[1..])
  }

  /** One player of the loop whose states hold: its own pushes, then the rest. */
  lemma PlayersRowsStep(c: Collector, order: seq<int>)
    requires order != [] && order[0] in c.t.players && StatesHold(c, order[0], c.t.players[order[0]])
    ensures |PlayersRows(c, order)| == |PlayerRows(c, order[0], c.t.players[order[0]])| + |PlayersRows(c, order[1..])|
  {
  }

  lemma OneMoreTimes(q: nat, n: nat)
    ensures (1 + q) * n == n + q * n
  {
  }

  /** The wanted prop states hold for every tracked player of `order`. */
  predicate AllStatesHold(c: Collector, order: seq<int>)
    decreases |order|
  {
    order == [] || ((order[0] in c.t.players ==> StatesHold(c, order[0], c.t.players[order[0]])) && AllStatesHold(c, order[1..]))
  }

  /** When every player's states hold, each qualifying player adds exactly one push per wanted property. */
  lemma {:induction false} RowsPerQualifyingPlayer(c: Collector, order: seq<int>)
    requires AllStatesHold(c, order)
    ensures |PlayersRows(c, order)| == QualifyingCount(c, order) * |c.pc.propInfos|
    decreases |order|
  {
    if order != [] {
      var n := |c.pc.propInfos|;
      var rest := order[1..];
      RowsPerQualifyingPlayer(c, rest);
      var q := QualifyingCount(c, rest);
      if order[0] in c.t.players {
        PlayersRowsStep(c, order);
        if Qualifies(c, c.t.players[order[0]]) {
          OneMoreTimes(q, n);
        }
      }
    }
  }

  /** A player whose states fail ends the tick: nobody after it adds anything. */
  lemma {:induction false} FailedStateEndsTick(c: Collector, order: seq<int>, k: nat)
    requires k < |order| && order[k] in c.t.players && !StatesHold(c, order[k], c.t.players[order[k]])
    ensures PlayersRows(c, order) == PlayersRows(c, order[..k])
    decreases k
  {
    if k > 0 {
      assert order[1..][k - 1] == order[k];
      FailedStateEndsTick(c, order[1..], k - 1);
      assert order[1..][..k - 1] == order[..k][1..];
    }
  }

  const PROJECTILE_FIXED_IDS: seq<nat> :=
    [GRENADE_TYPE_ID, STEAMID_ID, NAME_ID, TICK_ID, ENTITY_ID_ID, GRENADE_X, GRENADE_Y, GRENADE_Z]

  /** `find_grenade_type`: the class name of the entity. */
  function GrenadeType(c: Collector, id: int): Option<string> {
    if HasEntity(c, id) && c.t.entities[id].value.clsId < |c.classNames| then Some(c.classNames[c.t.entities[id].value.clsId])
    else None
  }

  /** `find_owner_entid`: the thrower's entity, through the owner handle. */
  function FindOwnerEntid(c: Collector, id: int): (r: Result<int, PropCollectionError>)
    ensures r.Success? ==> 0 <= r.value < 0x800
    ensures GRENADE_OWNER_KEY !in c.pc.specialIds ==> r == Failure(GrenadeOwnerIdNotSet)
  {
    match SpecialId(c, GRENADE_OWNER_KEY)
    case None => Failure(GrenadeOwnerIdNotSet)
    case Some(p) =>
      match GetPropFromEnt(c, p, id)
      case Success(U32(h)) => Success(HandleEntity(h))
      case Success(_) => Failure(GrenadeOwnerIdPropIncorrectVariant)
      case Failure(e) => Failure(e)
  }

  /** `find_player_metadata`. */
  function FindPlayerMetadata(c: Collector, id: int): (r: Result<PlayerMetaData, PropCollectionError>)
    ensures r.Success? <==> id in c.t.players
    ensures r.Success? ==> r.value == c.t.players[id]
    ensures r.Failure? ==> r.error == PlayerNotFound
  {
    if id in c.t.players then Success(c.t.players[id]) else Failure(PlayerNotFound)
  }

  /** `find_thrower_steamid`: 0 for a thrower without a steam id. */
  function ThrowerSteamid(c: Collector, id: int): Result<nat, PropCollectionError> {
    var owner :- FindOwnerEntid(c, id);
    var player :- FindPlayerMetadata(c, owner);
    Success(SteamidOr0(player))
  }

  /** `find_thrower_name`. */
  function ThrowerName(c: Collector, id: int): Result<string, PropCollectionError> {
    var owner :- FindOwnerEntid(c, id);
    var player :- FindPlayerMetadata(c, owner);
    match player.name
    case Some(n) => Success(n)
    case None => Failure(PlayerMetaDataNameNone)
  }

  /** The wanted properties of a projectile other than the eight pushed for every one, read from the projectile itself. */
  function OtherProjectileRows(c: Collector, id: int, infos: seq<PropInfo>): (rows: seq<Row>)
    ensures forall j | 0 <= j < |rows| :: rows[j].target == Output && rows[j].propId !in PROJECTILE_FIXED_IDS
    ensures forall j | 0 <= j < |infos| && infos[j].id !in PROJECTILE_FIXED_IDS ::
      Row(Output, infos[j].id, ToOption(GetPropFromEnt(c, infos[j].id, id))) in rows
    decreases |infos|
  {
    if infos == [] then []
    else
      var rest := OtherProjectileRows(c, id, infos[1..]);
      assert forall j | 1 <= j < |infos| :: infos[j] == infos[1..][j - 1];
      if infos[0].id in PROJECTILE_FIXED_IDS then rest
      else [Row(Output, infos[0].id, ToOption(GetPropFromEnt(c, infos[0].id, id)))] + rest
  }

  /** A projectile is recorded when its class is known (a projectile, or any grenade when those are wanted) and its thrower has a name. */
  predicate Recorded(c: Collector, id: int) {
    && GrenadeType(c, id).Some?
    && (Contains(GrenadeType(c, id).value, "Projectile") || c.parseGrenades)
    && ThrowerSteamid(c, id).Success?
    && ThrowerName(c, id).Success?
  }

  /**
   * One projectile of `collect_projectiles`: eight pushes every recorded
   * projectile gets (coordinates only for classes named "Project..."),
   * then its other wanted properties.
   */
  function ProjectileRows(c: Collector, id: int): (rows: seq<Row>)
    ensures rows == [] <==> !Recorded(c, id)
    ensures rows != [] ==> && |rows| >= 8
                           && (forall j | 0 <= j < 8 :: rows[j].propId == PROJECTILE_FIXED_IDS[j])
                           && rows[1].value == Some(U64(ThrowerSteamid(c, id).value))
                           && rows[3].value == Some(I32(c.tick)) && rows[4].value == Some(I32(id))
    ensures forall j | 0 <= j < |rows| :: rows[j].target == Output
    ensures forall j | 8 <= j < |rows| :: rows[j].propId !in PROJECTILE_FIXED_IDS
  {
    if !Recorded(c, id) then []
    else
      var kind := GrenadeType(c, id).value;
      var coords := Contains(kind, "Project");
      var fixed := [
        Row(Output, GRENADE_TYPE_ID, Some(String(kind))),
        Row(Output, STEAMID_ID, Some(U64(ThrowerSteamid(c, id).value))),
        Row(Output, NAME_ID, Some(String(ThrowerName(c, id).value))),
        Row(Output, TICK_ID, Some(I32(c.tick))),
        Row(Output, ENTITY_ID_ID, Some(I32(id))),
        Row(Output, GRENADE_X, if coords then ToOption(CollectCellCoordinate(c, Grenade, X, id)) else None),
        Row(Output, GRENADE_Y, if coords then ToOption(CollectCellCoordinate(c, Grenade, Y, id)) else None),
        Row(Output, GRENADE_Z, if coords then ToOption(CollectCellCoordinate(c, Grenade, Z, id)) else None)];
      fixed + OtherProjectileRows(c, id, c.pc.propInfos)
  }

  /** `collect_projectiles` over `order`. */
  function ProjectilesRows(c: Collector, order: seq<int>): (rows: seq<Row>)
    ensures forall j | 0 <= j < |rows| :: rows[j].target == Output
    decreases |order|
  {
    if order == [] then [] else ProjectileRows(c, order[0]) + ProjectilesRows(c, order[1..])
  }

  /** The pushes of one call of `collect_entities`. */
  function TickRows(c: Collector): (rows: seq<Row>)
    ensures SkipsTick(c) ==> rows == []
    ensures !SkipsTick(c) && c.pc.parseProjectiles ==> rows == ProjectilesRows(c, ProjectileOrder(c))
    ensures !SkipsTick(c) && !c.pc.parseProjectiles ==> rows == PlayersRows(c, PlayerOrder(c))
  {
    if SkipsTick(c) then []
    else if c.pc.parseProjectiles then ProjectilesRows(c, ProjectileOrder(c))
    else PlayersRows(c, PlayerOrder(c))
  }

  /* ---------------- Landing the pushes ---------------- */

  /** The shared output and the per-player frames of `order_by_steamid`. */
  datatype Frames = Frames(output: map<nat, PropColumn>, perPlayer: map<nat, map<nat, PropColumn>>)

  /** `entry(id).or_insert_with(PropColumn::new)`. */
  function ColumnOf(m: map<nat, PropColumn>, id: nat): PropColumn {
    if id in m then m[id] else NewColumn()
  }

  function PushInto(m: map<nat, PropColumn>, row: Row): map<nat, PropColumn> {
    m[row.propId := Push(ColumnOf(m, row.propId), row.value)]
  }

  /** One push lands in its column (creating the column, and the player's frame, when missing). */
  function ApplyRow(f: Frames, row: Row): (r: Frames)
    ensures row.target.Output? ==> r.perPlayer == f.perPlayer && r.output == PushInto(f.output, row)
    ensures row.target.PlayerFrame? ==> && r.output == f.output
                                        && r.perPlayer == f.perPlayer[row.target.steamid := PushInto(if row.target.steamid in f.perPlayer then f.perPlayer[row.target.steamid] else map[], row)]
  {
    match row.target
    case Output => f.(output := PushInto(f.output, row))
    case PlayerFrame(s) =>
      var frame := if s in f.perPlayer then f.perPlayer[s] else map[];
      f.(perPlayer := f.perPlayer[s := PushInto(frame, row)])
  }

  function ApplyRows(f: Frames, rows: seq<Row>): Frames
    decreases |rows|
  {
    if rows == [] then f else ApplyRows(ApplyRow(f, rows[0]), rows[1..])
  }

  /** A shared column no push names is left as it was. */
  lemma {:induction false} UntouchedColumnKept(f: Frames, rows: seq<Row>, id: nat)
    requires forall j | 0 <= j < |rows| :: !(rows[j].target.Output? && rows[j].propId == id)
    ensures (id in ApplyRows(f, rows).output <==> id in f.output)
    ensures id in f.output ==> ApplyRows(f, rows).output[id] == f.output[id]
    decreases |rows|
  {
    if rows != [] {
      assert forall j | 1 <= j < |rows| :: rows[j] == rows[1..][j - 1];
      UntouchedColumnKept(ApplyRow(f, rows[0]), rows[1..], id);
    }
  }

  /** `collect_entities`: the tick's pushes landed in the frames. */
  function CollectEntities(c: Collector, f: Frames): (r: Frames)
    ensures SkipsTick(c) ==> r == f
    ensures !c.orderBySteamid || c.pc.parseProjectiles ==> r.perPlayer == f.perPlayer
  {
    TargetsShared(c, f);
    ApplyRows(f, TickRows(c))
  }

  /** Without per-player frames, every push of a tick goes to the shared output. */
  lemma TargetsShared(c: Collector, f: Frames)
    ensures !c.orderBySteamid || c.pc.parseProjectiles ==> forall j | 0 <= j < |TickRows(c)| :: TickRows(c)[j].target == Output
    ensures !c.orderBySteamid || c.pc.parseProjectiles ==> ApplyRows(f, TickRows(c)).perPlayer == f.perPlayer
  {
    if !c.orderBySteamid && !SkipsTick(c) && !c.pc.parseProjectiles {
      PlayersRowsShared(c, PlayerOrder(c));
    }
    if !c.orderBySteamid || c.pc.parseProjectiles {
      SharedRowsKeepFrames(f, TickRows(c));
    }
  }

  lemma {:induction false} PlayersRowsShared(c: Collector, order: seq<int>)
    requires !c.orderBySteamid
    ensures forall j | 0 <= j < |PlayersRows(c, order)| :: PlayersRows(c, order)[j].target == Output
    decreases |order|
  {
    if order != [] {
      PlayersRowsShared(c, order[1..]);
    }
  }

  /** Pushes that all go to the shared output leave the per-player frames alone. */
  lemma {:induction false} SharedRowsKeepFrames(f: Frames, rows: seq<Row>)
    requires forall j | 0 <= j < |rows| :: rows[j].target == Output
    ensures ApplyRows(f, rows).perPlayer == f.perPlayer
    decreases |rows|
  {
    if rows != [] {
      assert forall j | 1 <= j < |rows| :: rows[j] == rows[1..][j - 1];
      SharedRowsKeepFrames(ApplyRow(f, rows[0]), rows[1..]);
    }
  }
}
