/**
 * The entity tracker of second_pass/entities.rs: the packet-entities
 * command loop, entity creation with baselines, the per-path decode that
 * writes properties into an entity, and the player bookkeeping run after
 * an update.
 *
 * The Huffman-coded field-path stream (`parse_paths`) and the float
 * decoders are parameters; the events an update emits are not modelled.
 */
module Entities {
  import opened Wrappers
  import opened Ints
  import opened Errors
  import opened BitReader
  import opened Variants
  import opened Decoders
  import opened PathOps
  import opened Sendtables
  import opened PropIds
  import opened Text

  datatype EntityType = PlayerController | Rules | Projectile | Team | Normal | C4

  datatype Entity = Entity(clsId: nat, entityId: int, props: map<nat, Variant>, entityType: EntityType)

  /** A server class: its name and serializer. */
  datatype Class = Class(name: string, serializer: Serializer)

  datatype PlayerMetaData = PlayerMetaData(
    playerEntityId: Option<int>,
    steamid: Option<nat>,
    controllerEntid: Option<int>,
    name: Option<string>,
    teamNum: Option<nat>)

  datatype Teams = Teams(team1: Option<int>, team2: Option<int>, team3: Option<int>)

  /** The special property ids the bookkeeping reads (`SpecialIDs`); a missing key is `None`. */
  datatype Special = TeamNum | PlayerName | SteamId | PlayerPawn | TeamTeamNum

  /** A field path with the shape the path operations keep. */
  type ValidPath = fp: FieldPath | Valid(fp) witness FieldPath([-1, 0, 0, 0, 0, 0, 0], 0)

  /** What the tracker reads but does not change. */
  datatype EntityContext = EntityContext(
    clsById: seq<Class>,
    baselines: map<nat, seq<Byte>>,
    special: map<Special, nat>,
    qfKeys: set<nat>,
    floats: FloatArms,
    /** `parse_paths`: the Huffman-coded field paths of one update. */
    parsePaths: Reader -> Result<(seq<ValidPath>, Reader), DemoParserError>,
    parseEntities: bool)

  /** The parser state the tracker changes. */
  datatype Tracker = Tracker(
    entities: seq<Option<Entity>>,
    projectiles: set<int>,
    rulesEntityId: Option<int>,
    c4EntityId: Option<int>,
    players: map<int, PlayerMetaData>,
    teams: Teams)

  /**
   * `self.entities.get(id as usize)` holding an entity.  A negative id
   * becomes an index of at least 2^63, past the end of any list.
   */
  function EntityAt(t: Tracker, id: int): (r: Option<Entity>)
    requires IsI32(id)
    ensures r.Some? <==> 0 <= id < |t.entities| && t.entities[id].Some?
    ensures r.Some? ==> r.value == t.entities[id].value
  {
    if 0 <= id < |t.entities| then t.entities[id] else None
  }

  /** The tracker with the entity at `id` replaced. */
  function PutEntity(t: Tracker, id: int, e: Entity): (r: Tracker)
    requires 0 <= id < |t.entities|
    ensures |r.entities| == |t.entities| && r.entities[id] == Some(e)
    ensures forall i | 0 <= i < |t.entities| && i != id :: r.entities[i] == t.entities[i]
  {
    t.(entities := t.entities[id := Some(e)])
  }

  /* ---------------- Properties of one entity ---------------- */

  /** `insert_field`: a decoded value is stored only when its field is parsed. */
  function InsertField(e: Entity, value: Variant, info: Option<FieldInfo>): (r: Entity)
    ensures r.clsId == e.clsId && r.entityId == e.entityId && r.entityType == e.entityType
    ensures info.Some? && info.value.shouldParse ==> r.props == e.props[info.value.propId := value]
    ensures !(info.Some? && info.value.shouldParse) ==> r == e
  {
    match info
    case Some(fi) => if fi.shouldParse then e.(props := e.props[fi.propId := value]) else e
    case None => e
  }

  /** Inserting one property leaves every other property as it was. */
  lemma InsertFieldKeepsOthers(e: Entity, value: Variant, info: Option<FieldInfo>, id: nat)
    requires id in e.props && !(info.Some? && info.value.shouldParse && info.value.propId == id)
    ensures id in InsertField(e, value, info).props && InsertField(e, value, info).props[id] == e.props[id]
  {
  }

  /**
   * `get_propinfo` of the second pass: the weapon slots of `m_hMyWeapons`
   * are flattened as in the serializer's version, and a weapon skin id
   * whose parent slot is not 0 is replaced by `u32::MAX`, an id no
   * property has.
   */
  function EntityPropinfo(f: Field, fp: ValidPath): (r: Option<FieldInfo>)
    ensures r.Some? <==> f.Value? || (f.Vector? && f.element.Value?)
    ensures r.Some? ==> r.value.decoder == (if f.Value? then f.value.decoder else f.decoder)
    ensures r.Some? ==> r.value.shouldParse == (if f.Value? then f.value.shouldParse else f.element.value.shouldParse)
  {
    var info := match f
      case Value(v) => Some(FieldInfo(v.decoder, v.shouldParse, v.propId))
      case Vector(_, d) =>
        (match GetInner(f, 0)
         case Success(Value(inner)) => Some(FieldInfo(d, inner.shouldParse, inner.propId))
         case _ => None)
      case _ => None;
    match info
    case None => None
    case Some(fi) =>
      var weapons := if fi.propId == MY_WEAPONS_OFFSET && fp.last != 1
                     then Offset(MY_WEAPONS_OFFSET + 1, fp.path[2]) else fi.propId;
      var skin := if weapons == WEAPON_SKIN_ID && ParentSlotSet(fp) then U32_MAX else weapons;
      Some(fi.(propId := skin))
  }

  /** `path.path.get(path.last - 1)` exists and is not 0 (`last - 1` wraps to an absent index when `last` is 0). */
  predicate ParentSlotSet(fp: ValidPath) {
    1 <= fp.last <= SLOTS && fp.path[fp.last - 1] != 0
  }

  /** The two `get_propinfo`s agree on every id other than the skin and purchase ids. */
  lemma PropinfosAgree(f: Field, fp: ValidPath)
    requires GetPropinfo(f, fp).Some?
    requires var id := if f.Value? then f.value.propId else f.element.value.propId;
      id != WEAPON_SKIN_ID && id != GLOVE_PAINT_ID && id < ITEM_PURCHASE_COUNT
      && (id == MY_WEAPONS_OFFSET ==> 0 <= fp.path[2] < FLATTENED_VEC_MAX_LEN)
    ensures EntityPropinfo(f, fp) == GetPropinfo(f, fp)
  {
    var id := if f.Value? then f.value.propId else f.element.value.propId;
    if id == MY_WEAPONS_OFFSET {
      if fp.last != 1 {
        MyWeaponsFlattened(fp);
      } else {
        MyWeaponsLengthKept(fp);
      }
    } else {
      OrdinaryIdKept(fp, id);
    }
  }

  /** A weapon skin id survives exactly when the slot above the last one is 0 or absent. */
  lemma SkinIdKeptAtTopLevel(f: Field, fp: ValidPath)
    requires f.Value? && f.value.propId == WEAPON_SKIN_ID
    ensures EntityPropinfo(f, fp).value.propId == (if ParentSlotSet(fp) then U32_MAX else WEAPON_SKIN_ID)
  {
  }

  /** The decode loop of `decode_entity_update`, from path `i` on. */
  function DecodePaths(r: Reader, e: Entity, ser: Serializer, ctx: EntityContext, paths: seq<ValidPath>, i: nat)
    : (res: Result<(Entity, Reader), DemoParserError>)
    requires i <= |paths|
    ensures res.Success? ==> var e' := res.value.0;
      e'.clsId == e.clsId && e'.entityId == e.entityId && e'.entityType == e.entityType
    ensures res.Success? ==> e.props.Keys <= res.value.0.props.Keys
    decreases |paths| - i
  {
    if i == |paths| then Success((e, r))
    else
      var field :- FindField(paths[i], ser);
      var info := EntityPropinfo(field, paths[i]);
      var decoder :- GetDecoderFromField(field);
      var (value, r') :- Decode(r, decoder, ctx.qfKeys, ctx.floats);
      DecodePaths(r', InsertField(e, value, info), ser, ctx, paths, i + 1)
  }

  /** A path whose field is not parsed leaves the entity's properties alone. */
  lemma UnparsedPathKeepsProps(r: Reader, e: Entity, ser: Serializer, ctx: EntityContext, paths: seq<ValidPath>, i: nat)
    returns (r': Reader)
    requires i < |paths|
    requires FindField(paths[i], ser).Success?
    requires var info := EntityPropinfo(FindField(paths[i], ser).value, paths[i]); !(info.Some? && info.value.shouldParse)
    requires DecodePaths(r, e, ser, ctx, paths, i).Success?
    ensures DecodePaths(r, e, ser, ctx, paths, i) == DecodePaths(r', e, ser, ctx, paths, i + 1)
  {
    var field := FindField(paths[i], ser).value;
    var decoder := GetDecoderFromField(field).value;
    r' := Decode(r, decoder, ctx.qfKeys, ctx.floats).value.1;
  }

  /** `decode_entity_update`: the entity must exist and its class must be known. */
  function DecodeEntityUpdate(r: Reader, t: Tracker, ctx: EntityContext, id: int, paths: seq<ValidPath>)
    : (res: Result<(nat, Reader, Tracker), DemoParserError>)
    requires IsI32(id)
    ensures EntityAt(t, id).None? ==> res == Failure(EntityNotFound)
    ensures EntityAt(t, id).Some? && EntityAt(t, id).value.clsId >= |ctx.clsById| ==> res == Failure(ClassNotFound)
    ensures res.Success? ==> res.value.0 == |paths| && 0 <= id < |t.entities|
    ensures res.Success? ==> Same(t, res.value.2, id)
  {
    if EntityAt(t, id).None? then Failure(EntityNotFound)
    else
      var e := EntityAt(t, id).value;
      if e.clsId >= |ctx.clsById| then Failure(ClassNotFound)
      else
        var (e', r') :- DecodePaths(r, e, ctx.clsById[e.clsId].serializer, ctx, paths, 0);
        Success((|paths|, r', PutEntity(t, id, e')))
  }

  /** `t'` differs from `t` at most in the properties of the entity at `id`. */
  predicate Same(t: Tracker, t': Tracker, id: int) {
    && 0 <= id < |t.entities| && |t'.entities| == |t.entities|
    && t'.projectiles == t.projectiles && t'.rulesEntityId == t.rulesEntityId && t'.c4EntityId == t.c4EntityId
    && t'.players == t.players && t'.teams == t.teams
    && (forall i | 0 <= i < |t.entities| && i != id :: t'.entities[i] == t.entities[i])
    && t.entities[id].Some? && t'.entities[id].Some?
    && t'.entities[id].value.clsId == t.entities[id].value.clsId
    && t'.entities[id].value.entityId == t.entities[id].value.entityId
    && t'.entities[id].value.entityType == t.entities[id].value.entityType
  }

  /* ---------------- Player bookkeeping ---------------- */

  /** `get_prop_from_ent` reduced to whether the value is there. */
  function PropOfEntity(t: Tracker, id: int, propId: nat): (v: Option<Variant>)
    requires IsI32(id)
    ensures v.Some? <==> EntityAt(t, id).Some? && propId in EntityAt(t, id).value.props
  {
    match EntityAt(t, id)
    case Some(e) => if propId in e.props then Some(e.props[propId]) else None
    case None => None
  }

  /** A metadata property: absent is `None`, present with the wrong variant is IncorrectMetaDataProp. */
  function MetaProp<T>(t: Tracker, ctx: EntityContext, id: int, which: Special, pick: Variant -> Option<T>)
    : (r: Result<Option<T>, DemoParserError>)
    requires IsI32(id)
    ensures which !in ctx.special ==> r == Success(None)
    ensures r.Failure? ==> r.error == IncorrectMetaDataProp
  {
    if which !in ctx.special then Success(None)
    else match PropOfEntity(t, id, ctx.special[which])
      case None => Success(None)
      case Some(v) => if pick(v).Some? then Success(pick(v)) else Failure(IncorrectMetaDataProp)
  }

  function PickU32(v: Variant): Option<nat> { if v.U32? then Some(v.u32) else None }
  function PickU64(v: Variant): Option<nat> { if v.U64? then Some(v.u64) else None }
  function PickString(v: Variant): Option<string> { if v.String? then Some(v.s) else None }

  /** `handle & 0x7FF`: the entity index of a handle. */
  function PickHandle(v: Variant): (r: Option<int>)
    ensures r.Some? ==> 0 <= r.value < 2048
  {
    if v.U32? then Some(v.u32 % 2048) else None
  }

  /** The players keyed by an entity that carry `steamid`. */
  function WithSteamid(players: map<int, PlayerMetaData>, steamid: Option<nat>): (s: set<int>)
    ensures forall e | e in s :: e in players && players[e].steamid == steamid
    ensures forall e | e in players && players[e].steamid == steamid :: e in s
  {
    set e | e in players && players[e].steamid == steamid
  }

  /** No two players share a steam id. */
  predicate UniqueSteamids(players: map<int, PlayerMetaData>) {
    forall a, b | a in players && b in players && a != b :: players[a].steamid != players[b].steamid
  }

  /**
   * While steam ids are unique, at most one player matches, so removing
   * every match is removing the one `should_remove` finds, in whatever
   * order the map is walked.
   */
  lemma AtMostOneWithSteamid(players: map<int, PlayerMetaData>, steamid: Option<nat>)
    requires UniqueSteamids(players)
    ensures forall a, b | a in WithSteamid(players, steamid) && b in WithSteamid(players, steamid) :: a == b
  {
  }

  /** Records the controller's player, replacing any earlier entry with the same steam id. */
  function RecordPlayer(players: map<int, PlayerMetaData>, e: int, p: PlayerMetaData): (r: map<int, PlayerMetaData>)
    ensures e in r && r[e] == p
    ensures forall k | k in r && k != e :: k in players && r[k] == players[k] && players[k].steamid != p.steamid
    ensures forall k | k in players && k != e && players[k].steamid != p.steamid :: k in r
  {
    (players - WithSteamid(players, p.steamid))[e := p]
  }

  /** Recording a player keeps steam ids unique. */
  lemma RecordPlayerKeepsUnique(players: map<int, PlayerMetaData>, e: int, p: PlayerMetaData)
    ensures UniqueSteamids(players) ==> UniqueSteamids(RecordPlayer(players, e, p))
  {
  }

  /**
   * `gather_extra_info`: for player controllers and teams, refresh the
   * team entity ids and the player record of the pawn the controller
   * points at.  Spectators, a missing pawn handle (2047) and steam id 0
   * are not recorded.
   */
  function GatherExtraInfo(t: Tracker, ctx: EntityContext, id: int, isBaseline: bool): (r: Result<Tracker, DemoParserError>)
    requires IsI32(id)
    ensures EntityAt(t, id).None? ==> r == Failure(EntityNotFound)
    ensures r.Failure? ==> r.error == EntityNotFound || r.error == IncorrectMetaDataProp
    ensures r.Success? ==> (r.value.entities == t.entities && r.value.projectiles == t.projectiles
      && r.value.rulesEntityId == t.rulesEntityId && r.value.c4EntityId == t.c4EntityId)
    ensures r.Success? && EntityAt(t, id).value.entityType != PlayerController && EntityAt(t, id).value.entityType != Team
      ==> r.value == t
    ensures r.Success? && UniqueSteamids(t.players) ==> UniqueSteamids(r.value.players)
  {
    if EntityAt(t, id).None? then Failure(EntityNotFound)
    else if EntityAt(t, id).value.entityType != PlayerController && EntityAt(t, id).value.entityType != Team then Success(t)
    else
      var e := EntityAt(t, id).value;
      var t1 := if e.entityType == Team && !isBaseline then RecordTeam(t, ctx, id) else t;
      var teamNum :- MetaProp(t1, ctx, id, TeamNum, PickU32);
      var name :- MetaProp(t1, ctx, id, PlayerName, PickString);
      var steamid :- MetaProp(t1, ctx, id, SteamId, PickU64);
      var pawn :- MetaProp(t1, ctx, id, PlayerPawn, PickHandle);
      match pawn
      case Some(p) =>
        if p != PLAYER_ENTITY_HANDLE_MISSING && steamid != Some(0) && teamNum != Some(SPECTATOR_TEAM_NUM) then
          var player := PlayerMetaData(pawn, steamid, Some(id), name, teamNum);
          RecordPlayerKeepsUnique(t1.players, p, player);
          Success(t1.(players := RecordPlayer(t1.players, p, player)))
        else Success(t1)
      case None => Success(t1)
  }

  /** The team slot a team entity with team number 1, 2 or 3 takes. */
  function RecordTeam(t: Tracker, ctx: EntityContext, id: int): (r: Tracker)
    requires IsI32(id)
    ensures r == t.(teams := r.teams)
  {
    if TeamTeamNum !in ctx.special then t
    else match PropOfEntity(t, id, ctx.special[TeamTeamNum])
      case Some(U32(1)) => t.(teams := t.teams.(team1 := Some(id)))
      case Some(U32(2)) => t.(teams := t.teams.(team2 := Some(id)))
      case Some(U32(3)) => t.(teams := t.teams.(team3 := Some(id)))
      case _ => t
  }

  /** A controller with a pawn, a real steam id and a playing team is recorded under its pawn's index. */
  lemma ControllerRecorded(t: Tracker, ctx: EntityContext, id: int, isBaseline: bool, pawnHandle: nat, steamid: nat)
    requires IsI32(id) && EntityAt(t, id).Some? && EntityAt(t, id).value.entityType == PlayerController
    requires PlayerPawn in ctx.special && ctx.special[PlayerPawn] in EntityAt(t, id).value.props
    requires EntityAt(t, id).value.props[ctx.special[PlayerPawn]] == U32(pawnHandle)
    requires SteamId in ctx.special && ctx.special[SteamId] in EntityAt(t, id).value.props
    requires EntityAt(t, id).value.props[ctx.special[SteamId]] == U64(steamid) && steamid != 0
    requires TeamNum !in ctx.special && PlayerName !in ctx.special
    requires pawnHandle % 2048 != PLAYER_ENTITY_HANDLE_MISSING
    ensures GatherExtraInfo(t, ctx, id, isBaseline).Success?
    ensures var p := GatherExtraInfo(t, ctx, id, isBaseline).value.players;
      pawnHandle % 2048 in p && p[pawnHandle % 2048] ==
        PlayerMetaData(Some(pawnHandle % 2048), Some(steamid), Some(id), None, None)
  {
  }

  /* ---------------- Entity creation and the command loop ---------------- */

  /** `check_entity_type`: by class name; an unknown class id is ClassNotFound. */
  function CheckEntityType(clsById: seq<Class>, clsId: nat): (r: Result<EntityType, DemoParserError>)
    ensures r.Failure? <==> clsId >= |clsById|
    ensures r.Failure? ==> r.error == ClassNotFound
    ensures r.Success? && r.value == Projectile ==>
      Contains(clsById[clsId].name, "Projectile") || clsById[clsId].name == "CIncendiaryGrenade"
  {
    if clsId >= |clsById| then Failure(ClassNotFound)
    else
      var name := clsById[clsId].name;
      if name == "CCSPlayerController" then Success(PlayerController)
      else if name == "CCSGameRulesProxy" then Success(Rules)
      else if name == "CCSTeam" then Success(Team)
      else if name == "CC4" then Success(C4)
      else if Contains(name, "Projectile") || name == "CIncendiaryGrenade" then Success(Projectile)
      else Success(Normal)
  }

  /** Every class whose name mentions "Projectile" is tracked as a projectile. */
  lemma ProjectileClasses(clsById: seq<Class>, clsId: nat)
    requires clsId < |clsById| && Contains(clsById[clsId].name, "Projectile")
    ensures CheckEntityType(clsById, clsId) == Success(Projectile)
  {
    var name := clsById[clsId].name;
    var i := ContainsOccurrence(name, "Projectile");
    assert name[i + 3] == 'j';
    if name == "CCSPlayerController" || name == "CCSGameRulesProxy" {
      NoJ(name, i + 3);
    }
  }

  /** The two long class names have no 'j', so "Projectile" occurs in neither. */
  lemma NoJ(name: string, k: nat)
    requires name == "CCSPlayerController" || name == "CCSGameRulesProxy"
    requires k < |name|
    ensures name[k] != 'j'
  {
  }

  /** The entity slots at or below each id hold the entity with that id. */
  predicate SlotsMatchIds(t: Tracker) {
    forall i | 0 <= i < |t.entities| && t.entities[i].Some? :: t.entities[i].value.entityId == i
  }

  /** The tracker invariants the command loop keeps. */
  predicate Consistent(t: Tracker) {
    SlotsMatchIds(t) && UniqueSteamids(t.players)
  }

  /** `update_entity`: decode the update and, when anything was decoded, refresh the bookkeeping. */
  function UpdateEntity(r: Reader, t: Tracker, ctx: EntityContext, id: int, isBaseline: bool)
    : (res: Result<(Reader, Tracker), DemoParserError>)
    requires IsI32(id)
    ensures res.Success? && Consistent(t) ==> Consistent(res.value.1)
    ensures res.Success? ==> SameShape(t, res.value.1) && 0 <= id < |t.entities| && t.entities[id].Some?
    ensures res.Success? ==> res.value.1.projectiles == t.projectiles
    ensures res.Success? ==> res.value.1.rulesEntityId == t.rulesEntityId && res.value.1.c4EntityId == t.c4EntityId
  {
    var (paths, r1) :- ctx.parsePaths(r);
    var (n, r2, t1) :- DecodeEntityUpdate(r1, t, ctx, id, paths);
    SameKeepsConsistent(t, t1, id);
    if n > 0 then
      var t2 :- GatherExtraInfo(t1, ctx, id, isBaseline);
      Success((r2, t2))
    else Success((r2, t1))
  }

  /** The same slots hold entities of the same id, class and type. */
  predicate SameShape(t: Tracker, t': Tracker) {
    && |t'.entities| == |t.entities|
    && (forall i | 0 <= i < |t.entities| :: t'.entities[i].Some? <==> t.entities[i].Some?)
    && (forall i | 0 <= i < |t.entities| && t.entities[i].Some? && t'.entities[i].Some? ::
          && t'.entities[i].value.clsId == t.entities[i].value.clsId
          && t'.entities[i].value.entityId == t.entities[i].value.entityId
          && t'.entities[i].value.entityType == t.entities[i].value.entityType)
  }

  lemma SameKeepsConsistent(t: Tracker, t': Tracker, id: int)
    requires Same(t, t', id)
    ensures SameShape(t, t')
    ensures Consistent(t) ==> Consistent(t')
  {
  }

  /**
   * `create_new_entity`: class id (8 bits), serial (17 bits) and an
   * unused varint, then the entity in its slot (growing the list as
   * needed) and the class baseline applied to it.
   */
  function CreateNewEntity(r: Reader, t: Tracker, ctx: EntityContext, id: int)
    : (res: Result<(Reader, Tracker), DemoParserError>)
    requires IsI32(id)
    ensures res.Success? ==> 0 <= id < |res.value.1.entities| && |t.entities| <= |res.value.1.entities|
    ensures res.Success? ==> var e := res.value.1.entities[id];
      e.Some? && e.value.entityId == id && CheckEntityType(ctx.clsById, e.value.clsId) == Success(e.value.entityType)
    ensures res.Success? ==> (id in res.value.1.projectiles <==> id in t.projectiles || res.value.1.entities[id].value.entityType == Projectile)
    ensures res.Success? && Consistent(t) ==> Consistent(res.value.1)
    ensures id < 0 ==> res.Failure?
  {
    var (clsId, r1) := ReadNBits(r, 8);
    var (_, r2) := ReadNBits(r1, 17);
    var (_, r3) := ReadVarint(r2);
    var entityType :- CheckEntityType(ctx.clsById, clsId);
    var t2 :- PlaceEntity(NoteEntity(t, id, entityType), Entity(clsId, id, map[], entityType));
    if clsId in ctx.baselines then
      var (_, t3) :- UpdateEntity(Reader(BytesToBits(ctx.baselines[clsId]), 0), t2, ctx, id, true);
      Success((r3, t3))
    else Success((r3, t2))
  }

  /** The side tables a new entity of a given type enters. */
  function NoteEntity(t: Tracker, id: int, entityType: EntityType): (r: Tracker)
    ensures r.entities == t.entities && r.players == t.players
    ensures id in r.projectiles <==> id in t.projectiles || entityType == Projectile
    ensures r.rulesEntityId == (if entityType == Rules then Some(id) else t.rulesEntityId)
    ensures r.c4EntityId == (if entityType == C4 then Some(id) else t.c4EntityId)
  {
    match entityType
    case Projectile => t.(projectiles := t.projectiles + {id})
    case Rules => t.(rulesEntityId := Some(id))
    case C4 => t.(c4EntityId := Some(id))
    case _ => t
  }

  /**
   * Stores a new entity in the slot of its id, growing the list with
   * empty slots when the id is past its end; a negative id has no slot.
   */
  function PlaceEntity(t: Tracker, e: Entity): (r: Result<Tracker, DemoParserError>)
    ensures r.Failure? <==> e.entityId < 0
    ensures r.Failure? ==> r.error == VectorResizeFailure
    ensures r.Success? ==> (r.value.projectiles == t.projectiles && r.value.players == t.players
      && r.value.rulesEntityId == t.rulesEntityId && r.value.c4EntityId == t.c4EntityId)
    ensures r.Success? ==> (e.entityId < |r.value.entities| && r.value.entities[e.entityId] == Some(e)
      && |t.entities| <= |r.value.entities|)
    ensures r.Success? ==> forall i | 0 <= i < |r.value.entities| && i != e.entityId ::
      r.value.entities[i] == (if i < |t.entities| then t.entities[i] else None)
    ensures r.Success? && Consistent(t) ==> Consistent(r.value)
  {
    var id := e.entityId;
    var grown := if |t.entities| <= id then t.entities + seq(id + 1 - |t.entities|, _ => None) else t.entities;
    if !(0 <= id < |grown|) then Failure(VectorResizeFailure)
    else Success(t.(entities := grown[id := Some(e)]))
  }

  datatype EntityCmd = Delete | CreateAndUpdate | Update

  /** The two command bits: 01 and 11 delete, 10 creates, 00 updates. */
  function EntityCmdOf(bits: nat): (r: Result<EntityCmd, DemoParserError>)
    ensures bits < 4 ==> r.Success?
    ensures r.Success? ==> (r.value == Delete <==> bits % 2 == 1)
    ensures r.Success? ==> (r.value == CreateAndUpdate <==> bits == 2)
  {
    if bits == 1 || bits == 3 then Success(Delete)
    else if bits == 2 then Success(CreateAndUpdate)
    else if bits == 0 then Success(Update)
    else Failure(ImpossibleCmd)
  }

  /** `entity_id += 1 + delta as i32`, wrapping as `i32`. */
  function NextEntityId(id: int, delta: nat): (next: int)
    requires IsI32(id) && IsU32(delta)
    ensures IsI32(next)
    ensures delta <= I32_MAX && id + 1 + delta <= I32_MAX ==> next == id + 1 + delta && next > id
  {
    WrapI32(id + 1 + U32AsI32(delta))
  }

  /** A deleted slot is emptied and the id leaves the projectile set. */
  function DeleteEntity(t: Tracker, id: int): (r: Tracker)
    requires IsI32(id)
    ensures id !in r.projectiles && r.projectiles == t.projectiles - {id}
    ensures |r.entities| == |t.entities| && (0 <= id < |t.entities| ==> r.entities[id].None?)
    ensures forall i | 0 <= i < |t.entities| && i != id :: r.entities[i] == t.entities[i]
    ensures Consistent(t) ==> Consistent(r)
  {
    var t1 := t.(projectiles := t.projectiles - {id});
    if 0 <= id < |t1.entities| then t1.(entities := t1.entities[id := None]) else t1
  }

  /**
   * The packet-entities message fields the loop reads. `hasPvsVisBits`
   * records whether the optional `has_pvs_vis_bits` field is present in
   * the message (`msg.has_has_pvs_vis_bits()`), not the field's value.
   */
  datatype PacketEntities = PacketEntities(entityData: seq<Byte>, updatedEntries: nat, hasPvsVisBits: bool)

  /** The loop of `parse_packet_ents` over the remaining `count` entries. */
  function EntityEntries(r: Reader, t: Tracker, ctx: EntityContext, id: int, count: nat, hasPvsVisBits: bool)
    : (res: Result<Tracker, DemoParserError>)
    requires IsI32(id)
    ensures res.Success? && Consistent(t) ==> Consistent(res.value)
    decreases count
  {
    if count == 0 then Success(t)
    else
      var (delta, r1) := ReadUBitVar(r);
      var next := NextEntityId(id, delta);
      var (bits, r2) := ReadNBits(r1, 2);
      var cmd :- EntityCmdOf(bits);
      match cmd
      case Delete => EntityEntries(r2, DeleteEntity(t, next), ctx, next, count - 1, hasPvsVisBits)
      case CreateAndUpdate =>
        var (r3, t1) :- CreateNewEntity(r2, t, ctx, next);
        var (r4, t2) :- UpdateEntity(r3, t1, ctx, next, false);
        EntityEntries(r4, t2, ctx, next, count - 1, hasPvsVisBits)
      case Update =>
        var (skipBits, r3) := if hasPvsVisBits then ReadNBits(r2, 2) else (0, r2);
        if skipBits % 2 == 1 then EntityEntries(r3, t, ctx, next, count - 1, hasPvsVisBits)
        else
          var (r4, t1) :- UpdateEntity(r3, t, ctx, next, false);
          EntityEntries(r4, t1, ctx, next, count - 1, hasPvsVisBits)
  }

  /** `parse_packet_ents`; `msg` is `None` when the message does not decode. */
  function ParsePacketEnts(t: Tracker, ctx: EntityContext, msg: Option<PacketEntities>): (r: Result<Tracker, DemoParserError>)
    ensures !ctx.parseEntities ==> r == Success(t)
    ensures ctx.parseEntities && msg.None? ==> r == Failure(MalformedMessage)
    ensures r.Success? && Consistent(t) ==> Consistent(r.value)
    ensures ctx.parseEntities && msg.Some? && msg.value.updatedEntries == 0 ==> r == Success(t)
  {
    if !ctx.parseEntities then Success(t)
    else match msg
      case None => Failure(MalformedMessage)
      case Some(m) => EntityEntries(Reader(BytesToBits(m.entityData), 0), t, ctx, -1, m.updatedEntries, m.hasPvsVisBits)
  }

  /** The command bits never produce ImpossibleCmd. */
  lemma CommandBitsTotal(r: Reader)
    ensures EntityCmdOf(ReadNBits(r, 2).0).Success?
  {
  }

  /* ---------------- User commands ---------------- */

  /** The fields of a decoded user command's base the parser copies. */
  datatype UserCmdBase = UserCmdBase(
    pawnHandle: nat,
    leftmove: Float32,
    forwardmove: Float32,
    impulse: int,
    mousedx: int,
    mousedy: int,
    viewangles: Option<Vec3>,
    buttons: Option<(nat, nat, nat)>,
    consumedServerAngleChanges: nat)

  /** A decoded user command; a history entry without view angles is `None`. */
  datatype UserCmd = UserCmd(base: Option<UserCmdBase>, history: seq<Option<InputHistoryEntry>>)

  /** The history entries, or `None` when one lacks its view angles (the source's `expect` panics). */
  function HistoryOf(entries: seq<Option<InputHistoryEntry>>): (r: Option<seq<InputHistoryEntry>>)
    ensures r.Some? <==> forall k | 0 <= k < |entries| :: entries[k].Some?
    ensures r.Some? ==> |r.value| == |entries| && forall k | 0 <= k < |entries| :: r.value[k] == entries[k].value
  {
    if entries == [] then Some([])
    else match (entries[0], HistoryOf(entries[1..]))
      case (Some(h), Some(rest)) =>
        assert forall k | 1 <= k < |entries| :: entries[k] == entries[1..][k - 1];
        Some([h] + rest)
      case (None, _) => None
      case (_, None) =>
        assert forall k | 0 <= k < |entries| - 1 :: entries[1..][k] == entries[k + 1];
        None
  }

  /** The properties one user command writes into its pawn's entity. */
  function UserCmdProps(props: map<nat, Variant>, base: UserCmdBase, history: seq<InputHistoryEntry>): (r: map<nat, Variant>)
    ensures props.Keys <= r.Keys
    ensures r.Keys <= props.Keys + UserCmdIds
    ensures USERCMD_INPUT_HISTORY_BASEID in r && r[USERCMD_INPUT_HISTORY_BASEID] == InputHistory(history)
    ensures USERCMD_MOUSE_DX in r && r[USERCMD_MOUSE_DX] == I32(base.mousedx)
    ensures base.viewangles.Some? ==> USERCMD_VIEWANGLE_Y in r && r[USERCMD_VIEWANGLE_Y] == F32(base.viewangles.value.y)
    ensures base.viewangles.None? ==> (USERCMD_VIEWANGLE_Y in r <==> USERCMD_VIEWANGLE_Y in props)
    ensures base.buttons.None? ==> (USERCMD_BUTTONSTATE_1 in r <==> USERCMD_BUTTONSTATE_1 in props)
    ensures forall k | k in props && k !in UserCmdIds :: r[k] == props[k]
  {
    var p := props[USERCMD_INPUT_HISTORY_BASEID := InputHistory(history)]
      [USERCMD_LEFTMOVE := F32(base.leftmove)]
      [USERCMD_FORWARDMOVE := F32(base.forwardmove)]
      [USERCMD_IMPULSE := I32(base.impulse)]
      [USERCMD_MOUSE_DX := I32(base.mousedx)]
      [USERCMD_MOUSE_DY := I32(base.mousedy)];
    var p := match base.viewangles
      case Some(v) => p[USERCMD_VIEWANGLE_X := F32(v.x)][USERCMD_VIEWANGLE_Y := F32(v.y)][USERCMD_VIEWANGLE_Z := F32(v.z)]
      case None => p;
    var p := match base.buttons
      case Some((b1, b2, b3)) => p[USERCMD_BUTTONSTATE_1 := U64(b1)][USERCMD_BUTTONSTATE_2 := U64(b2)][USERCMD_BUTTONSTATE_3 := U64(b3)]
      case None => p;
    p[USERCMD_CONSUMED_SERVER_ANGLE_CHANGES := U32(base.consumedServerAngleChanges)]
  }

  /** The ids a user command may write. */
  const UserCmdIds: set<nat> := {
    USERCMD_INPUT_HISTORY_BASEID, USERCMD_LEFTMOVE, USERCMD_FORWARDMOVE, USERCMD_IMPULSE,
    USERCMD_MOUSE_DX, USERCMD_MOUSE_DY, USERCMD_VIEWANGLE_X, USERCMD_VIEWANGLE_Y, USERCMD_VIEWANGLE_Z,
    USERCMD_BUTTONSTATE_1, USERCMD_BUTTONSTATE_2, USERCMD_BUTTONSTATE_3, USERCMD_CONSUMED_SERVER_ANGLE_CHANGES}

  /**
   * `parse_user_cmd`: each command writes its values into the entity of
   * its pawn handle (`handle & 0x7FF`), if that entity exists.  A command
   * that does not decode (`None`) ends the walk with success, keeping what
   * earlier commands wrote.
   */
  function ApplyUserCmds(t: Tracker, cmds: seq<Option<UserCmd>>): (r: Result<Tracker, Abort>)
    ensures r.Success? ==> SameShape(t, r.value)
    ensures r.Success? ==> (r.value.projectiles == t.projectiles && r.value.players == t.players
      && r.value.teams == t.teams && r.value.rulesEntityId == t.rulesEntityId && r.value.c4EntityId == t.c4EntityId)
    ensures r.Success? ==> forall i | 0 <= i < |t.entities| && t.entities[i].Some? ::
      forall k | k in t.entities[i].value.props && k !in UserCmdIds ::
        k in r.value.entities[i].value.props && r.value.entities[i].value.props[k] == t.entities[i].value.props[k]
    ensures r.Failure? ==> r.error == Panic
    decreases |cmds|
  {
    if cmds == [] then Success(t)
    else match cmds[0]
      case None => Success(t)
      case Some(UserCmd(None, _)) => ApplyUserCmds(t, cmds[1..])
      case Some(UserCmd(Some(base), entries)) =>
        var id := base.pawnHandle % 2048;
        if !(id < |t.entities| && t.entities[id].Some?) then ApplyUserCmds(t, cmds[1..])
        else match HistoryOf(entries)
          case None => Failure(Panic)
          case Some(history) =>
            var e := t.entities[id].value;
            ApplyUserCmds(PutEntity(t, id, e.(props := UserCmdProps(e.props, base, history))), cmds[1..])
  }

  /** `parse_user_cmd` with its early exits: the gate is off, or the message does not decode. */
  function ParseUserCmd(t: Tracker, parseUsercmd: bool, msg: Option<seq<Option<UserCmd>>>): (r: Result<Tracker, Abort>)
    ensures !parseUsercmd || msg.None? ==> r == Success(t)
    ensures r.Success? ==> SameShape(t, r.value) && r.value.players == t.players
    ensures r.Success? && Consistent(t) ==> Consistent(r.value)
  {
    if !parseUsercmd then Success(t)
    else match msg
      case None => Success(t)
      case Some(cmds) =>
        var r := ApplyUserCmds(t, cmds);
        if r.Success? then ShapeKeepsIds(t, r.value); r else r
  }

  lemma ShapeKeepsIds(t: Tracker, t': Tracker)
    requires SameShape(t, t') && t'.players == t.players
    ensures Consistent(t) ==> Consistent(t')
  {
  }

  /** A command for a pawn whose entity does not exist changes nothing. */
  lemma {:induction false} MissingPawnIgnored(t: Tracker, base: UserCmdBase, entries: seq<Option<InputHistoryEntry>>)
    requires !(base.pawnHandle % 2048 < |t.entities| && t.entities[base.pawnHandle % 2048].Some?)
    ensures ApplyUserCmds(t, [Some(UserCmd(Some(base), entries))]) == Success(t)
  {
    assert [Some(UserCmd(Some(base), entries))][1..] == [];
  }
}
