/**
 * Game events of the second pass (second_pass/game_events.rs): the
 * decoding of `CSVCMsg_GameEvent` messages into named fields, the extra
 * player, team and rules fields added to every stored event, and the
 * custom events (round end, round officially ended, purchases) built
 * from entity updates.
 *
 * The parser state an event reads is the `Collector` of collect_data;
 * what event parsing adds to it is an `EventState`: the stored events and
 * the set of event names seen.  Protobuf decoding is not modelled: a
 * message arrives decoded, or as `None` when it does not decode.
 */
module GameEvents {
  import opened Wrappers
  import opened Ints
  import opened Text
  import opened Variants
  import opened PropIds
  import opened PropControl
  import opened Entities
  import opened Sendtables
  import opened Errors
  import opened CollectData
  import opened OrderedIds
  import FirstPass
  import StringTables

  datatype EventField = EventField(name: string, data: Option<Variant>)

  datatype GameEvent = GameEvent(name: string, fields: seq<EventField>, tick: int)

  /** What event parsing accumulates: the stored events and `game_events_counter`. */
  datatype EventState = EventState(events: seq<GameEvent>, counter: set<string>)

  /** The static tables events read (`HIT_GROUP`, `ROUND_WIN_REASON`, `ROUND_WIN_REASON_TO_WINNER`). */
  datatype EventTables = EventTables(
    hitGroups: map<int, string>,
    winReasons: map<int, string>,
    winners: map<int, string>)

  /** Fields that only serve to find players; they never reach a stored event. */
  const INTERNAL_EVENT_FIELDS: seq<string> :=
    ["userid", "attacker", "assister", "userid_pawn", "attacker_pawn", "assister_pawn", "victim", "victim_pawn"]

  /** Events returned to the caller undecorated, to be finished once their entities exist. */
  const ENTITIES_FIRST_EVENTS: seq<string> := ["inferno_startburn", "decoy_started", "inferno_expire"]

  /** Events `parse_event` never emits (server_cvar is built from convar messages instead). */
  const REMOVED_EVENTS: seq<string> := ["server_cvar"]

  /** The entity id standing for "no entity". */
  const ENTITY_ID_NONE: int := 2047

  /** Whether `name` passes the wanted-events filter: listed, or the list starts with "all". */
  predicate Wanted(wanted: seq<string>, name: string) {
    name in wanted || (|wanted| > 0 && wanted[0] == "all")
  }

  /* ---------------- Keys ---------------- */

  /** A protobuf `int32`. */
  type Int32 = x: int | IsI32(x)

  /** A `key_t` of a game event message: its type code and every typed value slot. */
  datatype KeyT = KeyT(
    typeCode: int,
    valString: string,
    valFloat: Float32,
    valLong: Int32,
    valShort: Int32,
    valByte: Int32,
    valBool: bool,
    valUint64: nat)

  /** `try_into::<i32>().unwrap_or(-1)`. */
  function I32OrMinusOne(x: int): (r: int)
    ensures IsI32(r)
    ensures IsI32(x) ==> r == x
  {
    if IsI32(x) then x else -1
  }

  /**
   * `parse_key`: the value slot the type code selects; codes 3, 4, 5, 8
   * and 9 all become `I32`, and any code outside 1..9 has no value.
   */
  function ParseKey(k: KeyT): (r: Option<Variant>)
    ensures r.Some? <==> 1 <= k.typeCode <= 9
    ensures k.typeCode in {3, 4, 5, 8, 9} ==> r.Some? && r.value.I32? && IsI32(r.value.i32)
    ensures k.typeCode in {3, 8} ==> r == Some(I32(k.valLong))
    ensures k.typeCode in {4, 9} ==> r == Some(I32(k.valShort))
    ensures k.typeCode == 5 ==> r == Some(I32(k.valByte))
    ensures k.typeCode == 1 ==> r == Some(String(k.valString))
    ensures k.typeCode == 2 ==> r == Some(F32(k.valFloat))
    ensures k.typeCode == 6 ==> r == Some(Bool(k.valBool))
    ensures k.typeCode == 7 ==> r == Some(U64(k.valUint64))
  {
    match k.typeCode
    case 1 => Some(String(k.valString))
    case 2 => Some(F32(k.valFloat))
    case 3 => Some(I32(k.valLong))
    case 4 => Some(I32(I32OrMinusOne(k.valShort)))
    case 5 => Some(I32(I32OrMinusOne(k.valByte)))
    case 6 => Some(Bool(k.valBool))
    case 7 => Some(U64(k.valUint64))
    case 8 => Some(I32(I32OrMinusOne(k.valLong)))
    case 9 => Some(I32(I32OrMinusOne(k.valShort)))
    case _ => None
  }

  /* ---------------- User lookups ---------------- */

  /** A string-table user matches an event's user id by its low byte, or exactly. */
  predicate UserMatches(u: StringTables.UserInfo, userid: int, lowByte: bool) {
    if lowByte then u.userid % 256 == userid else u.userid == userid
  }

  /** The index of the first matching user (|users| when none). */
  function FirstUser(users: seq<StringTables.UserInfo>, userid: int, lowByte: bool): (i: nat)
    ensures i <= |users|
    ensures i < |users| ==> UserMatches(users[i], userid, lowByte)
    ensures forall j | 0 <= j < i :: !UserMatches(users[j], userid, lowByte)
    decreases |users|
  {
    if users == [] then 0
    else if UserMatches(users[0], userid, lowByte) then 0
    else 1 + FirstUser(users[1..], userid, lowByte)
  }

  /**
   * `find_user_by_userid`: the first user whose id's low byte (`& 0xFF`
   * on an `i32`) is `userid`; failing that, the first whose id is exactly
   * `userid`.
   */
  function FindUserByUserid(c: Collector, userid: int): (r: Option<StringTables.UserInfo>)
    ensures r.Some? ==> r.value in c.stringtablePlayers
    ensures r.Some? ==> r.value.userid % 256 == userid || r.value.userid == userid
    ensures r.None? <==> forall j | 0 <= j < |c.stringtablePlayers| ::
      c.stringtablePlayers[j].userid % 256 != userid && c.stringtablePlayers[j].userid != userid
    ensures (exists j | 0 <= j < |c.stringtablePlayers| :: c.stringtablePlayers[j].userid % 256 == userid)
      ==> r.Some? && r.value.userid % 256 == userid
  {
    var users := c.stringtablePlayers;
    var i := FirstUser(users, userid, true);
    if i < |users| then Some(users[i])
    else
      var k := FirstUser(users, userid, false);
      if k < |users| then Some(users[k]) else None
  }

  /**
   * The string-table parser stores user ids already masked to their low
   * byte, so for the users it registers the low-byte match is the exact
   * match: a registered id is found as itself.
   */
  lemma MaskedUseridFound(c: Collector, userid: int)
    requires forall j | 0 <= j < |c.stringtablePlayers| :: 0 <= c.stringtablePlayers[j].userid < 256
    requires exists j | 0 <= j < |c.stringtablePlayers| :: c.stringtablePlayers[j].userid == userid
    ensures FindUserByUserid(c, userid).Some? && FindUserByUserid(c, userid).value.userid == userid
  {
    var j :| 0 <= j < |c.stringtablePlayers| && c.stringtablePlayers[j].userid == userid;
    assert c.stringtablePlayers[j].userid % 256 == userid;
  }

  /** A tracked player with this steam id and a known pawn entity. */
  predicate PlayerWithPawn(c: Collector, k: int, steamid: nat) {
    k in c.t.players && c.t.players[k].steamid == Some(steamid) && c.t.players[k].playerEntityId.Some?
  }

  /** The position in `order` of the first player with this steam id and a pawn (|order| when none). */
  function FirstPlayerWithPawn(c: Collector, order: seq<int>, steamid: nat): (i: nat)
    ensures i <= |order|
    ensures i < |order| ==> PlayerWithPawn(c, order[i], steamid)
    ensures forall j | 0 <= j < i :: !PlayerWithPawn(c, order[j], steamid)
    decreases |order|
  {
    if order == [] then 0
    else if PlayerWithPawn(c, order[0], steamid) then 0
    else 1 + FirstPlayerWithPawn(c, order[1..], steamid)
  }

  /**
   * `entity_id_from_userid`: the pawn of the tracked player with the
   * lowest entity id (`players` is a `BTreeMap`) that has the steam id of
   * the user the id resolves to and a pawn.
   */
  function EntityIdFromUserid(c: Collector, userid: int): (r: Option<int>)
    ensures r.Some? ==> FindUserByUserid(c, userid).Some?
    ensures r.Some? ==> exists k | k in c.t.players ::
      var steamid := FindUserByUserid(c, userid).value.steamid;
      && PlayerWithPawn(c, k, steamid) && c.t.players[k].playerEntityId == r
      && forall k' | k' in c.t.players && k' < k :: !PlayerWithPawn(c, k', steamid)
    ensures r.None? && FindUserByUserid(c, userid).Some? ==>
      forall k | k in c.t.players :: !PlayerWithPawn(c, k, FindUserByUserid(c, userid).value.steamid)
  {
    match FindUserByUserid(c, userid)
    case None => None
    case Some(user) =>
      var order := PlayerOrder(c);
      var i := FirstPlayerWithPawn(c, order, user.steamid);
      if i < |order| then
        forall k' | k' in c.t.players && k' < order[i] ensures !PlayerWithPawn(c, k', user.steamid) {
          SmallerIdComesEarlier(c.t.players.Keys, i, k');
        }
        c.t.players[order[i]].playerEntityId
      else
        forall k | k in c.t.players ensures !PlayerWithPawn(c, k, user.steamid) {
          assert k in order;
        }
        None
  }

  /** `entity_id_from_user_pawn`: `handle & 0x7FF` on an `i32` handle. */
  function PawnHandleEntity(handle: int): (id: int)
    ensures 0 <= id < 0x800
  {
    handle % 0x800
  }

  /** `grenade_owner_entid_from_grenade`: the thrower of the grenade entity the field names. */
  function GrenadeOwnerFromGrenade(c: Collector, data: Option<Variant>): (r: Option<int>)
    ensures r.Some? ==> 0 <= r.value < 0x800
  {
    if GRENADE_OWNER_KEY !in c.pc.specialIds then None
    else match data
      case Some(I32(id)) =>
        (match GetPropFromEnt(c, c.pc.specialIds[GRENADE_OWNER_KEY], id)
         case Success(U32(e)) => Some(HandleEntity(e))
         case _ => None)
      case _ => None
  }

  /**
   * Events find a grenade's thrower exactly as projectile collection
   * does: whenever one of them resolves an owner, so does the other, to
   * the same entity.
   */
  lemma GrenadeOwnerAgrees(c: Collector, id: int)
    ensures GrenadeOwnerFromGrenade(c, Some(I32(id))).Some? <==> FindOwnerEntid(c, id).Success?
    ensures FindOwnerEntid(c, id).Success? ==> GrenadeOwnerFromGrenade(c, Some(I32(id))).value == FindOwnerEntid(c, id).value
  {
  }

  /* ---------------- Extra fields ---------------- */

  /** The names of a field list, in order. */
  function FieldNames(fields: seq<EventField>): (names: seq<string>)
    ensures |names| == |fields|
    ensures forall i | 0 <= i < |fields| :: names[i] == fields[i].name
  {
    seq(|fields|, i requires 0 <= i < |fields| => fields[i].name)
  }

  /** A player property events report per player: tick, name and steam id are excluded. */
  predicate PerPlayerInfo(info: PropInfo) {
    info.isPlayerProp && info.propName != "tick" && info.propName != "name" && info.propName != "steamid"
  }

  /** The field name of a player property for one player role. */
  function PrefixedName(prefix: string, info: PropInfo): string {
    prefix + "_" + info.friendlyName
  }

  /** The property fields of an unresolved player: one empty field per per-player property. */
  function EmptyPropFields(infos: seq<PropInfo>, prefix: string): (r: seq<EventField>)
    ensures forall i | 0 <= i < |r| :: r[i].data.None?
    decreases |infos|
  {
    if infos == [] then []
    else
      var head := if PerPlayerInfo(infos[0]) then [EventField(PrefixedName(prefix, infos[0]), None)] else [];
      head + EmptyPropFields(infos[1..], prefix)
  }

  /**
   * `generate_empty_fields`: when the player an event names cannot be
   * found, every per-player column is still present, empty, followed by
   * the empty steam id and name columns.
   */
  function GenerateEmptyFields(c: Collector, prefix: string): (r: seq<EventField>)
    ensures |r| >= 2
    ensures r[|r| - 2] == EventField(prefix + "_steamid", None)
    ensures r[|r| - 1] == EventField(prefix + "_name", None)
    ensures forall i | 0 <= i < |r| :: r[i].data.None?
  {
    EmptyPropFields(c.pc.propInfos, prefix) + [EventField(prefix + "_steamid", None), EventField(prefix + "_name", None)]
  }

  /** The value of one player property for the player entity `e`; None for no entity or no player. */
  function PlayerPropValue(c: Collector, info: PropInfo, e: int): Option<Variant> {
    if e == ENTITY_ID_NONE || e !in c.t.players then None
    else ToOption(FindProp(c, info, e, c.t.players[e]))
  }

  /** `find_extra_props_events`: one field per per-player property, valued for the player entity `e`. */
  function FindExtraPropsEvents(c: Collector, e: int, prefix: string, infos: seq<PropInfo>): (r: seq<EventField>)
    decreases |infos|
  {
    if infos == [] then []
    else
      var head := if PerPlayerInfo(infos[0]) then [EventField(PrefixedName(prefix, infos[0]), PlayerPropValue(c, infos[0], e))] else [];
      head + FindExtraPropsEvents(c, e, prefix, infos[1..])
  }

  /**
   * A found player and a missing one get the same property columns, in
   * the same order; for the "no entity" id the fields are the empty ones.
   */
  lemma {:induction false} SamePropColumns(c: Collector, e: int, prefix: string, infos: seq<PropInfo>)
    ensures FieldNames(FindExtraPropsEvents(c, e, prefix, infos)) == FieldNames(EmptyPropFields(infos, prefix))
    ensures e == ENTITY_ID_NONE ==> FindExtraPropsEvents(c, e, prefix, infos) == EmptyPropFields(infos, prefix)
    decreases |infos|
  {
    if infos != [] {
      SamePropColumns(c, e, prefix, infos[1..]);
      var head := if PerPlayerInfo(infos[0]) then [EventField(PrefixedName(prefix, infos[0]), PlayerPropValue(c, infos[0], e))] else [];
      var empty := if PerPlayerInfo(infos[0]) then [EventField(PrefixedName(prefix, infos[0]), None)] else [];
      assert FieldNames(head) == FieldNames(empty);
      FieldNamesAppend(head, FindExtraPropsEvents(c, e, prefix, infos[1..]));
      FieldNamesAppend(empty, EmptyPropFields(infos[1..], prefix));
    }
  }

  lemma FieldNamesAppend(a: seq<EventField>, b: seq<EventField>)
    ensures FieldNames(a + b) == FieldNames(a) + FieldNames(b)
  {
  }

  /** `create_player_name_field`. */
  function PlayerNameField(c: Collector, e: int, prefix: string): (f: EventField)
    ensures f.name == prefix + "_name"
    ensures f.data.Some? <==> e != ENTITY_ID_NONE && e in c.t.players && c.t.players[e].name.Some?
    ensures f.data.Some? ==> f.data.value == String(c.t.players[e].name.value)
  {
    var data := if e != ENTITY_ID_NONE && e in c.t.players && c.t.players[e].name.Some? then Some(String(c.t.players[e].name.value)) else None;
    EventField(prefix + "_name", data)
  }

  /** `create_player_steamid_field`: the steam id as a decimal string. */
  function PlayerSteamidField(c: Collector, e: int, prefix: string): (f: EventField)
    ensures f.name == prefix + "_steamid"
    ensures f.data.Some? <==> e != ENTITY_ID_NONE && e in c.t.players && c.t.players[e].steamid.Some?
    ensures f.data.Some? ==> f.data.value == String(NatToString(c.t.players[e].steamid.value))
  {
    if e != ENTITY_ID_NONE && e in c.t.players && c.t.players[e].steamid.Some? then
      EventField(prefix + "_steamid", Some(String(NatToString(c.t.players[e].steamid.value))))
    else EventField(prefix + "_steamid", None)
  }

  /** The columns of one player role: a resolved player's name, steam id and properties, or the empty ones. */
  function PlayerColumns(c: Collector, e: Option<int>, prefix: string): seq<EventField> {
    match e
    case None => GenerateEmptyFields(c, prefix)
    case Some(id) => [PlayerNameField(c, id, prefix), PlayerSteamidField(c, id, prefix)] + FindExtraPropsEvents(c, id, prefix, c.pc.propInfos)
  }

  /**
   * Whether or not the player is found, a role contributes the same set
   * of columns: its name, its steam id and every per-player property.
   */
  lemma ResolvedOrNotSameColumns(c: Collector, e: int, prefix: string)
    ensures multiset(FieldNames(PlayerColumns(c, Some(e), prefix))) == multiset(FieldNames(PlayerColumns(c, None, prefix)))
  {
    var props := FindExtraPropsEvents(c, e, prefix, c.pc.propInfos);
    var empty := EmptyPropFields(c.pc.propInfos, prefix);
    SamePropColumns(c, e, prefix, c.pc.propInfos);
    var heads := [PlayerNameField(c, e, prefix), PlayerSteamidField(c, e, prefix)];
    var ends := [EventField(prefix + "_steamid", None), EventField(prefix + "_name", None)];
    SwapEnds(heads, FieldNames(props), ends, props, empty);
  }

  /** Two name-swapped pairs around the same column names hold the same multiset of names. */
  lemma SwapEnds(heads: seq<EventField>, names: seq<string>, ends: seq<EventField>, props: seq<EventField>, empty: seq<EventField>)
    requires |heads| == 2 && |ends| == 2 && heads[0].name == ends[1].name && heads[1].name == ends[0].name
    requires FieldNames(props) == names && FieldNames(empty) == names
    ensures multiset(FieldNames(heads + props)) == multiset(FieldNames(empty + ends))
  {
    FieldNamesAppend(heads, props);
    FieldNamesAppend(empty, ends);
    var a, b := heads[0].name, heads[1].name;
    assert FieldNames(heads) == [a, b];
    assert FieldNames(ends) == [b, a];
    assert multiset([a, b]) == multiset([b, a]);
    calc {
      multiset(FieldNames(heads + props));
      multiset([a, b] + names);
      multiset([a, b]) + multiset(names);
      multiset(names + [b, a]);
      multiset(FieldNames(empty + ends));
    }
  }

  /** The role an event field names a player in, if any (the `prefix` of `find_extra`). */
  function PlayerPrefix(name: string, names: seq<string>): (p: Option<string>)
    ensures p.Some? ==> name in {"attacker", "userid", "assister", "victim", "entityid", "userid_pawn"}
    ensures name == "entityid" ==> (p.Some? <==> "userid" !in names)
    ensures name == "userid_pawn" ==> (p.Some? <==> "userid" !in names && "entityid" !in names)
  {
    if name == "attacker" then Some("attacker")
    else if name == "userid" then Some("user")
    else if name == "assister" then Some("assister")
    else if name == "victim" then Some("victim")
    else if name == "entityid" then (if "userid" in names then None else Some("user"))
    else if name == "userid_pawn" then (if "userid" !in names && "entityid" !in names then Some("user") else None)
    else None
  }

  /** The player entity an `I32` player field refers to, by the field's kind. */
  function FieldEntity(c: Collector, f: EventField, u: int): Option<int> {
    if f.name == "entityid" then GrenadeOwnerFromGrenade(c, f.data)
    else if f.name == "userid_pawn" then Some(PawnHandleEntity(u))
    else EntityIdFromUserid(c, u)
  }

  /** The columns one event field adds: only `I32` fields naming a player role add any. */
  function FieldColumns(c: Collector, f: EventField, names: seq<string>): seq<EventField> {
    match PlayerPrefix(f.name, names)
    case None => []
    case Some(prefix) =>
      match f.data
      case Some(I32(u)) => PlayerColumns(c, FieldEntity(c, f, u), prefix)
      case _ => []
  }

  function PlayerFields(c: Collector, fields: seq<EventField>, names: seq<string>): seq<EventField>
    decreases |fields|
  {
    if fields == [] then [] else FieldColumns(c, fields[0], names) + PlayerFields(c, fields[1..], names)
  }

  /** `find_other_rules_props`: the rules entity's value of the property, or an empty field. */
  function FindOtherRulesProps(c: Collector, info: PropInfo): (r: seq<EventField>)
    ensures |r| == 1 && r[0].name == info.friendlyName
  {
    [EventField(info.friendlyName, ToOption(GetRulesProp(c, info.id)))]
  }

  /** `find_other_team_props`: the property for the T side (team 2), then for the CT side (team 3). */
  function FindOtherTeamProps(c: Collector, info: PropInfo): (r: seq<EventField>)
    ensures |r| == 2 && r[0].name == "t_" + info.friendlyName && r[1].name == "ct_" + info.friendlyName
  {
    var t := if c.t.teams.team2.Some? then ToOption(GetPropFromEnt(c, info.id, c.t.teams.team2.value)) else None;
    var ct := if c.t.teams.team3.Some? then ToOption(GetPropFromEnt(c, info.id, c.t.teams.team3.value)) else None;
    [EventField("t_" + info.friendlyName, t), EventField("ct_" + info.friendlyName, ct)]
  }

  /**
   * The team columns of an event show what the tick output shows for a
   * player of that side: a team property of a player on team 2 is the
   * "t_" column, on team 3 the "ct_" column.
   */
  lemma TeamColumnsMatchPlayers(c: Collector, info: PropInfo, id: int, player: PlayerMetaData, n: nat)
    requires info.propType == PropType.Team && n in {2, 3}
    requires TEAM_POINTER_KEY in c.pc.specialIds
    requires GetPropFromEnt(c, c.pc.specialIds[TEAM_POINTER_KEY], id) == Success(U32(n))
    requires TeamSlot(c.t.teams, n).Some?
    ensures FindOtherTeamProps(c, info)[n - 2].data == ToOption(FindProp(c, info, id, player))
  {
  }

  /** A rules column of an event is the value the tick output has for that property. */
  lemma RulesColumnMatchesOutput(c: Collector, info: PropInfo, id: int, player: PlayerMetaData)
    requires info.propType == PropType.Rules
    ensures FindOtherRulesProps(c, info)[0].data == ToOption(FindProp(c, info, id, player))
  {
  }

  /** The fields added for one non-player property: team sides, the rules value, or the game time. */
  function NonPlayerFields(c: Collector, info: PropInfo): seq<EventField> {
    match info.propType
    case Team => FindOtherTeamProps(c, info)
    case Rules => FindOtherRulesProps(c, info)
    case GameTime => [EventField("game_time", Some(F32(c.floats.round(c.netTick as real / 64.0))))]
    case _ => []
  }

  function NonPlayerPropsOf(c: Collector, infos: seq<PropInfo>): seq<EventField>
    decreases |infos|
  {
    if infos == [] then [] else NonPlayerFields(c, infos[0]) + NonPlayerPropsOf(c, infos[1..])
  }

  /** `find_non_player_props`. */
  function FindNonPlayerProps(c: Collector): seq<EventField> {
    NonPlayerPropsOf(c, c.pc.propInfos)
  }

  /**
   * `find_extra`: the tick, then the columns of every player role the
   * fields name, then the team, rules and game-time columns.
   */
  function FindExtra(c: Collector, fields: seq<EventField>): (r: seq<EventField>)
    ensures |r| > 0 && r[0] == EventField("tick", Some(I32(c.tick)))
  {
    [EventField("tick", Some(I32(c.tick)))] + PlayerFields(c, fields, FieldNames(fields)) + FindNonPlayerProps(c)
  }

  /* ---------------- parse_event ---------------- */

  /** A decoded `CSVCMsg_GameEvent`: the event id and its keys in order. */
  datatype EventMsg = EventMsg(eventId: int, keys: seq<KeyT>)

  /** The fields of an event: each key named by the descriptor's key at the same position. */
  function KeyFields(keys: seq<KeyT>, names: seq<string>): (r: seq<EventField>)
    requires |keys| <= |names|
    ensures |r| == |keys|
    ensures forall i | 0 <= i < |keys| :: r[i] == EventField(names[i], ParseKey(keys[i]))
  {
    seq(|keys|, i requires 0 <= i < |keys| => EventField(names[i], ParseKey(keys[i])))
  }

  /** `retain` of the fields whose name is not an internal one. */
  function RemoveInternal(fields: seq<EventField>): (r: seq<EventField>)
    ensures forall i | 0 <= i < |r| :: r[i].name !in INTERNAL_EVENT_FIELDS && r[i] in fields
    ensures forall f | f in fields && f.name !in INTERNAL_EVENT_FIELDS :: f in r
    decreases |fields|
  {
    if fields == [] then []
    else
      var rest := RemoveInternal(fields[1..]);
      if fields[0].name in INTERNAL_EVENT_FIELDS then rest else [fields[0]] + rest
  }

  /** `cleanups`: a numeric hit group becomes its name, or its number as text. */
  function CleanField(tables: EventTables, f: EventField): (r: EventField)
    ensures r.name == f.name
    ensures !(f.name == "hitgroup" && f.data.Some? && f.data.value.I32?) ==> r == f
    ensures f.name == "hitgroup" && f.data.Some? && f.data.value.I32? ==>
      r.data == Some(String(if f.data.value.i32 in tables.hitGroups then tables.hitGroups[f.data.value.i32] else IntToString(f.data.value.i32)))
  {
    if f.name == "hitgroup" && f.data.Some? && f.data.value.I32? then
      var i := f.data.value.i32;
      f.(data := Some(String(if i in tables.hitGroups then tables.hitGroups[i] else IntToString(i))))
    else f
  }

  function Cleanups(tables: EventTables, fields: seq<EventField>): (r: seq<EventField>)
    ensures |r| == |fields|
    ensures forall i | 0 <= i < |fields| :: r[i] == CleanField(tables, fields[i])
  {
    seq(|fields|, i requires 0 <= i < |fields| => CleanField(tables, fields[i]))
  }

  /** A stored event never carries an internal field. */
  predicate Clean(e: GameEvent) {
    forall i | 0 <= i < |e.fields| :: e.fields[i].name !in INTERNAL_EVENT_FIELDS
  }

  /** `st'` is `st` with at most one more stored event, which is clean and is not a server_cvar. */
  predicate StoresAtMostOneCleanEvent(st: EventState, st': EventState) {
    && |st.events| <= |st'.events| <= |st.events| + 1
    && st'.events[..|st.events|] == st.events
    && (|st'.events| > |st.events| ==> Clean(st'.events[|st.events|]) && st'.events[|st.events|].name !in REMOVED_EVENTS)
  }

  /**
   * `parse_event`: with no wanted events nothing is decoded; an event of
   * an unknown id is dropped; a known one is counted whether wanted or
   * not; a wanted one is stored with its extra fields, except that
   * events whose entities come first are handed back undecorated.
   */
  function ParseEvent(c: Collector, geList: map<int, FirstPass.Descriptor>, tables: EventTables, st: EventState, msg: Option<EventMsg>)
    : (r: Result<(Option<GameEvent>, EventState), Abort>)
    ensures |c.wantedEvents| == 0 ==> r == Success((None, st))
    ensures |c.wantedEvents| > 0 && msg.None? ==> r == Failure(Raised(MalformedMessage))
    ensures |c.wantedEvents| > 0 && msg.Some? && msg.value.eventId !in geList ==> r == Success((None, st))
    ensures r.Success? && msg.Some? && msg.value.eventId in geList && |c.wantedEvents| > 0 ==>
      r.value.1.counter == st.counter + {geList[msg.value.eventId].name}
    ensures r.Success? ==> StoresAtMostOneCleanEvent(st, r.value.1)
    ensures r.Success? && r.value.0.Some? ==> r.value.0.value.name in ENTITIES_FIRST_EVENTS && r.value.1.events == st.events
    ensures r.Failure? ==> r.error == Raised(MalformedMessage) || r.error == Panic
  {
    if |c.wantedEvents| == 0 then Success((None, st))
    else match msg
      case None => Failure(Raised(MalformedMessage))
      case Some(m) =>
        if m.eventId !in geList then Success((None, st))
        else
          var desc := geList[m.eventId];
          var counted := st.(counter := st.counter + {desc.name});
          if !Wanted(c.wantedEvents, desc.name) || desc.name in REMOVED_EVENTS then Success((None, counted))
          else if |m.keys| > |desc.keys| then Failure(Panic)
          else
            var fields := KeyFields(m.keys, desc.keys);
            if desc.name in ENTITIES_FIRST_EVENTS then Success((Some(GameEvent(desc.name, fields, c.tick)), counted))
            else
              var kept := RemoveInternal(fields + FindExtra(c, fields));
              var event := GameEvent(desc.name, Cleanups(tables, kept), c.tick);
              assert Clean(event);
              Success((None, counted.(events := counted.events + [event])))
  }

  /** An event that is not wanted is counted and nothing else changes. */
  lemma UnwantedEventOnlyCounted(c: Collector, geList: map<int, FirstPass.Descriptor>, tables: EventTables, st: EventState, m: EventMsg)
    requires |c.wantedEvents| > 0 && m.eventId in geList && !Wanted(c.wantedEvents, geList[m.eventId].name)
    ensures ParseEvent(c, geList, tables, st, Some(m)) == Success((None, st.(counter := st.counter + {geList[m.eventId].name})))
  {
  }

  /* ---------------- Events from entity updates ---------------- */

  /** What an entity update can signal (`GameEventInfo`). */
  datatype GameEventInfo =
    | RoundEnd(oldValue: Option<Variant>, newValue: Option<Variant>)
    | RoundWinReason(reason: int)
    | FreezePeriodStart
    | MatchEnd
    | WeaponCreateHitem(value: Variant, entid: int)
    | WeaponCreateNCost(value: Variant, entid: int)
    | WeaponCreateDefIdx(value: Variant, entid: int, propId: nat)
    | WeaponPurchaseCount(value: Variant, entid: int, propId: nat)

  const ROUND_END_COUNT_KEY: string := "CCSGameRulesProxy.CCSGameRules.m_nRoundEndCount"
  const ROUND_WIN_REASON_KEY: string := "CCSGameRulesProxy.CCSGameRules.m_eRoundWinReason"
  const ROUND_START_COUNT_KEY: string := "CCSGameRulesProxy.CCSGameRules.m_nRoundStartCount"
  const MATCH_END_COUNT_KEY: string := "CCSGameRulesProxy.CCSGameRules.m_nMatchEndCount"
  const TOTAL_ROUNDS_KEY: string := "CCSGameRulesProxy.CCSGameRules.m_totalRoundsPlayed"

  /** The special id recorded under `key` is `propId`. */
  predicate IsSpecial(pc: PropController, key: string, propId: nat) {
    key in pc.specialIds && pc.specialIds[key] == propId
  }

  /** `propId` lies in the id range of the flattened vector based at `base`. */
  predicate InVecRange(base: nat, propId: nat) {
    base <= propId < base + FLATTENED_VEC_MAX_LEN
  }

  /** The game-rules signals of a field update: round end, win reason, freeze period, match end. */
  function RulesSignals(before: Option<Variant>, result: Variant, id: nat, pc: PropController): (r: seq<GameEventInfo>)
    ensures RoundEnd(before, Some(result)) in r <==> IsSpecial(pc, ROUND_END_COUNT_KEY, id)
    ensures FreezePeriodStart in r <==> IsSpecial(pc, ROUND_START_COUNT_KEY, id)
    ensures MatchEnd in r <==> IsSpecial(pc, MATCH_END_COUNT_KEY, id)
    ensures (exists reason :: RoundWinReason(reason) in r) <==> IsSpecial(pc, ROUND_WIN_REASON_KEY, id) && result.I32?
    ensures forall x | x in r :: !x.WeaponCreateHitem? && !x.WeaponCreateNCost? && !x.WeaponCreateDefIdx? && !x.WeaponPurchaseCount?
  {
    var roundEnd := if IsSpecial(pc, ROUND_END_COUNT_KEY, id) then [RoundEnd(before, Some(result))] else [];
    var reason := if IsSpecial(pc, ROUND_WIN_REASON_KEY, id) && result.I32? then [RoundWinReason(result.i32)] else [];
    var freeze := if IsSpecial(pc, ROUND_START_COUNT_KEY, id) then [FreezePeriodStart] else [];
    var matchEnd := if IsSpecial(pc, MATCH_END_COUNT_KEY, id) then [MatchEnd] else [];
    assert reason != [] ==> RoundWinReason(result.i32) in roundEnd + reason + freeze + matchEnd;
    roundEnd + reason + freeze + matchEnd
  }

  /** The purchase signals of a field update, one per item-purchase vector range the id falls in. */
  function PurchaseSignals(result: Variant, entid: int, id: nat): (r: seq<GameEventInfo>)
    ensures WeaponCreateNCost(result, entid) in r <==> InVecRange(ITEM_PURCHASE_COST, id)
    ensures WeaponCreateHitem(result, entid) in r <==> InVecRange(ITEM_PURCHASE_HANDLE, id)
    ensures WeaponPurchaseCount(result, entid, id) in r <==> InVecRange(ITEM_PURCHASE_COUNT, id)
    ensures WeaponCreateDefIdx(result, entid, id) in r <==> InVecRange(ITEM_PURCHASE_DEF_IDX, id)
    ensures forall x | x in r :: x.WeaponCreateHitem? || x.WeaponCreateNCost? || x.WeaponCreateDefIdx? || x.WeaponPurchaseCount?
  {
    (if InVecRange(ITEM_PURCHASE_COST, id) then [WeaponCreateNCost(result, entid)] else [])
    + (if InVecRange(ITEM_PURCHASE_HANDLE, id) then [WeaponCreateHitem(result, entid)] else [])
    + (if InVecRange(ITEM_PURCHASE_COUNT, id) then [WeaponPurchaseCount(result, entid, id)] else [])
    + (if InVecRange(ITEM_PURCHASE_DEF_IDX, id) then [WeaponCreateDefIdx(result, entid, id)] else [])
  }

  /**
   * `listen_for_events`: the signals one decoded field value raises,
   * before it is stored into the entity: the game-rules signals from the
   * special ids, then the purchase signals from the item-purchase vector
   * ranges.  A field without property info raises nothing.
   */
  function ListenForEvents(e: Entity, result: Variant, fi: Option<FieldInfo>, pc: PropController): (r: seq<GameEventInfo>)
    ensures fi.None? ==> r == []
    ensures fi.Some? ==> (RoundEnd(if fi.value.propId in e.props then Some(e.props[fi.value.propId]) else None, Some(result)) in r
      <==> IsSpecial(pc, ROUND_END_COUNT_KEY, fi.value.propId))
    ensures fi.Some? ==> (FreezePeriodStart in r <==> IsSpecial(pc, ROUND_START_COUNT_KEY, fi.value.propId))
    ensures fi.Some? ==> (MatchEnd in r <==> IsSpecial(pc, MATCH_END_COUNT_KEY, fi.value.propId))
    ensures fi.Some? ==> ((exists reason :: RoundWinReason(reason) in r) <==> IsSpecial(pc, ROUND_WIN_REASON_KEY, fi.value.propId) && result.I32?)
    ensures fi.Some? ==> (WeaponCreateDefIdx(result, e.entityId, fi.value.propId) in r <==> InVecRange(ITEM_PURCHASE_DEF_IDX, fi.value.propId))
    ensures fi.Some? ==> (WeaponCreateNCost(result, e.entityId) in r <==> InVecRange(ITEM_PURCHASE_COST, fi.value.propId))
    ensures fi.Some? ==> (WeaponCreateHitem(result, e.entityId) in r <==> InVecRange(ITEM_PURCHASE_HANDLE, fi.value.propId))
    ensures fi.Some? ==> (WeaponPurchaseCount(result, e.entityId, fi.value.propId) in r <==> InVecRange(ITEM_PURCHASE_COUNT, fi.value.propId))
  {
    if fi.None? then []
    else
      var id := fi.value.propId;
      var before := if id in e.props then Some(e.props[id]) else None;
      var rules := RulesSignals(before, result, id, pc);
      var purchases := PurchaseSignals(result, e.entityId, id);
      assert forall reason :: RoundWinReason(reason) in rules + purchases <==> RoundWinReason(reason) in rules;
      rules + purchases
  }

  /**
   * A round-end signal carries the round-end count as stored before the
   * update and the count the update then stores.
   */
  lemma RoundEndSeesBothCounts(e: Entity, result: Variant, info: FieldInfo, pc: PropController)
    requires info.shouldParse && IsSpecial(pc, ROUND_END_COUNT_KEY, info.propId)
    ensures var before := if info.propId in e.props then Some(e.props[info.propId]) else None;
      && RoundEnd(before, Some(result)) in ListenForEvents(e, result, Some(info), pc)
      && InsertField(e, result, Some(info)).props[info.propId] == result
  {
  }

  /* ---------------- Purchases ---------------- */

  datatype PurchaseEvent = PurchaseEvent(entid: int, cost: int, name: Option<string>, weaponEntid: int, inventorySlot: nat)

  predicate IsPurchaseInfo(x: GameEventInfo) {
    x.WeaponCreateDefIdx? || x.WeaponCreateNCost? || x.WeaponCreateHitem?
  }

  /** The filter at the start of `combine_purchase_events`: the three purchase signals, in order. */
  function PurchaseInfos(infos: seq<GameEventInfo>): (r: seq<GameEventInfo>)
    ensures forall i | 0 <= i < |r| :: IsPurchaseInfo(r[i]) && r[i] in infos
    ensures forall x | x in infos && IsPurchaseInfo(x) :: x in r
    ensures (forall i | 0 <= i < |infos| :: IsPurchaseInfo(infos[i])) ==> r == infos
    decreases |infos|
  {
    if infos == [] then []
    else
      var rest := PurchaseInfos(infos[1..]);
      if IsPurchaseInfo(infos[0]) then [infos[0]] + rest else rest
  }

  /** A definition-index signal with a `U32` value at position `i`. */
  predicate DefIdxAt(f: seq<GameEventInfo>, i: nat) {
    i < |f| && f[i].WeaponCreateDefIdx? && f[i].value.U32?
  }

  /** A cost signal with an `I32` value at position `i`. */
  predicate CostAt(f: seq<GameEventInfo>, i: nat) {
    i < |f| && f[i].WeaponCreateNCost? && f[i].value.I32?
  }

  /** An item-handle signal with a `U64` value at position `i`. */
  predicate HandleAt(f: seq<GameEventInfo>, i: nat) {
    i < |f| && f[i].WeaponCreateHitem? && f[i].value.U64?
  }

  /**
   * The purchase a definition-index signal and its cost describe, for the
   * weapon entity `weapon`; the inventory slot is the offset of the
   * signal's id in the definition-index range, as a `u32` subtraction.
   */
  function Purchase(names: map<nat, string>, defIdx: GameEventInfo, cost: GameEventInfo, weapon: int): PurchaseEvent
    requires defIdx.WeaponCreateDefIdx? && defIdx.value.U32? && cost.WeaponCreateNCost? && cost.value.I32?
  {
    var def := defIdx.value.u32;
    PurchaseEvent(defIdx.entid, cost.value.i32, if def in names then Some(names[def]) else None, weapon,
                  WrapU32(defIdx.propId - ITEM_PURCHASE_DEF_IDX))
  }

  /**
   * The scan of `combine_purchase_events`: a definition index, a cost and
   * a handle make a purchase of the handle's weapon; a definition index
   * and a cost alone make one of no weapon (2047); anything else is
   * skipped one signal at a time.
   */
  function CombineFrom(names: map<nat, string>, f: seq<GameEventInfo>): (r: seq<PurchaseEvent>)
    ensures |r| <= |f|
    decreases |f|
  {
    if f == [] then []
    else if DefIdxAt(f, 0) && CostAt(f, 1) && HandleAt(f, 2) then
      [Purchase(names, f[0], f[1], HandleEntity(f[2].value.u64))] + CombineFrom(names, f[3..])
    else if DefIdxAt(f, 0) && CostAt(f, 1) then
      [Purchase(names, f[0], f[1], ENTITY_ID_NONE)] + CombineFrom(names, f[2..])
    else CombineFrom(names, f[1..])
  }

  /** `combine_purchase_events`. */
  function CombinePurchaseEvents(names: map<nat, string>, infos: seq<GameEventInfo>): seq<PurchaseEvent> {
    CombineFrom(names, PurchaseInfos(infos))
  }

  /** A buy as the entity updates announce it: item, cost, buyer, bought weapon handle (if any) and slot. */
  datatype Buy = Buy(def: nat, cost: int, entid: int, handle: Option<nat>, slot: nat)

  /** The signals one buy raises, in update order. */
  function BuyInfos(b: Buy): (r: seq<GameEventInfo>)
    ensures forall i | 0 <= i < |r| :: IsPurchaseInfo(r[i])
  {
    [WeaponCreateDefIdx(U32(b.def), b.entid, ITEM_PURCHASE_DEF_IDX + b.slot), WeaponCreateNCost(I32(b.cost), b.entid)]
    + (if b.handle.Some? then [WeaponCreateHitem(U64(b.handle.value), b.entid)] else [])
  }

  function BuysInfos(bs: seq<Buy>): (r: seq<GameEventInfo>)
    ensures forall i | 0 <= i < |r| :: IsPurchaseInfo(r[i])
    ensures |r| > 0 ==> r[0].WeaponCreateDefIdx?
    decreases |bs|
  {
    if bs == [] then [] else BuyInfos(bs[0]) + BuysInfos(bs[1..])
  }

  /** The purchase event a buy should produce. */
  function Bought(names: map<nat, string>, b: Buy): PurchaseEvent {
    PurchaseEvent(b.entid, b.cost, if b.def in names then Some(names[b.def]) else None,
                  if b.handle.Some? then HandleEntity(b.handle.value) else ENTITY_ID_NONE, b.slot)
  }

  lemma CombineOneBuy(names: map<nat, string>, b: Buy, rest: seq<GameEventInfo>)
    requires b.slot < FLATTENED_VEC_MAX_LEN
    requires |rest| > 0 ==> rest[0].WeaponCreateDefIdx?
    ensures CombineFrom(names, BuyInfos(b) + rest) == [Bought(names, b)] + CombineFrom(names, rest)
  {
    var f := BuyInfos(b) + rest;
    assert DefIdxAt(f, 0) && CostAt(f, 1);
    if b.handle.Some? {
      assert HandleAt(f, 2);
      assert f[3..] == rest;
    } else {
      assert f[2..] == rest;
      if |rest| > 0 {
        assert !HandleAt(f, 2);
      }
    }
  }

  /** The purchase events a run of buys should produce, one per buy in order. */
  function BoughtAll(names: map<nat, string>, bs: seq<Buy>): (r: seq<PurchaseEvent>)
    ensures |r| == |bs|
    ensures forall i | 0 <= i < |bs| :: r[i] == Bought(names, bs[i])
    decreases |bs|
  {
    if bs == [] then [] else [Bought(names, bs[0])] + BoughtAll(names, bs[1..])
  }

  /**
   * Combining the signals of a run of buys gives back exactly those
   * buys, in order, each with its weapon entity and inventory slot.
   */
  lemma {:induction false} CombineBuysRoundTrip(names: map<nat, string>, bs: seq<Buy>)
    requires forall i | 0 <= i < |bs| :: bs[i].slot < FLATTENED_VEC_MAX_LEN
    ensures CombinePurchaseEvents(names, BuysInfos(bs)) == BoughtAll(names, bs)
  {
    CombineBuysFrom(names, bs);
  }

  lemma {:induction false} CombineBuysFrom(names: map<nat, string>, bs: seq<Buy>)
    requires forall i | 0 <= i < |bs| :: bs[i].slot < FLATTENED_VEC_MAX_LEN
    ensures CombineFrom(names, BuysInfos(bs)) == BoughtAll(names, bs)
    decreases |bs|
  {
    if bs != [] {
      CombineBuysFrom(names, bs[1..]);
      CombineOneBuy(names, bs[0], BuysInfos(bs[1..]));
    }
  }

  /* ---------------- Round events ---------------- */

  /** The counts of the first round-end signal, if any (`extract_round_end`). */
  function ExtractRoundEnd(infos: seq<GameEventInfo>): (r: Option<GameEventInfo>)
    ensures r.Some? ==> r.value.RoundEnd? && r.value in infos
    ensures r.None? <==> forall i | 0 <= i < |infos| :: !infos[i].RoundEnd?
    decreases |infos|
  {
    if infos == [] then None
    else if infos[0].RoundEnd? then Some(infos[0])
    else ExtractRoundEnd(infos[1..])
  }

  /** The first win-reason signal's reason through `table`, or its number as text (`extract_win_reason`, `extract_winner`). */
  function ExtractReason(table: map<int, string>, infos: seq<GameEventInfo>): (r: Option<Variant>)
    ensures r.Some? <==> exists i | 0 <= i < |infos| :: infos[i].RoundWinReason?
    ensures r.Some? ==> r.value.String?
    decreases |infos|
  {
    if infos == [] then None
    else if infos[0].RoundWinReason? then
      var n := infos[0].reason;
      Some(String(if n in table then table[n] else IntToString(n)))
    else ExtractReason(table, infos[1..])
  }

  /** The round-end counts step by one: both `U32`, and `new - old` is 1 as a wrapping `u32` subtraction. */
  predicate CountsStepByOne(e: GameEventInfo)
    requires e.RoundEnd?
  {
    && e.oldValue.Some? && e.oldValue.value.U32?
    && e.newValue.Some? && e.newValue.value.U32?
    && WrapU32(e.newValue.value.u32 - e.oldValue.value.u32) == 1
  }

  /**
   * The round_end event the signals describe: present only when the
   * first round-end signal steps the count by one; its round is the old
   * count plus one (wrapping), then come the reason, the winner and the
   * tick.
   */
  function RoundEndEvent(c: Collector, tables: EventTables, infos: seq<GameEventInfo>): (r: Option<GameEvent>)
    ensures r.Some? <==> ExtractRoundEnd(infos).Some? && CountsStepByOne(ExtractRoundEnd(infos).value)
    ensures r.Some? ==> r.value.name == "round_end" && r.value.tick == c.tick
  {
    match ExtractRoundEnd(infos)
    case None => None
    case Some(e) =>
      if CountsStepByOne(e) then
        var fields := FindNonPlayerProps(c) + [
          EventField("round", Some(U32(WrapU32(e.oldValue.value.u32 + 1)))),
          EventField("reason", ExtractReason(tables.winReasons, infos)),
          EventField("winner", ExtractReason(tables.winners, infos)),
          EventField("tick", Some(I32(c.tick)))];
        Some(GameEvent("round_end", fields, c.tick))
      else None
  }

  /**
   * The round number a round_end event reports is the new round-end
   * count itself, also when the count wraps from `u32::MAX` to 0.
   */
  lemma RoundIsNewCount(c: Collector, tables: EventTables, infos: seq<GameEventInfo>)
    requires RoundEndEvent(c, tables, infos).Some?
    requires var e := ExtractRoundEnd(infos).value; IsU32(e.oldValue.value.u32) && IsU32(e.newValue.value.u32)
    ensures var e := ExtractRoundEnd(infos).value;
      var fields := RoundEndEvent(c, tables, infos).value.fields;
      fields[|fields| - 4] == EventField("round", Some(U32(e.newValue.value.u32)))
  {
    var e := ExtractRoundEnd(infos).value;
    var o, n := e.oldValue.value.u32, e.newValue.value.u32;
    assert (n - o - 1) % U32_LIMIT == 0;
    StepByOneModulo(o, n);
  }

  lemma StepByOneModulo(o: nat, n: nat)
    requires IsU32(o) && IsU32(n) && (n - o - 1) % U32_LIMIT == 0
    ensures WrapU32(o + 1) == n
  {
    if n - o - 1 != 0 {
      assert n - o - 1 == 0 - U32_LIMIT as int;
    }
  }

  /**
   * `create_custom_event_round_end` as written: after storing the event
   * it records "rank_update", not "round_end", in the event counter.
   */
  function CreateRoundEndAsWritten(c: Collector, tables: EventTables, st: EventState, infos: seq<GameEventInfo>): (r: EventState)
  {
    var counted := st.(counter := st.counter + {"round_end"});
    if !Wanted(c.wantedEvents, "round_end") then counted
    else match RoundEndEvent(c, tables, infos)
      case None => counted
      case Some(ev) => counted.(events := counted.events + [ev], counter := counted.counter + {"rank_update"})
  }

  /** A round end with nothing but "all" wanted puts rank_update in the counter though no rank update was seen. */
  lemma RoundEndCountsRankUpdate(c: Collector, tables: EventTables)
    requires c.wantedEvents == ["all"]
    ensures var infos := [RoundEnd(Some(U32(4)), Some(U32(5)))];
      "rank_update" in CreateRoundEndAsWritten(c, tables, EventState([], {}), infos).counter
  {
    var infos := [RoundEnd(Some(U32(4)), Some(U32(5)))];
    assert ExtractRoundEnd(infos) == Some(infos[0]);
    assert CountsStepByOne(infos[0]);
  }

  /**
   * `create_custom_event_round_end`: round_end is always counted; when
   * it is wanted and the counts step by one, the event is stored.  The
   * counter gains round_end and nothing else.
   */
  function CreateRoundEnd(c: Collector, tables: EventTables, st: EventState, infos: seq<GameEventInfo>): (r: EventState)
    ensures r.counter == st.counter + {"round_end"}
    ensures r.events == st.events + (if Wanted(c.wantedEvents, "round_end") && RoundEndEvent(c, tables, infos).Some?
                                     then [RoundEndEvent(c, tables, infos).value] else [])
  {
    var counted := st.(counter := st.counter + {"round_end"});
    if !Wanted(c.wantedEvents, "round_end") then counted
    else match RoundEndEvent(c, tables, infos)
      case None => counted
      case Some(ev) => counted.(events := counted.events + [ev])
  }

  /**
   * A wanted round end whose count steps by one stores exactly one
   * event, after the ones already stored, naming the round the count
   * moved to.
   */
  lemma RoundEndStoresNewRound(c: Collector, tables: EventTables, st: EventState, infos: seq<GameEventInfo>, o: nat, n: nat)
    requires Wanted(c.wantedEvents, "round_end")
    requires ExtractRoundEnd(infos) == Some(RoundEnd(Some(U32(o)), Some(U32(n))))
    requires IsU32(o) && IsU32(n) && WrapU32(n - o) == 1
    ensures var r := CreateRoundEnd(c, tables, st, infos);
      && |r.events| == |st.events| + 1 && r.events[..|st.events|] == st.events
      && var f := r.events[|st.events|].fields;
         |f| >= 4 && f[|f| - 4] == EventField("round", Some(U32(n)))
  {
    RoundIsNewCount(c, tables, infos);
  }

  /** The code as written stores the same events; its counter differs only by rank_update, exactly when an event was stored. */
  lemma AsWrittenOnlyAddsRankUpdate(c: Collector, tables: EventTables, st: EventState, infos: seq<GameEventInfo>)
    ensures var w, r := CreateRoundEndAsWritten(c, tables, st, infos), CreateRoundEnd(c, tables, st, infos);
      && w.events == r.events
      && w.counter == r.counter + (if |r.events| > |st.events| then {"rank_update"} else {})
  {
  }

  /** `find_current_round`: the rounds played so far plus one (wrapping `i32`), when the rules entity has them. */
  function FindCurrentRound(c: Collector): (r: Option<Variant>)
    ensures r.Some? ==> r.value.I32? && IsI32(r.value.i32)
    ensures r.Some? <==> (TOTAL_ROUNDS_KEY in c.pc.specialIds && c.t.rulesEntityId.Some?
      && GetRulesProp(c, c.pc.specialIds[TOTAL_ROUNDS_KEY]).Success? && GetRulesProp(c, c.pc.specialIds[TOTAL_ROUNDS_KEY]).value.I32?)
  {
    if TOTAL_ROUNDS_KEY !in c.pc.specialIds then None
    else match c.t.rulesEntityId
      case None => None
      case Some(e) =>
        match GetPropFromEnt(c, c.pc.specialIds[TOTAL_ROUNDS_KEY], e)
        case Success(I32(v)) => Some(I32(WrapI32(v + 1)))
        case _ => None
  }

  /**
   * `create_custom_event_round_officially_ended`: always counted; stored
   * when wanted unless the current round is known to be the first (or
   * earlier), since no round came before it.
   */
  function CreateRoundOfficiallyEnded(c: Collector, st: EventState): (r: EventState)
    ensures r.counter == st.counter + {"round_officially_ended"}
    ensures |r.events| == |st.events| + (if Wanted(c.wantedEvents, "round_officially_ended") &&
      !(FindCurrentRound(c).Some? && FindCurrentRound(c).value.i32 <= 1) then 1 else 0)
    ensures r.events[..|st.events|] == st.events
  {
    var counted := st.(counter := st.counter + {"round_officially_ended"});
    if !Wanted(c.wantedEvents, "round_officially_ended") then counted
    else
      var round := FindCurrentRound(c);
      if round.Some? && round.value.i32 <= 1 then counted
      else
        var fields := FindNonPlayerProps(c) + [EventField("tick", Some(I32(c.tick)))];
        counted.(events := counted.events + [GameEvent("round_officially_ended", fields, c.tick)])
  }

  /** With no round played yet, the first freeze period publishes no round_officially_ended. */
  lemma NoOfficialEndBeforeFirstRound(c: Collector, st: EventState)
    requires TOTAL_ROUNDS_KEY in c.pc.specialIds && c.t.rulesEntityId.Some?
    requires GetRulesProp(c, c.pc.specialIds[TOTAL_ROUNDS_KEY]) == Success(I32(0))
    ensures CreateRoundOfficiallyEnded(c, st).events == st.events
  {
  }
}
