/**
 * The property controller of first_pass/prop_controller.rs: it walks
 * every serializer once, gives each property name an id, records the
 * `PropInfo` of every property the caller asked for, and overrides the
 * ids of the vector properties the decoder flattens.
 *
 * The static tables of the `maps` crate (BUTTONMAP, CUSTOM_PLAYER_PROP_IDS,
 * TYPEHM) are parameters.
 */
module PropControl {
  import opened Wrappers
  import opened Ints
  import opened Errors
  import opened Text
  import opened Variants
  import opened Sendtables
  import opened PropIds

  datatype PropType = Team | Rules | Custom | Controller | Player | Weapon | Button | Name | Steamid | Tick | GameTime

  datatype PropInfo = PropInfo(id: nat, propType: PropType, propName: string, friendlyName: string, isPlayerProp: bool)

  datatype WantedPropStateInfo = WantedPropStateInfo(base: PropInfo, wantedPropState: Variant)

  /**
   * The static tables the controller reads: those of the `maps` crate,
   * in their iteration order, the two name lists of `set_special_ids`,
   * and the names whose ids `handle_prop` fixes (for the source's names,
   * see `SourceNames`).
   */
  datatype Tables = Tables(
    buttonNames: seq<string>,
    customPlayerPropIds: seq<(string, nat)>,
    typeHm: map<string, PropType>,
    weaponSpecialNames: set<string>,
    otherSpecialNames: set<string>,
    exactIds: map<string, nat>,
    rawValueName: string)

  datatype PropController = PropController(
    /** The next fresh id (`u32`). */
    id: nat,
    wantedPlayerProps: seq<string>,
    wantedOtherProps: seq<string>,
    wantedPropStates: map<string, Variant>,
    realNameToOgName: map<string, string>,
    propInfos: seq<PropInfo>,
    nameToId: map<string, nat>,
    idToName: map<nat, string>,
    /** The `SpecialIDs` fields, keyed by the property name `set_special_ids` matches. */
    specialIds: map<string, nat>,
    pathToName: map<seq<int>, string>,
    wantedPropStateInfos: seq<WantedPropStateInfo>,
    eventWithVelocity: bool,
    needsVelocity: bool,
    parseProjectiles: bool)

  /** `PropController::new`. */
  function NewController(
    wantedPlayerProps: seq<string>, wantedOtherProps: seq<string>, wantedPropStates: map<string, Variant>,
    realNameToOgName: map<string, string>, needsVelocity: bool, wantedEvents: seq<string>, parseProjectiles: bool)
    : (c: PropController)
    ensures c.id == NORMAL_PROP_BASEID && c.propInfos == [] && c.nameToId == map[] && c.idToName == map[]
    ensures c.eventWithVelocity <==> |wantedEvents| > 0 && needsVelocity
    ensures Consistent(c)
  {
    PropController(NORMAL_PROP_BASEID, wantedPlayerProps, wantedOtherProps, wantedPropStates, realNameToOgName,
      [], map[], map[], map[], map[], [], wantedEvents != [] && needsVelocity, needsVelocity, parseProjectiles)
  }

  /** A name table and its inverse agree in both directions. */
  predicate Agree(nameToId: map<string, nat>, idToName: map<nat, string>) {
    && (forall n | n in nameToId :: nameToId[n] in idToName && idToName[nameToId[n]] == n)
    && (forall i | i in idToName :: idToName[i] in nameToId && nameToId[idToName[i]] == i)
  }

  predicate NamesAgree(c: PropController) {
    Agree(c.nameToId, c.idToName)
  }

  /** Every id the name table holds is below `bound`. */
  predicate IdsBelow(c: PropController, bound: nat) {
    forall n | n in c.nameToId :: c.nameToId[n] < bound
  }

  /** A fresh name with an id the tables do not hold keeps them in agreement. */
  lemma AgreeAdd(nameToId: map<string, nat>, idToName: map<nat, string>, name: string, id: nat)
    requires Agree(nameToId, idToName) && name !in nameToId
    requires forall n | n in nameToId :: nameToId[n] != id
    ensures Agree(nameToId[name := id], idToName[id := name])
  {
    assert forall i | i in idToName :: nameToId[idToName[i]] == i;
  }

  /** Writing a known name's id back into the inverse changes nothing. */
  lemma AgreeKnown(nameToId: map<string, nat>, idToName: map<nat, string>, name: string)
    requires Agree(nameToId, idToName) && name in nameToId
    ensures idToName[nameToId[name] := name] == idToName
  {
  }

  /** The name tables agree and every id in them was handed out before the counter. */
  predicate Consistent(c: PropController) {
    NamesAgree(c) && IdsBelow(c, c.id)
  }

  /** `c'` has every `PropInfo` of `c`, in the same places. */
  predicate Extends(c: PropController, c': PropController) {
    |c.propInfos| <= |c'.propInfos| && c'.propInfos[..|c.propInfos|] == c.propInfos
  }

  lemma ExtendsTrans(a: PropController, b: PropController, c: PropController)
    requires Extends(a, b) && Extends(b, c)
    ensures Extends(a, c)
  {
    assert c.propInfos[..|a.propInfos|] == c.propInfos[..|b.propInfos|][..|a.propInfos|];
  }

  /**
   * `c'` is `c` after `n` calls of `handle_prop`: the counter moved on by
   * `n` (as `u32`), every `PropInfo` stayed, and the tables stay
   * consistent as long as the counter did not wrap.
   */
  predicate Grows(c: PropController, c': PropController, n: nat) {
    && IsU32(c'.id) && c'.id == WrapU32(c.id + n)
    && Extends(c, c')
    && (Consistent(c) && c.id + n <= U32_MAX ==> Consistent(c'))
  }

  lemma GrowsTrans(a: PropController, b: PropController, c: PropController, n: nat, m: nat)
    requires IsU32(a.id) && Grows(a, b, n) && Grows(b, c, m)
    ensures Grows(a, c, n + m)
  {
    ExtendsTrans(a, b, c);
    WrapU32AddTwice(a.id + n, m);
  }

  /* ---------------- Names ---------------- */

  /** `is_grenade_or_weapon`: decided by the class name before the first '.'. */
  predicate IsGrenadeOrWeapon(fullName: string) {
    var head := FirstComponent(fullName);
    var isWeapon :=
      ((Contains(head, "Weapon") || Contains(head, "AK")) && !Contains(head, "Player"))
      || Contains(head, "Knife") || Contains(head, "CDEagle") || Contains(head, "C4")
      || Contains(head, "Molo") || Contains(head, "Inc") || Contains(head, "Infer");
    var isProjectile :=
      (Contains(head, "Projectile") || Contains(head, "Grenade") || Contains(head, "Flash")) && !Contains(head, "Player");
    isWeapon || isProjectile
  }

  /** Names with the same first component are classified alike. */
  lemma ClassifiedByFirstComponent(a: string, b: string)
    requires FirstComponent(a) == FirstComponent(b)
    ensures IsGrenadeOrWeapon(a) == IsGrenadeOrWeapon(b)
    ensures IsGrenadeOrWeapon(a) == IsGrenadeOrWeapon(FirstComponent(a))
  {
    FirstComponentIdempotent(a);
  }

  /** `split_weapon_prefix_from_prop_name`: weapon and grenade names lose their class name. */
  function SplitWeaponPrefix(fullName: string): (name: string)
    ensures !IsGrenadeOrWeapon(fullName) ==> name == fullName
    ensures IsGrenadeOrWeapon(fullName) && FirstDot(fullName) >= 0 ==> FirstComponent(fullName) + "." + name == fullName
    ensures IsGrenadeOrWeapon(fullName) && FirstDot(fullName) == -1 ==> name == ""
  {
    if IsGrenadeOrWeapon(fullName) then AfterFirstDot(fullName) else fullName
  }

  /** `vec_to_arr`: the path padded to seven slots; a longer path indexes past the array and panics. */
  function PadPath(path: seq<int>): (r: Result<seq<int>, Abort>)
    ensures r.Success? <==> |path| <= 7
    ensures r.Failure? ==> r.error == Panic
    ensures r.Success? ==> (|r.value| == 7 && r.value[..|path|] == path
      && forall k | |path| <= k < 7 :: r.value[k] == 0)
  {
    if |path| > 7 then Failure(Panic) else Success(path + seq(7 - |path|, _ => 0))
  }

  /* ---------------- Ids ---------------- */

  /** The weapon and grenade names `set_special_ids` records. */
  const WEAPON_SPECIAL_NAMES: set<string> := {
    "m_bIsIncGrenade", "m_hOwnerEntity", "m_nOwnerId",
    "CBodyComponentBaseAnimGraph.m_vecX", "CBodyComponentBaseAnimGraph.m_vecY", "CBodyComponentBaseAnimGraph.m_vecZ",
    "CBodyComponentBaseAnimGraph.m_cellX", "CBodyComponentBaseAnimGraph.m_cellY", "CBodyComponentBaseAnimGraph.m_cellZ",
    "m_iItemDefinitionIndex", "m_OriginalOwnerXuidLow", "m_OriginalOwnerXuidHigh", "m_szCustomName"}

  /** The other names `set_special_ids` records. */
  const OTHER_SPECIAL_NAMES: set<string> := {
    "CCSGameRulesProxy.CCSGameRules.m_nRoundStartCount", "CCSGameRulesProxy.CCSGameRules.m_nRoundEndCount",
    "CCSGameRulesProxy.CCSGameRules.m_nMatchEndCount", "CCSGameRulesProxy.CCSGameRules.m_eRoundWinReason",
    "CCSGameRulesProxy.CCSGameRules.m_totalRoundsPlayed", "CCSTeam.m_iTeamNum", "CCSPlayerPawn.m_iTeamNum",
    "CBasePlayerWeapon.m_nOwnerId", "CCSPlayerController.m_iTeamNum", "CCSPlayerController.m_iszPlayerName",
    "CCSPlayerController.m_steamID", "CCSPlayerController.m_hPlayerPawn",
    "CCSPlayerPawn.CBodyComponentBaseAnimGraph.m_cellX", "CCSPlayerPawn.CCSPlayer_MovementServices.m_nButtonDownMaskPrev",
    "CCSPlayerPawn.CBodyComponentBaseAnimGraph.m_vecX", "CCSPlayerPawn.CBodyComponentBaseAnimGraph.m_cellY",
    "CCSPlayerPawn.m_angEyeAngles", "CCSPlayerPawn.CBodyComponentBaseAnimGraph.m_vecY",
    "CCSPlayerPawn.CBodyComponentBaseAnimGraph.m_cellZ", "CCSPlayerPawn.CBodyComponentBaseAnimGraph.m_vecZ",
    "CCSPlayerPawn.CCSPlayer_WeaponServices.m_hActiveWeapon", "CCSPlayerPawn.m_lifeState",
    "CCSPlayerController.m_nPawnCharacterDefIndex", "CCSPlayerPawn.m_bInBuyZone", "CCSPlayerPawn.m_hGroundEntity"}

  /** `set_special_ids`: a name of the list for its kind records its id. */
  function SetSpecialIds(c: PropController, tables: Tables, name: string, isGrenadeOrWeapon: bool, id: nat): (r: PropController)
    ensures r == c.(specialIds := r.specialIds)
    ensures (if isGrenadeOrWeapon then name in tables.weaponSpecialNames else name in tables.otherSpecialNames)
      ==> r.specialIds == c.specialIds[name := id]
    ensures !(if isGrenadeOrWeapon then name in tables.weaponSpecialNames else name in tables.otherSpecialNames)
      ==> r.specialIds == c.specialIds
  {
    var table := if isGrenadeOrWeapon then tables.weaponSpecialNames else tables.otherSpecialNames;
    if name in table then c.(specialIds := c.specialIds[name := id]) else c
  }

  /** `set_id`: a known name keeps its id, a new one takes the counter. */
  function SetId(c: PropController, tables: Tables, name: string, isGrenadeOrWeapon: bool): (r: (PropController, nat))
    ensures name in c.nameToId ==> r.1 == c.nameToId[name] && r.0.nameToId == c.nameToId
    ensures name !in c.nameToId ==> r.1 == c.id && r.0.nameToId == c.nameToId[name := c.id]
    ensures r.0.idToName == c.idToName[r.1 := name]
    ensures r.0.id == c.id && r.0.propInfos == c.propInfos && r.0.wantedPropStateInfos == c.wantedPropStateInfos
    ensures Consistent(c) ==> NamesAgree(r.0) && IdsBelow(r.0, c.id + 1)
  {
    if name in c.nameToId then
      var id := c.nameToId[name];
      if Consistent(c) then
        AgreeKnown(c.nameToId, c.idToName, name);
        (SetSpecialIds(c.(idToName := c.idToName[id := name]), tables, name, isGrenadeOrWeapon, id), id)
      else (SetSpecialIds(c.(idToName := c.idToName[id := name]), tables, name, isGrenadeOrWeapon, id), id)
    else
      var c1 := c.(nameToId := c.nameToId[name := c.id], idToName := c.idToName[c.id := name]);
      if Consistent(c) then
        AgreeAdd(c.nameToId, c.idToName, name, c.id);
        (SetSpecialIds(c1, tables, name, isGrenadeOrWeapon, c.id), c.id)
      else (SetSpecialIds(c1, tables, name, isGrenadeOrWeapon, c.id), c.id)
  }

  /** The entity kind a property name's class implies, before the weapon and table overrides. */
  function PrefixType(propName: string): (t: Option<PropType>)
    ensures t.Some? ==> t.value in {Rules, Team, Player, Controller}
  {
    var head := FirstComponent(propName);
    if head == "CCSGameRulesProxy" then Some(Rules)
    else if head == "CCSTeam" then Some(Team)
    else if head == "CCSPlayerPawn" then Some(Player)
    else if head == "CCSPlayerController" then Some(Controller)
    else None
  }

  /** The type `insert_propinfo` settles on: the table entry, else weapon, else the class prefix. */
  function ResolvedType(tables: Tables, fullName: string): (t: Option<PropType>)
    ensures SplitWeaponPrefix(fullName) in tables.typeHm ==> t == Some(tables.typeHm[SplitWeaponPrefix(fullName)])
    ensures SplitWeaponPrefix(fullName) !in tables.typeHm && IsGrenadeOrWeapon(fullName) ==> t == Some(Weapon)
    ensures t.None? <==> (SplitWeaponPrefix(fullName) !in tables.typeHm && !IsGrenadeOrWeapon(fullName)
      && PrefixType(fullName).None?)
  {
    var propName := SplitWeaponPrefix(fullName);
    var prefix := if IsGrenadeOrWeapon(fullName) then Some(Weapon) else PrefixType(propName);
    if propName in tables.typeHm then Some(tables.typeHm[propName]) else prefix
  }

  function FriendlyName(c: PropController, propName: string): string {
    if propName in c.realNameToOgName then c.realNameToOgName[propName] else propName
  }

  /**
   * The `PropInfo`s `insert_propinfo` pushes for a property of type `t`:
   * one per list that wants the name, the player one first.
   */
  function NewInfos(c: PropController, propName: string, t: PropType, propId: nat): (infos: seq<PropInfo>)
    ensures |infos| == (if propName in c.wantedPlayerProps then 1 else 0) + (if propName in c.wantedOtherProps then 1 else 0)
    ensures forall k | 0 <= k < |infos| ::
      infos[k].id == propId && infos[k].propName == propName && infos[k].propType == t
      && infos[k].friendlyName == FriendlyName(c, propName)
    ensures |infos| > 0 ==> infos[0].isPlayerProp == (propName in c.wantedPlayerProps)
  {
    var info := PropInfo(propId, t, propName, FriendlyName(c, propName), true);
    if propName in c.wantedPlayerProps then
      if propName in c.wantedOtherProps then [info, info.(isPlayerProp := false)] else [info]
    else if propName in c.wantedOtherProps then [info.(isPlayerProp := false)] else []
  }

  /** The state entry `insert_propinfo` pushes when a state is wanted for the name. */
  function NewStates(c: PropController, propName: string, t: PropType, propId: nat): (states: seq<WantedPropStateInfo>)
    ensures |states| == (if propName in c.wantedPropStates then 1 else 0)
    ensures |states| == 1 ==> states[0].base.id == propId && states[0].base.propName == propName && states[0].base.isPlayerProp
  {
    if propName in c.wantedPropStates
    then [WantedPropStateInfo(PropInfo(propId, t, propName, FriendlyName(c, propName), true), c.wantedPropStates[propName])]
    else []
  }

  /** `insert_propinfo`: a property with a resolved type is recorded once per list that wants it. */
  function InsertPropinfo(c: PropController, tables: Tables, fullName: string, propId: nat): (r: PropController)
    ensures r.nameToId == c.nameToId && r.idToName == c.idToName && r.id == c.id && r.pathToName == c.pathToName
    ensures Extends(c, r)
  {
    match ResolvedType(tables, fullName)
    case None => c
    case Some(t) =>
      var name := SplitWeaponPrefix(fullName);
      var infos := c.propInfos + NewInfos(c, name, t, propId);
      assert infos[..|c.propInfos|] == c.propInfos;
      c.(propInfos := infos, wantedPropStateInfos := c.wantedPropStateInfos + NewStates(c, name, t, propId))
  }

  /**
   * What `insert_propinfo` records: nothing for a name without a type,
   * otherwise entries under the name without its weapon class, with the
   * resolved type and the given id.
   */
  lemma InsertPropinfoRecords(c: PropController, tables: Tables, fullName: string, propId: nat)
    ensures var r := InsertPropinfo(c, tables, fullName, propId); var name := SplitWeaponPrefix(fullName);
      && (ResolvedType(tables, fullName).None? ==> r == c)
      && (ResolvedType(tables, fullName).Some? ==>
        && |r.propInfos| == |c.propInfos| + (if name in c.wantedPlayerProps then 1 else 0)
          + (if name in c.wantedOtherProps then 1 else 0)
        && forall k | |c.propInfos| <= k < |r.propInfos| ::
          r.propInfos[k].id == propId && r.propInfos[k].propName == name
          && Some(r.propInfos[k].propType) == ResolvedType(tables, fullName))
  {
    var r := InsertPropinfo(c, tables, fullName, propId);
    if ResolvedType(tables, fullName).Some? {
      var added := NewInfos(c, SplitWeaponPrefix(fullName), ResolvedType(tables, fullName).value, propId);
      assert forall k | |c.propInfos| <= k < |r.propInfos| :: r.propInfos[k] == added[k - |c.propInfos|];
    }
  }

  const MY_WEAPONS_NAME: string := "CCSPlayerPawn.CCSPlayer_WeaponServices.m_hMyWeapons"
  const PURCHASE_COUNT_NAME: string := "CCSPlayerPawn.CCSPlayer_ActionTrackingServices.WeaponPurchaseCount_t.m_nCount"
  const PURCHASE_DEF_IDX_NAME: string := "CCSPlayerPawn.CCSPlayer_BuyServices.SellbackPurchaseEntry_t.m_unDefIdx"
  const PURCHASE_COST_NAME: string := "CCSPlayerPawn.CCSPlayer_BuyServices.SellbackPurchaseEntry_t.m_nCost"
  const PURCHASE_NEW_DEF_IDX_NAME: string := "CCSPlayerPawn.CCSPlayer_ActionTrackingServices.WeaponPurchaseCount_t.m_nItemDefIndex"
  const PURCHASE_HANDLE_NAME: string := "CCSPlayerPawn.CCSPlayer_BuyServices.SellbackPurchaseEntry_t.m_hItem"
  const RAW_VALUE_32: string := "CEconItemAttribute.m_iRawValue32"

  /** The ids the six exact names of `handle_prop` fix. */
  const EXACT_IDS: map<string, nat> := map[
    MY_WEAPONS_NAME := MY_WEAPONS_OFFSET,
    PURCHASE_COUNT_NAME := ITEM_PURCHASE_COUNT,
    PURCHASE_DEF_IDX_NAME := ITEM_PURCHASE_DEF_IDX,
    PURCHASE_COST_NAME := ITEM_PURCHASE_COST,
    PURCHASE_NEW_DEF_IDX_NAME := ITEM_PURCHASE_NEW_DEF_IDX,
    PURCHASE_HANDLE_NAME := ITEM_PURCHASE_HANDLE]

  /** The names the source's controller matches. */
  predicate SourceNames(tables: Tables) {
    && tables.weaponSpecialNames == WEAPON_SPECIAL_NAMES && tables.otherSpecialNames == OTHER_SPECIAL_NAMES
    && tables.exactIds == EXACT_IDS && tables.rawValueName == RAW_VALUE_32
  }

  /**
   * The fixed ids `handle_prop` writes over the name's id.  The source
   * tests the six exact names and then the two attribute cases one after
   * another, so an attribute match wins over an exact name; the exact
   * names are distinct, so at most one of them matches.
   */
  function OverrideId(tables: Tables, fullName: string, id: nat): (r: nat)
    ensures Contains(SplitWeaponPrefix(fullName), tables.rawValueName) ==>
      r == (if StartsWith(fullName, "CCSPlayerPawn") then GLOVE_PAINT_ID else WEAPON_SKIN_ID)
    ensures !Contains(SplitWeaponPrefix(fullName), tables.rawValueName) && fullName in tables.exactIds ==>
      r == tables.exactIds[fullName]
    ensures !Contains(SplitWeaponPrefix(fullName), tables.rawValueName) && fullName !in tables.exactIds ==> r == id
  {
    if Contains(SplitWeaponPrefix(fullName), tables.rawValueName) then
      if StartsWith(fullName, "CCSPlayerPawn") then GLOVE_PAINT_ID else WEAPON_SKIN_ID
    else if fullName in tables.exactIds then tables.exactIds[fullName]
    else id
  }

  /**
   * The bookkeeping of `handle_prop` for a padded path `a`: the path
   * names the property, the name gets its id, and a name seen for the
   * first time has its `PropInfo` recorded.
   */
  function NameProp(c: PropController, tables: Tables, fullName: string, a: seq<int>): (r: (PropController, nat))
    ensures var name := SplitWeaponPrefix(fullName);
      && name in r.0.nameToId && r.1 == r.0.nameToId[name]
      && (name in c.nameToId ==> r.0.nameToId == c.nameToId && r.0.propInfos == c.propInfos)
      && (name !in c.nameToId ==> r.1 == c.id && r.0.nameToId == c.nameToId[name := c.id])
      && r.0.pathToName == c.pathToName[a := name]
    ensures r.0.id == c.id && Extends(c, r.0)
  {
    var propName := SplitWeaponPrefix(fullName);
    var c1 := c.(pathToName := c.pathToName[a := propName]);
    var (c2, id) := SetId(c1, tables, propName, IsGrenadeOrWeapon(fullName));
    if propName in c.nameToId then (c2, id) else (InsertPropinfo(c2, tables, fullName, id), id)
  }

  /**
   * Two full names that lose their class name to the same property name
   * share one id: naming the second one hands out no new id and records
   * no new `PropInfo`.
   */
  lemma SharedPropName(c: PropController, tables: Tables, first: string, second: string, a1: seq<int>, a2: seq<int>)
    requires SplitWeaponPrefix(first) == SplitWeaponPrefix(second)
    ensures var (c1, id1) := NameProp(c, tables, first, a1);
      var (c2, id2) := NameProp(c1, tables, second, a2);
      id2 == id1 && c2.propInfos == c1.propInfos && c2.nameToId == c1.nameToId
  {
  }

  /** A property of a weapon or grenade class is named without its class. */
  lemma WeaponPropName(cls: string, prop: string)
    requires forall j | 0 <= j < |cls| :: cls[j] != '.'
    requires IsGrenadeOrWeapon(cls)
    ensures SplitWeaponPrefix(cls + "." + prop) == prop
  {
    var s := cls + "." + prop;
    FirstDotOfJoin(cls, prop);
    assert FirstComponent(s) == cls;
    NoDotFirstDot(cls);
    ClassifiedByFirstComponent(s, cls);
    assert s[|cls| + 1..] == prop;
  }

  /**
   * The same property of two weapon classes (the clip of the AK-47 and of
   * the SCAR-20, say) is one property: naming it under the second class
   * hands out no new id and records no new `PropInfo`.
   */
  lemma WeaponClassesShareProps(c: PropController, tables: Tables, cls1: string, cls2: string, prop: string,
                                a1: seq<int>, a2: seq<int>)
    requires forall j | 0 <= j < |cls1| :: cls1[j] != '.'
    requires forall j | 0 <= j < |cls2| :: cls2[j] != '.'
    requires IsGrenadeOrWeapon(cls1) && IsGrenadeOrWeapon(cls2)
    ensures var (c1, id1) := NameProp(c, tables, cls1 + "." + prop, a1);
      var (c2, id2) := NameProp(c1, tables, cls2 + "." + prop, a2);
      id2 == id1 && c2.propInfos == c1.propInfos && c2.nameToId == c1.nameToId
  {
    WeaponPropName(cls1, prop);
    WeaponPropName(cls2, prop);
    SharedPropName(c, tables, cls1 + "." + prop, cls2 + "." + prop, a1, a2);
  }

  /** Naming a property keeps the name tables in agreement, with ids up to the counter. */
  lemma NamePropAgrees(c: PropController, tables: Tables, fullName: string, a: seq<int>)
    requires Consistent(c)
    ensures var r := NameProp(c, tables, fullName, a); NamesAgree(r.0) && IdsBelow(r.0, c.id + 1)
  {
  }

  /**
   * `handle_prop`: names the property, records its path, gives it an id
   * (recording its `PropInfo` the first time the name is seen), marks
   * it parsed and advances the counter by one, wrapping as `u32`.
   */
  method HandleProp(c: PropController, tables: Tables, fullName: string, f: ValueField, path: seq<int>)
    returns (r: Result<(PropController, ValueField), Abort>)
    requires IsU32(c.id)
    ensures r.Success? <==> |path| <= 7
    ensures r.Failure? ==> r.error == Panic
    ensures r.Success? ==> (r.value.1.shouldParse && r.value.1.fullName == fullName && r.value.1.name == f.name
      && r.value.1.decoder == f.decoder)
    ensures r.Success? ==> var name := SplitWeaponPrefix(fullName);
      && name in r.value.0.nameToId
      && r.value.1.propId == OverrideId(tables, fullName, r.value.0.nameToId[name])
      && (name in c.nameToId ==> r.value.0.nameToId == c.nameToId && r.value.0.propInfos == c.propInfos)
      && (name !in c.nameToId ==> r.value.0.nameToId[name] == c.id)
      && r.value.0.pathToName == c.pathToName[path + seq(7 - |path|, _ => 0) := name]
    ensures r.Success? ==> Grows(c, r.value.0, 1)
  {
    var a :- PadPath(path);
    assert a == path + seq(7 - |path|, _ => 0);
    var (c1, id) := NameProp(c, tables, fullName, a);
    if Consistent(c) {
      NamePropAgrees(c, tables, fullName, a);
    }
    var f' := f.(fullName := fullName, propId := OverrideId(tables, fullName, id), shouldParse := true);
    return Success((c1.(id := WrapU32(c1.id + 1)), f'));
  }

  /* ---------------- Walking the serializers ---------------- */

  function FieldSize(f: Field): nat {
    match f
    case Array(e, _) => 1 + FieldSize(e)
    case Vector(e, _) => 1 + FieldSize(e)
    case Nested(s) => 1 + FieldsSize(s.fields)
    case Pointer(_, s) => 1 + FieldsSize(s.fields)
    case Value(_) => 1
    case NoField => 1
  }

  function FieldsSize(fs: seq<Field>): nat {
    if fs == [] then 0 else FieldSize(fs[0]) + FieldsSize(fs[1..])
  }

  lemma {:induction false} SuffixSmaller(fs: seq<Field>, i: nat)
    requires i < |fs|
    ensures FieldsSize(fs[i..]) == FieldSize(fs[i]) + FieldsSize(fs[i + 1..])
  {
    assert fs[i..][1..] == fs[i + 1..];
  }

  /**
   * How many `handle_prop` calls walking `f` makes: one per value, one
   * per array of values, and for a vector of a serializer one per value
   * of that serializer plus the walk of the serializer itself.
   */
  function Calls(f: Field): nat
    decreases FieldSize(f), 0
  {
    match f
    case Value(_) => 1
    case Nested(s) => CallsIn(s.fields)
    case Pointer(_, s) => CallsIn(s.fields)
    case Array(e, _) => if e.Value? then 1 else 0
    case Vector(e, _) =>
      (match e
       case Nested(s) =>
         assert FieldSize(e) == 1 + FieldsSize(s.fields);
         ValuesIn(s.fields) + CallsIn(s.fields)
       case Value(_) => 1
       case _ => 0)
    case NoField => 0
  }

  function CallsIn(fs: seq<Field>): nat
    decreases FieldsSize(fs), 1
  {
    if fs == [] then 0 else
      SuffixSmaller(fs, 0);
      Calls(fs[0]) + CallsIn(fs[1..])
  }

  function ValuesIn(fs: seq<Field>): nat {
    if fs == [] then 0 else (if fs[0].Value? then 1 else 0) + ValuesIn(fs[1..])
  }

  /** What a walk returns: the controller after it and the fields with their ids written. */
  type Walk = Result<(PropController, seq<Field>), Abort>

  /** `traverse_fields` over `fields[i..]`: each field at the path of its parent plus its index. */
  method TraverseFields(c: PropController, tables: Tables, fields: seq<Field>, serName: string, pathOg: seq<int>, i: nat)
    returns (r: Walk)
    requires IsU32(c.id) && i <= |fields|
    ensures r.Failure? ==> r.error == Panic
    ensures r.Success? ==> |r.value.1| == |fields| && r.value.1[..i] == fields[..i]
    ensures r.Success? ==> Grows(c, r.value.0, CallsIn(fields[i..]))
    decreases FieldsSize(fields[i..]), 1
  {
    if i == |fields| {
      return Success((c, fields));
    }
    SuffixSmaller(fields, i);
    assert fields[i..][1..] == fields[i + 1..];
    var one :- TraverseOne(c, tables, fields[i], serName, pathOg + [i]);
    var c1 := one.0;
    assert fields[i := one.1][i + 1..] == fields[i + 1..];
    var rest :- TraverseFields(c1, tables, fields[i := one.1], serName, pathOg, i + 1);
    GrowsTrans(c, c1, rest.0, Calls(fields[i]), CallsIn(fields[i + 1..]));
    assert rest.1[..i] == rest.1[..i + 1][..i];
    return Success(rest);
  }

  /** The value a field hands to `handle_prop` directly: its own, or that of its array or vector. */
  function DirectValue(f: Field): Option<ValueField> {
    match f
    case Value(x) => Some(x)
    case Array(Value(x), _) => Some(x)
    case Vector(Value(x), _) => Some(x)
    case _ => None
  }

  /** `f` with its direct value replaced by `x`. */
  function WithDirectValue(f: Field, x: ValueField): Field
    requires DirectValue(f).Some?
  {
    match f
    case Value(_) => Value(x)
    case Array(_, n) => Array(Value(x), n)
    case Vector(_, d) => Vector(Value(x), d)
  }

  /** One field of `traverse_fields`, at `path`. */
  method TraverseOne(c: PropController, tables: Tables, f: Field, serName: string, path: seq<int>)
    returns (r: Result<(PropController, Field), Abort>)
    requires IsU32(c.id) && |path| > 0
    ensures r.Failure? ==> r.error == Panic
    ensures r.Success? ==> Grows(c, r.value.0, Calls(f))
    decreases FieldSize(f), 0
  {
    if DirectValue(f).Some? {
      var x := DirectValue(f).value;
      var h :- HandleProp(c, tables, serName + "." + x.name, x, path);
      return Success((h.0, WithDirectValue(f, h.1)));
    }
    match f
    case Nested(s) =>
      var w :- TraverseFields(c, tables, s.fields, serName + "." + s.name, path, 0);
      assert s.fields[0..] == s.fields;
      return Success((w.0, Nested(s.(fields := w.1))));
    case Pointer(d, s) =>
      var w :- TraverseFields(c, tables, s.fields, serName + "." + s.name, path, 0);
      assert s.fields[0..] == s.fields;
      return Success((w.0, Pointer(d, s.(fields := w.1))));
    case Vector(Nested(s), d) =>
      assert FieldSize(f.element) == 1 + FieldsSize(s.fields);
      var v :- TraverseVectorSerializer(c, tables, s, serName, path);
      return Success((v.0, Vector(Nested(v.1), d)));
    case _ =>
      return Success((c, f));
  }

  /**
   * A vector of a serializer: its values are first handled under the
   * vector's class name, then the serializer is walked as a whole from
   * the path of the vector's parent.
   */
  method TraverseVectorSerializer(c: PropController, tables: Tables, s: Serializer, serName: string, path: seq<int>)
    returns (r: Result<(PropController, Serializer), Abort>)
    requires IsU32(c.id) && |path| > 0
    ensures r.Failure? ==> r.error == Panic
    ensures r.Success? ==> r.value.1.name == s.name && |r.value.1.fields| == |s.fields|
    ensures r.Success? ==> Grows(c, r.value.0, ValuesIn(s.fields) + CallsIn(s.fields))
    decreases FieldsSize(s.fields), 2
  {
    var inner :- HandleInnerValues(c, tables, s.fields, serName, path, 0);
    SameShapeSize(s.fields, inner.1);
    SameShapeCalls(s.fields, inner.1);
    var w :- TraverseFields(inner.0, tables, inner.1, serName + "." + s.name, path[..|path| - 1], 0);
    GrowsTrans(c, inner.0, w.0, ValuesIn(s.fields), CallsIn(s.fields));
    return Success((w.0, s.(fields := w.1)));
  }

  /**
   * The first pass over a vector's serializer: each of its values is
   * handled under the vector's own class name, at the vector's path plus
   * the value's index; `fields` are those from index `from` on.
   */
  method HandleInnerValues(c: PropController, tables: Tables, fields: seq<Field>, serName: string, vecPath: seq<int>, from: nat)
    returns (r: Walk)
    requires IsU32(c.id)
    ensures r.Failure? ==> r.error == Panic
    ensures r.Success? ==> SameShape(fields, r.value.1)
    ensures r.Success? ==> Grows(c, r.value.0, ValuesIn(fields))
    decreases |fields|
  {
    if fields == [] {
      return Success((c, []));
    }
    if !fields[0].Value? {
      assert ValuesIn(fields) == ValuesIn(fields[1..]);
      var rest :- HandleInnerValues(c, tables, fields[1..], serName, vecPath, from + 1);
      SameShapeCons(fields[0], fields[0], fields[1..], rest.1);
      assert [fields[0]] + fields[1..] == fields;
      return Success((rest.0, [fields[0]] + rest.1));
    }
    assert ValuesIn(fields) == 1 + ValuesIn(fields[1..]);
    var v := fields[0].value;
    var h :- HandleProp(c, tables, serName + "." + v.name, v, vecPath + [from]);
    var rest :- HandleInnerValues(h.0, tables, fields[1..], serName, vecPath, from + 1);
    GrowsTrans(c, h.0, rest.0, 1, ValuesIn(fields[1..]));
    SameShapeCons(fields[0], Value(h.1), fields[1..], rest.1);
    assert [fields[0]] + fields[1..] == fields;
    return Success((rest.0, [Value(h.1)] + rest.1));
  }

  /** Two fields of the same kind, or two values. */
  predicate Alike(a: Field, b: Field) {
    a == b || (a.Value? && b.Value?)
  }

  /** The same kinds of field in the same places, whatever the values hold. */
  predicate SameShape(a: seq<Field>, b: seq<Field>) {
    |a| == |b| && forall k | 0 <= k < |a| :: Alike(a[k], b[k])
  }

  lemma SameShapeCons(x: Field, y: Field, a: seq<Field>, b: seq<Field>)
    requires Alike(x, y) && SameShape(a, b)
    ensures SameShape([x] + a, [y] + b)
  {
    assert forall k | 1 <= k < |a| + 1 :: ([x] + a)[k] == a[k - 1] && ([y] + b)[k] == b[k - 1];
  }

  lemma {:induction false} SameShapeSize(a: seq<Field>, b: seq<Field>)
    requires SameShape(a, b)
    ensures FieldsSize(a) == FieldsSize(b)
    decreases |a|
  {
    if a != [] {
      assert SameShape(a[1..], b[1..]);
      SameShapeSize(a[1..], b[1..]);
    }
  }

  lemma {:induction false} SameShapeCalls(a: seq<Field>, b: seq<Field>)
    requires SameShape(a, b)
    ensures CallsIn(a) == CallsIn(b) && ValuesIn(a) == ValuesIn(b)
    decreases |a|
  {
    if a != [] {
      assert SameShape(a[1..], b[1..]);
      SameShapeCalls(a[1..], b[1..]);
    }
  }

  /** `find_prop_name_paths`: the walk of one serializer from its own name. */
  method FindPropNamePaths(c: PropController, tables: Tables, ser: Serializer)
    returns (r: Result<(PropController, Serializer), Abort>)
    requires IsU32(c.id)
    ensures r.Failure? ==> r.error == Panic
    ensures r.Success? ==> r.value.1.name == ser.name && |r.value.1.fields| == |ser.fields|
    ensures r.Success? ==> Grows(c, r.value.0, CallsIn(ser.fields))
  {
    var w :- TraverseFields(c, tables, ser.fields, ser.name, [], 0);
    assert ser.fields[0..] == ser.fields;
    return Success((w.0, ser.(fields := w.1)));
  }

  /* ---------------- Custom properties ---------------- */

  /** The wanted buttons, in table order, with consecutive ids from `next`. */
  function ButtonInfos(names: seq<string>, wanted: seq<string>, next: nat): (infos: seq<PropInfo>)
    ensures |infos| <= |names|
    ensures forall k | 0 <= k < |infos| ::
      infos[k].id == next + k && infos[k].propType == Button && infos[k].propName in wanted && infos[k].isPlayerProp
  {
    if names == [] then []
    else if names[0] in wanted then [PropInfo(next, Button, names[0], names[0], true)] + ButtonInfos(names[1..], wanted, next + 1)
    else ButtonInfos(names[1..], wanted, next)
  }

  /** Every wanted button gets an entry. */
  lemma {:induction false} EveryWantedButton(names: seq<string>, wanted: seq<string>, next: nat, k: nat)
    requires k < |names| && names[k] in wanted
    ensures exists j | 0 <= j < |ButtonInfos(names, wanted, next)| :: ButtonInfos(names, wanted, next)[j].propName == names[k]
    decreases k
  {
    var all := ButtonInfos(names, wanted, next);
    if k == 0 {
      assert all[0].propName == names[0];
    } else if names[0] !in wanted {
      assert names[1..][k - 1] == names[k];
      EveryWantedButton(names[1..], wanted, next, k - 1);
    } else {
      assert names[1..][k - 1] == names[k];
      EveryWantedButton(names[1..], wanted, next + 1, k - 1);
      var rest := ButtonInfos(names[1..], wanted, next + 1);
      var j :| 0 <= j < |rest| && rest[j].propName == names[k];
      assert all[j + 1] == rest[j];
    }
  }

  function ButtonStateInfos(names: seq<string>, states: map<string, Variant>, next: nat): (infos: seq<WantedPropStateInfo>)
    ensures forall k | 0 <= k < |infos| :: infos[k].base.id == next + k && infos[k].base.propName in states
  {
    if names == [] then []
    else if names[0] in states then
      [WantedPropStateInfo(PropInfo(next, Button, names[0], names[0], true), states[names[0]])]
      + ButtonStateInfos(names[1..], states, next + 1)
    else ButtonStateInfos(names[1..], states, next)
  }

  function CustomInfo(c: PropController, tables: Tables, name: string, id: nat): PropInfo {
    PropInfo(id, if name in tables.typeHm then tables.typeHm[name] else Custom, name, FriendlyName(c, name), true)
  }

  function CustomInfos(c: PropController, tables: Tables, entries: seq<(string, nat)>): (infos: seq<PropInfo>)
    ensures |infos| <= |entries|
  {
    if entries == [] then []
    else
      var head := if entries[0].0 in c.wantedPlayerProps then [CustomInfo(c, tables, entries[0].0, entries[0].1)] else [];
      head + CustomInfos(c, tables, entries[1..])
  }

  function CustomStateInfos(c: PropController, tables: Tables, entries: seq<(string, nat)>): seq<WantedPropStateInfo> {
    if entries == [] then []
    else
      var head := if entries[0].0 in c.wantedPropStates
        then [WantedPropStateInfo(CustomInfo(c, tables, entries[0].0, entries[0].1), c.wantedPropStates[entries[0].0])]
        else [];
      head + CustomStateInfos(c, tables, entries[1..])
  }

  function IfWanted(wanted: seq<string>, name: string, info: PropInfo): seq<PropInfo> {
    if name in wanted then [info] else []
  }

  const GRENADE_INFOS: seq<PropInfo> := [
    PropInfo(GRENADE_TYPE_ID, Tick, "grenade_type", "grenade_type", true),
    PropInfo(ENTITY_ID_ID, Custom, "grenade_entity_id", "grenade_entity_id", true),
    PropInfo(GRENADE_X, Custom, "x", "x", true),
    PropInfo(GRENADE_Y, Custom, "y", "y", true),
    PropInfo(GRENADE_Z, Custom, "z", "z", true)]

  const ALWAYS_INFOS: seq<PropInfo> := [
    PropInfo(TICK_ID, Tick, "tick", "tick", true),
    PropInfo(STEAMID_ID, Steamid, "steamid", "steamid", true),
    PropInfo(NAME_ID, Name, "name", "name", true)]

  /** The game time, glove and grenade entries of `set_custom_propinfos`, in its order. */
  function FixedInfos(c: PropController): (infos: seq<PropInfo>)
    ensures c.wantedPlayerProps == [] && c.wantedOtherProps == [] && !c.parseProjectiles ==> infos == []
    ensures c.parseProjectiles ==> |infos| >= 5 && infos[|infos| - 5..] == GRENADE_INFOS
  {
    var gameTime := PropInfo(GAME_TIME_ID, GameTime, "game_time", "game_time", true);
    IfWanted(c.wantedPlayerProps, "game_time", gameTime)
    + IfWanted(c.wantedPlayerProps, "glove_paint_id", PropInfo(GLOVE_PAINT_ID, Custom, "glove_paint_id", "glove_paint_id", true))
    + IfWanted(c.wantedPlayerProps, "glove_paint_seed", PropInfo(GLOVE_PAINT_SEED, Custom, "glove_paint_seed", "glove_paint_seed", true))
    + IfWanted(c.wantedPlayerProps, "glove_paint_float", PropInfo(GLOVE_PAINT_FLOAT, Custom, "glove_paint_float", "glove_paint_float", true))
    + IfWanted(c.wantedOtherProps, "game_time", gameTime.(isPlayerProp := false))
    + (if c.parseProjectiles then GRENADE_INFOS else [])
  }

  /** The `PropInfo`s `set_custom_propinfos` adds before tick, steamid and name. */
  function CustomPropinfos(c: PropController, tables: Tables): (infos: seq<PropInfo>)
    ensures var buttons := ButtonInfos(tables.buttonNames, c.wantedPlayerProps, BUTTONS_BASEID);
      |buttons| <= |infos| && infos[..|buttons|] == buttons
  {
    var buttons := ButtonInfos(tables.buttonNames, c.wantedPlayerProps, BUTTONS_BASEID);
    var infos := buttons + CustomInfos(c, tables, tables.customPlayerPropIds) + FixedInfos(c);
    assert infos[..|buttons|] == buttons;
    infos
  }

  /** The state entries `set_custom_propinfos` adds: buttons, custom ids, game time. */
  function CustomStates(c: PropController, tables: Tables): seq<WantedPropStateInfo> {
    ButtonStateInfos(tables.buttonNames, c.wantedPropStates, BUTTONS_BASEID)
    + CustomStateInfos(c, tables, tables.customPlayerPropIds)
    + (if "game_time" in c.wantedPropStates
       then [WantedPropStateInfo(PropInfo(GAME_TIME_ID, GameTime, "game_time", "game_time", true), c.wantedPropStates["game_time"])]
       else [])
  }

  /** `set_custom_propinfos`: buttons, custom ids, game time, gloves, grenades, then tick, steamid and name. */
  function SetCustomPropinfos(c: PropController, tables: Tables): (r: PropController)
    ensures r == c.(propInfos := r.propInfos, wantedPropStateInfos := r.wantedPropStateInfos)
    ensures |r.propInfos| >= |c.propInfos| + 3 && r.propInfos[..|c.propInfos|] == c.propInfos
    ensures r.propInfos[|r.propInfos| - 3..] == ALWAYS_INFOS
    ensures var buttons := ButtonInfos(tables.buttonNames, c.wantedPlayerProps, BUTTONS_BASEID);
      |c.propInfos| + |buttons| <= |r.propInfos| && r.propInfos[|c.propInfos|..|c.propInfos| + |buttons|] == buttons
    ensures |r.wantedPropStateInfos| >= |c.wantedPropStateInfos|
      && r.wantedPropStateInfos[..|c.wantedPropStateInfos|] == c.wantedPropStateInfos
  {
    var added := CustomPropinfos(c, tables);
    var infos := c.propInfos + added + ALWAYS_INFOS;
    assert infos[|c.propInfos|..|c.propInfos| + |added|] == added;
    c.(propInfos := infos, wantedPropStateInfos := c.wantedPropStateInfos + CustomStates(c, tables))
  }

  lemma {:induction false} NoButtonWanted(names: seq<string>, next: nat)
    ensures ButtonInfos(names, [], next) == []
    decreases |names|
  {
    if names != [] {
      NoButtonWanted(names[1..], next);
    }
  }

  lemma {:induction false} NoCustomWanted(c: PropController, tables: Tables, entries: seq<(string, nat)>)
    requires c.wantedPlayerProps == []
    ensures CustomInfos(c, tables, entries) == []
    decreases |entries|
  {
    if entries != [] {
      NoCustomWanted(c, tables, entries[1..]);
    }
  }

  /** With nothing asked for and no projectiles, only tick, steamid and name are recorded. */
  lemma NothingWantedAlwaysInfos(c: PropController, tables: Tables)
    requires c.propInfos == [] && c.wantedPlayerProps == [] && c.wantedOtherProps == [] && !c.parseProjectiles
    ensures SetCustomPropinfos(c, tables).propInfos == ALWAYS_INFOS
  {
    NoButtonWanted(tables.buttonNames, BUTTONS_BASEID);
    NoCustomWanted(c, tables, tables.customPlayerPropIds);
  }
}
