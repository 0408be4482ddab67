/**
 * The first-pass settings of first_pass/parser_settings.rs: the two flags
 * derived from the wanted player properties, the removal of the
 * user-facing "Weapon."/"Grenade." names, and the constructor of the
 * first-pass parser.
 *
 * The static tables FRIENDLY_NAMES_MAPPING and NON_MULTITHREADABLE_PROPS
 * of the `maps` crate are parameters.  A `HashMap` argument is given as
 * the sequence of its entries in iteration order.
 */
module ParserSettings {
  import opened Wrappers
  import opened Errors
  import opened Text
  import opened Variants
  import opened PropIds
  import opened PropControl

  // ---------------------------------------------------------------------
  // Derived flags
  // ---------------------------------------------------------------------

  /** `needs_velocity`: some wanted property name contains "velo". */
  function NeedsVelocity(props: seq<string>): (r: bool)
    ensures r <==> exists i | 0 <= i < |props| :: Contains(props[i], "velo")
    decreases |props|
  {
    if props == [] then false
    else if Contains(props[0], "velo") then true
    else
      var rest := NeedsVelocity(props[1..]);
      assert forall i | 1 <= i < |props| :: props[i] == props[1..][i - 1];
      rest
  }

  /** `check_multithreadability`: no wanted player property is one that needs the whole demo in order. */
  function CheckMultithreadability(props: seq<string>, nonMultithreadable: set<string>): (r: bool)
    ensures r <==> forall i | 0 <= i < |props| :: props[i] !in nonMultithreadable
    decreases |props|
  {
    if props == [] then true
    else if props[0] in nonMultithreadable then false
    else
      var rest := CheckMultithreadability(props[1..], nonMultithreadable);
      assert forall i | 1 <= i < |props| :: props[i] == props[1..][i - 1];
      rest
  }

  /** Adding a property that contains "velo" makes velocity needed, wherever it is added. */
  lemma {:induction false} VelocityPropAnywhere(before: seq<string>, prop: string, after: seq<string>)
    requires Contains(prop, "velo")
    ensures NeedsVelocity(before + [prop] + after)
  {
    assert (before + [prop] + after)[|before|] == prop;
  }

  // ---------------------------------------------------------------------
  // User-facing names
  // ---------------------------------------------------------------------

  const WEAPON_PREFIX := "Weapon."
  const GRENADE_PREFIX := "Grenade."

  /** The name with a leading "Weapon." or "Grenade." removed, as `rm_user_friendly_names` does. */
  function StripFriendlyPrefix(name: string): (n: string)
    ensures n == name || (StartsWith(name, WEAPON_PREFIX) && name == WEAPON_PREFIX + n)
                      || (StartsWith(name, GRENADE_PREFIX) && name == GRENADE_PREFIX + n)
    ensures !StartsWith(name, WEAPON_PREFIX) && !StartsWith(name, GRENADE_PREFIX) ==> n == name
  {
    if StartsWith(name, GRENADE_PREFIX) then name[8..]
    else if StartsWith(name, WEAPON_PREFIX) then name[7..]
    else name
  }

  /** The name with only a leading "Weapon." removed, as `rm_map_user_friendly_names` does. */
  function StripWeaponPrefix(name: string): (n: string)
    ensures n == name || (StartsWith(name, WEAPON_PREFIX) && name == WEAPON_PREFIX + n)
    ensures !StartsWith(name, WEAPON_PREFIX) ==> n == name
  {
    if StartsWith(name, WEAPON_PREFIX) then name[7..] else name
  }

  /** Either prefix comes off again, whatever follows it. */
  lemma StripPrefixRoundTrip(p: string)
    ensures StripFriendlyPrefix(WEAPON_PREFIX + p) == p
    ensures StripFriendlyPrefix(GRENADE_PREFIX + p) == p
    ensures StripWeaponPrefix(WEAPON_PREFIX + p) == p
  {
    assert (WEAPON_PREFIX + p)[..7] == WEAPON_PREFIX;
    assert (GRENADE_PREFIX + p)[..8] == GRENADE_PREFIX;
    assert (WEAPON_PREFIX + p)[7..] == p;
    assert (GRENADE_PREFIX + p)[8..] == p;
    assert !StartsWith(WEAPON_PREFIX + p, GRENADE_PREFIX) by {
      assert (WEAPON_PREFIX + p)[0] != GRENADE_PREFIX[0];
    }
  }

  /** The map variant keeps a "Grenade." prefix that the list variant removes. */
  lemma MapKeepsGrenadePrefix(p: string)
    ensures StripWeaponPrefix(GRENADE_PREFIX + p) == GRENADE_PREFIX + p
    ensures StripFriendlyPrefix(GRENADE_PREFIX + p) == p
  {
    StripPrefixRoundTrip(p);
    assert (GRENADE_PREFIX + p)[0] != WEAPON_PREFIX[0];
  }

  /** The real name of a user-facing one: its entry in the friendly-names table, or itself. */
  function RealName(friendly: map<string, string>, n: string): (realName: string)
    ensures n in friendly ==> realName == friendly[n]
    ensures n !in friendly ==> realName == n
  {
    if n in friendly then friendly[n] else n
  }

  /** `rm_user_friendly_names`: one real name per input name, in order; it never fails. */
  method RmUserFriendlyNames(names: seq<string>, friendly: map<string, string>)
    returns (r: Result<seq<string>, DemoParserError>)
    ensures r.Success?
    ensures |r.value| == |names|
    ensures forall i | 0 <= i < |names| ::
      var n := StripFriendlyPrefix(names[i]);
      (n in friendly ==> r.value[i] == friendly[n]) && (n !in friendly ==> r.value[i] == n)
  {
    var realNames: seq<string> := [];
    for k := 0 to |names|
      invariant |realNames| == k
      invariant forall i | 0 <= i < k :: realNames[i] == RealName(friendly, StripFriendlyPrefix(names[i]))
    {
      realNames := realNames + [RealName(friendly, StripFriendlyPrefix(names[k]))];
    }
    return Success(realNames);
  }

  /** The key `rm_map_user_friendly_names` stores an entry under. */
  function MapKey(friendly: map<string, string>, name: string): string {
    RealName(friendly, StripWeaponPrefix(name))
  }

  /** The keys of all entries, in iteration order. */
  function MapKeys(friendly: map<string, string>, entries: seq<(string, Variant)>): (keys: seq<string>)
    ensures |keys| == |entries|
    ensures forall i | 0 <= i < |entries| :: keys[i] == MapKey(friendly, entries[i].0)
  {
    seq(|entries|, i requires 0 <= i < |entries| => MapKey(friendly, entries[i].0))
  }

  /** `m` holds exactly the first `k` keys. */
  ghost predicate KeysOf(keys: seq<string>, k: nat, m: map<string, Variant>)
    requires k <= |keys|
  {
    forall key :: key in m <==> key in keys[..k]
  }

  /** Among the first `k` pairs, one whose key no later pair repeats keeps its value in `m`. */
  predicate LastWins(keys: seq<string>, vals: seq<Variant>, k: nat, m: map<string, Variant>)
    requires k <= |keys| == |vals|
  {
    forall i | 0 <= i < k && keys[i] !in keys[i + 1..k] :: keys[i] in m && m[keys[i]] == vals[i]
  }

  /** Storing pair `k` adds exactly key `k`. */
  lemma KeysStep(keys: seq<string>, k: nat, m: map<string, Variant>, v: Variant)
    requires k < |keys| && KeysOf(keys, k, m)
    ensures KeysOf(keys, k + 1, m[keys[k] := v])
  {
    assert keys[..k + 1] == keys[..k] + [keys[k]];
  }

  /** Storing pair `k` leaves every earlier pair whose key it does not repeat in place. */
  lemma WinsStep(keys: seq<string>, vals: seq<Variant>, k: nat, m: map<string, Variant>)
    requires k < |keys| == |vals| && LastWins(keys, vals, k, m)
    ensures LastWins(keys, vals, k + 1, m[keys[k] := vals[k]])
  {
    forall i | 0 <= i < k && keys[i] !in keys[i + 1..k + 1]
      ensures keys[i] in m && m[keys[i]] == vals[i] && keys[i] != keys[k]
    {
      assert keys[i + 1..k + 1] == keys[i + 1..k] + [keys[k]];
    }
  }
  /**
   * `rm_map_user_friendly_names` over the map's entries in iteration
   * order: every entry lands under its real name, and an entry whose real
   * name no later entry shares keeps its value.
   */
  method RmMapUserFriendlyNames(entries: seq<(string, Variant)>, friendly: map<string, string>)
    returns (r: Result<map<string, Variant>, DemoParserError>)
    ensures r.Success?
    ensures forall k :: k in r.value <==> k in MapKeys(friendly, entries)
    ensures forall i | 0 <= i < |entries| && MapKeys(friendly, entries)[i] !in MapKeys(friendly, entries)[i + 1..] ::
      r.value[MapKey(friendly, entries[i].0)] == entries[i].1
  {
    ghost var keys := MapKeys(friendly, entries);
    ghost var vals := seq(|entries|, i requires 0 <= i < |entries| => entries[i].1);
    var realMap: map<string, Variant> := map[];
    for k := 0 to |entries|
      invariant KeysOf(keys, k, realMap) && LastWins(keys, vals, k, realMap)
    {
      KeysStep(keys, k, realMap, vals[k]);
      WinsStep(keys, vals, k, realMap);
      realMap := realMap[MapKey(friendly, entries[k].0) := entries[k].1];
    }
    assert keys[..|entries|] == keys;
    return Success(realMap);
  }

  // ---------------------------------------------------------------------
  // The first-pass parser
  // ---------------------------------------------------------------------

  /** The caller's settings (`ParserInputs`) the first pass reads. */
  datatype ParserInputs = ParserInputs(
    realNameToOgName: map<string, string>,
    wantedPlayers: seq<nat>,
    wantedPlayerProps: seq<string>,
    wantedOtherProps: seq<string>,
    wantedPropStates: map<string, Variant>,
    wantedTicks: seq<int>,
    wantedEvents: seq<string>,
    parseEnts: bool,
    parseProjectiles: bool,
    parseGrenades: bool,
    onlyHeader: bool,
    orderBySteamid: bool,
    listProps: bool)

  /** The settings half of `FirstPassParser` as `new` leaves it; the stream state starts at `FirstPass.START_STATE`. */
  datatype FirstPassSettings = FirstPassSettings(
    wantedPlayerProps: seq<string>,
    wantedOtherProps: seq<string>,
    wantedPropStates: map<string, Variant>,
    wantedEvents: seq<string>,
    wantedPlayers: set<nat>,
    wantedTicks: set<int>,
    parseEntities: bool,
    parseProjectiles: bool,
    parseGrenades: bool,
    onlyHeader: bool,
    orderBySteamid: bool,
    listProps: bool,
    isMultithreadable: bool,
    needsVelocity: bool,
    propController: PropController,
    id: nat,
    qfIdx: nat)

  /** The elements of a vector, collected into a hash set. */
  function Elements<T(!new)>(s: seq<T>): (e: set<T>)
    ensures forall x :: x in e <==> x in s
  {
    set x | x in s
  }

  /** The event list `new` hands the property controller in place of the caller's. */
  const PLACEHOLDER_EVENTS: seq<string> := ["None"]

  /** `FirstPassParser::new`; entities are parsed whatever the caller's `parse_ents` says. */
  method NewFirstPassParser(inputs: ParserInputs, nonMultithreadable: set<string>) returns (p: FirstPassSettings)
    ensures p.parseEntities
    ensures p.isMultithreadable <==> forall i | 0 <= i < |inputs.wantedPlayerProps| :: inputs.wantedPlayerProps[i] !in nonMultithreadable
    ensures p.needsVelocity <==> exists i | 0 <= i < |inputs.wantedPlayerProps| :: Contains(inputs.wantedPlayerProps[i], "velo")
    ensures forall s :: s in p.wantedPlayers <==> s in inputs.wantedPlayers
    ensures forall t :: t in p.wantedTicks <==> t in inputs.wantedTicks
    ensures p.propController.wantedPlayerProps == inputs.wantedPlayerProps
    ensures p.propController.propInfos == [] && p.propController.id == NORMAL_PROP_BASEID
    ensures !p.propController.eventWithVelocity && !p.propController.needsVelocity
    ensures Consistent(p.propController)
  {
    var multithreadable := CheckMultithreadability(inputs.wantedPlayerProps, nonMultithreadable);
    var velocity := NeedsVelocity(inputs.wantedPlayerProps);
    var controller := NewController(inputs.wantedPlayerProps, inputs.wantedOtherProps, inputs.wantedPropStates,
      inputs.realNameToOgName, false, PLACEHOLDER_EVENTS, inputs.parseProjectiles);
    var players := Elements(inputs.wantedPlayers);
    var ticks := Elements(inputs.wantedTicks);
    p := FirstPassSettings(
      inputs.wantedPlayerProps, inputs.wantedOtherProps, inputs.wantedPropStates, inputs.wantedEvents,
      players, ticks, true, inputs.parseProjectiles, inputs.parseGrenades, inputs.onlyHeader,
      inputs.orderBySteamid, inputs.listProps, multithreadable, velocity, controller, 0, 0);
  }
}
