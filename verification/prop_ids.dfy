/**
 * The fixed property ids of first_pass/prop_controller.rs.  Ordinary
 * properties count up from NORMAL_PROP_BASEID; the ids below are reserved
 * for properties the parser synthesises or flattens, and the flattened
 * vector properties own a range of FLATTENED_VEC_MAX_LEN ids from their
 * base.
 */
module PropIds {
  const PLAYER_ENTITY_HANDLE_MISSING: int := 2047
  const SPECTATOR_TEAM_NUM: nat := 1
  const BUTTONS_BASEID: nat := 100000
  const NORMAL_PROP_BASEID: nat := 1000
  const WEAPON_SKIN_NAME: nat := 420420420
  const WEAPON_ORIGINGAL_OWNER_ID: nat := 6942000
  const MY_WEAPONS_OFFSET: nat := 500000
  const GRENADE_AMMO_ID: nat := 1111111
  const INVENTORY_ID: nat := 100000000
  const IS_ALIVE_ID: nat := 100000001
  const GAME_TIME_ID: nat := 100000002
  const ENTITY_ID_ID: nat := 100000003
  const VELOCITY_X_ID: nat := 100000004
  const VELOCITY_Y_ID: nat := 100000005
  const VELOCITY_Z_ID: nat := 100000006
  const VELOCITY_ID: nat := 100000007
  const USERID_ID: nat := 100000008
  const AGENT_SKIN_ID: nat := 100000009
  const WEAPON_NAME_ID: nat := 100000010
  const YAW_ID: nat := 100000111
  const PITCH_ID: nat := 100000012
  const TICK_ID: nat := 100000013
  const STEAMID_ID: nat := 100000014
  const NAME_ID: nat := 100000015
  const PLAYER_X_ID: nat := 100000016
  const PLAYER_Y_ID: nat := 100000017
  const PLAYER_Z_ID: nat := 100000018
  const WEAPON_STICKERS_ID: nat := 100000019

  const WEAPON_SKIN_ID: nat := 10000000
  const WEAPON_PAINT_SEED: nat := 10000001
  const WEAPON_FLOAT: nat := 10000002
  const ITEM_PURCHASE_COUNT: nat := 200000000
  const ITEM_PURCHASE_DEF_IDX: nat := 300000000
  const ITEM_PURCHASE_COST: nat := 400000000
  const ITEM_PURCHASE_HANDLE: nat := 500000000
  const ITEM_PURCHASE_NEW_DEF_IDX: nat := 600000000
  const FLATTENED_VEC_MAX_LEN: nat := 100000

  const GLOVE_PAINT_ID: nat := 20000000
  const GLOVE_PAINT_SEED: nat := 20000001
  const GLOVE_PAINT_FLOAT: nat := 20000002

  const USERCMD_VIEWANGLE_X: nat := 100000022
  const USERCMD_VIEWANGLE_Y: nat := 100000023
  const USERCMD_VIEWANGLE_Z: nat := 100000024
  const USERCMD_FORWARDMOVE: nat := 100000025
  const USERCMD_IMPULSE: nat := 100000026
  const USERCMD_MOUSE_DX: nat := 100000027
  const USERCMD_MOUSE_DY: nat := 100000028
  const USERCMD_BUTTONSTATE_1: nat := 100000029
  const USERCMD_BUTTONSTATE_2: nat := 100000030
  const USERCMD_BUTTONSTATE_3: nat := 100000031
  const USERCMD_CONSUMED_SERVER_ANGLE_CHANGES: nat := 100000032
  const USERCMD_LEFTMOVE: nat := 100000033
  const USERCMD_WEAPON_SELECT: nat := 100000034
  const USERCMD_SUBTICK_MOVE_ANALOG_FORWARD_DELTA: nat := 100000035
  const USERCMD_SUBTICK_MOVE_ANALOG_LEFT_DELTA: nat := 100000036
  const USERCMD_SUBTICK_MOVE_BUTTON: nat := 100000037
  const USERCMD_SUBTICK_MOVE_WHEN: nat := 100000038
  const USERCMD_SUBTICK_LEFT_HAND_DESIRED: nat := 100000039
  const USERCMD_ATTACK_START_HISTORY_INDEX_1: nat := 100000040
  const USERCMD_ATTACK_START_HISTORY_INDEX_2: nat := 100000041
  const USERCMD_ATTACK_START_HISTORY_INDEX_3: nat := 100000042
  const USERCMD_INPUT_HISTORY_BASEID: nat := 100001000

  const INVENTORY_AS_IDS_ID: nat := 100100020
  const IS_AIRBORNE_ID: nat := 100100021
  const GRENADE_TYPE_ID: nat := 100100022
  const GRENADE_X: nat := 100100023
  const GRENADE_Y: nat := 100100024
  const GRENADE_Z: nat := 100100025
  const INVENTORY_AS_IDS_BITMASK: nat := 100100026

  /** The bases of the five flattened item-purchase vectors, in the order the flattening tests them. */
  const PURCHASE_BASES: seq<nat> :=
    [ITEM_PURCHASE_COUNT, ITEM_PURCHASE_DEF_IDX, ITEM_PURCHASE_COST, ITEM_PURCHASE_HANDLE, ITEM_PURCHASE_NEW_DEF_IDX]
}
