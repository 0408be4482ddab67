/**
 * What parse_demo.rs does once the second pass has produced its segment
 * outputs: joining the outputs of all segments, keeping only the wanted
 * ticks, pairing every item purchase with a later sell-back, and
 * dropping the item_sold events.
 *
 * A data frame is a map from property id to column; the source's hash
 * maps are iterated in an unspecified order, which none of these
 * operations depends on.  Threads, channels and the second pass itself
 * are outside this module: segment outputs arrive as values.
 */
module ParseDemo {
  import opened Wrappers
  import opened Variants
  import opened PropIds
  import opened PropControl
  import opened Errors
  import opened GameEvents

  const ITEM_PURCHASE := "item_purchase"
  const ITEM_SOLD := "item_sold"
  const WAS_SOLD := "was_sold"

  // ---------------------------------------------------------------------
  // Parsing mode
  // ---------------------------------------------------------------------

  datatype ParsingMode = ForceSingleThreaded | ForceMultiThreaded | Normal

  /**
   * `parse_demo`'s choice of second pass: forced modes win; in `Normal`
   * mode the segments run in parallel exactly when the wanted props allow it.
   */
  predicate RunsSegmentsInParallel(mode: ParsingMode, multithreadable: bool) {
    (mode == Normal && multithreadable && !(mode == ForceSingleThreaded)) || mode == ForceMultiThreaded
  }

  lemma ParallelChoice(mode: ParsingMode, multithreadable: bool)
    ensures mode == ForceSingleThreaded ==> !RunsSegmentsInParallel(mode, multithreadable)
    ensures mode == ForceMultiThreaded ==> RunsSegmentsInParallel(mode, multithreadable)
    ensures mode == Normal ==> (RunsSegmentsInParallel(mode, multithreadable) <==> multithreadable)
  {
  }

  // ---------------------------------------------------------------------
  // Counting and removing events by name
  // ---------------------------------------------------------------------

  /** How many events carry `name`. */
  function Count(events: seq<GameEvent>, name: string): (n: nat)
    ensures n <= |events|
  {
    if |events| == 0 then 0
    else (if events[0].name == name then 1 else 0) + Count(events[1..], name)
  }

  /** No event carries `name` iff none is counted. */
  lemma {:induction false} CountZeroIff(events: seq<GameEvent>, name: string)
    ensures Count(events, name) == 0 <==> forall i | 0 <= i < |events| :: events[i].name != name
  {
    if |events| > 0 {
      CountZeroIff(events[1..], name);
      assert forall i | 1 <= i < |events| :: events[1..][i - 1] == events[i];
    }
  }

  /**
   * `remove_item_sold_events`: no item_sold event is left, and the list
   * shrinks by exactly the number of them.
   */
  function RemoveItemSoldEvents(events: seq<GameEvent>): (r: seq<GameEvent>)
    ensures forall i | 0 <= i < |r| :: r[i].name != ITEM_SOLD
    ensures |r| == |events| - Count(events, ITEM_SOLD)
  {
    if |events| == 0 then []
    else
      assert events == [events[0]] + events[1..];
      var rest := RemoveItemSoldEvents(events[1..]);
      if events[0].name == ITEM_SOLD then rest else [events[0]] + rest
  }

  /**
   * Removal keeps the order of what stays: removing from a concatenation
   * is concatenating the removals.
   */
  lemma {:induction false} RemoveKeepsOrder(a: seq<GameEvent>, b: seq<GameEvent>)
    ensures RemoveItemSoldEvents(a + b) == RemoveItemSoldEvents(a) + RemoveItemSoldEvents(b)
  {
    if |a| == 0 {
      assert a + b == b;
    } else {
      var ab := a + b;
      assert ab[0] == a[0] && ab[1..] == a[1..] + b;
      RemoveKeepsOrder(a[1..], b);
      var rest := RemoveItemSoldEvents(a[1..]);
      assert RemoveItemSoldEvents(ab) == (if a[0].name == ITEM_SOLD then [] else [a[0]]) + RemoveItemSoldEvents(ab[1..]);
      assert RemoveItemSoldEvents(a) == (if a[0].name == ITEM_SOLD then [] else [a[0]]) + rest;
    }
  }

  /** An event survives removal iff it is not an item_sold event. */
  lemma {:induction false} RemoveKeepsOthers(events: seq<GameEvent>, e: GameEvent)
    ensures e in RemoveItemSoldEvents(events) <==> e in events && e.name != ITEM_SOLD
  {
    if |events| > 0 {
      assert events == [events[0]] + events[1..];
      RemoveKeepsOthers(events[1..], e);
    }
  }

  /** A list without item_sold events is returned as it is. */
  lemma {:induction false} NothingSoldNothingRemoved(events: seq<GameEvent>)
    requires Count(events, ITEM_SOLD) == 0
    ensures RemoveItemSoldEvents(events) == events
  {
    if |events| > 0 {
      assert Count(events[1..], ITEM_SOLD) == 0;
      NothingSoldNothingRemoved(events[1..]);
      assert events == [events[0]] + events[1..];
    }
  }

  /** Removing twice removes nothing more. */
  lemma RemoveIsIdempotent(events: seq<GameEvent>)
    ensures RemoveItemSoldEvents(RemoveItemSoldEvents(events)) == RemoveItemSoldEvents(events)
  {
    var r := RemoveItemSoldEvents(events);
    CountZeroIff(r, ITEM_SOLD);
    NothingSoldNothingRemoved(r);
  }

  // ---------------------------------------------------------------------
  // SellBackHelper
  // ---------------------------------------------------------------------

  /** `SellBackHelper`: who bought or sold what, in which slot, when. */
  datatype SellBack = SellBack(tick: int, steamid: nat, inventorySlot: nat)

  /** `extract_field`: the value of the first field called `name`. */
  function ExtractField(name: string, fields: seq<EventField>): (r: Option<Variant>)
    ensures (forall i | 0 <= i < |fields| :: fields[i].name != name) ==> r.None?
    ensures forall i | 0 <= i < |fields| && fields[i].name == name ::
      (forall j | 0 <= j < i :: fields[j].name != name) ==> r == fields[i].data
  {
    if |fields| == 0 then None
    else if fields[0].name == name then fields[0].data
    else
      assert forall i | 1 <= i < |fields| :: fields[1..][i - 1] == fields[i];
      ExtractField(name, fields[1..])
  }

  /**
   * `SellBackHelper::from_event`: present only when the first `tick` is
   * an i32, the first `steamid` a u64 and the first `inventory_slot` a u32.
   */
  function FromEvent(e: GameEvent): (r: Option<SellBack>)
  {
    match (ExtractField("tick", e.fields), ExtractField("steamid", e.fields), ExtractField("inventory_slot", e.fields))
    case (Some(I32(tick)), Some(U64(steamid)), Some(U32(slot))) => Some(SellBack(tick, steamid, slot))
    case _ => None
  }

  /** Fields added after the first field of each wanted name do not change what is read. */
  lemma {:induction false} ExtractIgnoresLaterFields(name: string, fields: seq<EventField>, more: seq<EventField>)
    requires exists i | 0 <= i < |fields| :: fields[i].name == name
    ensures ExtractField(name, fields + more) == ExtractField(name, fields)
  {
    if fields[0].name != name {
      assert (fields + more)[1..] == fields[1..] + more;
      var i :| 0 <= i < |fields| && fields[i].name == name;
      assert fields[1..][i - 1].name == name;
      ExtractIgnoresLaterFields(name, fields[1..], more);
    }
  }

  /** Reading a purchase back after its `was_sold` field is attached gives the same helper. */
  lemma SellBackSurvivesWasSold(e: GameEvent, sold: bool)
    ensures FromEvent(WithWasSold(e, sold)) == FromEvent(e)
  {
    var extra := [EventField(WAS_SOLD, Some(Bool(sold)))];
    forall name | name in {"tick", "steamid", "inventory_slot"}
      ensures ExtractField(name, e.fields + extra) == ExtractField(name, e.fields)
    {
      if exists i | 0 <= i < |e.fields| :: e.fields[i].name == name {
        ExtractIgnoresLaterFields(name, e.fields, extra);
      } else {
        assert forall i | 0 <= i < |e.fields + extra| :: (e.fields + extra)[i].name != name;
      }
    }
  }

  /** The helpers of the events called `name` that parse, in event order. */
  function Helpers(events: seq<GameEvent>, name: string): (r: seq<SellBack>)
    ensures |r| <= Count(events, name)
  {
    if |events| == 0 then []
    else
      var rest := Helpers(events[1..], name);
      if events[0].name == name && FromEvent(events[0]).Some? then [FromEvent(events[0]).value] + rest else rest
  }

  /** Exactly the events called `name` that do not parse are lost on the way to helpers. */
  lemma {:induction false} HelpersLoseUnparsed(events: seq<GameEvent>, name: string)
    ensures |Helpers(events, name)| == Count(events, name) <==>
      forall i | 0 <= i < |events| && events[i].name == name :: FromEvent(events[i]).Some?
  {
    if |events| > 0 {
      HelpersLoseUnparsed(events[1..], name);
      assert forall i | 1 <= i < |events| :: events[1..][i - 1] == events[i];
    }
  }

  // ---------------------------------------------------------------------
  // Pairing purchases with sells
  // ---------------------------------------------------------------------

  /** `x` is a later purchase or sell of the slot `p` bought. */
  predicate LaterInSlot(p: SellBack, x: SellBack) {
    x.tick > p.tick && x.steamid == p.steamid && x.inventorySlot == p.inventorySlot
  }

  /** The tick of the earliest later entry for `p`'s slot (the `min_by_key` of the source). */
  function EarliestLater(p: SellBack, xs: seq<SellBack>): (r: Option<int>)
    ensures r.None? <==> forall i | 0 <= i < |xs| :: !LaterInSlot(p, xs[i])
    ensures r.Some? ==> exists i | 0 <= i < |xs| :: LaterInSlot(p, xs[i]) && xs[i].tick == r.value
    ensures r.Some? ==> forall i | 0 <= i < |xs| && LaterInSlot(p, xs[i]) :: r.value <= xs[i].tick
  {
    if |xs| == 0 then None
    else
      assert forall i | 1 <= i < |xs| :: xs[1..][i - 1] == xs[i];
      var rest := EarliestLater(p, xs[1..]);
      if !LaterInSlot(p, xs[0]) then rest
      else if rest.Some? && rest.value < xs[0].tick then rest
      else Some(xs[0].tick)
  }

  /** The verdict for purchase `p`: its earliest later sell comes before its earliest later rebuy. */
  predicate WasSold(p: SellBack, buys: seq<SellBack>, sells: seq<SellBack>) {
    var s := EarliestLater(p, sells);
    var b := EarliestLater(p, buys);
    s.Some? && b.Some? && s.value < b.value
  }

  /**
   * An item counts as sold iff it is rebought later, and some later sell
   * of the same slot comes before every later rebuy.
   */
  lemma WasSoldMeans(p: SellBack, buys: seq<SellBack>, sells: seq<SellBack>)
    ensures WasSold(p, buys, sells) <==>
      (exists j | 0 <= j < |buys| :: LaterInSlot(p, buys[j])) &&
      (exists i | 0 <= i < |sells| :: LaterInSlot(p, sells[i]) &&
         forall j | 0 <= j < |buys| && LaterInSlot(p, buys[j]) :: sells[i].tick < buys[j].tick)
  {
    var s := EarliestLater(p, sells);
    var b := EarliestLater(p, buys);
    if WasSold(p, buys, sells) {
      var i :| 0 <= i < |sells| && LaterInSlot(p, sells[i]) && sells[i].tick == s.value;
      assert forall j | 0 <= j < |buys| && LaterInSlot(p, buys[j]) :: sells[i].tick < buys[j].tick;
    }
    if (exists j | 0 <= j < |buys| :: LaterInSlot(p, buys[j])) &&
       (exists i | 0 <= i < |sells| :: LaterInSlot(p, sells[i]) &&
          forall j | 0 <= j < |buys| && LaterInSlot(p, buys[j]) :: sells[i].tick < buys[j].tick) {
      var i :| 0 <= i < |sells| && LaterInSlot(p, sells[i]) &&
        forall j | 0 <= j < |buys| && LaterInSlot(p, buys[j]) :: sells[i].tick < buys[j].tick;
      var j :| 0 <= j < |buys| && LaterInSlot(p, buys[j]) && buys[j].tick == b.value;
      assert s.value <= sells[i].tick < buys[j].tick;
    }
  }

  /** The event with a `was_sold` field appended. */
  function WithWasSold(e: GameEvent, sold: bool): GameEvent {
    e.(fields := e.fields + [EventField(WAS_SOLD, Some(Bool(sold)))])
  }

  /** The verdict for one purchase event; one that does not parse was not sold. */
  predicate SoldVerdict(e: GameEvent, buys: seq<SellBack>, sells: seq<SellBack>) {
    FromEvent(e).Some? && WasSold(FromEvent(e).value, buys, sells)
  }

  /** Every purchase event gets its own verdict; every other event is left alone. */
  function MarkPurchases(events: seq<GameEvent>, buys: seq<SellBack>, sells: seq<SellBack>): (r: seq<GameEvent>)
    ensures |r| == |events|
    ensures forall i | 0 <= i < |events| && events[i].name != ITEM_PURCHASE :: r[i] == events[i]
    ensures forall i | 0 <= i < |events| && events[i].name == ITEM_PURCHASE ::
      r[i] == WithWasSold(events[i], SoldVerdict(events[i], buys, sells))
  {
    if |events| == 0 then []
    else
      assert forall i | 1 <= i < |events| :: events[1..][i - 1] == events[i];
      var head := if events[0].name == ITEM_PURCHASE then WithWasSold(events[0], SoldVerdict(events[0], buys, sells)) else events[0];
      [head] + MarkPurchases(events[1..], buys, sells)
  }

  /**
   * `add_item_purchase_sell_column` as intended: one `was_sold` field per
   * item_purchase event, judged against every parsed purchase and sell of
   * the list; every other event, item_sold included, is kept unchanged.
   */
  function AddSellColumn(events: seq<GameEvent>): (r: seq<GameEvent>)
    ensures |r| == |events|
    ensures forall i | 0 <= i < |events| :: r[i].name == events[i].name && r[i].tick == events[i].tick
  {
    MarkPurchases(events, Helpers(events, ITEM_PURCHASE), Helpers(events, ITEM_SOLD))
  }

  /**
   * Why pairing runs before the sells are removed: run on a list whose
   * item_sold events are gone, it would call nothing sold.
   */
  lemma PairingNeedsTheSells(events: seq<GameEvent>, i: nat)
    requires i < |RemoveItemSoldEvents(events)|
    requires RemoveItemSoldEvents(events)[i].name == ITEM_PURCHASE
    ensures var kept := RemoveItemSoldEvents(events);
      AddSellColumn(kept)[i] == WithWasSold(kept[i], false)
  {
    var kept := RemoveItemSoldEvents(events);
    CountZeroIff(kept, ITEM_SOLD);
    assert |Helpers(kept, ITEM_SOLD)| == 0;
  }

  // ---------------------------------------------------------------------
  // The sell column as written
  // ---------------------------------------------------------------------

  /** One verdict per helper, in order (the source's `was_sold` vector). */
  function Verdicts(ps: seq<SellBack>, buys: seq<SellBack>, sells: seq<SellBack>): (r: seq<bool>)
    ensures |r| == |ps|
  {
    if |ps| == 0 then [] else [WasSold(ps[0], buys, sells)] + Verdicts(ps[1..], buys, sells)
  }

  /**
   * The source's second loop: the n-th item_purchase event takes
   * `was_sold[n]`, and indexing past the vector panics.
   */
  function AttachVerdicts(events: seq<GameEvent>, verdicts: seq<bool>): (r: Result<seq<GameEvent>, Abort>)
    ensures r.Failure? ==> r.error == Panic
  {
    if |events| == 0 then Success([])
    else if events[0].name == ITEM_PURCHASE then
      if |verdicts| == 0 then Failure(Panic)
      else
        var rest :- AttachVerdicts(events[1..], verdicts[1..]);
        Success([WithWasSold(events[0], verdicts[0])] + rest)
    else
      var rest :- AttachVerdicts(events[1..], verdicts);
      Success([events[0]] + rest)
  }

  /** The attaching loop panics exactly when there are fewer verdicts than purchase events. */
  lemma {:induction false} AttachPanicsIff(events: seq<GameEvent>, verdicts: seq<bool>)
    ensures AttachVerdicts(events, verdicts).Failure? <==> |verdicts| < Count(events, ITEM_PURCHASE)
  {
    if |events| > 0 {
      if events[0].name == ITEM_PURCHASE {
        if |verdicts| > 0 {
          AttachPanicsIff(events[1..], verdicts[1..]);
        }
      } else {
        AttachPanicsIff(events[1..], verdicts);
      }
    }
  }

  /** With every purchase event parsed, the n-th verdict belongs to the n-th purchase event. */
  lemma {:induction false} AttachMatchesMarks(events: seq<GameEvent>, buys: seq<SellBack>, sells: seq<SellBack>)
    requires forall i | 0 <= i < |events| && events[i].name == ITEM_PURCHASE :: FromEvent(events[i]).Some?
    ensures AttachVerdicts(events, Verdicts(Helpers(events, ITEM_PURCHASE), buys, sells)) ==
      Success(MarkPurchases(events, buys, sells))
  {
    if |events| > 0 {
      assert forall i | 1 <= i < |events| :: events[1..][i - 1] == events[i];
      AttachMatchesMarks(events[1..], buys, sells);
      if events[0].name == ITEM_PURCHASE {
        var ps := Helpers(events, ITEM_PURCHASE);
        assert ps == [FromEvent(events[0]).value] + Helpers(events[1..], ITEM_PURCHASE);
        assert ps[1..] == Helpers(events[1..], ITEM_PURCHASE);
      }
    }
  }

  /**
   * `add_item_purchase_sell_column` as written: verdicts are computed
   * only for the purchase events that parse, but handed out to every
   * purchase event in turn.
   */
  function AddSellColumnAsWritten(events: seq<GameEvent>): (r: Result<seq<GameEvent>, Abort>)
    ensures r.Failure? ==> r.error == Panic
  {
    var buys := Helpers(events, ITEM_PURCHASE);
    var sells := Helpers(events, ITEM_SOLD);
    AttachVerdicts(events, Verdicts(buys, buys, sells))
  }

  /**
   * The written version panics exactly when some item_purchase event
   * lacks an i32 tick, a u64 steamid or a u32 inventory slot; otherwise
   * it agrees with the intended column.
   */
  lemma AsWrittenPanicsOnUnparsedPurchase(events: seq<GameEvent>)
    ensures AddSellColumnAsWritten(events).Failure? <==>
      exists i | 0 <= i < |events| :: events[i].name == ITEM_PURCHASE && FromEvent(events[i]).None?
    ensures AddSellColumnAsWritten(events).Success? ==> AddSellColumnAsWritten(events).value == AddSellColumn(events)
  {
    var buys := Helpers(events, ITEM_PURCHASE);
    HelpersLoseUnparsed(events, ITEM_PURCHASE);
    AttachPanicsIff(events, Verdicts(buys, buys, Helpers(events, ITEM_SOLD)));
    if forall i | 0 <= i < |events| && events[i].name == ITEM_PURCHASE :: FromEvent(events[i]).Some? {
      AttachMatchesMarks(events, buys, Helpers(events, ITEM_SOLD));
    }
  }

  /** A game-list item_purchase event without a u64 `steamid` field makes the written version panic. */
  lemma UnparsedPurchasePanics()
    ensures AddSellColumnAsWritten([GameEvent(ITEM_PURCHASE, [EventField("tick", Some(I32(5)))], 5)]) == Failure(Panic)
    ensures AddSellColumn([GameEvent(ITEM_PURCHASE, [EventField("tick", Some(I32(5)))], 5)]) ==
      [GameEvent(ITEM_PURCHASE, [EventField("tick", Some(I32(5))), EventField(WAS_SOLD, Some(Bool(false)))], 5)]
  {
    var e := GameEvent(ITEM_PURCHASE, [EventField("tick", Some(I32(5)))], 5);
    assert ExtractField("steamid", e.fields).None?;
    assert FromEvent(e).None?;
    assert !SoldVerdict(e, Helpers([e], ITEM_PURCHASE), Helpers([e], ITEM_SOLD));
    AsWrittenPanicsOnUnparsedPurchase([e]);
    var r := AddSellColumn([e]);
    assert r[0] == WithWasSold(e, false);
    assert e.fields + [EventField(WAS_SOLD, Some(Bool(false)))] == [EventField("tick", Some(I32(5))), EventField(WAS_SOLD, Some(Bool(false)))];
    assert r == [r[0]];
  }

  // ---------------------------------------------------------------------
  // rm_unwanted_ticks
  // ---------------------------------------------------------------------

  /** A data frame: one column per property id. */
  type Df = map<nat, PropColumn>

  /** Row `i` of a tick column holds a wanted tick. */
  predicate WantedTickAt(cells: seq<Option<Variant>>, wanted: set<int>, i: nat)
    requires i < |cells|
  {
    cells[i].Some? && cells[i].value.I32? && cells[i].value.i32 in wanted
  }

  /** The rows from `from` on whose tick is wanted, in increasing order. */
  function WantedRowsFrom(cells: seq<Option<Variant>>, wanted: set<int>, from: nat): (r: seq<nat>)
    requires from <= |cells|
    ensures forall k | 0 <= k < |r| :: from <= r[k] < |cells| && WantedTickAt(cells, wanted, r[k])
    ensures forall i | from <= i < |cells| && WantedTickAt(cells, wanted, i) :: i in r
    ensures forall k, l | 0 <= k < l < |r| :: r[k] < r[l]
    decreases |cells| - from
  {
    if from == |cells| then []
    else
      var rest := WantedRowsFrom(cells, wanted, from + 1);
      if WantedTickAt(cells, wanted, from) then [from] + rest else rest
  }

  /** Whether the frame has an i32 tick column. */
  predicate HasTickColumn(df: Df) {
    TICK_ID in df && df[TICK_ID].data.Some? && df[TICK_ID].data.value.kind == I32Col
  }

  /** The rows `rm_unwanted_ticks` keeps; with no i32 tick column, none. */
  function TickRows(df: Df, wanted: set<int>): seq<nat> {
    if HasTickColumn(df) then WantedRowsFrom(df[TICK_ID].data.value.cells, wanted, 0) else []
  }

  /** Every kept row exists in the column (`slice_to_new` indexes a typed vector). */
  predicate RowsFit(c: PropColumn, rows: seq<nat>) {
    c.data.Some? ==> forall k | 0 <= k < |rows| :: rows[k] < |c.data.value.cells|
  }

  /**
   * `rm_unwanted_ticks`: with no tick filter there is nothing to replace;
   * otherwise every column is cut down to the same rows, so all columns
   * come out with one length.  A typed column too short for a kept row
   * makes the source's indexing panic.
   */
  function RmUnwantedTicks(wanted: set<int>, df: Df): (r: Result<Option<Df>, Abort>)
    ensures wanted == {} ==> r == Success(None)
    ensures r.Failure? <==> wanted != {} && exists key | key in df :: !RowsFit(df[key], TickRows(df, wanted))
    ensures r.Failure? ==> r.error == Panic
    ensures r.Success? && wanted != {} ==>
      r.value.Some? && r.value.value.Keys == df.Keys &&
      (forall key | key in r.value.value :: Len(r.value.value[key]) == |TickRows(df, wanted)|)
  {
    if wanted == {} then Success(None)
    else
      var rows := TickRows(df, wanted);
      if exists key | key in df :: !RowsFit(df[key], rows) then Failure(Panic)
      else Success(Some(map key | key in df :: SliceToNew(df[key], rows)))
  }

  /**
   * What survives the filter: the new tick column holds exactly the rows
   * of the old one whose tick is wanted, in their old order, and every
   * other column keeps the same rows.
   */
  lemma KeptRowsAreWantedTicks(wanted: set<int>, df: Df)
    requires wanted != {} && HasTickColumn(df)
    requires RmUnwantedTicks(wanted, df).Success?
    ensures var out := RmUnwantedTicks(wanted, df).value.value;
      var rows := TickRows(df, wanted);
      (forall k | 0 <= k < Len(out[TICK_ID]) ::
         Cell(out[TICK_ID], k).Some? && Cell(out[TICK_ID], k).value.I32? && Cell(out[TICK_ID], k).value.i32 in wanted) &&
      (forall i | 0 <= i < Len(df[TICK_ID]) && WantedTickAt(df[TICK_ID].data.value.cells, wanted, i) :: i in rows) &&
      (forall key, k | key in out && 0 <= k < |rows| :: Cell(out[key], k) == Cell(df[key], rows[k]))
  {
    var rows := TickRows(df, wanted);
    var out := RmUnwantedTicks(wanted, df).value.value;
    forall key | key in out
      ensures forall k | 0 <= k < |rows| :: Cell(out[key], k) == Cell(df[key], rows[k])
    {
      assert out[key] == SliceToNew(df[key], rows);
    }
  }

  /** A frame whose typed columns are as long as its tick column never panics. */
  lemma RectangularFrameNeverPanics(wanted: set<int>, df: Df)
    requires HasTickColumn(df)
    requires forall key | key in df && df[key].data.Some? :: Len(df[key]) >= Len(df[TICK_ID])
    ensures RmUnwantedTicks(wanted, df).Success?
  {
  }

  // ---------------------------------------------------------------------
  // combine_dfs
  // ---------------------------------------------------------------------

  /** The ids `combine_dfs` skips when asked to drop the name and steamid columns. */
  predicate Dropped(key: nat, removeNameAndSteamid: bool) {
    removeNameAndSteamid && (key == STEAMID_ID || key == NAME_ID)
  }

  /**
   * The column for `key` once the parts are joined in order: the first
   * part that has it is copied, every later part that has it is appended
   * with `extend_from`.
   */
  function Joined(parts: seq<Df>, key: nat): (r: Option<PropColumn>)
    ensures r.Some? <==> exists i | 0 <= i < |parts| :: key in parts[i]
  {
    if |parts| == 0 then None
    else
      var before := parts[..|parts| - 1];
      assert forall i | 0 <= i < |parts| - 1 :: before[i] == parts[i];
      var prev := Joined(before, key);
      var last := parts[|parts| - 1];
      if key !in last then prev
      else
        match prev
        case None => Some(last[key])
        case Some(c) => Some(ExtendFrom(c, last[key]))
  }

  /** Every id some part has. */
  function AllKeys(parts: seq<Df>): (keys: set<nat>)
    ensures forall key :: key in keys <==> exists i | 0 <= i < |parts| :: key in parts[i]
  {
    if |parts| == 0 then {}
    else
      var before := parts[..|parts| - 1];
      assert forall i | 0 <= i < |parts| - 1 :: before[i] == parts[i];
      AllKeys(before) + parts[|parts| - 1].Keys
  }

  /**
   * `combine_dfs`: every id of every part, less the name and steamid
   * columns when asked, each joined across the parts in order.  A single
   * part is returned directly, which the join would give as well.
   */
  function CombineDfs(parts: seq<Df>, removeNameAndSteamid: bool): (r: Df)
    ensures forall key :: key in r <==> (exists i | 0 <= i < |parts| :: key in parts[i]) && !Dropped(key, removeNameAndSteamid)
    ensures forall key | key in r :: Joined(parts, key) == Some(r[key])
  {
    if |parts| == 1 then
      assert forall key | key in parts[0] :: Joined(parts, key) == Some(parts[0][key]);
      if removeNameAndSteamid then parts[0] - {STEAMID_ID, NAME_ID} else parts[0]
    else
      map key | key in AllKeys(parts) && !Dropped(key, removeNameAndSteamid) :: Joined(parts, key).value
  }

  /** The rows of `key` across the parts that have it, in part order. */
  function CellsOf(parts: seq<Df>, key: nat): seq<Option<Variant>>
  {
    if |parts| == 0 then []
    else
      var last := parts[|parts| - 1];
      CellsOf(parts[..|parts| - 1], key) + (if key in last && last[key].data.Some? then last[key].data.value.cells else [])
  }

  /** Every part that has `key` holds it as a typed column of kind `k`. */
  predicate TypedAs(parts: seq<Df>, key: nat, k: Kind) {
    forall i | 0 <= i < |parts| && key in parts[i] :: parts[i][key].data.Some? && parts[i][key].data.value.kind == k
  }

  /** Columns of one kind are concatenated: the joined rows are the parts' rows in part order. */
  lemma {:induction false} JoinedConcatenates(parts: seq<Df>, key: nat, k: Kind)
    requires TypedAs(parts, key, k)
    ensures var j := Joined(parts, key);
      j.Some? ==> j.value.data.Some? && j.value.data.value.kind == k && j.value.data.value.cells == CellsOf(parts, key)
  {
    if |parts| > 0 {
      var before := parts[..|parts| - 1];
      assert forall i | 0 <= i < |parts| - 1 :: before[i] == parts[i];
      JoinedConcatenates(before, key, k);
      if Joined(before, key).None? {
        assert CellsOf(before, key) == [] by { NoKeyNoCells(before, key); }
      }
    }
  }

  lemma {:induction false} NoKeyNoCells(parts: seq<Df>, key: nat)
    requires forall i | 0 <= i < |parts| :: key !in parts[i]
    ensures CellsOf(parts, key) == []
  {
    if |parts| > 0 {
      var before := parts[..|parts| - 1];
      assert forall i | 0 <= i < |parts| - 1 :: before[i] == parts[i];
      NoKeyNoCells(before, key);
    }
  }

  // ---------------------------------------------------------------------
  // combine_outputs
  // ---------------------------------------------------------------------

  /** What one second-pass segment hands back (the fields the join reads). */
  datatype SegmentOutput = SegmentOutput(
    ptr: nat,
    df: Df,
    dfPerPlayer: map<nat, Df>,
    gameEvents: seq<GameEvent>,
    counter: set<string>,
    uniqPropNames: seq<string>)

  /** The joined output. */
  datatype DemoOutput = DemoOutput(
    df: Df,
    dfPerPlayer: map<nat, Df>,
    gameEvents: seq<GameEvent>,
    counter: set<string>,
    uniqPropNames: seq<string>,
    propController: PropController)

  /** `s` is ordered by `key`. */
  predicate SortedBy<T>(s: seq<T>, key: T -> nat) {
    forall i, j | 0 <= i < j < |s| :: key(s[i]) <= key(s[j])
  }

  /** A head no larger than anything in a sorted tail keeps the sequence sorted. */
  lemma ConsSorted<T>(h: T, t: seq<T>, key: T -> nat)
    requires SortedBy(t, key) && forall x | x in t :: key(h) <= key(x)
    ensures SortedBy([h] + t, key)
  {
    var r := [h] + t;
    forall i, j | 0 <= i < j < |r| ensures key(r[i]) <= key(r[j]) {
      assert r[j] == t[j - 1] && t[j - 1] in t;
      if i > 0 { assert r[i] == t[i - 1]; }
    }
  }

  /** `o` placed before the first element of `s` with a larger or equal key. */
  function InsertBy<T>(o: T, s: seq<T>, key: T -> nat): (r: seq<T>)
    ensures multiset(r) == multiset(s) + multiset{o}
  {
    if |s| == 0 || key(o) <= key(s[0]) then [o] + s
    else
      assert s == [s[0]] + s[1..];
      [s[0]] + InsertBy(o, s[1..], key)
  }

  /** Inserting into a sorted sequence keeps it sorted. */
  lemma {:induction false} InsertBySorted<T>(o: T, s: seq<T>, key: T -> nat)
    requires SortedBy(s, key)
    ensures SortedBy(InsertBy(o, s, key), key)
  {
    if |s| == 0 || key(o) <= key(s[0]) {
      forall x | x in s ensures key(o) <= key(x) {
        var j :| 0 <= j < |s| && s[j] == x;
      }
      ConsSorted(o, s, key);
    } else {
      var t := s[1..];
      TailKeepsOrder(s, key);
      InsertBySorted(o, t, key);
      var rest := InsertBy(o, t, key);
      forall x | x in rest ensures key(s[0]) <= key(x) {
        assert x in multiset(rest);
        if x != o {
          var j :| 0 <= j < |t| && t[j] == x;
          assert s[j + 1] == x;
        }
      }
      ConsSorted(s[0], rest, key);
    }
  }

  /** A stable insertion sort by `key` (`sort_by_key`). */
  function SortBy<T>(s: seq<T>, key: T -> nat): (r: seq<T>)
    ensures SortedBy(r, key) && multiset(r) == multiset(s)
  {
    if |s| == 0 then []
    else
      assert s == [s[0]] + s[1..];
      var rest := SortBy(s[1..], key);
      InsertBySorted(s[0], rest, key);
      InsertBy(s[0], rest, key)
  }

  /** No two different elements share a key. */
  predicate DistinctKeys<T(==)>(s: seq<T>, key: T -> nat) {
    forall i, j | 0 <= i < |s| && 0 <= j < |s| && key(s[i]) == key(s[j]) :: s[i] == s[j]
  }

  /** The head of a sorted sequence has the least key. */
  lemma HeadIsLeast<T>(s: seq<T>, key: T -> nat, x: T)
    requires SortedBy(s, key) && x in multiset(s)
    ensures key(s[0]) <= key(x)
  {
    var i :| 0 <= i < |s| && s[i] == x;
  }

  lemma TailMultiset<T>(s: seq<T>)
    requires |s| > 0
    ensures multiset(s[1..]) == multiset(s) - multiset{s[0]}
  {
    assert s == [s[0]] + s[1..];
  }

  lemma SameHeadSameTail<T>(a: seq<T>, b: seq<T>)
    requires |a| > 0 && |b| > 0 && a[0] == b[0] && a[1..] == b[1..]
    ensures a == b
  {
    assert a == [a[0]] + a[1..] && b == [b[0]] + b[1..];
  }

  lemma TailKeepsOrder<T>(s: seq<T>, key: T -> nat)
    requires |s| > 0
    ensures SortedBy(s, key) ==> SortedBy(s[1..], key)
    ensures DistinctKeys(s, key) ==> DistinctKeys(s[1..], key)
  {
    assert forall i | 0 <= i < |s| - 1 :: s[1..][i] == s[i + 1];
  }

  /** Two orderings by key of the same elements with distinct keys start alike. */
  lemma SameHead<T>(a: seq<T>, b: seq<T>, key: T -> nat)
    requires SortedBy(a, key) && SortedBy(b, key) && multiset(a) == multiset(b) && DistinctKeys(a, key)
    requires |a| > 0
    ensures |b| == |a| && a[0] == b[0]
  {
    assert |b| == |multiset(b)| == |a|;
    assert a[0] in multiset(a) && b[0] in multiset(b);
    HeadIsLeast(a, key, b[0]);
    HeadIsLeast(b, key, a[0]);
    var i :| 0 <= i < |a| && a[i] == b[0];
  }

  /** Two orderings by key of the same elements with distinct keys are the same sequence. */
  lemma {:induction false} SortedByUnique<T>(a: seq<T>, b: seq<T>, key: T -> nat)
    requires SortedBy(a, key) && SortedBy(b, key) && multiset(a) == multiset(b) && DistinctKeys(a, key)
    ensures a == b
  {
    if |a| == 0 {
      assert |b| == |multiset(b)| == 0;
    } else {
      SameHead(a, b, key);
      TailMultiset(a);
      TailMultiset(b);
      TailKeepsOrder(a, key);
      TailKeepsOrder(b, key);
      SortedByUnique(a[1..], b[1..], key);
      SameHeadSameTail(a, b);
    }
  }

  function Ptr(o: SegmentOutput): nat {
    o.ptr
  }

  /** Rust's `Ord` on strings: lexicographic by character. */
  predicate StrLess(a: string, b: string) {
    if |a| == 0 then |b| > 0
    else if |b| == 0 then false
    else a[0] < b[0] || (a[0] == b[0] && StrLess(a[1..], b[1..]))
  }

  lemma StrLessIrreflexive(a: string)
    ensures !StrLess(a, a)
  {
  }

  lemma StrLessTransitive(a: string, b: string, c: string)
    requires StrLess(a, b) && StrLess(b, c)
    ensures StrLess(a, c)
  {
  }

  lemma {:induction false} StrLessTotal(a: string, b: string)
    ensures a == b || StrLess(a, b) || StrLess(b, a)
  {
    if |a| > 0 && |b| > 0 && a[0] == b[0] {
      StrLessTotal(a[1..], b[1..]);
      if a[1..] == b[1..] {
        assert a == [a[0]] + a[1..] && b == [b[0]] + b[1..];
      }
    }
  }

  predicate StrictlySorted(s: seq<string>) {
    forall i, j | 0 <= i < j < |s| :: StrLess(s[i], s[j])
  }

  /** `x` placed into a strictly sorted list, unless it is already there. */
  function InsertName(x: string, s: seq<string>): (r: seq<string>)
    requires StrictlySorted(s)
    ensures StrictlySorted(r)
    ensures forall y :: y in r <==> y in s || y == x
  {
    if |s| == 0 then [x]
    else if x == s[0] then s
    else if StrLess(x, s[0]) then
      assert forall j | 0 <= j < |s| :: StrLess(x, s[j]) by {
        forall j | 0 <= j < |s| ensures StrLess(x, s[j]) {
          if j > 0 { StrLessTransitive(x, s[0], s[j]); }
        }
      }
      [x] + s
    else
      StrLessTotal(x, s[0]);
      assert s == [s[0]] + s[1..];
      var rest := InsertName(x, s[1..]);
      assert forall y | y in rest :: StrLess(s[0], y);
      [s[0]] + rest
  }

  /** `sort` then `dedup`. */
  function SortDedup(names: seq<string>): (r: seq<string>)
    ensures StrictlySorted(r)
    ensures forall y :: y in r <==> y in names
  {
    if |names| == 0 then []
    else
      assert names == [names[0]] + names[1..];
      InsertName(names[0], SortDedup(names[1..]))
  }

  /**
   * A strictly sorted list is fixed by its elements: whichever way the
   * names were sorted and deduplicated, the outcome is this one.
   */
  lemma {:induction false} StrictlySortedUnique(a: seq<string>, b: seq<string>)
    requires StrictlySorted(a) && StrictlySorted(b)
    requires forall y :: y in a <==> y in b
    ensures a == b
  {
    if |a| == 0 {
      HeadIsMember(b);
    } else {
      assert a[0] in b;
      assert b[0] in a;
      if a[0] != b[0] {
        var i :| 0 <= i < |a| && a[i] == b[0];
        var j :| 0 <= j < |b| && b[j] == a[0];
        assert StrLess(a[0], b[0]);
        assert StrLess(b[0], a[0]);
        StrLessTransitive(a[0], b[0], a[0]);
        StrLessIrreflexive(a[0]);
      }
      forall y
        ensures y in a[1..] <==> y in b[1..]
      {
        if y in a[1..] {
          var k :| 1 <= k < |a| && a[k] == y;
          StrLessIrreflexive(a[0]);
          assert y in b;
        }
        if y in b[1..] {
          var k :| 1 <= k < |b| && b[k] == y;
          StrLessIrreflexive(b[0]);
          assert y in a;
        }
      }
      StrictlySortedUnique(a[1..], b[1..]);
      assert a == [a[0]] + a[1..] && b == [b[0]] + b[1..];
    }
  }

  lemma HeadIsMember<T>(s: seq<T>)
    ensures |s| > 0 ==> s[0] in s
  {
  }

  /** The list without `x`, order kept (`retain(|p| p != x)`). */
  function Without(xs: seq<string>, x: string): (r: seq<string>)
    ensures forall y :: y in r <==> y in xs && y != x
  {
    if |xs| == 0 then []
    else
      assert xs == [xs[0]] + xs[1..];
      (if xs[0] == x then [] else [xs[0]]) + Without(xs[1..], x)
  }

  /** The infos not named `x`, order kept. */
  function InfosWithout(infos: seq<PropInfo>, x: string): (r: seq<PropInfo>)
    ensures forall p :: p in r <==> p in infos && p.propName != x
  {
    if |infos| == 0 then []
    else
      assert infos == [infos[0]] + infos[1..];
      (if infos[0].propName == x then [] else [infos[0]]) + InfosWithout(infos[1..], x)
  }

  /**
   * Removing the props the first pass added for its own use: neither the
   * wanted player props nor the prop infos keep any of them, and nothing
   * else goes.
   */
  function RemoveTempProps(pc: PropController, temp: seq<string>): (r: PropController)
    ensures forall x :: x in r.wantedPlayerProps <==> x in pc.wantedPlayerProps && x !in temp
    ensures forall p :: p in r.propInfos <==> p in pc.propInfos && p.propName !in temp
    ensures r.nameToId == pc.nameToId && r.specialIds == pc.specialIds && r.wantedOtherProps == pc.wantedOtherProps
    decreases |temp|
  {
    if |temp| == 0 then pc
    else
      RemoveTempProps(pc.(wantedPlayerProps := Without(pc.wantedPlayerProps, temp[0]),
                          propInfos := InfosWithout(pc.propInfos, temp[0])), temp[1..])
  }

  function DfsOf(outs: seq<SegmentOutput>): (r: seq<Df>)
    ensures |r| == |outs| && forall i | 0 <= i < |outs| :: r[i] == outs[i].df
  {
    seq(|outs|, i requires 0 <= i < |outs| => outs[i].df)
  }

  /** The per-player frames of `steamid`, from the outputs that have one, in order. */
  function PartsFor(outs: seq<SegmentOutput>, steamid: nat): (parts: seq<Df>)
  {
    if |outs| == 0 then []
    else (if steamid in outs[0].dfPerPlayer then [outs[0].dfPerPlayer[steamid]] else []) + PartsFor(outs[1..], steamid)
  }

  function AllSteamids(outs: seq<SegmentOutput>): (ids: set<nat>)
    ensures forall s :: s in ids <==> SeesPlayer(outs, s)
  {
    if |outs| == 0 then {}
    else
      assert forall i | 1 <= i < |outs| :: outs[1..][i - 1] == outs[i];
      outs[0].dfPerPlayer.Keys + AllSteamids(outs[1..])
  }

  function EventsOf(outs: seq<SegmentOutput>): seq<GameEvent> {
    if |outs| == 0 then [] else outs[0].gameEvents + EventsOf(outs[1..])
  }

  function CountersOf(outs: seq<SegmentOutput>): (names: set<string>)
    ensures forall n :: n in names <==> Counts(outs, n)
  {
    if |outs| == 0 then {}
    else
      assert forall i | 1 <= i < |outs| :: outs[1..][i - 1] == outs[i];
      outs[0].counter + CountersOf(outs[1..])
  }

  function NamesOf(outs: seq<SegmentOutput>): (names: seq<string>)
    ensures forall n :: n in names <==> Names(outs, n)
  {
    if |outs| == 0 then []
    else
      assert forall i | 1 <= i < |outs| :: outs[1..][i - 1] == outs[i];
      outs[0].uniqPropNames + NamesOf(outs[1..])
  }

  /**
   * `combine_outputs`: the segment outputs in ptr order, their frames
   * joined, per-player frames joined per steamid without the name and
   * steamid columns, events concatenated, counters united, prop names
   * sorted and deduplicated, temporary props removed.
   */
  function CombineOutputs(outs: seq<SegmentOutput>, pc: PropController, tempProps: seq<string>): (r: DemoOutput)
  {
    var sorted := SortBy(outs, Ptr);
    DemoOutput(
      CombineDfs(DfsOf(sorted), false),
      map s | s in AllSteamids(sorted) :: CombineDfs(PartsFor(sorted, s), true),
      EventsOf(sorted),
      CountersOf(sorted),
      SortDedup(NamesOf(sorted)),
      RemoveTempProps(pc, tempProps))
  }

  /** The same outputs in any order of arrival give the same joined output. */
  lemma CombineIgnoresArrivalOrder(a: seq<SegmentOutput>, b: seq<SegmentOutput>, pc: PropController, tempProps: seq<string>)
    requires multiset(a) == multiset(b) && DistinctKeys(a, Ptr)
    ensures CombineOutputs(a, pc, tempProps) == CombineOutputs(b, pc, tempProps)
  {
    var sa := SortBy(a, Ptr);
    assert DistinctKeys(sa, Ptr) by {
      forall i, j | 0 <= i < |sa| && 0 <= j < |sa| && sa[i].ptr == sa[j].ptr
        ensures sa[i] == sa[j]
      {
        assert sa[i] in multiset(a) && sa[j] in multiset(a);
      }
    }
    SortedByUnique(sa, SortBy(b, Ptr), Ptr);
  }

  predicate Counts(outs: seq<SegmentOutput>, n: string) {
    exists i | 0 <= i < |outs| :: n in outs[i].counter
  }

  predicate Names(outs: seq<SegmentOutput>, n: string) {
    exists i | 0 <= i < |outs| :: n in outs[i].uniqPropNames
  }

  predicate SeesPlayer(outs: seq<SegmentOutput>, s: nat) {
    exists i | 0 <= i < |outs| :: s in outs[i].dfPerPlayer
  }

  /** Membership facts survive reordering. */
  lemma {:induction false} SameOutputs(a: seq<SegmentOutput>, b: seq<SegmentOutput>)
    requires multiset(a) == multiset(b)
    ensures forall n :: Counts(a, n) <==> Counts(b, n)
    ensures forall n :: Names(a, n) <==> Names(b, n)
    ensures forall s :: SeesPlayer(a, s) <==> SeesPlayer(b, s)
  {
    forall x ensures x in a <==> x in b {
      assert x in a <==> x in multiset(a);
      assert x in b <==> x in multiset(b);
    }
    forall i | 0 <= i < |a| ensures a[i] in b { assert a[i] in a; }
    forall i | 0 <= i < |b| ensures b[i] in a { assert b[i] in b; }
  }

  /**
   * What the joined output holds: every event name any segment counted,
   * every segment's prop names once each in sorted order, a per-player
   * frame for every steamid some segment saw, none of them with a name or
   * steamid column.
   */
  lemma CombinedOutputContents(outs: seq<SegmentOutput>, pc: PropController, tempProps: seq<string>)
    ensures var r := CombineOutputs(outs, pc, tempProps);
      (forall n :: n in r.counter <==> Counts(outs, n)) &&
      StrictlySorted(r.uniqPropNames) &&
      (forall n :: n in r.uniqPropNames <==> Names(outs, n)) &&
      (forall s :: s in r.dfPerPlayer <==> SeesPlayer(outs, s)) &&
      (forall s | s in r.dfPerPlayer :: STEAMID_ID !in r.dfPerPlayer[s] && NAME_ID !in r.dfPerPlayer[s])
  {
    var sorted := SortBy(outs, Ptr);
    SameOutputs(sorted, outs);
  }

  // ---------------------------------------------------------------------
  // After the join
  // ---------------------------------------------------------------------

  /**
   * The tail of both second-pass drivers: the tick filter replaces the
   * frame when one is set, purchases are paired with sells, then the
   * sells are dropped.
   */
  function FinishOutput(o: DemoOutput, wantedTicks: set<int>): (r: Result<DemoOutput, Abort>)
    ensures r.Failure? ==> r.error == Panic
    ensures r.Success? ==> wantedTicks == {} ==> r.value.df == o.df
    ensures r.Success? ==> forall i | 0 <= i < |r.value.gameEvents| :: r.value.gameEvents[i].name != ITEM_SOLD
    ensures r.Success? ==> |r.value.gameEvents| == |o.gameEvents| - Count(o.gameEvents, ITEM_SOLD)
  {
    var sliced :- RmUnwantedTicks(wantedTicks, o.df);
    var df := if sliced.Some? then sliced.value else o.df;
    var marked := AddSellColumn(o.gameEvents);
    CountSameNames(o.gameEvents, marked);
    Success(o.(df := df, gameEvents := RemoveItemSoldEvents(marked)))
  }

  /** Two event lists with the same names position by position count every name alike. */
  lemma {:induction false} CountSameNames(a: seq<GameEvent>, b: seq<GameEvent>)
    requires |a| == |b| && forall i | 0 <= i < |a| :: a[i].name == b[i].name
    ensures Count(a, ITEM_SOLD) == Count(b, ITEM_SOLD)
  {
    if |a| > 0 {
      assert forall i | 0 <= i < |a| - 1 :: a[1..][i] == a[i + 1] && b[1..][i] == b[i + 1];
      CountSameNames(a[1..], b[1..]);
    }
  }
}
