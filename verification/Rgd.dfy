/**
The message handlers and the tick of rgd_hook.c as functions on values: when a route state of 0 is held back
from Java, what cancels it, and what each message does to the cached update and the maneuver store.
*/
module Rgd {
  import opened Bytes
  import opened RgdSlots
  import opened Wrappers
  import L = LaneParse
  import U = RouteUpdate

  const REROUTING: nat := 5
  const GRACE_MS: nat := 800

  // Positions of the fields that the handlers look at
  const STATE: nat := 0x01
  const CURRENT_ROAD: nat := 0x03
  const DESTINATION: nat := 0x04
  const DISTANCE_REMAINING: nat := 0x07
  const DISTANCE_TO_MANEUVER: nat := 0x0A
  const MANEUVER_LIST: nat := 0x0D
  const MANEUVER_COUNT: nat := 0x0E
  const LANE_EVENT: nat := 0x10
  const SUPPORTED: nat := 0x14

  /** last is the state received last, emitted the one Java was told last; started is 0 when no zero is pending. */
  datatype Debounce = Debounce(last: nat, started: nat, deadline: nat, fromReroute: bool, emitted: nat)

  /** java is the route state in the last frame sent to Java that has one. */
  datatype Guidance = Guidance(d: Debounce, haveUpdate: bool, cache: seq<U.Field>, shown: Listing, slots: Slots,
                               java: nat)
  {
    predicate Valid() {
      U.Valid(cache) && slots.Valid() && |shown.items| <= LIST_MAX
    }
  }

  // ---- Fields of an update ----

  function NumberOf(u: seq<U.Field>, id: nat): (n: Option<nat>)
    requires U.Valid(u) && id < U.FIELDS && U.KindOf(id).Scalar?
  {
    assert U.Fits(U.KindOf(id), u[id]);
    if u[id].present then Some(u[id].data.n) else None
  }

  function ListOf(u: seq<U.Field>): (items: Option<seq<nat>>)
    requires U.Valid(u)
    ensures items.Some? ==> |items.value| <= LIST_MAX
  {
    assert U.Fits(U.KindOf(MANEUVER_LIST), u[MANEUVER_LIST]);
    var f := u[MANEUVER_LIST];
    if f.present then Some(f.data.items[..f.data.count]) else None
  }

  predicate HasText(u: seq<U.Field>, id: nat)
    requires U.Valid(u) && id < U.FIELDS && U.KindOf(id).Text?
  {
    assert U.Fits(U.KindOf(id), u[id]);
    u[id].present && u[id].data.buf[0] != 0
  }

  predicate Positive(n: Option<nat>) {
    n.Some? && n.value > 0
  }

  /** rgd_update_has_active_evidence */
  predicate Evidence(u: seq<U.Field>)
    requires U.Valid(u)
  {
    || Positive(NumberOf(u, STATE))
    || Positive(NumberOf(u, MANEUVER_COUNT))
    || (ListOf(u).Some? && ListOf(u).value != [])
    || Positive(NumberOf(u, DISTANCE_TO_MANEUVER))
    || Positive(NumberOf(u, DISTANCE_REMAINING))
    || HasText(u, DESTINATION)
    || HasText(u, CURRENT_ROAD)
  }

  predicate HardClear(u: seq<U.Field>)
    requires U.Valid(u)
  {
    NumberOf(u, SUPPORTED) == Some(0)
  }

  predicate SaysAnything(u: seq<U.Field>)
    requires U.Valid(u)
  {
    exists id :: 0 <= id < U.FIELDS && u[id].present
  }

  // ---- Publishing ----

  /** What Java knows after a snapshot of the cache; a snapshot without a route state tells it nothing new. */
  function Told(cache: seq<U.Field>, java: nat): nat
    requires U.Valid(cache)
  {
    match NumberOf(cache, STATE)
    case None => java
    case Some(n) => n
  }

  /** write_bus_update_partial */
  function Publish(g: Guidance, u: seq<U.Field>): (h: Guidance)
    requires g.Valid() && U.Valid(u)
    ensures h.Valid()
  {
    if !SaysAnything(u) then g
    else
      var cache := U.Merge(g.cache, u);
      g.(cache := cache, java := Told(cache, g.java),
         shown := if ListOf(u).Some? then Listing(true, ListOf(u).value) else g.shown)
  }

  // ---- Debouncing ----

  /** rgd_cancel_pending_zero_locked */
  function Cancel(d: Debounce): Debounce {
    if d.started == 0 then d else d.(started := 0, deadline := 0, fromReroute := false)
  }

  function MapReset(g: Guidance): (h: Guidance)
    requires g.Valid()
    ensures h.Valid()
  {
    g.(shown := Listing(false, []), slots := Reset())
  }

  function CacheReset(g: Guidance): (h: Guidance)
    requires g.Valid()
    ensures h.Valid()
  {
    g.(cache := U.Zero())
  }

  /** The pending zero that a reset frame starts, unless one is pending already. */
  function StartPending(d: Debounce, prev: nat, now: nat): Debounce {
    if d.started != 0 then d
    else
      var fromReroute := prev == REROUTING || d.emitted == REROUTING;
      d.(started := now, fromReroute := fromReroute, deadline := if fromReroute then 0 else now + GRACE_MS)
  }

  datatype Handled = Handled(g: Guidance, publish: bool)

  /** The branch of the 0x5201 handler for an update with a route state. */
  function HandleState(g: Guidance, u: seq<U.Field>, state: nat, now: nat): (r: Handled)
    requires g.Valid() && U.Valid(u)
    ensures r.g.Valid()
  {
    var prev := g.d.last;
    var h := g.(d := g.d.(last := state));
    if state != 0 then Handled(h.(d := Cancel(h.d).(emitted := state)), true)
    else if HardClear(u) then Handled(MapReset(CacheReset(h)).(d := Cancel(h.d).(emitted := 0)), true)
    else if h.d.emitted == 0 then Handled(h, true)
    else
      var c := CacheReset(h);
      var m := if prev > 0 then MapReset(c) else c;
      Handled(m.(d := StartPending(h.d, prev, now)), false)
  }

  /** The 0x5201 handler up to the decision whether to publish. */
  function Decide(g: Guidance, u: seq<U.Field>, now: nat): (r: Handled)
    requires g.Valid() && U.Valid(u)
    ensures r.g.Valid()
  {
    var h := g.(haveUpdate := true);
    if NumberOf(u, STATE).Some? then HandleState(h, u, NumberOf(u, STATE).value, now)
    else if Evidence(u) then Handled(h.(d := Cancel(h.d)), true)
    else Handled(h, HardClear(u) || h.d.started == 0)
  }

  /** The 0x5201 branch of rgd_message_handler. */
  function HandleUpdate(g: Guidance, message: seq<byte>, now: nat): (h: Guidance)
    requires g.Valid()
    ensures h.Valid()
  {
    var u := U.Parse(message);
    var r := Decide(g, u, now);
    if r.publish then Publish(r.g, u) else r.g
  }

  function Least(items: seq<nat>): (n: nat)
    requires items != []
    ensures n in items && forall k :: 0 <= k < |items| ==> n <= items[k]
  {
    if |items| == 1 then items[0]
    else
      var rest := Least(items[..|items| - 1]);
      var x := items[|items| - 1];
      if x < rest then x else rest
  }

  /** rgd_can_process_maneuver_index */
  predicate Accepts(g: Guidance, x: nat) {
    g.haveUpdate &&
    (!g.shown.present || g.shown.items == [] || g.d.last == REROUTING || x >= Least(g.shown.items))
  }

  /** The maneuver goes into the store under this index. */
  function StoredIndex(g: Guidance, m: Maneuver): Option<nat> {
    match IndexOf(m)
    case None => None
    case Some(x) => if Accepts(g, x) then Some(x) else None
  }

  /** The 0x5202 branch of rgd_message_handler. */
  function HandleManeuver(g: Guidance, message: seq<byte>): (h: Guidance)
    requires g.Valid()
    ensures h.Valid()
  {
    var m := ParseManeuver(message);
    var c := g.(d := Cancel(g.d));
    match StoredIndex(c, m)
    case None => c
    case Some(x) => c.(slots := Keep(c.slots, c.shown, x, m), java := Told(c.cache, c.java))
  }

  /** The lane event that a 0x5204 message is about: the one that it names, or else the first one on display. */
  function LaneEvent(l: Listing, lanes: L.Guidance): nat {
    if lanes.event.Some? then lanes.event.value
    else if l.present && l.items != [] then l.items[0]
    else EMPTY
  }

  /** A snapshot follows if the message has lanes to keep, or is about the lane event that is current. */
  predicate LanesArePublished(g: Guidance, lanes: L.Guidance)
    requires g.Valid()
  {
    && (lanes.event.Some? || lanes.described)
    && LaneEvent(g.shown, lanes) != EMPTY
    && (lanes.described || NumberOf(g.cache, LANE_EVENT) == Some(LaneEvent(g.shown, lanes)))
  }

  /** write_bus_lane_guidance_partial, as far as Java's route state goes. */
  function PublishLanes(g: Guidance, message: seq<byte>): (h: Guidance)
    requires g.Valid()
    ensures h.Valid()
  {
    if LanesArePublished(g, L.ParseGuidance(message)) then g.(java := Told(g.cache, g.java)) else g
  }

  /** The 0x5204 branch of rgd_message_handler. */
  function HandleLane(g: Guidance, message: seq<byte>): (h: Guidance)
    requires g.Valid()
    ensures h.Valid()
  {
    PublishLanes(g.(d := Cancel(g.d)), message)
  }

  /** rgd_periodic_tick tells Java that the route ended. */
  predicate TickFires(g: Guidance, now: nat) {
    g.d.started != 0 && g.d.emitted != 0 && !g.d.fromReroute && g.d.deadline != 0 && now >= g.d.deadline
  }

  function Tick(g: Guidance, now: nat): (h: Guidance)
    requires g.Valid()
    ensures h.Valid()
  {
    if TickFires(g, now) then g.(d := g.d.(started := 0, deadline := 0, fromReroute := false, emitted := 0), java := 0)
    else g
  }

  /** rgd_clear_state */
  function Clear(g: Guidance): (h: Guidance)
    requires g.Valid()
    ensures h.Valid()
  {
    Guidance(Debounce(0, 0, 0, false, 0), false, U.Zero(), Listing(false, []), Reset(), 0)
  }
}
