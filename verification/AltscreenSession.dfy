/**
The control state of altscreen_session.c and what one lock-held section does to it.

Every function here describes one critical section of the source: it takes the state under the lock
when the section begins and gives the state when it ends. AltscreenController.dfy has the imperative
code that is proved to compute these functions; AltscreenRuns.dfy proves what holds over whole runs.
*/
module AltscreenSession {
  import opened Wrappers

  const MAX_STATES: nat := 4
  const VIEW_REACQUIRE_DELAY_MS: nat := 150
  const CONTROL_ACK_TIMEOUT_MS: nat := 2500
  const ZOOM_AREA_BIG_MAX: int := 560
  const ZOOM_AREA_SMALL_MAX: int := 800

  datatype Stage = Idle | Show | View | Keyframe

  /** The latest-value request slot of a session; view -1 when there is none. */
  datatype Request = Request(view: int, fromGauge: bool, dueMs: nat)

  /** The fields that drive showUI, updateViewArea and forceKeyFrame. Views and UI slots are -1 for none. */
  datatype Control = Control(
    currentView: int,
    lastUiSlot: int,
    stage: Stage,
    targetView: int,
    targetFromGauge: bool,
    awaitingAck: bool,
    startup: bool,
    token: nat,
    deadlineMs: nat)

  /** One entry of the session table. */
  datatype Slot = Slot(
    active: bool,
    receiver: int,
    generation: nat,
    screenStarted: bool,
    showSent: bool,
    stopRequested: bool,
    routeKnown: bool,
    routeActive: bool,
    pending: Request,
    control: Control)

  /** What the control worker hands to SendCommand; also the context that a completion brings back. */
  datatype Command = Command(receiver: int, generation: nat, token: nat, stage: Stage, view: int)

  datatype World = World(
    slots: seq<Slot>,
    layoutSlot: int,
    layoutKnown: bool,
    generationSerial: nat,
    requestSerial: nat)

  /** An entry after memset: note that its views are 0, not -1, and that it is not active. */
  const ZERO_SLOT: Slot :=
    Slot(false, 0, 0, false, false, false, false, false, Request(0, false, 0),
         Control(0, 0, Idle, 0, false, false, false, 0, 0))

  const NO_REQUEST := Request(-1, false, 0)

  const NULL_RECEIVER: int := 0

  function FreshSlot(receiver: int, generation: nat): Slot {
    ZERO_SLOT.(receiver := receiver, generation := generation, active := true, pending := NO_REQUEST,
      control := ZERO_SLOT.control.(currentView := -1, targetView := -1, lastUiSlot := -1))
  }

  predicate Owns(s: Slot, receiver: int) {
    s.active && s.receiver == receiver
  }

  /** The first entry from `i` on that belongs to the receiver, or the table size. */
  function FindFrom(slots: seq<Slot>, receiver: int, i: nat): (r: nat)
    requires i <= |slots|
    ensures i <= r <= |slots|
    ensures r < |slots| ==> Owns(slots[r], receiver)
    ensures forall k :: i <= k < r ==> !Owns(slots[k], receiver)
    decreases |slots| - i
  {
    if i == |slots| || Owns(slots[i], receiver) then i else FindFrom(slots, receiver, i + 1)
  }

  function Find(slots: seq<Slot>, receiver: int): (r: nat)
    ensures r <= |slots|
    ensures r < |slots| ==> Owns(slots[r], receiver)
    ensures forall k :: 0 <= k < r ==> !Owns(slots[k], receiver)
  {
    FindFrom(slots, receiver, 0)
  }

  function FreeFrom(slots: seq<Slot>, i: nat): (r: nat)
    requires i <= |slots|
    ensures i <= r <= |slots|
    ensures r < |slots| ==> !slots[r].active
    ensures forall k :: i <= k < r ==> slots[k].active
    decreases |slots| - i
  {
    if i == |slots| || !slots[i].active then i else FreeFrom(slots, i + 1)
  }

  function Alloc(w: World, receiver: int): World {
    var i := FreeFrom(w.slots, 0);
    if Find(w.slots, receiver) < |w.slots| || i == |w.slots| then w
    else w.(slots := w.slots[i := FreshSlot(receiver, w.generationSerial + 1)],
            generationSerial := w.generationSerial + 1)
  }

  // ---- Requests for a view ----

  function Route(s: Slot): int {
    if s.routeKnown && s.routeActive then 1 else 0
  }

  function RouteView(layoutSlot: int, s: Slot): int {
    layoutSlot * 2 + Route(s)
  }

  /** Recording what the phone says about the route; the source reports whether it changed. */
  predicate RouteChanges(s: Slot, route: bool) {
    !s.routeKnown || s.routeActive != route
  }

  function NoteRoute(w: World, receiver: int, route: bool): World {
    var i := Find(w.slots, receiver);
    if i < |w.slots| && RouteChanges(w.slots[i], route)
    then w.(slots := w.slots[i := w.slots[i].(routeActive := route, routeKnown := true)])
    else w
  }

  function QueueRoute(w: World, receiver: int, now: nat): World {
    var i := Find(w.slots, receiver);
    if i < |w.slots| && !w.slots[i].stopRequested
    then w.(slots := w.slots[i := w.slots[i].(
           pending := Request(RouteView(w.layoutSlot, w.slots[i]), false, now + VIEW_REACQUIRE_DELAY_MS))])
    else w
  }

  function RequestCluster(w: World, i: nat, now: nat): World
    requires i < |w.slots|
  {
    var s := w.slots[i];
    if s.active && !s.stopRequested
    then w.(slots := w.slots[i := s.(
           pending := Request(RouteView(w.layoutSlot, s), false, now),
           control := s.control.(startup := true))])
    else w
  }

  /** Sessions that a change of the gauge layout reaches. */
  predicate Streaming(s: Slot) {
    s.active && s.screenStarted && !s.stopRequested
  }

  function Relayout(s: Slot, layoutSlot: int, now: nat): Slot {
    if Streaming(s)
    then s.(pending := Request(RouteView(layoutSlot, s), true, now + VIEW_REACQUIRE_DELAY_MS))
    else s
  }

  function SetLayout(w: World, layoutSlot: int, now: nat): World {
    if layoutSlot == w.layoutSlot then w
    else w.(layoutSlot := layoutSlot,
            slots := seq(|w.slots|, i requires 0 <= i < |w.slots| => Relayout(w.slots[i], layoutSlot, now)))
  }

  /** The live gauge indication: bit 0 clear is the big-gauge layout, slot 1. */
  function ObserveGauge(w: World, value: nat, now: nat): World {
    SetLayout(w.(layoutKnown := true), if value % 2 == 1 then 0 else 1, now)
  }

  /** The older zoom-area heuristic, ignored once a gauge indication has been seen. */
  function ObserveZoomArea(w: World, width: int, now: nat): World {
    if width > ZOOM_AREA_SMALL_MAX || w.layoutKnown then w
    else SetLayout(w, if width <= ZOOM_AREA_BIG_MAX then 1 else 0, now)
  }

  // ---- Resolving a command ----

  /** A failed, refused or timed-out command ends the sequence. */
  function GiveUp(c: Control): Control {
    c.(awaitingAck := false, deadlineMs := 0, stage := Idle, startup := false,
       lastUiSlot := if c.stage.Show? then -1 else c.lastUiSlot)
  }

  function NextStage(stage: Stage): Stage {
    match stage
    case Show => View
    case View => Keyframe
    case Keyframe => Idle
    case Idle => Idle
  }

  function Advance(c: Control, view: int): Control {
    var last := !c.stage.Show? && !c.stage.View?;
    c.(awaitingAck := false, deadlineMs := 0, stage := NextStage(c.stage),
       lastUiSlot := if c.stage.Show? then view / 2 else c.lastUiSlot,
       currentView := if last then view else c.currentView,
       startup := c.startup && !last)
  }

  /** Is this the command the session is waiting for? */
  predicate Current(s: Slot, c: Command) {
    && s.generation == c.generation
    && s.control.awaitingAck
    && s.control.token == c.token
    && s.control.stage == c.stage
  }

  predicate AckAccepted(w: World, c: Command) {
    var i := Find(w.slots, c.receiver);
    i < |w.slots| && !w.slots[i].stopRequested && Current(w.slots[i], c)
  }

  function SetControl(w: World, i: nat, control: Control): World
    requires i < |w.slots|
  {
    w.(slots := w.slots[i := w.slots[i].(control := control)])
  }

  function Complete(w: World, c: Command, ok: bool): World {
    if AckAccepted(w, c) then
      var i := Find(w.slots, c.receiver);
      SetControl(w, i, if ok then Advance(w.slots[i].control, c.view) else GiveUp(w.slots[i].control))
    else w
  }

  predicate RefusalAccepted(w: World, c: Command) {
    var i := Find(w.slots, c.receiver);
    i < |w.slots| && Current(w.slots[i], c)
  }

  function Refuse(w: World, c: Command): World {
    if RefusalAccepted(w, c) then
      var i := Find(w.slots, c.receiver);
      SetControl(w, i, GiveUp(w.slots[i].control))
    else w
  }

  // ---- The control worker ----

  /** What the worker does to one entry: give up an overdue command, adopt a due request, dispatch. */
  datatype Visit = Visit(pending: Request, control: Control, timedOut: bool, adopted: bool, sent: bool)

  predicate Overdue(c: Control, now: nat) {
    c.awaitingAck && now >= c.deadlineMs
  }

  function Expire(c: Control, now: nat): Control {
    if Overdue(c, now) then GiveUp(c) else c
  }

  /** A request that is not due yet also holds back the steps of the one before it. */
  predicate Waits(p: Request, c: Control, now: nat) {
    c.awaitingAck || (p.view >= 0 && p.dueMs > now)
  }

  function Adopt(p: Request, c: Control): Control {
    c.(targetView := p.view, targetFromGauge := p.fromGauge,
       stage := if c.lastUiSlot != p.view / 2 then Show else View)
  }

  predicate Dispatches(c: Control, marker: bool) {
    !c.stage.Idle? && (marker || c.startup)
  }

  function Dispatch(c: Control, now: nat, serial: nat): Control {
    c.(token := serial + 1, awaitingAck := true, deadlineMs := now + CONTROL_ACK_TIMEOUT_MS)
  }

  function VisitReady(p: Request, c: Control, late: bool, adopted: bool, now: nat, marker: bool, serial: nat): Visit {
    if Dispatches(c, marker) then Visit(p, Dispatch(c, now, serial), late, adopted, true)
    else Visit(p, c, late, adopted, false)
  }

  function VisitDue(p: Request, c: Control, late: bool, now: nat, marker: bool, serial: nat): Visit {
    if Waits(p, c, now) then Visit(p, c, late, false, false)
    else if p.view >= 0 then VisitReady(NO_REQUEST, Adopt(p, c), late, true, now, marker, serial)
    else VisitReady(p, c, late, false, now, marker, serial)
  }

  predicate Visited(s: Slot) {
    Streaming(s) && s.receiver != NULL_RECEIVER
  }

  function VisitSlot(s: Slot, now: nat, marker: bool, serial: nat): Visit {
    if Visited(s) then VisitDue(s.pending, Expire(s.control, now), Overdue(s.control, now), now, marker, serial)
    else Visit(s.pending, s.control, false, false, false)
  }

  function AfterVisit(s: Slot, now: nat, marker: bool, serial: nat): Slot {
    var v := VisitSlot(s, now, marker, serial);
    s.(pending := v.pending, control := v.control)
  }

  function CommandOf(s: Slot): Command {
    Command(s.receiver, s.generation, s.control.token, s.control.stage, s.control.targetView)
  }

  predicate Sends(s: Slot, now: nat, marker: bool, serial: nat) {
    VisitSlot(s, now, marker, serial).sent
  }

  /** The sweep stops at the first entry that has a command to send. */
  function FirstSender(slots: seq<Slot>, i: nat, now: nat, marker: bool, serial: nat): (r: nat)
    requires i <= |slots|
    ensures i <= r <= |slots|
    ensures r < |slots| ==> Sends(slots[r], now, marker, serial)
    ensures forall k :: i <= k < r ==> !Sends(slots[k], now, marker, serial)
    decreases |slots| - i
  {
    if i == |slots| || Sends(slots[i], now, marker, serial) then i
    else FirstSender(slots, i + 1, now, marker, serial)
  }

  function Tick(w: World, now: nat, marker: bool): World {
    var r := FirstSender(w.slots, 0, now, marker, w.requestSerial);
    w.(slots := seq(|w.slots|, k requires 0 <= k < |w.slots| =>
                      if k <= r then AfterVisit(w.slots[k], now, marker, w.requestSerial) else w.slots[k]),
       requestSerial := w.requestSerial + if r < |w.slots| then 1 else 0)
  }

  function TickCommand(w: World, now: nat, marker: bool): Option<Command> {
    var r := FirstSender(w.slots, 0, now, marker, w.requestSerial);
    if r < |w.slots| then Some(CommandOf(AfterVisit(w.slots[r], now, marker, w.requestSerial))) else None
  }

  // ---- The life of an entry ----

  function Start(w: World, i: nat): World
    requires i < |w.slots|
  {
    w.(slots := w.slots[i := w.slots[i].(screenStarted := true)])
  }

  function End(w: World, i: nat): World
    requires i < |w.slots|
  {
    w.(slots := w.slots[i := w.slots[i].(screenStarted := false)])
  }

  predicate ClaimsFirstFrame(s: Slot) {
    s.active && s.screenStarted && !s.showSent && !s.stopRequested
  }

  function ClaimFirstFrame(w: World, i: nat): World
    requires i < |w.slots|
  {
    if ClaimsFirstFrame(w.slots[i]) then w.(slots := w.slots[i := w.slots[i].(showSent := true)]) else w
  }

  function RequestStop(w: World, receiver: int): World {
    var i := Find(w.slots, receiver);
    if i < |w.slots| then w.(slots := w.slots[i := w.slots[i].(stopRequested := true)]) else w
  }

  function Wipe(w: World, i: nat): World
    requires i < |w.slots|
  {
    w.(slots := w.slots[i := ZERO_SLOT])
  }
}
