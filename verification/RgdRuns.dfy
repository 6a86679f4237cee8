/** When Java may see a route end, over whole runs of messages and ticks. */
module RgdRuns {
  import opened Bytes
  import opened Rgd
  import opened RgdSlots
  import opened Wrappers
  import U = RouteUpdate

  datatype Event =
    | UpdateMessage(message: seq<byte>, now: nat)
    | ManeuverMessage(message: seq<byte>)
    | LaneMessage(message: seq<byte>)
    | TickAt(now: nat)
    | ClearAll

  function Apply(g: Guidance, e: Event): (h: Guidance)
    requires g.Valid()
    ensures h.Valid()
  {
    match e
    case UpdateMessage(message, now) => HandleUpdate(g, message, now)
    case ManeuverMessage(message) => HandleManeuver(g, message)
    case LaneMessage(message) => HandleLane(g, message)
    case TickAt(now) => Tick(g, now)
    case ClearAll => Clear(g)
  }

  /** The state when the module is initialised. */
  function Initial(): (g: Guidance)
    ensures g.Valid()
  {
    Guidance(Debounce(0, 0, 0, false, 0), false, U.Zero(), Listing(false, []), Reset(), 0)
  }

  function Exec(es: seq<Event>): (g: Guidance)
    ensures g.Valid()
    decreases |es|
  {
    if es == [] then Initial() else Apply(Exec(es[..|es| - 1]), es[|es| - 1])
  }

  /** The clock of the head unit does not read 0, which marks that no zero is pending. */
  predicate ClockRuns(e: Event) {
    e.UpdateMessage? ==> e.now > 0
  }

  predicate AllClocksRun(es: seq<Event>) {
    forall i :: 0 <= i < |es| ==> ClockRuns(es[i])
  }

  // ---- Java knows what was emitted ----

  /** A pending zero holds back a state of at least 1, and its deadline is 800 ms behind its start. */
  predicate PendingInv(d: Debounce) {
    d.started != 0 ==>
      d.emitted != 0 && (if d.fromReroute then d.deadline == 0 else d.deadline == d.started + GRACE_MS)
  }

  predicate Inv(g: Guidance)
    requires g.Valid()
  {
    && g.java == g.d.emitted
    && (NumberOf(g.cache, STATE).Some? ==> NumberOf(g.cache, STATE).value == g.d.emitted)
    && (g.d.started != 0 ==> NumberOf(g.cache, STATE).None?)
    && PendingInv(g.d)
  }

  lemma MergedState(c: seq<U.Field>, u: seq<U.Field>)
    requires U.Valid(c) && U.Valid(u)
    ensures NumberOf(U.Merge(c, u), STATE)
              == if NumberOf(u, STATE).Some? then NumberOf(u, STATE) else NumberOf(c, STATE)
  {
  }

  lemma ZeroSaysNothing()
    ensures NumberOf(U.Zero(), STATE).None?
  {
  }

  /** Publishing an update that says the emitted state, or no state, leaves Java with the emitted state. */
  lemma PublishKeepsInv(g: Guidance, u: seq<U.Field>)
    requires g.Valid() && U.Valid(u)
    requires NumberOf(g.cache, STATE).Some? && NumberOf(u, STATE).None? ==>
               NumberOf(g.cache, STATE).value == g.d.emitted
    requires NumberOf(u, STATE).Some? ==> NumberOf(u, STATE).value == g.d.emitted && g.d.started == 0
    requires NumberOf(u, STATE).None? ==> g.java == g.d.emitted
    requires g.d.started != 0 ==> NumberOf(g.cache, STATE).None?
    requires PendingInv(g.d)
    ensures Inv(Publish(g, u)) && Publish(g, u).d == g.d
  {
    hide U.Valid, U.Merge, U.Zero;
    MergedState(g.cache, u);
    if NumberOf(u, STATE).Some? {
      StateIsPresent(u);
    }
  }

  lemma StateIsPresent(u: seq<U.Field>)
    requires U.Valid(u) && NumberOf(u, STATE).Some?
    ensures SaysAnything(u)
  {
    assert u[STATE].present;
  }

  lemma DecideKeepsInv(g: Guidance, u: seq<U.Field>, now: nat)
    requires g.Valid() && Inv(g) && U.Valid(u) && now > 0
    ensures var r := Decide(g, u, now);
            && PendingInv(r.g.d)
            && (NumberOf(r.g.cache, STATE).Some? && !(r.publish && NumberOf(u, STATE).Some?) ==>
                  NumberOf(r.g.cache, STATE).value == r.g.d.emitted)
            && (r.g.d.started != 0 ==> NumberOf(r.g.cache, STATE).None?)
            && (r.publish && NumberOf(u, STATE).Some? ==>
                  NumberOf(u, STATE).value == r.g.d.emitted && r.g.d.started == 0)
            && ((r.publish && NumberOf(u, STATE).None?) || !r.publish ==> r.g.java == r.g.d.emitted)
  {
    hide U.Valid, U.Zero, Evidence, HardClear, Reset;
    ZeroSaysNothing();
  }

  lemma UpdateKeepsInv(g: Guidance, message: seq<byte>, now: nat)
    requires g.Valid() && Inv(g) && now > 0
    ensures Inv(HandleUpdate(g, message, now))
  {
    hide U.Valid, U.Parse, Decide, Publish, NumberOf;
    var u := U.Parse(message);
    DecideKeepsInv(g, u, now);
    var r := Decide(g, u, now);
    if r.publish {
      PublishKeepsInv(r.g, u);
    }
  }

  lemma ApplyKeepsInv(g: Guidance, e: Event)
    requires g.Valid() && Inv(g) && ClockRuns(e)
    ensures Inv(Apply(g, e))
  {
    hide U.Valid, HandleUpdate, Keep, StoredIndex, ParseManeuver, LanesArePublished, U.Zero, Reset;
    match e
    case UpdateMessage(message, now) => UpdateKeepsInv(g, message, now);
    case ManeuverMessage(message) =>
    case LaneMessage(message) =>
    case TickAt(now) =>
    case ClearAll => ZeroSaysNothing();
  }

  /** With whole handlers and ticks, Java's last route state is always the one the hook believes it emitted. */
  lemma {:induction false} JavaSeesEmitted(es: seq<Event>)
    requires AllClocksRun(es)
    ensures Inv(Exec(es)) && Exec(es).java == Exec(es).d.emitted
    decreases |es|
  {
    hide Apply, U.Zero, Reset, ClockRuns;
    if es == [] {
      ZeroSaysNothing();
    } else {
      JavaSeesEmitted(es[..|es| - 1]);
      ApplyKeepsInv(Exec(es[..|es| - 1]), es[|es| - 1]);
    }
  }

  // ---- What ends a route ----

  function StateOf(message: seq<byte>): Option<nat> {
    NumberOf(U.Parse(message), STATE)
  }

  /** A reset frame: an update with state 0 that is no hard clear. */
  predicate IsZero(e: Event) {
    e.UpdateMessage? && StateOf(e.message) == Some(0) && !HardClear(U.Parse(e.message))
  }

  predicate IsHardClear(e: Event) {
    e.UpdateMessage? && StateOf(e.message) == Some(0) && HardClear(U.Parse(e.message))
  }

  /** Signs that the route goes on, or that it is over: the pending zero is forgotten. */
  predicate Cancels(e: Event) {
    match e
    case UpdateMessage(message, _) =>
      var u := U.Parse(message);
      if NumberOf(u, STATE).Some? then NumberOf(u, STATE).value > 0 || HardClear(u) else Evidence(u)
    case ManeuverMessage(_) => true
    case LaneMessage(_) => true
    case TickAt(_) => false
    case ClearAll => true
  }

  /** One step: what changes the emitted state. */
  lemma EmittedChanges(g: Guidance, e: Event)
    requires g.Valid() && Inv(g) && ClockRuns(e)
    ensures var h := Apply(g, e);
            h.d.emitted ==
              (match e
               case UpdateMessage(message, _) =>
                 if Positive(StateOf(message)) then StateOf(message).value
                 else if IsHardClear(e) then 0 else g.d.emitted
               case TickAt(now) => if TickFires(g, now) then 0 else g.d.emitted
               case ClearAll => 0
               case _ => g.d.emitted)
  {
    hide U.Valid, U.Parse, Publish, U.Zero, Reset, Evidence, HardClear, NumberOf, Keep, StoredIndex, ParseManeuver;
    if e.UpdateMessage? {
      var u := U.Parse(e.message);
      PublishLeavesDebounce(Decide(g, u, e.now).g, u);
    }
  }

  lemma PublishLeavesDebounce(g: Guidance, u: seq<U.Field>)
    requires g.Valid() && U.Valid(u)
    ensures Publish(g, u).d == g.d
  {
  }

  /** One step: what becomes of a pending zero. */
  lemma PendingChanges(g: Guidance, e: Event)
    requires g.Valid() && Inv(g) && ClockRuns(e)
    ensures var h := Apply(g, e);
            && (Cancels(e) ==> h.d.started == 0)
            && (!Cancels(e) && g.d.started != 0 && !(e.TickAt? && TickFires(g, e.now)) ==>
                  h.d.started == g.d.started && h.d.fromReroute == g.d.fromReroute)
            && (!Cancels(e) && g.d.started == 0 && h.d.started != 0 ==>
                  IsZero(e) && h.d.started == e.now
                  && (h.d.fromReroute <==> g.d.last == REROUTING || g.d.emitted == REROUTING))
            && (e.TickAt? && TickFires(g, e.now) ==> h.d.started == 0)
  {
    hide U.Valid, U.Parse, Publish, U.Zero, Reset, Evidence, HardClear, NumberOf, Keep, StoredIndex, ParseManeuver;
    if e.UpdateMessage? {
      var u := U.Parse(e.message);
      PublishLeavesDebounce(Decide(g, u, e.now).g, u);
    }
  }

  /** The event at position k made the zero pending that still is at the end of the run. */
  predicate Pends(es: seq<Event>, k: nat) {
    && k < |es| && IsZero(es[k])
    && (forall j :: k < j < |es| ==> !Cancels(es[j]))
    && Exec(es[..k]).d.started == 0
    && (forall j :: k < j <= |es| ==> Exec(es[..j]).d.started != 0)
  }

  /** Where a pending zero comes from: the first reset frame since the last event that cancels. */
  lemma {:induction false} PendingSince(es: seq<Event>) returns (k: nat)
    requires AllClocksRun(es) && Exec(es).d.started != 0
    ensures Pends(es, k) && es[k].now == Exec(es).d.started
    ensures var g := Exec(es[..k]);
            Exec(es).d.fromReroute <==> g.d.last == REROUTING || g.d.emitted == REROUTING
    decreases |es|
  {
    hide Apply, Cancels, IsZero, U.Zero, Reset, ClockRuns, Inv;
    var before := es[..|es| - 1];
    JavaSeesEmitted(before);
    InitialIsIdle();
    PendingChanges(Exec(before), es[|es| - 1]);
    if Exec(before).d.started == 0 {
      k := |es| - 1;
    } else {
      k := PendingSince(before);
      assert forall j :: 0 <= j <= |before| ==> before[..j] == es[..j];
    }
    assert es[..|es|] == es;
  }

  lemma InitialIsIdle()
    ensures Initial().d.started == 0
  {
  }

  /**
  With whole handlers and ticks, Java sees a route end exactly by a hard clear, by a reset of the module, or by a
  tick when a reset frame came in at least 800 ms before it, neither while rerouting nor cancelled since.
  */
  lemma RouteEndsOnlyFor(es: seq<Event>, e: Event) returns (k: nat)
    requires AllClocksRun(es) && ClockRuns(e)
    requires Exec(es).java != 0
    ensures Exec(es + [e]).java == 0 <==>
            || IsHardClear(e) || e == ClearAll
            || (e.TickAt? && Pends(es, k) && e.now >= es[k].now + GRACE_MS
                && Exec(es[..k]).d.last != REROUTING && Exec(es[..k]).d.emitted != REROUTING)
  {
    hide Apply, IsZero, Cancels, HardClear, StateOf, U.Zero, Reset, ClockRuns;
    var all := es + [e];
    assert all[..|all| - 1] == es;
    assert AllClocksRun(all);
    JavaSeesEmitted(es);
    JavaSeesEmitted(all);
    EmittedChanges(Exec(es), e);
    k := 0;
    assert es[..|es|] == es;
    if Exec(es).d.started != 0 {
      k := PendingSince(es);
    }
  }

  /** A reset that came while rerouting is never taken for the end of the route by a tick. */
  lemma RerouteNeverTimesOut(es: seq<Event>, k: nat, now: nat)
    requires AllClocksRun(es) && Pends(es, k)
    requires Exec(es[..k]).d.last == REROUTING || Exec(es[..k]).d.emitted == REROUTING
    ensures Exec(es + [TickAt(now)]) == Exec(es)
  {
    hide Apply, IsZero, Cancels, U.Zero, Reset, ClockRuns;
    var all := es + [TickAt(now)];
    assert all[..|all| - 1] == es;
    assert es[..|es|] == es;
    var j := PendingSince(es);
    PendsOnce(es, j, k);
    TickIgnoresReroute(Exec(es), now);
  }

  lemma TickIgnoresReroute(g: Guidance, now: nat)
    requires g.Valid() && g.d.fromReroute
    ensures Apply(g, TickAt(now)) == g
  {
  }

  /** A pending zero has one origin. */
  lemma PendsOnce(es: seq<Event>, j: nat, k: nat)
    requires Pends(es, j) && Pends(es, k)
    ensures j == k
  {
    hide Exec, IsZero, Cancels;
  }
}
