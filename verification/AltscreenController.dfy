/**
The imperative form of altscreen_session.c: the session table, the layout and the two serial counters
are updated in place, and the observers and the tick walk the table with loops. Each method is one
section under g_lock.
*/
module AltscreenController {
  import opened Wrappers
  import opened AltscreenSession

  class Controller {
    const states: array<Slot>
    var layoutSlot: int
    var layoutKnown: bool
    var generationSerial: nat
    var requestSerial: nat

    ghost predicate Valid()
      reads this
    {
      states.Length == MAX_STATES
    }

    ghost function Model(): World
      reads this, states
    {
      World(states[..], layoutSlot, layoutKnown, generationSerial, requestSerial)
    }

    constructor ()
      ensures Valid() && fresh(states)
      ensures Model() == World([ZERO_SLOT, ZERO_SLOT, ZERO_SLOT, ZERO_SLOT], 0, false, 0, 0)
    {
      states := new Slot[MAX_STATES](_ => ZERO_SLOT);
      layoutSlot, layoutKnown, generationSerial, requestSerial := 0, false, 0, 0;
    }

    /** find_state_receiver_locked: the table size stands for NULL. */
    method FindReceiver(receiver: int) returns (i: nat)
      requires Valid()
      ensures i == Find(states[..], receiver)
    {
      i := 0;
      while i < states.Length
        invariant i <= states.Length
        invariant Find(states[..], receiver) == FindFrom(states[..], receiver, i)
      {
        if states[i].active && states[i].receiver == receiver {
          return;
        }
        i := i + 1;
      }
    }

    /** alloc_state_locked: refuses a receiver that is already registered, and a full table. */
    method AllocState(receiver: int) returns (ok: bool)
      requires Valid()
      modifies this, states
      ensures Valid() && Model() == Alloc(old(Model()), receiver)
      ensures ok <==> generationSerial == old(generationSerial) + 1
    {
      var found := FindReceiver(receiver);
      if found < states.Length {
        return false;
      }
      var i := 0;
      while i < states.Length
        invariant i <= states.Length
        invariant Model() == old(Model())
        invariant FreeFrom(states[..], 0) == FreeFrom(states[..], i)
      {
        if !states[i].active {
          states[i] := FreshSlot(receiver, generationSerial + 1);
          generationSerial := generationSerial + 1;
          return true;
        }
        i := i + 1;
      }
      return false;
    }

    /** note_route_state */
    method NoteRouteState(receiver: int, route: bool) returns (changed: bool)
      requires Valid()
      modifies states
      ensures Valid() && Model() == NoteRoute(old(Model()), receiver, route)
      ensures changed <==> var i := Find(old(states[..]), receiver);
                           i < MAX_STATES && RouteChanges(old(states[..])[i], route)
    {
      changed := false;
      var i := FindReceiver(receiver);
      if i < states.Length {
        if !states[i].routeKnown || states[i].routeActive != route {
          changed := true;
          states[i] := states[i].(routeActive := route, routeKnown := true);
        }
      }
    }

    /** queue_route_view_for_receiver */
    method QueueRouteView(receiver: int, now: nat)
      requires Valid()
      modifies states
      ensures Valid() && Model() == QueueRoute(old(Model()), receiver, now)
    {
      var i := FindReceiver(receiver);
      if i < states.Length && states[i].active && !states[i].stopRequested {
        states[i] := states[i].(pending := Request(RouteView(layoutSlot, states[i]), false,
                                                   now + VIEW_REACQUIRE_DELAY_MS));
      }
    }

    /** request_cluster: the first real frame asks for the UI. */
    method RequestCluster(i: nat, now: nat)
      requires Valid() && i < MAX_STATES
      modifies states
      ensures Valid() && Model() == AltscreenSession.RequestCluster(old(Model()), i, now)
    {
      if states[i].active && !states[i].stopRequested {
        states[i] := states[i].(pending := Request(RouteView(layoutSlot, states[i]), false, now),
                                control := states[i].control.(startup := true));
      }
    }

    /** The loop that v8n_observe_gauge_bap54 and v8h_trace_line share. */
    method ChangeLayout(slot: int, now: nat) returns (queued: nat)
      requires Valid()
      modifies this`layoutSlot, states
      ensures Valid() && Model() == SetLayout(old(Model()), slot, now)
    {
      queued := 0;
      if slot != layoutSlot {
        layoutSlot := slot;
        var i := 0;
        while i < states.Length
          invariant i <= states.Length
          invariant layoutSlot == slot
          invariant forall k :: 0 <= k < i ==> states[k] == Relayout(old(states[..])[k], slot, now)
          invariant forall k :: i <= k < states.Length ==> states[k] == old(states[..])[k]
        {
          if states[i].active && states[i].screenStarted && !states[i].stopRequested {
            states[i] := states[i].(pending := Request(RouteView(layoutSlot, states[i]), true,
                                                       now + VIEW_REACQUIRE_DELAY_MS));
            queued := queued + 1;
          }
          i := i + 1;
        }
        assert states[..] == SetLayout(old(Model()), slot, now).slots;
      }
    }

    /** v8n_observe_gauge_bap54, for a live indication with the given raw value. */
    method ObserveGauge(value: nat, now: nat)
      requires Valid()
      modifies this`layoutSlot, this`layoutKnown, states
      ensures Valid() && Model() == AltscreenSession.ObserveGauge(old(Model()), value, now)
    {
      layoutKnown := true;
      var _ := ChangeLayout(if value % 2 == 1 then 0 else 1, now);
    }

    /** The setZoomArea branch of v8h_trace_line. */
    method ObserveZoomArea(width: int, now: nat)
      requires Valid()
      modifies this`layoutSlot, states
      ensures Valid() && Model() == AltscreenSession.ObserveZoomArea(old(Model()), width, now)
    {
      var slot := if width <= ZOOM_AREA_BIG_MAX then 1 else if width <= ZOOM_AREA_SMALL_MAX then 0 else -1;
      if slot < 0 || layoutKnown {
        return;
      }
      var _ := ChangeLayout(slot, now);
    }

    /** v8s_control_completion */
    method ControlCompletion(c: Command, ok: bool) returns (accepted: bool)
      requires Valid()
      modifies states
      ensures Valid() && Model() == Complete(old(Model()), c, ok)
      ensures accepted <==> AckAccepted(old(Model()), c)
    {
      accepted := false;
      var i := FindReceiver(c.receiver);
      if i < states.Length && !states[i].stopRequested && states[i].generation == c.generation &&
         states[i].control.awaitingAck && states[i].control.token == c.token && states[i].control.stage == c.stage {
        accepted := true;
        if ok {
          AdvanceEntry(i, c.view);
        } else {
          GiveUpEntry(i);
        }
      }
    }

    /** v8s_control_dispatch_failed */
    method ControlDispatchFailed(c: Command) returns (accepted: bool)
      requires Valid()
      modifies states
      ensures Valid() && Model() == Refuse(old(Model()), c)
      ensures accepted <==> RefusalAccepted(old(Model()), c)
    {
      accepted := false;
      var i := FindReceiver(c.receiver);
      if i < states.Length && states[i].generation == c.generation && states[i].control.awaitingAck &&
         states[i].control.token == c.token && states[i].control.stage == c.stage {
        GiveUpEntry(i);
        accepted := true;
      }
    }

    /** The locked part of v8s_control_tick; the command, if any, goes to v8s_control_send. */
    method ControlTick(now: nat, marker: bool) returns (command: Option<Command>)
      requires Valid()
      modifies this`requestSerial, states
      ensures Valid() && Model() == Tick(old(Model()), now, marker)
      ensures command == TickCommand(old(Model()), now, marker)
    {
      hide AfterVisit, VisitSlot, CommandOf, Sends;
      command := None;
      ghost var was := states[..];
      ghost var serial := requestSerial;
      var i := 0;
      while i < states.Length
        invariant i <= states.Length
        invariant command == None && requestSerial == serial == old(requestSerial)
        invariant was == old(states[..])
        invariant FirstSender(was, 0, now, marker, serial) == FirstSender(was, i, now, marker, serial)
        invariant forall k :: 0 <= k < i ==> states[k] == AfterVisit(was[k], now, marker, serial)
        invariant forall k :: i <= k < states.Length ==> states[k] == was[k]
      {
        command := VisitEntry(i, now, marker);
        if command.Some? {
          break;
        }
        i := i + 1;
      }
      assert FirstSender(was, 0, now, marker, serial) == i;
      assert states[..] == Tick(World(was, layoutSlot, layoutKnown, generationSerial, serial), now, marker).slots;
    }

    /** The body of the tick's loop for one entry. */
    method VisitEntry(i: nat, now: nat, marker: bool) returns (command: Option<Command>)
      requires Valid() && i < MAX_STATES
      modifies this`requestSerial, states
      ensures Valid()
      ensures states[i] == AfterVisit(old(states[i]), now, marker, old(requestSerial))
      ensures forall k :: 0 <= k < states.Length && k != i ==> states[k] == old(states[k])
      ensures command == if Sends(old(states[i]), now, marker, old(requestSerial))
                         then Some(CommandOf(AfterVisit(old(states[i]), now, marker, old(requestSerial)))) else None
      ensures requestSerial == old(requestSerial) + if command.Some? then 1 else 0
    {
      command := None;
      if !states[i].active || !states[i].screenStarted || states[i].stopRequested ||
         states[i].receiver == NULL_RECEIVER {
        return;
      }
      if states[i].control.awaitingAck && now >= states[i].control.deadlineMs {
        GiveUpEntry(i);
      }
      var p, c, sent := AdvanceControl(states[i].pending, states[i].control, Overdue(old(states[i]).control, now),
                                         now, marker);
      states[i] := states[i].(pending := p, control := c);
      if sent {
        command := Some(CommandOf(states[i]));
      }
    }

    /** Adoption and dispatch, on the request and the control fields of the entry being visited. */
    method AdvanceControl(request: Request, control: Control, ghost late: bool, now: nat, marker: bool)
      returns (p: Request, c: Control, sent: bool)
      modifies this`requestSerial
      ensures var v := VisitDue(request, control, late, now, marker, old(requestSerial));
              p == v.pending && c == v.control && sent == v.sent
      ensures requestSerial == old(requestSerial) + if sent then 1 else 0
    {
      p, c, sent := request, control, false;
      if c.awaitingAck {
        return;
      }
      if p.view >= 0 && p.dueMs <= now {
        c := c.(targetView := p.view, targetFromGauge := p.fromGauge,
                stage := if c.lastUiSlot != p.view / 2 then Show else View);
        p := NO_REQUEST;
      } else if p.view >= 0 {
        return;
      }
      if c.stage == Idle || (!marker && !c.startup) {
        return;
      }
      requestSerial := requestSerial + 1;
      c := c.(token := requestSerial, awaitingAck := true, deadlineMs := now + CONTROL_ACK_TIMEOUT_MS);
      sent := true;
    }

    /** What a timeout, a refusal and a failed completion do alike. */
    method GiveUpEntry(i: nat)
      requires Valid() && i < MAX_STATES
      modifies states
      ensures states[..] == old(states[..])[i := old(states[i]).(control := GiveUp(old(states[i]).control))]
    {
      var c := states[i].control.(awaitingAck := false, deadlineMs := 0);
      if c.stage == Show {
        c := c.(lastUiSlot := -1);
      }
      states[i] := states[i].(control := c.(stage := Idle, startup := false));
    }

    method AdvanceEntry(i: nat, view: int)
      requires Valid() && i < MAX_STATES
      modifies states
      ensures states[..] == old(states[..])[i := old(states[i]).(control := Advance(old(states[i]).control, view))]
    {
      var c := states[i].control.(awaitingAck := false, deadlineMs := 0);
      if c.stage == Show {
        c := c.(lastUiSlot := view / 2, stage := View);
      } else if c.stage == View {
        c := c.(stage := Keyframe);
      } else {
        c := c.(currentView := view, stage := Idle, startup := false);
      }
      states[i] := states[i].(control := c);
    }

    /** The worker thread publishing that its screen runs, or has ended. */
    method SetScreenStarted(i: nat, started: bool)
      requires Valid() && i < MAX_STATES
      modifies states
      ensures Valid() && Model() == if started then Start(old(Model()), i) else End(old(Model()), i)
    {
      states[i] := states[i].(screenStarted := started);
    }

    /** The locked part of ScreenStreamProcessData for the worker that owns entry i. */
    method FirstRealFrame(i: nat) returns (shouldShow: bool)
      requires Valid() && i < MAX_STATES
      modifies states
      ensures Valid() && Model() == ClaimFirstFrame(old(Model()), i)
      ensures shouldShow <==> ClaimsFirstFrame(old(states[i]))
    {
      shouldShow := false;
      if states[i].active && states[i].screenStarted && !states[i].showSent && !states[i].stopRequested {
        states[i] := states[i].(showSent := true);
        shouldShow := true;
      }
    }

    /** The first locked section of cleanup_altscreen. */
    method BeginCleanup(receiver: int) returns (i: nat)
      requires Valid()
      modifies states
      ensures Valid() && Model() == RequestStop(old(Model()), receiver)
      ensures i == Find(old(states[..]), receiver)
    {
      i := FindReceiver(receiver);
      if i < states.Length {
        states[i] := states[i].(stopRequested := true);
      }
    }

    /** The last locked section of cleanup_altscreen, also the failure exit of prepare_altscreen. */
    method WipeEntry(i: nat)
      requires Valid() && i < MAX_STATES
      modifies states
      ensures Valid() && Model() == Wipe(old(Model()), i)
    {
      states[i] := ZERO_SLOT;
    }
  }
}
