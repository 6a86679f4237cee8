/**
The global state of rgd_hook.c and the handlers that update it. Where a handler or the tick gives the debounce lock
back before it sends, the part under the lock and the rest are methods of their own.
*/
module RgdState {
  import opened Bytes
  import opened Rgd
  import opened RgdSlotMap
  import opened RgdSlots
  import opened Wrappers
  import L = LaneParse
  import R = RgdRuns
  import T = RgdThreads
  import U = RouteUpdate

  class Globals {
    var haveUpdate: bool
    var lastRouteState: nat
    var zeroStartedMs: nat
    var zeroDeadlineMs: nat
    var zeroFromReroute: bool
    var emittedRouteState: nat
    const store: SlotMap
    const updateCache: U.UpdateCache
    ghost var java: nat

    ghost function Repr(): set<object> {
      store.Repr() + {this, updateCache}
    }

    ghost predicate Valid()
      reads this, store, updateCache
    {
      && store.Valid() && this !in store.Repr() && updateCache !in store.Repr()
      && U.Valid(updateCache.fields)
    }

    ghost function Model(): (g: Guidance)
      requires Valid()
      reads this, store, updateCache, Repr()
      ensures g.Valid()
    {
      Guidance(Debounce(lastRouteState, zeroStartedMs, zeroDeadlineMs, zeroFromReroute, emittedRouteState),
               haveUpdate, updateCache.fields, store.Shown(), store.Model(), java)
    }

    constructor ()
      ensures Valid() && fresh(Repr())
      ensures Model() == Guidance(Debounce(0, 0, 0, false, 0), false, U.Zero(), Listing(false, []), Reset(), 0)
    {
      haveUpdate, lastRouteState, zeroStartedMs, zeroDeadlineMs := false, 0, 0, 0;
      zeroFromReroute, emittedRouteState, java := false, 0, 0;
      store := new SlotMap();
      updateCache := new U.UpdateCache();
    }

    /** rgd_cancel_pending_zero_locked */
    method CancelPendingZero()
      requires Valid()
      modifies this`zeroStartedMs, this`zeroDeadlineMs, this`zeroFromReroute
      ensures Valid() && Model() == old(Model()).(d := Cancel(old(Model()).d))
    {
      if zeroStartedMs == 0 {
        return;
      }
      zeroStartedMs, zeroDeadlineMs, zeroFromReroute := 0, 0, false;
    }

    /** write_bus_update_partial, as far as the cache, the list on display and Java's route state go. */
    method WriteUpdate(u: seq<U.Field>)
      requires Valid() && U.Valid(u)
      modifies Repr()
      ensures Valid() && Model() == Publish(old(Model()), u)
    {
      hide U.Valid, U.Merge;
      if !SaysAnything(u) {
        return;
      }
      updateCache.MergeUpdate(u);
      java := Told(updateCache.fields, java);
      var items := ListOf(u);
      if items.Some? {
        store.SetList(items.value);
      }
    }

    /** The 0x5201 handler for an update with a route state. */
    method ApplyState(u: seq<U.Field>, state: nat, now: nat) returns (suppress: bool)
      requires Valid() && U.Valid(u)
      modifies Repr()
      ensures Valid() && Handled(Model(), !suppress) == HandleState(old(Model()), u, state, now)
    {
      hide U.Valid, U.Zero, Reset;
      var prev := lastRouteState;
      lastRouteState := state;
      suppress := false;
      if state == 0 {
        if HardClear(u) {
          updateCache.Reset();
          store.MapReset();
          CancelPendingZero();
          emittedRouteState := 0;
        } else if emittedRouteState != 0 {
          var fromReroute := prev == REROUTING || emittedRouteState == REROUTING;
          updateCache.Reset();
          if prev > 0 {
            store.MapReset();
          }
          if zeroStartedMs == 0 {
            zeroStartedMs := now;
            zeroFromReroute := fromReroute;
            zeroDeadlineMs := if fromReroute then 0 else now + GRACE_MS;
          }
          suppress := true;
        }
      } else {
        if zeroStartedMs != 0 {
          CancelPendingZero();
        }
        emittedRouteState := state;
      }
    }

    /** The 0x5201 handler up to where it gives the lock back: what it keeps, and whether it is to be published. */
    method DecideUpdate(message: seq<byte>, now: nat) returns (publish: bool, u: seq<U.Field>)
      requires Valid()
      modifies Repr()
      ensures Valid() && U.Valid(u)
      ensures (Model(), if publish then Some(T.PublishUpdate(u)) else None)
                == T.Decided(old(Model()), R.UpdateMessage(message, now))
      ensures u == U.Parse(message) && Handled(Model(), publish) == Decide(old(Model()), u, now)
    {
      hide U.Parse, U.Valid, HandleState, Evidence, HardClear, NumberOf;
      u := U.ParseUpdate(message);
      haveUpdate := true;
      publish := true;
      var state := NumberOf(u, STATE);
      if state.Some? {
        var suppress := ApplyState(u, state.value, now);
        publish := !suppress;
      } else if Evidence(u) {
        CancelPendingZero();
      } else if !HardClear(u) {
        publish := zeroStartedMs == 0;
      }
    }

    /** The 0x5201 branch of rgd_message_handler. */
    method OnUpdate(message: seq<byte>, now: nat)
      requires Valid()
      modifies Repr()
      ensures Valid() && Model() == HandleUpdate(old(Model()), message, now)
    {
      hide U.Parse, U.Valid, Decide, Publish, T.Decided;
      var publish, u := DecideUpdate(message, now);
      if publish {
        WriteUpdate(u);
      }
    }

    /** rgd_can_process_maneuver_index */
    method CanProcess(x: nat) returns (ok: bool)
      requires Valid()
      ensures ok == Accepts(Model(), x)
    {
      if !haveUpdate {
        return false;
      }
      if !store.listPresent || store.listCount == 0 || lastRouteState == REROUTING {
        return true;
      }
      var least := store.list[0];
      for i := 1 to store.listCount
        invariant least == Least(store.list[..i])
      {
        assert store.list[..i + 1][..i] == store.list[..i];
        if store.list[i] < least {
          least := store.list[i];
        }
      }
      ok := x >= least;
    }

    /** write_bus_maneuver_partial */
    method WriteManeuver(message: seq<byte>)
      requires Valid()
      modifies Repr()
      ensures Valid() && Model() == T.Finished(old(Model()), T.StoreManeuver(message))
    {
      hide U.Valid, Keep, Accepts, IndexOf;
      var m := ParseManeuver(message);
      var x := IndexOf(m);
      if x.None? {
        return;
      }
      var ok := CanProcess(x.value);
      if !ok {
        return;
      }
      var slot := store.KeepManeuver(x.value, m);
      java := Told(updateCache.fields, java);
    }

    /** The 0x5202 branch of rgd_message_handler. */
    method OnManeuver(message: seq<byte>)
      requires Valid()
      modifies Repr()
      ensures Valid() && Model() == HandleManeuver(old(Model()), message)
    {
      hide U.Valid, Keep, StoredIndex, ParseManeuver;
      CancelPendingZero();
      WriteManeuver(message);
    }

    /** write_bus_lane_guidance_partial, as far as Java's route state goes. */
    method WriteLane(message: seq<byte>) returns (published: bool)
      requires Valid()
      modifies this`java
      ensures Valid() && Model() == T.Finished(old(Model()), T.PublishLane(message))
      ensures published <==> LanesArePublished(old(Model()), L.ParseGuidance(message))
    {
      hide U.Valid, L.ParseGuidance;
      var lanes := L.ParseLaneGuidance(message);
      published := false;
      if lanes.event.None? && !lanes.described {
        return;
      }
      var x := EMPTY;
      if lanes.event.Some? {
        x := lanes.event.value;
      } else if store.listPresent && store.listCount > 0 {
        x := store.list[0];
      }
      var keeps := lanes.described && x != EMPTY;
      var current := x != EMPTY && NumberOf(updateCache.fields, LANE_EVENT) == Some(x);
      if !current && !keeps {
        return;
      }
      java := Told(updateCache.fields, java);
      published := true;
    }

    /** The 0x5204 branch of rgd_message_handler. */
    method OnLane(message: seq<byte>)
      requires Valid()
      modifies Repr()
      ensures Valid() && Model() == HandleLane(old(Model()), message)
    {
      hide U.Valid, PublishLanes;
      CancelPendingZero();
      var _ := WriteLane(message);
    }

    /** The tick under the lock: the end of the route is claimed. */
    method ClaimEnd(now: nat) returns (fires: bool)
      requires Valid()
      modifies this`zeroStartedMs, this`zeroDeadlineMs, this`zeroFromReroute, this`emittedRouteState
      ensures Valid() && Model() == T.Claimed(old(Model()), now) && fires == TickFires(old(Model()), now)
    {
      fires := false;
      if zeroStartedMs == 0 || emittedRouteState == 0 {
        return;
      }
      if zeroFromReroute || zeroDeadlineMs == 0 {
        return;
      }
      if now < zeroDeadlineMs {
        return;
      }
      emittedRouteState, zeroStartedMs, zeroDeadlineMs, zeroFromReroute := 0, 0, 0, false;
      fires := true;
    }

    /** The frame that tells Java of it, sent without the lock. */
    method SendEnd()
      requires Valid()
      modifies this`java
      ensures Valid() && Model() == old(Model()).(java := 0)
    {
      java := 0;
    }

    method PeriodicTick(now: nat)
      requires Valid()
      modifies Repr()
      ensures Valid() && Model() == Tick(old(Model()), now)
    {
      var fires := ClaimEnd(now);
      if fires {
        SendEnd();
      }
    }

    /** rgd_clear_state under the lock. */
    method BeginClear()
      requires Valid()
      modifies this
      ensures Valid() && (Model(), Some(T.FinishClear)) == T.Decided(old(Model()), R.ClearAll)
    {
      haveUpdate, lastRouteState := false, 0;
      zeroStartedMs, zeroDeadlineMs, zeroFromReroute, emittedRouteState := 0, 0, false, 0;
    }

    /** And behind it. */
    method FinishClear()
      requires Valid()
      modifies Repr()
      ensures Valid() && Model() == T.Finished(old(Model()), T.FinishClear)
    {
      hide U.Valid, U.Zero, Reset;
      store.MapReset();
      updateCache.Reset();
      java := 0;
    }

    method ClearState()
      requires Valid()
      modifies Repr()
      ensures Valid() && Model() == Clear(old(Model()))
    {
      hide U.Valid, U.Zero, Reset;
      BeginClear();
      FinishClear();
    }
  }
}
