/** Short runs that show the two ways in which a reset frame can go: a time-out after 800 ms, and none. */
module RgdExamples {
  import opened Bytes
  import opened Rgd
  import opened RgdRuns
  import opened RgdSlots
  import opened Tlv
  import opened Wrappers
  import U = RouteUpdate

  /** A 0x5201 message that says nothing but the route state. */
  function StateMessage(state: byte): seq<byte> {
    [0x40, 0x40, 0, 11, 0x52, 1] + EncodeAll([Tlv(STATE, [state])])
  }

  lemma StateMessageSays(state: byte)
    ensures StateOf(StateMessage(state)) == Some(state) && !HardClear(U.Parse(StateMessage(state)))
  {
    hide EncodeAll, Tlvs;
    var t, m := Tlv(STATE, [state]), StateMessage(state);
    RoundTrip([0x40, 0x40, 0, 11, 0x52, 1], [t]);
    assert U.Parts(m) == [t];
    assert U.Fold(U.Zero(), [t]) == U.Step(U.Zero(), t) by {
      assert [t][1..] == [];
    }
    assert U.Big([state]) == state;
  }

  /** A state, and 1 ms later a reset frame. */
  function ResetRun(state: byte): seq<Event> {
    [UpdateMessage(StateMessage(state), 1), UpdateMessage(StateMessage(0), 2)]
  }

  lemma AfterState(g: Guidance, state: byte, now: nat)
    requires g.Valid() && g.d == Debounce(0, 0, 0, false, 0) && state > 0
    ensures HandleUpdate(g, StateMessage(state), now).d == Debounce(state, 0, 0, false, state)
  {
    hide U.Parse, U.Valid, HardClear, Evidence, Publish, NumberOf, StateMessage;
    StateMessageSays(state);
    var u := U.Parse(StateMessage(state));
    PublishLeavesDebounce(Decide(g, u, now).g, u);
  }

  lemma AfterZero(g: Guidance, state: byte, now: nat)
    requires g.Valid() && g.d == Debounce(state, 0, 0, false, state) && state > 0
    ensures HandleUpdate(g, StateMessage(0), now).d
              == (if state == REROUTING then Debounce(0, now, 0, true, state)
                  else Debounce(0, now, now + GRACE_MS, false, state))
  {
    hide U.Parse, U.Valid, HardClear, Evidence, Publish, NumberOf, StateMessage, Reset, U.Zero;
    StateMessageSays(0);
  }

  lemma AfterResetRun(state: byte)
    requires state > 0
    ensures Exec(ResetRun(state)).d == (if state == REROUTING then Debounce(0, 2, 0, true, state)
                                        else Debounce(0, 2, 2 + GRACE_MS, false, state))
    ensures Exec(ResetRun(state)).java == state
  {
    hide HandleUpdate, U.Zero, Reset, StateMessage;
    var es := ResetRun(state);
    assert es[..1][..0] == [] && es[..1][0] == es[0] && es[..|es| - 1] == es[..1];
    assert Exec(es[..1]) == Apply(Initial(), es[0]);
    AfterState(Initial(), state, 1);
    AfterZero(Exec(es[..1]), state, 2);
    JavaSeesEmitted(es);
  }

  /** The time-out is neither early nor late: a tick after 799 ms does nothing, one after 800 ms ends the route. */
  lemma GraceIsExact(state: byte)
    requires state > 0 && state != REROUTING
    ensures Exec(ResetRun(state) + [TickAt(2 + GRACE_MS - 1)]).java == state
    ensures Exec(ResetRun(state) + [TickAt(2 + GRACE_MS)]).java == 0
  {
    hide HandleUpdate, ResetRun;
    AfterResetRun(state);
    var es := ResetRun(state);
    forall now: nat ensures (es + [TickAt(now)])[..|es|] == es {
    }
  }

  /** While rerouting no tick, however late, ends it. */
  lemma RerouteIsHeld(now: nat)
    ensures Exec(ResetRun(REROUTING) + [TickAt(now)]).java == REROUTING
  {
    hide HandleUpdate, ResetRun;
    AfterResetRun(REROUTING);
    var es := ResetRun(REROUTING);
    assert (es + [TickAt(now)])[..|es|] == es;
  }
}
