/** One session whose phone acknowledges everything: the shortest run that puts a view up. */
module AltscreenExample {
  import opened AltscreenRuns
  import opened AltscreenSession

  lemma {:induction false} ExecSnoc(s: Sys, es: seq<Event>, e: Event)
    requires Legal(s, es) && Enabled(Exec(s, es), e)
    ensures Legal(s, es + [e]) && Exec(s, es + [e]) == Apply(Exec(s, es), e)
    decreases |es|
  {
    hide Apply, Enabled;
    if es == [] {
      assert es + [e] == [e];
      OneStep(s, e);
    } else {
      ExecSnoc(Apply(s, es[0]), es[1..], e);
      assert (es + [e])[1..] == es[1..] + [e];
    }
  }

  lemma OneStep(s: Sys, e: Event)
    requires Enabled(s, e)
    ensures Legal(s, [e]) && Exec(s, [e]) == Apply(s, e)
  {
    hide Apply, Enabled;
    var rest := [e][1..];
    assert rest == [];
    assert Legal(Apply(s, e), rest);
  }

  lemma Reach(s: Sys, e: Event)
    requires Reachable(s) && Enabled(s, e)
    ensures Reachable(Apply(s, e))
  {
    hide Apply, Enabled, Legal, Exec;
    var es :| Legal(Init(), es) && s == Exec(Init(), es);
    ExecSnoc(Init(), es, e);
  }

  /** The system while its only session, the one in the first entry, lives. */
  function Alone(x: Slot, b: Ledger, serial: nat, issued: set<Command>): Sys {
    Sys(World([x, ZERO_SLOT, ZERO_SLOT, ZERO_SLOT], 0, false, 1, serial), [b, NEW_LEDGER, NEW_LEDGER, NEW_LEDGER],
        multiset{}, issued)
  }

  /** A session of receiver 5 past its first frame, with this request and this control. */
  function Session(p: Request, c: Control): Slot {
    Slot(true, 5, 1, true, true, false, false, false, p, c)
  }

  function Fresh(): Control {
    FreshSlot(5, 1).control
  }

  /** From nothing to the request for the first view. */
  lemma Startup(now: nat)
    ensures Reachable(Alone(Session(Request(0, false, now), Fresh().(startup := true)),
                            NEW_LEDGER.(phase := FrameRequested, requested := 0), 0, {}))
  {
    hide Reachable, Apply;
    Nothing();
    Allocated();
    Reach(Init(), AllocEvent(5));
    var x := FreshSlot(5, 1);
    Started(x);
    Reach(Alone(x, NEW_LEDGER, 0, {}), StartEvent(0));
    Claimed(x.(screenStarted := true));
    Reach(Alone(x.(screenStarted := true), NEW_LEDGER.(phase := Running), 0, {}), FirstFrameEvent(0));
    var y := x.(screenStarted := true, showSent := true);
    Requested(y, NEW_LEDGER.(phase := FrameClaimed), now);
    Reach(Alone(y, NEW_LEDGER.(phase := FrameClaimed), 0, {}), RequestClusterEvent(0, now));
  }

  lemma Nothing()
    ensures Reachable(Init())
  {
    hide Apply, Enabled;
    assert Legal(Init(), []) && Exec(Init(), []) == Init();
  }

  lemma Started(x: Slot)
    requires x.active
    ensures Apply(Alone(x, NEW_LEDGER, 0, {}), StartEvent(0))
              == Alone(x.(screenStarted := true), NEW_LEDGER.(phase := Running), 0, {})
  {
  }

  lemma Claimed(x: Slot)
    requires ClaimsFirstFrame(x)
    ensures Apply(Alone(x, NEW_LEDGER.(phase := Running), 0, {}), FirstFrameEvent(0))
              == Alone(x.(showSent := true), NEW_LEDGER.(phase := FrameClaimed), 0, {})
  {
  }

  lemma Requested(x: Slot, b: Ledger, now: nat)
    requires x.active && !x.stopRequested && !x.routeKnown && b.phase == FrameClaimed
    ensures Apply(Alone(x, b, 0, {}), RequestClusterEvent(0, now))
              == Alone(x.(pending := Request(0, false, now), control := x.control.(startup := true)),
                       b.(phase := FrameRequested, requested := 0), 0, {})
  {
    var s := Alone(x, b, 0, {});
    var y := x.(pending := Request(0, false, now), control := x.control.(startup := true));
    var w := RequestCluster(s.w, 0, now);
    assert w.slots == [y, ZERO_SLOT, ZERO_SLOT, ZERO_SLOT];
    var t := Apply(s, RequestClusterEvent(0, now));
    assert t.books == [b.(phase := FrameRequested, requested := 0), NEW_LEDGER, NEW_LEDGER, NEW_LEDGER];
  }

  lemma Allocated()
    ensures Apply(Init(), AllocEvent(5)) == Alone(FreshSlot(5, 1), NEW_LEDGER, 0, {})
  {
    var w := Init().w;
    assert Find(w.slots, 5) == |w.slots|;
    assert FreeFrom(w.slots, 0) == 0;
    assert w.slots[0 := FreshSlot(5, 1)] == Alone(FreshSlot(5, 1), NEW_LEDGER, 0, {}).w.slots;
    assert Init().books[0 := NEW_LEDGER] == Alone(FreshSlot(5, 1), NEW_LEDGER, 0, {}).books;
  }

  /** The worker visits the session; the empty entries have nothing to send. */
  lemma Ticked(x: Slot, b: Ledger, serial: nat, issued: set<Command>, now: nat)
    requires Sends(x, now, false, serial)
    ensures var y := AfterVisit(x, now, false, serial);
            Apply(Alone(x, b, serial, issued), TickEvent(now, false))
              == Alone(y, BookVisit(b, x.control, VisitSlot(x, now, false, serial)), serial + 1,
                       issued + {CommandOf(y)})
  {
    hide VisitSlot, AfterVisit, BookVisit;
    var s := Alone(x, b, serial, issued);
    var t := Apply(s, TickEvent(now, false));
    assert FirstSender(s.w.slots, 0, now, false, serial) == 0;
    var y := AfterVisit(x, now, false, serial);
    assert t.w.slots == [y, ZERO_SLOT, ZERO_SLOT, ZERO_SLOT];
    assert t.books == [BookVisit(b, x.control, VisitSlot(x, now, false, serial)), NEW_LEDGER, NEW_LEDGER, NEW_LEDGER];
  }

  lemma Acknowledged(x: Slot, b: Ledger, serial: nat, issued: set<Command>, c: Command)
    requires c in issued && x.active && x.receiver == c.receiver && !x.stopRequested && Current(x, c)
    ensures var y := x.(control := Advance(x.control, c.view));
            Apply(Alone(x, b, serial, issued), CompleteEvent(c, true))
              == Alone(y, BookOutcome(b, c.stage, c.view, true).(accepted := b.accepted + 1), serial, issued)
  {
    hide Advance, BookOutcome, Current;
    var s := Alone(x, b, serial, issued);
    assert Find(s.w.slots, c.receiver) == 0;
  }

  /** One stage of the sequence: the command goes out and is acknowledged. */
  lemma Stepped(c: Control, b: Ledger, serial: nat, issued: set<Command>, now: nat)
    requires Reachable(Alone(Session(NO_REQUEST, c), b, serial, issued))
    requires c.stage in {View, Keyframe} && c.startup && !c.awaitingAck && c.targetView == 0
    ensures var cmd := Command(5, 1, serial + 1, c.stage, 0);
            var d := Advance(Dispatch(c, now, serial), 0);
            Reachable(Alone(Session(NO_REQUEST, d),
              BookOutcome(BookDispatch(b, Dispatch(c, now, serial), true), c.stage, 0, true)
                .(accepted := b.accepted + 1),
              serial + 1, issued + {cmd}))
  {
    hide Reachable, Apply;
    var x := Session(NO_REQUEST, c);
    var cmd := Command(5, 1, serial + 1, c.stage, 0);
    Ticked(x, b, serial, issued, now);
    Reach(Alone(x, b, serial, issued), TickEvent(now, false));
    var y := Session(NO_REQUEST, Dispatch(c, now, serial));
    assert AfterVisit(x, now, false, serial) == y && CommandOf(y) == cmd;
    var e := BookDispatch(b, Dispatch(c, now, serial), true);
    assert BookVisit(b, c, VisitSlot(x, now, false, serial)) == e;
    Acknowledged(y, e, serial + 1, issued + {cmd}, cmd);
    Reach(Alone(y, e, serial + 1, issued + {cmd}), CompleteEvent(cmd, true));
  }

  /** showUI for the first request: it is adopted, goes out and is acknowledged. */
  lemma Shown(now: nat)
    ensures var c := Adopt(Request(0, false, now), Fresh().(startup := true));
            Reachable(Alone(Session(NO_REQUEST, Advance(Dispatch(c, now, 0), 0)),
              Ledger(FrameRequested, 0, 1, 1, 1, 0, 0, [Sent(Show, 0, Acked)], ShowAcked(0)),
              1, {Command(5, 1, 1, Show, 0)}))
  {
    hide Reachable, Apply;
    Startup(now);
    var p := Request(0, false, now);
    var x := Session(p, Fresh().(startup := true));
    var b := NEW_LEDGER.(phase := FrameRequested, requested := 0);
    var cmd := Command(5, 1, 1, Show, 0);
    Ticked(x, b, 0, {}, now);
    Reach(Alone(x, b, 0, {}), TickEvent(now, false));
    var c := Dispatch(Adopt(p, Fresh().(startup := true)), now, 0);
    var y := Session(NO_REQUEST, c);
    assert AfterVisit(x, now, false, 0) == y && CommandOf(y) == cmd;
    var e := Ledger(FrameRequested, 0, 1, 1, 0, 0, 0, [Sent(Show, 0, Pending)], NoShow);
    assert BookVisit(b, x.control, VisitSlot(x, now, false, 0)) == e;
    assert {} + {cmd} == {cmd};
    Acknowledged(y, e, 1, {cmd}, cmd);
    Reach(Alone(y, e, 1, {cmd}), CompleteEvent(cmd, true));
    assert Resolve(e.word, Acked) == [Sent(Show, 0, Acked)];
  }

  /** A reachable state in which a view was put up by a complete word, at the cost of exactly three commands. */
  lemma FirstViewIsShown() returns (s: Sys)
    ensures Reachable(s) && |s.w.slots| == |s.books| == MAX_STATES && Settled(s, 0)
    ensures s.w.slots[0].active && s.w.slots[0].control.currentView == 0 && s.w.slots[0].control.stage == Idle
    ensures s.books[0].word == [Sent(Show, 0, Acked), Sent(View, 0, Acked), Sent(Keyframe, 0, Acked)]
    ensures s.books[0].dispatched == s.books[0].accepted == 3 && s.books[0].adopted == 1
  {
    hide Reachable, Apply;
    Shown(10);
    var c := Advance(Dispatch(Adopt(Request(0, false, 10), Fresh().(startup := true)), 10, 0), 0);
    var b := Ledger(FrameRequested, 0, 1, 1, 1, 0, 0, [Sent(Show, 0, Acked)], ShowAcked(0));
    var issued := {Command(5, 1, 1, Show, 0)};
    Stepped(c, b, 1, issued, 20);
    var c2 := Advance(Dispatch(c, 20, 1), 0);
    var b2 := BookOutcome(BookDispatch(b, Dispatch(c, 20, 1), true), View, 0, true).(accepted := 2);
    var issued2 := issued + {Command(5, 1, 2, View, 0)};
    Stepped(c2, b2, 2, issued2, 30);
    var c3 := Advance(Dispatch(c2, 30, 2), 0);
    var b3 := BookOutcome(BookDispatch(b2, Dispatch(c2, 30, 2), true), Keyframe, 0, true).(accepted := 3);
    s := Alone(Session(NO_REQUEST, c3), b3, 3, issued2 + {Command(5, 1, 3, Keyframe, 0)});
    assert b2.word == [Sent(Show, 0, Acked), Sent(View, 0, Acked)];
    assert b3.word == [Sent(Show, 0, Acked), Sent(View, 0, Acked), Sent(Keyframe, 0, Acked)];
  }
}
