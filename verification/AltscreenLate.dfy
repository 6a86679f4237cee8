/** What teardown and silence mean over runs: commands of a session that is gone stay dead, and an idle one is quiet. */
module AltscreenLate {
  import opened AltscreenRuns
  import opened AltscreenSession

  // ---- After a teardown ----

  /** A receiver that is registered, again or for the first time, gets a generation no command was issued in. */
  lemma RegisteredIsNew(s: Sys, receiver: int, c: Command)
    requires Inv(s) && c in s.issued && Apply(s, AllocEvent(receiver)).w != s.w
    ensures var w := Apply(s, AllocEvent(receiver)).w;
            var i := Find(w.slots, receiver);
            i < |w.slots| && w.slots[i].generation > c.generation
  {
    hide SessionInv, TokenInv, RouteInv;
    var i := FreeFrom(s.w.slots, 0);
    var w := Apply(s, AllocEvent(receiver)).w;
    assert Owns(w.slots[i], receiver);
    assert Find(w.slots, receiver) <= i;
    assert forall k :: 0 <= k < i ==> w.slots[k] == s.w.slots[k];
  }

  /**
  A command of a session that is torn down is never accepted again, as an acknowledgement or as a refusal, in any
  later run: not even when its receiver is registered again.
  */
  lemma TornDownStaysDead(s: Sys, i: nat, c: Command, es: seq<Event>)
    requires Inv(s) && i < MAX_STATES && s.w.slots[i].active
    requires c in s.issued && c.generation == s.w.slots[i].generation
    requires Enabled(s, WipeEvent(i)) && Legal(Apply(s, WipeEvent(i)), es)
    ensures var t := Exec(Apply(s, WipeEvent(i)), es);
            !AckAccepted(t.w, c) && !RefusalAccepted(t.w, c) && Unawaited(t.w, c.token)
  {
    hide Exec, Legal, SessionInv, RouteInv;
    var t := Apply(s, WipeEvent(i));
    forall k | 0 <= k < |t.w.slots| && k != i && s.w.slots[k].active
      ensures !(s.w.slots[k].control.awaitingAck && s.w.slots[k].control.token == c.token)
    {
      OtherTokens(s, i, k, c);
    }
    assert Unawaited(t.w, c.token);
    StepInv(s, WipeEvent(i));
    ResolvedForever(t, c, es);
  }

  /** No other session waits for a command of this one. */
  lemma OtherTokens(s: Sys, i: nat, k: nat, c: Command)
    requires Inv(s) && i < MAX_STATES && k < MAX_STATES && i != k && s.w.slots[i].active && s.w.slots[k].active
    requires c in s.issued && c.generation == s.w.slots[i].generation
    ensures !(s.w.slots[k].control.awaitingAck && s.w.slots[k].control.token == c.token)
  {
    EntryInv(s, k);
    assert s.w.slots[i].generation != s.w.slots[k].generation by {
      assert Distinct(s.w.slots);
      if i < k {
        assert s.w.slots[i].generation != s.w.slots[k].generation;
      }
    }
  }

  // ---- Without a request ----

  /**
  The events that ask for a view on behalf of this entry, or end it. A report of gauge or zoom area does so only if it
  changes the layout while the session streams.
  */
  predicate Prompts(s: Sys, e: Event, i: nat, receiver: int)
    requires Enabled(s, e) && i < |s.w.slots|
  {
    match e
    case RequestClusterEvent(k, _) => k == i
    case QueueRouteEvent(r, _) => r == receiver
    case GaugeEvent(_, _) => Apply(s, e).w.layoutSlot != s.w.layoutSlot && Streaming(s.w.slots[i])
    case ZoomAreaEvent(_, _) => Apply(s, e).w.layoutSlot != s.w.layoutSlot && Streaming(s.w.slots[i])
    case WipeEvent(k) => k == i
    case _ => false
  }

  predicate Unprompted(s: Sys, es: seq<Event>, i: nat, receiver: int)
    requires Legal(s, es)
    decreases |es|
  {
    es == [] || (i < |s.w.slots| && !Prompts(s, es[0], i, receiver)
                 && Unprompted(Apply(s, es[0]), es[1..], i, receiver))
  }

  /** The entry belongs to the receiver, and neither has nor awaits anything to do. */
  predicate Quiet(s: Sys, i: nat, receiver: int)
    requires i < |s.w.slots|
  {
    var x := s.w.slots[i];
    x.active && x.receiver == receiver && x.control.stage == Idle && x.pending.view < 0
  }

  lemma QuietAwaitsNothing(s: Sys, i: nat, receiver: int)
    requires Inv(s) && i < MAX_STATES && Quiet(s, i, receiver)
    ensures !s.w.slots[i].control.awaitingAck
  {
    EntryInv(s, i);
  }

  lemma StepStaysQuiet(s: Sys, e: Event, i: nat, receiver: int)
    requires Inv(s) && Enabled(s, e) && i < MAX_STATES && Quiet(s, i, receiver) && !Prompts(s, e, i, receiver)
    ensures var t := Apply(s, e);
            && i < |t.w.slots| == |t.books| && Quiet(t, i, receiver)
            && t.books[i].dispatched == s.books[i].dispatched
  {
    hide Inv, VisitSlot;
    QuietAwaitsNothing(s, i, receiver);
    SizeKept(s, e);
    if e.TickEvent? {
      TickStaysQuiet(s, e.now, e.marker, i, receiver);
    } else if e.CompleteEvent? || e.RefuseEvent? {
      ResolveStaysQuiet(s, e, i, receiver);
    } else if e.GaugeEvent? || e.ZoomAreaEvent? {
      LayoutStaysQuiet(s, e, i, receiver);
    } else {
      OtherStaysQuiet(s, e, i, receiver);
    }
  }

  lemma TickStaysQuiet(s: Sys, now: nat, marker: bool, i: nat, receiver: int)
    requires |s.w.slots| == |s.books| == MAX_STATES && i < MAX_STATES && Quiet(s, i, receiver)
    requires !s.w.slots[i].control.awaitingAck
    ensures var t := Apply(s, TickEvent(now, marker));
            && |t.w.slots| == |t.books| == MAX_STATES && Quiet(t, i, receiver)
            && t.books[i].dispatched == s.books[i].dispatched
  {
    NoUnpromptedCommand(s.w.slots[i], now, marker, s.w.requestSerial);
  }

  lemma ResolveStaysQuiet(s: Sys, e: Event, i: nat, receiver: int)
    requires |s.w.slots| == |s.books| == MAX_STATES && i < MAX_STATES && Quiet(s, i, receiver) && Enabled(s, e)
    requires !s.w.slots[i].control.awaitingAck && (e.CompleteEvent? || e.RefuseEvent?)
    ensures var t := Apply(s, e);
            && |t.w.slots| == |t.books| == MAX_STATES && Quiet(t, i, receiver)
            && t.books[i].dispatched == s.books[i].dispatched
  {
    hide Advance, GiveUp, BookOutcome;
    var k := Find(s.w.slots, e.command.receiver);
    assert AckAccepted(s.w, e.command) || RefusalAccepted(s.w, e.command) ==> k != i;
  }

  lemma LayoutStaysQuiet(s: Sys, e: Event, i: nat, receiver: int)
    requires |s.w.slots| == |s.books| == MAX_STATES && i < MAX_STATES && Quiet(s, i, receiver) && Enabled(s, e)
    requires !Prompts(s, e, i, receiver) && (e.GaugeEvent? || e.ZoomAreaEvent?)
    ensures var t := Apply(s, e);
            && |t.w.slots| == |t.books| == MAX_STATES && Quiet(t, i, receiver)
            && t.books[i].dispatched == s.books[i].dispatched
  {
  }

  lemma OtherStaysQuiet(s: Sys, e: Event, i: nat, receiver: int)
    requires |s.w.slots| == |s.books| == MAX_STATES && i < MAX_STATES && Quiet(s, i, receiver) && Enabled(s, e)
    requires !Prompts(s, e, i, receiver) && !e.TickEvent? && !e.CompleteEvent? && !e.RefuseEvent?
    requires !e.GaugeEvent? && !e.ZoomAreaEvent?
    ensures var t := Apply(s, e);
            && |t.w.slots| == |t.books| == MAX_STATES && Quiet(t, i, receiver)
            && t.books[i].dispatched == s.books[i].dispatched
  {
  }

  /** Until someone asks for a view of it, an idle session stays idle and dispatches nothing, over any run. */
  lemma {:induction false} IdleStaysQuiet(s: Sys, es: seq<Event>, i: nat, receiver: int)
    requires Inv(s) && Legal(s, es) && i < MAX_STATES && Quiet(s, i, receiver) && Unprompted(s, es, i, receiver)
    ensures var t := Exec(s, es);
            && i < |t.w.slots| == |t.books| && Quiet(t, i, receiver)
            && t.books[i].dispatched == s.books[i].dispatched
    decreases |es|
  {
    hide Apply, Enabled, Inv, Quiet, Prompts;
    SizeOf(s);
    if es != [] {
      StepInv(s, es[0]);
      SizeOf(Apply(s, es[0]));
      StepStaysQuiet(s, es[0], i, receiver);
      IdleStaysQuiet(Apply(s, es[0]), es[1..], i, receiver);
    }
  }

  lemma SizeOf(s: Sys)
    requires Inv(s)
    ensures |s.w.slots| == |s.books| == MAX_STATES
  {
  }
}
