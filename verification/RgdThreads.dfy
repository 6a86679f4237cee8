/**
The message thread and the timer thread of rgd_hook.c interleaved as they really are: each decides under the debounce
lock and sends its frame to Java only after it has given the lock back.
*/
module RgdThreads {
  import opened Bytes
  import opened Rgd
  import opened RgdSlots
  import opened Wrappers
  import L = LaneParse
  import R = RgdRuns
  import U = RouteUpdate

  // ---- The two halves ----

  /** What the message thread still has to do behind the locked section of a handler. */
  datatype Work = PublishUpdate(u: seq<U.Field>) | StoreManeuver(message: seq<byte>) | PublishLane(message: seq<byte>)
                | FinishClear
  {
    predicate Valid() {
      PublishUpdate? ==> U.Valid(u)
    }
  }

  /** The state, the unfinished work of the message thread, and whether the timer thread has claimed an end. */
  datatype Threads = Threads(g: Guidance, work: Option<Work>, ending: bool) {
    predicate Valid() {
      g.Valid() && (work.Some? ==> work.value.Valid())
    }
  }

  const CLEARED: Debounce := Debounce(0, 0, 0, false, 0)

  /** The locked section of a handler, or of the clearing of the state. */
  function Decided(g: Guidance, e: R.Event): (t: (Guidance, Option<Work>))
    requires g.Valid()
    ensures t.0.Valid() && (t.1.Some? ==> t.1.value.Valid())
  {
    match e
    case UpdateMessage(message, now) =>
      var u := U.Parse(message);
      var r := Decide(g, u, now);
      (r.g, if r.publish then Some(PublishUpdate(u)) else None)
    case ManeuverMessage(message) => (g.(d := Cancel(g.d)), Some(StoreManeuver(message)))
    case LaneMessage(message) => (g.(d := Cancel(g.d)), Some(PublishLane(message)))
    case ClearAll => (g.(d := CLEARED, haveUpdate := false), Some(FinishClear))
    case TickAt(_) => (g, None)
  }

  /** The rest of it, without the lock. */
  function Finished(g: Guidance, w: Work): (h: Guidance)
    requires g.Valid() && w.Valid()
    ensures h.Valid()
  {
    match w
    case PublishUpdate(u) => Publish(g, u)
    case StoreManeuver(message) => (
      match StoredIndex(g, ParseManeuver(message))
      case None => g
      case Some(x) => g.(slots := Keep(g.slots, g.shown, x, ParseManeuver(message)), java := Told(g.cache, g.java)))
    case PublishLane(message) => PublishLanes(g, message)
    case FinishClear => MapReset(CacheReset(g)).(java := 0)
  }

  /** The locked section of the tick: the end of the route is claimed, and not told yet. */
  function Claimed(g: Guidance, now: nat): (h: Guidance)
    requires g.Valid()
    ensures h.Valid()
  {
    if TickFires(g, now) then g.(d := g.d.(started := 0, deadline := 0, fromReroute := false, emitted := 0)) else g
  }

  // ---- Runs ----

  datatype Step = Receive(e: R.Event) | Finish | Claim(now: nat) | SendEnd

  /** Each thread goes on with what it has begun before it begins anything else. */
  predicate Enabled(t: Threads, x: Step) {
    match x
    case Receive(e) => t.work.None? && !e.TickAt?
    case Finish => t.work.Some?
    case Claim(_) => !t.ending
    case SendEnd => t.ending
  }

  function Apply(t: Threads, x: Step): (v: Threads)
    requires t.Valid() && Enabled(t, x)
    ensures v.Valid()
  {
    match x
    case Receive(e) => Threads(Decided(t.g, e).0, Decided(t.g, e).1, t.ending)
    case Finish => Threads(Finished(t.g, t.work.value), None, t.ending)
    case Claim(now) => Threads(Claimed(t.g, now), t.work, TickFires(t.g, now))
    case SendEnd => Threads(t.g.(java := 0), t.work, false)
  }

  function Start(): (t: Threads)
    ensures t.Valid()
  {
    Threads(R.Initial(), None, false)
  }

  predicate Legal(xs: seq<Step>)
    decreases |xs|, 0
  {
    xs == [] || (Legal(xs[..|xs| - 1]) && Enabled(Exec(xs[..|xs| - 1]), xs[|xs| - 1]))
  }

  function Exec(xs: seq<Step>): (t: Threads)
    requires Legal(xs)
    ensures t.Valid()
    decreases |xs|, 1
  {
    if xs == [] then Start() else Apply(Exec(xs[..|xs| - 1]), xs[|xs| - 1])
  }

  // ---- The order of the decisions ----

  /** The same run with every handler and every tick as one step, at the moment it decides. */
  function Atomic(xs: seq<Step>): (es: seq<R.Event>) {
    if xs == [] then []
    else
      var before := Atomic(xs[..|xs| - 1]);
      match xs[|xs| - 1]
      case Receive(e) => before + [e]
      case Claim(now) => before + [R.TickAt(now)]
      case _ => before
  }

  /** The state once the message thread has finished what it is at. */
  function Done(t: Threads): (g: Guidance)
    requires t.Valid()
    ensures g.Valid()
  {
    if t.work.Some? then Finished(t.g, t.work.value) else t.g
  }

  predicate SameButJava(g: Guidance, h: Guidance) {
    g.(java := 0) == h.(java := 0)
  }

  lemma FinishedKeepsDebounce(g: Guidance, w: Work)
    requires g.Valid() && w.Valid()
    ensures Finished(g, w).d == g.d
  {
    hide Keep, StoredIndex, U.Valid, U.Merge, U.Zero, Reset, SaysAnything, NumberOf, ListOf, ParseManeuver;
  }

  lemma UpdateIsOne(g: Guidance, message: seq<byte>, now: nat)
    requires g.Valid()
    ensures var t := Decided(g, R.UpdateMessage(message, now));
            Done(Threads(t.0, t.1, false)) == HandleUpdate(g, message, now)
  {
    hide U.Parse, U.Valid, Decide, Publish;
  }

  /** Both halves of a handler together are the handler. */
  lemma HalvesAreOne(g: Guidance, e: R.Event, ending: bool)
    requires g.Valid() && !e.TickAt?
    ensures Done(Threads(Decided(g, e).0, Decided(g, e).1, ending)) == R.Apply(g, e)
  {
    hide HandleUpdate, Keep, StoredIndex, U.Valid, U.Zero, Reset, NumberOf, ParseManeuver;
    if e.UpdateMessage? {
      hide Decided;
      UpdateIsOne(g, e.message, e.now);
    }
  }

  lemma PublishIgnoresJava(g: Guidance, h: Guidance, u: seq<U.Field>)
    requires g.Valid() && h.Valid() && U.Valid(u) && SameButJava(g, h)
    ensures SameButJava(Publish(g, u), Publish(h, u))
  {
    hide U.Valid, U.Merge, NumberOf, SaysAnything;
  }

  lemma DecideIgnoresJava(g: Guidance, h: Guidance, u: seq<U.Field>, now: nat)
    requires g.Valid() && h.Valid() && U.Valid(u) && SameButJava(g, h)
    ensures SameButJava(Decide(g, u, now).g, Decide(h, u, now).g)
    ensures Decide(g, u, now).publish == Decide(h, u, now).publish
  {
    hide U.Valid, NumberOf, Evidence, HardClear, U.Zero, Reset;
  }

  lemma StepIgnoresJava(g: Guidance, h: Guidance, e: R.Event)
    requires g.Valid() && h.Valid() && SameButJava(g, h)
    ensures SameButJava(R.Apply(g, e), R.Apply(h, e))
  {
    hide Publish, Decide, Keep, IndexOf, U.Valid, U.Parse, U.Zero, Reset, NumberOf, ParseManeuver;
    if e.UpdateMessage? {
      var u := U.Parse(e.message);
      DecideIgnoresJava(g, h, u, e.now);
      PublishIgnoresJava(Decide(g, u, e.now).g, Decide(h, u, e.now).g, u);
    }
  }

  /** A claim in the middle of a handler is a tick behind it. */
  lemma ClaimIsTick(t: Threads, now: nat)
    requires t.Valid()
    ensures SameButJava(Done(Threads(Claimed(t.g, now), t.work, t.ending)), Tick(Done(t), now))
  {
    hide Keep, IndexOf, U.Valid, U.Merge, U.Zero, Reset, SaysAnything, NumberOf, ListOf, ParseManeuver;
    if t.work.Some? {
      FinishedKeepsDebounce(t.g, t.work.value);
    }
  }

  /**
  However the threads interleave, the state is that of the run with whole handlers and ticks; only what Java was
  told can differ.
  */
  lemma {:induction false} HandlersAreAtomic(xs: seq<Step>)
    requires Legal(xs)
    ensures SameButJava(Done(Exec(xs)), R.Exec(Atomic(xs)))
    decreases |xs|
  {
    hide Decided, Finished, Claimed, R.Apply, Tick, Enabled, U.Zero, Reset;
    if xs != [] {
      var before, x := xs[..|xs| - 1], xs[|xs| - 1];
      var t, es := Exec(before), Atomic(before);
      HandlersAreAtomic(before);
      match x
      case Receive(e) =>
        assert t.work.None? && !e.TickAt? by {
          ReceiveEnabled(t, e);
        }
        HalvesAreOne(t.g, e, t.ending);
        StepIgnoresJava(t.g, R.Exec(es), e);
        AtomicMore(es, e);
      case Claim(now) =>
        ClaimIsTick(t, now);
        StepIgnoresJava(Done(t), R.Exec(es), R.TickAt(now));
        AtomicMore(es, R.TickAt(now));
        TickIs(Done(t), now);
      case Finish => FinishIsDone(t);
      case SendEnd => JavaOnly(t);
    }
  }

  lemma FinishIsDone(t: Threads)
    requires t.Valid() && Enabled(t, Finish)
    ensures Done(Apply(t, Finish)) == Done(t)
  {
    hide Finished;
  }

  lemma ReceiveEnabled(t: Threads, e: R.Event)
    requires Enabled(t, Receive(e))
    ensures t.work.None? && !e.TickAt?
  {
  }

  lemma TickIs(g: Guidance, now: nat)
    requires g.Valid()
    ensures R.Apply(g, R.TickAt(now)) == Tick(g, now)
  {
  }

  lemma AtomicMore(es: seq<R.Event>, e: R.Event)
    ensures R.Exec(es + [e]) == R.Apply(R.Exec(es), e)
  {
    hide R.Apply;
    assert (es + [e])[..|es|] == es;
  }

  /** The end that is told changes nothing but what Java knows. */
  lemma JavaOnly(t: Threads)
    requires t.Valid()
    ensures SameButJava(Done(Threads(t.g.(java := 0), t.work, false)), Done(t))
  {
    hide Keep, IndexOf, U.Valid, U.Merge, U.Zero, Reset, SaysAnything, NumberOf, ListOf, ParseManeuver;
  }

  /** So what is emitted turns to 0 for the reasons for which it does with whole handlers and ticks. */
  lemma EndIsDecidedOnlyFor(xs: seq<Step>, x: Step) returns (k: nat)
    requires Legal(xs + [x]) && Legal(xs) && R.AllClocksRun(Atomic(xs + [x]))
    requires Exec(xs).g.d.emitted != 0
    ensures var es := Atomic(xs);
            Exec(xs + [x]).g.d.emitted == 0 <==>
              || (x.Receive? && (R.IsHardClear(x.e) || x.e == R.ClearAll))
              || (x.Claim? && R.Pends(es, k) && x.now >= es[k].now + GRACE_MS
                  && R.Exec(es[..k]).d.last != REROUTING && R.Exec(es[..k]).d.emitted != REROUTING)
  {
    hide R.Exec, R.Pends, R.IsHardClear, R.ClockRuns, Decided, Finished, Claimed, Done, Exec, Legal, R.Inv;
    var all, es := xs + [x], Atomic(xs);
    assert all[..|xs|] == xs;
    HandlersAreAtomic(xs);
    HandlersAreAtomic(all);
    DoneDebounce(Exec(xs));
    DoneDebounce(Exec(all));
    k := 0;
    match x
    case Receive(e) =>
      assert Atomic(all) == es + [e];
      ClocksSplit(es, e);
      R.JavaSeesEmitted(es);
      R.JavaSeesEmitted(es + [e]);
      k := R.RouteEndsOnlyFor(es, e);
      NoTickReceived(xs, e);
    case Claim(now) =>
      assert Atomic(all) == es + [R.TickAt(now)];
      ClocksSplit(es, R.TickAt(now));
      R.JavaSeesEmitted(es);
      R.JavaSeesEmitted(es + [R.TickAt(now)]);
      k := R.RouteEndsOnlyFor(es, R.TickAt(now));
      TickIsNoMessage(now);
    case Finish =>
    case SendEnd =>
  }

  lemma DoneDebounce(t: Threads)
    requires t.Valid()
    ensures Done(t).d == t.g.d
  {
    hide Finished;
    if t.work.Some? {
      FinishedKeepsDebounce(t.g, t.work.value);
    }
  }

  lemma ClocksSplit(es: seq<R.Event>, e: R.Event)
    requires R.AllClocksRun(es + [e])
    ensures R.AllClocksRun(es) && R.ClockRuns(e)
  {
    hide R.ClockRuns;
    assert forall i :: 0 <= i < |es| ==> (es + [e])[i] == es[i];
    assert (es + [e])[|es|] == e;
  }

  lemma NoTickReceived(xs: seq<Step>, e: R.Event)
    requires Legal(xs + [Receive(e)])
    ensures !e.TickAt?
  {
    hide Exec;
    assert (xs + [Receive(e)])[..|xs|] == xs;
  }

  lemma TickIsNoMessage(now: nat)
    ensures !R.IsHardClear(R.TickAt(now))
  {
  }

  // ---- What Java knows ----

  /** The route state in the frame that finishing this work sends, if it sends one that has any. */
  function Tells(g: Guidance, w: Work): Option<nat>
    requires g.Valid() && w.Valid()
  {
    match w
    case PublishUpdate(u) => if SaysAnything(u) then NumberOf(U.Merge(g.cache, u), STATE) else None
    case StoreManeuver(message) =>
      if StoredIndex(g, ParseManeuver(message)).None? then None else NumberOf(g.cache, STATE)
    case PublishLane(message) =>
      if LanesArePublished(g, L.ParseGuidance(message)) then NumberOf(g.cache, STATE) else None
    case FinishClear => Some(0)
  }

  lemma FinishedTells(g: Guidance, w: Work)
    requires g.Valid() && w.Valid()
    ensures Finished(g, w).java == match Tells(g, w) case None => g.java case Some(n) => n
    ensures Tells(g, w).Some? && !w.FinishClear? ==> Tells(g, w) == NumberOf(Finished(g, w).cache, STATE)
  {
    hide Keep, StoredIndex, U.Valid, U.Merge, U.Zero, Reset, SaysAnything, NumberOf, ListOf, ParseManeuver;
  }

  /** The last step tells Java a route state that is no claimed end. */
  predicate LastTells(xs: seq<Step>)
    requires Legal(xs)
  {
    xs != [] && xs[|xs| - 1].Finish? && Tells(Exec(xs[..|xs| - 1]).g, Exec(xs[..|xs| - 1]).work.value).Some?
  }

  /** Since the end was claimed, Java was told a route state by the message thread. */
  predicate Retold(xs: seq<Step>)
    requires Legal(xs)
    decreases |xs|
  {
    if xs == [] then false
    else if LastTells(xs) then true
    else if xs[|xs| - 1].Claim? && Exec(xs).ending then false
    else Retold(xs[..|xs| - 1])
  }

  /** The route state in the last frame of the message thread that has one. */
  function LastTold(xs: seq<Step>): nat
    requires Legal(xs)
    decreases |xs|
  {
    if xs == [] then 0
    else if LastTells(xs) then Tells(Exec(xs[..|xs| - 1]).g, Exec(xs[..|xs| - 1]).work.value).value
    else LastTold(xs[..|xs| - 1])
  }

  /**
  The frame of a claimed end came behind one in which the message thread told that a route goes on, and it has not
  told any route state since.
  */
  predicate Overtaken(xs: seq<Step>)
    requires Legal(xs)
    decreases |xs|
  {
    if xs == [] then false
    else if LastTells(xs) then false
    else if xs[|xs| - 1].SendEnd? then Retold(xs[..|xs| - 1]) && LastTold(xs[..|xs| - 1]) != 0
    else Overtaken(xs[..|xs| - 1])
  }

  /** Finishing this work is sure to tell Java the emitted state. */
  predicate Settles(work: Option<Work>) {
    && work.Some?
    && work.value.Valid()
    && (work.value.FinishClear? || (work.value.PublishUpdate? && NumberOf(work.value.u, STATE).Some?))
  }

  /** What Java knows, by what has happened since the last claim. */
  predicate JavaInv(t: Threads, retold: bool, overtaken: bool) {
    && (t.work == Some(FinishClear) ==> t.g.d == CLEARED)
    && (!Settles(t.work) ==>
          if t.ending then (if retold then t.g.java == t.g.d.emitted else t.g.d.emitted == 0)
          else if overtaken then t.g.java == 0 && t.g.d.emitted != 0
          else t.g.java == t.g.d.emitted)
  }

  lemma DecidedKeepsJavaInv(t: Threads, e: R.Event, retold: bool, overtaken: bool)
    requires t.Valid() && Enabled(t, Receive(e)) && JavaInv(t, retold, overtaken)
    ensures JavaInv(Apply(t, Receive(e)), retold, overtaken)
  {
    hide U.Parse, U.Valid, Evidence, HardClear, U.Zero, Reset, NumberOf;
  }

  lemma SettlesTells(g: Guidance, w: Work)
    requires g.Valid() && w.Valid() && Settles(Some(w))
    ensures Tells(g, w).Some?
  {
    hide U.Valid, U.Merge, U.Zero;
    if w.PublishUpdate? {
      R.MergedState(g.cache, w.u);
      R.StateIsPresent(w.u);
    }
  }

  /** What is told is what is emitted. */
  lemma TellsEmitted(xs: seq<Step>)
    requires Legal(xs) && R.AllClocksRun(Atomic(xs)) && Exec(xs).work.Some?
    requires Exec(xs).work == Some(FinishClear) ==> Exec(xs).g.d == CLEARED
    ensures var t := Exec(xs);
            Tells(t.g, t.work.value).Some? ==> Tells(t.g, t.work.value).value == t.g.d.emitted
  {
    hide Exec, Legal, Atomic, R.Exec, Finished, Tells, NumberOf, R.ClockRuns;
    var t := Exec(xs);
    HandlersAreAtomic(xs);
    R.JavaSeesEmitted(Atomic(xs));
    FinishedTells(t.g, t.work.value);
    FinishedKeepsDebounce(t.g, t.work.value);
    if t.work.value.FinishClear? {
      ClearTells(t.g);
    }
  }

  lemma ClearTells(g: Guidance)
    requires g.Valid()
    ensures Tells(g, FinishClear) == Some(0)
  {
  }

  lemma {:induction false} JavaInvHolds(xs: seq<Step>)
    requires Legal(xs) && R.AllClocksRun(Atomic(xs))
    ensures JavaInv(Exec(xs), Retold(xs), Overtaken(xs))
    decreases |xs|
  {
    hide Decided, Finished, Claimed, JavaInv, Tells, TickFires, R.ClockRuns, U.Zero, Reset;
    if xs == [] {
      StartInv();
    } else {
      var before, x := xs[..|xs| - 1], xs[|xs| - 1];
      var t := Exec(before);
      FewerClocks(xs);
      JavaInvHolds(before);
      match x
      case Receive(e) => DecidedKeepsJavaInv(t, e, Retold(before), Overtaken(before));
      case Finish =>
        ClearedInv(t, Retold(before), Overtaken(before));
        TellsEmitted(before);
        FinishKeepsJavaInv(t, Retold(before), Overtaken(before));
      case Claim(now) => ClaimKeepsJavaInv(t, now, Retold(before), Overtaken(before));
      case SendEnd =>
        if Retold(before) {
          LastToldIsKnown(before);
        }
        EndKeepsJavaInv(t, Retold(before), Overtaken(before));
    }
  }

  /** Between a claim and its frame Java knows what the message thread has told since, if it has told anything. */
  lemma {:induction false} LastToldIsKnown(xs: seq<Step>)
    requires Legal(xs) && Exec(xs).ending && Retold(xs)
    ensures Exec(xs).g.java == LastTold(xs)
    decreases |xs|
  {
    hide Decided, Finished, Claimed, Tells, TickFires, U.Zero, Reset;
    var before, x := xs[..|xs| - 1], xs[|xs| - 1];
    var t := Exec(before);
    match x
    case Receive(e) =>
      DecidedKeepsJava(t.g, e);
      LastToldIsKnown(before);
    case Finish =>
      FinishedTells(t.g, t.work.value);
      if Tells(t.g, t.work.value).None? {
        LastToldIsKnown(before);
      }
    case Claim(_) => assert false;
    case SendEnd => assert false;
  }

  lemma DecidedKeepsJava(g: Guidance, e: R.Event)
    requires g.Valid()
    ensures Decided(g, e).0.java == g.java
  {
    hide U.Parse, U.Valid, Evidence, HardClear, U.Zero, Reset, NumberOf;
  }

  lemma StartInv()
    ensures JavaInv(Start(), false, false)
  {
  }

  lemma FewerClocks(xs: seq<Step>)
    requires xs != [] && R.AllClocksRun(Atomic(xs))
    ensures R.AllClocksRun(Atomic(xs[..|xs| - 1]))
  {
    hide R.ClockRuns;
    var before := Atomic(xs[..|xs| - 1]);
    match xs[|xs| - 1]
    case Receive(e) => ClocksSplit(before, e);
    case Claim(now) => ClocksSplit(before, R.TickAt(now));
    case Finish =>
    case SendEnd =>
  }

  lemma ClearedInv(t: Threads, retold: bool, overtaken: bool)
    requires JavaInv(t, retold, overtaken)
    ensures t.work == Some(FinishClear) ==> t.g.d == CLEARED
  {
  }

  lemma FinishKeepsJavaInv(t: Threads, retold: bool, overtaken: bool)
    requires t.Valid() && t.work.Some? && JavaInv(t, retold, overtaken)
    requires Tells(t.g, t.work.value).Some? ==> Tells(t.g, t.work.value).value == t.g.d.emitted
    ensures var told := Tells(t.g, t.work.value).Some?;
            JavaInv(Apply(t, Finish), told || retold, !told && overtaken)
  {
    hide Finished, Tells, NumberOf;
    FinishedTells(t.g, t.work.value);
    FinishedKeepsDebounce(t.g, t.work.value);
    if Settles(t.work) {
      SettlesTells(t.g, t.work.value);
    }
  }

  lemma ClaimKeepsJavaInv(t: Threads, now: nat, retold: bool, overtaken: bool)
    requires t.Valid() && !t.ending && JavaInv(t, retold, overtaken)
    ensures var v := Apply(t, Claim(now)); JavaInv(v, !v.ending && retold, overtaken)
  {
    hide NumberOf;
  }

  lemma EndKeepsJavaInv(t: Threads, retold: bool, overtaken: bool)
    requires t.Valid() && t.ending && JavaInv(t, retold, overtaken)
    ensures JavaInv(Apply(t, SendEnd), retold, retold && t.g.java != 0)
  {
    hide NumberOf;
  }

  /**
  When neither thread is at work, Java's route state is the emitted one if and only if no claimed end has been
  overtaken; and if one has, Java takes a route for ended that goes on.
  */
  lemma JavaAgreesUnlessOvertaken(xs: seq<Step>)
    requires Legal(xs) && R.AllClocksRun(Atomic(xs)) && Exec(xs).work.None? && !Exec(xs).ending
    ensures Exec(xs).g.java == Exec(xs).g.d.emitted <==> !Overtaken(xs)
    ensures Overtaken(xs) ==> Exec(xs).g.java == 0 < Exec(xs).g.d.emitted
  {
    hide Exec, Legal, Atomic, Overtaken, Retold, R.ClockRuns;
    JavaInvHolds(xs);
  }
}
