/**
Whole runs of the control protocol of altscreen_session.c.

A run interleaves the locked sections in any order, with any clock readings: sessions come and go, the
gauge and the route change, the control worker ticks, and the phone completes or the transport refuses
any command ever dispatched, as often and as late as it likes. A ledger per session records what an
observer of the dispatches and of their outcomes sees; no section reads it.
*/
module AltscreenRuns {
  import opened Wrappers
  import opened AltscreenSession

  // ---- What an observer records ----

  datatype Outcome = Pending | Acked | Failed

  /** A dispatched command and what became of it. */
  datatype Sent = Sent(stage: Stage, view: int, outcome: Outcome)

  /** The last showUI of this generation that was resolved. */
  datatype ShowResult = NoShow | ShowAcked(uiSlot: int) | ShowFailed

  /** Where the session's stream worker stands. The last two fields of its life are one-way. */
  datatype Phase = Waiting | Running | FrameClaimed | FrameRequested | Ended

  datatype Ledger = Ledger(
    phase: Phase,
    requested: int,      // the view most recently requested, -1 before the first request
    adopted: nat,        // requests that the worker took up
    dispatched: nat,
    accepted: nat,       // completions that counted, whatever their status
    timedOut: nat,
    refused: nat,
    word: seq<Sent>,     // commands dispatched since the last adopted request
    lastShow: ShowResult)

  const NEW_LEDGER := Ledger(Waiting, -1, 0, 0, 0, 0, 0, [], NoShow)

  /**
   * routing holds the receiver of every mode-state call that has recorded a route change and has not
   * queued it yet; issued holds every command ever dispatched.
   */
  datatype Sys = Sys(w: World, books: seq<Ledger>, routing: multiset<int>, issued: set<Command>)

  datatype Event =
    | AllocEvent(receiver: int)
    | StartEvent(i: nat)
    | EndEvent(i: nat)
    | FirstFrameEvent(i: nat)
    | RequestClusterEvent(i: nat, now: nat)
    | NoteRouteEvent(receiver: int, route: bool)
    | QueueRouteEvent(receiver: int, now: nat)
    | GaugeEvent(value: nat, now: nat)
    | ZoomAreaEvent(width: int, now: nat)
    | TickEvent(now: nat, marker: bool)
    | CompleteEvent(command: Command, ok: bool)
    | RefuseEvent(command: Command)
    | StopEvent(receiver: int)
    | WipeEvent(i: nat)

  function Init(): Sys {
    Sys(World(seq(MAX_STATES, _ => ZERO_SLOT), 0, false, 0, 0), seq(MAX_STATES, _ => NEW_LEDGER), multiset{}, {})
  }

  // ---- How the ledger follows the observations ----

  function Resolve(word: seq<Sent>, outcome: Outcome): seq<Sent> {
    if word == [] then word else word[|word| - 1 := word[|word| - 1].(outcome := outcome)]
  }

  function ResolveShow(b: Ledger, stage: Stage, view: int, ok: bool): ShowResult {
    if !stage.Show? then b.lastShow else if ok then ShowAcked(view / 2) else ShowFailed
  }

  function BookOutcome(b: Ledger, stage: Stage, view: int, ok: bool): Ledger {
    b.(word := Resolve(b.word, if ok then Acked else Failed), lastShow := ResolveShow(b, stage, view, ok))
  }

  function BookTimeout(b: Ledger, before: Control, timedOut: bool): Ledger {
    if timedOut then BookOutcome(b, before.stage, before.targetView, false).(timedOut := b.timedOut + 1) else b
  }

  function BookAdoption(b: Ledger, adopted: bool): Ledger {
    if adopted then b.(adopted := b.adopted + 1, word := []) else b
  }

  function BookDispatch(b: Ledger, c: Control, sent: bool): Ledger {
    if sent then b.(dispatched := b.dispatched + 1, word := b.word + [Sent(c.stage, c.targetView, Pending)]) else b
  }

  /** A visit of the worker: a timeout fails the pending command, an adoption starts a new word. */
  function BookVisit(b: Ledger, before: Control, v: Visit): Ledger {
    BookDispatch(BookAdoption(BookTimeout(b, before, v.timedOut), v.adopted), v.control, v.sent)
  }

  function BookRequest(b: Ledger, request: Request): Ledger {
    b.(requested := request.view)
  }

  // ---- Steps ----

  predicate Enabled(s: Sys, e: Event) {
    && |s.w.slots| == |s.books|
    && match e
       case StartEvent(i) => i < |s.books| && s.w.slots[i].active && s.books[i].phase == Waiting
       case EndEvent(i) => i < |s.books| && s.books[i].phase in {Running, FrameRequested}
       case FirstFrameEvent(i) => i < |s.books| && s.books[i].phase in {Running, FrameClaimed, FrameRequested}
       case RequestClusterEvent(i, _) => i < |s.books| && s.books[i].phase == FrameClaimed
       case QueueRouteEvent(receiver, _) => receiver in s.routing
       case CompleteEvent(c, _) => c in s.issued
       case RefuseEvent(c) => c in s.issued
       case WipeEvent(i) => i < |s.books|
       case _ => true
  }

  function Rebook(s: Sys, i: nat, b: Ledger): Sys {
    if i < |s.books| then s.(books := s.books[i := b]) else s
  }

  /** Sessions whose entry the relayout touched get a new most recent request. */
  function BookLayout(books: seq<Ledger>, before: World, after: World): seq<Ledger>
    requires |books| == |before.slots| == |after.slots|
  {
    seq(|books|, k requires 0 <= k < |books| =>
      if after.layoutSlot != before.layoutSlot && Streaming(before.slots[k])
      then BookRequest(books[k], after.slots[k].pending) else books[k])
  }

  function BookTick(books: seq<Ledger>, w: World, now: nat, marker: bool): seq<Ledger>
    requires |books| == |w.slots|
  {
    var r := FirstSender(w.slots, 0, now, marker, w.requestSerial);
    seq(|books|, k requires 0 <= k < |books| =>
      if k <= r then BookVisit(books[k], w.slots[k].control, VisitSlot(w.slots[k], now, marker, w.requestSerial))
      else books[k])
  }

  function Apply(s: Sys, e: Event): Sys
    requires Enabled(s, e)
  {
    match e
    case AllocEvent(receiver) =>
      var w := Alloc(s.w, receiver);
      var s1 := s.(w := w);
      if w == s.w then s1 else Rebook(s1, FreeFrom(s.w.slots, 0), NEW_LEDGER)
    case StartEvent(i) =>
      Rebook(s.(w := Start(s.w, i)), i, s.books[i].(phase := Running))
    case EndEvent(i) =>
      Rebook(s.(w := End(s.w, i)), i, s.books[i].(phase := Ended))
    case FirstFrameEvent(i) =>
      if ClaimsFirstFrame(s.w.slots[i])
      then Rebook(s.(w := ClaimFirstFrame(s.w, i)), i, s.books[i].(phase := FrameClaimed))
      else s.(w := ClaimFirstFrame(s.w, i))
    case RequestClusterEvent(i, now) =>
      var w := RequestCluster(s.w, i, now);
      var b := s.books[i].(phase := FrameRequested);
      var slot := s.w.slots[i];
      Rebook(s.(w := w), i, if slot.active && !slot.stopRequested then BookRequest(b, w.slots[i].pending) else b)
    case NoteRouteEvent(receiver, route) =>
      var i := Find(s.w.slots, receiver);
      s.(w := NoteRoute(s.w, receiver, route),
         routing := if i < |s.w.slots| && RouteChanges(s.w.slots[i], route)
                    then s.routing + multiset{receiver} else s.routing)
    case QueueRouteEvent(receiver, now) =>
      var i := Find(s.w.slots, receiver);
      var w := QueueRoute(s.w, receiver, now);
      var s1 := s.(w := w, routing := s.routing - multiset{receiver});
      if i < |s.w.slots| && !s.w.slots[i].stopRequested
      then Rebook(s1, i, BookRequest(s.books[i], w.slots[i].pending)) else s1
    case GaugeEvent(value, now) =>
      var w := ObserveGauge(s.w, value, now);
      s.(w := w, books := BookLayout(s.books, s.w, w))
    case ZoomAreaEvent(width, now) =>
      var w := ObserveZoomArea(s.w, width, now);
      s.(w := w, books := BookLayout(s.books, s.w, w))
    case TickEvent(now, marker) =>
      var sent := TickCommand(s.w, now, marker);
      s.(w := Tick(s.w, now, marker),
         books := BookTick(s.books, s.w, now, marker),
         issued := if sent.Some? then s.issued + {sent.value} else s.issued)
    case CompleteEvent(c, ok) =>
      var i := Find(s.w.slots, c.receiver);
      var s1 := s.(w := Complete(s.w, c, ok));
      if AckAccepted(s.w, c)
      then Rebook(s1, i, BookOutcome(s.books[i], c.stage, c.view, ok).(accepted := s.books[i].accepted + 1))
      else s1
    case RefuseEvent(c) =>
      var i := Find(s.w.slots, c.receiver);
      var s1 := s.(w := Refuse(s.w, c));
      if RefusalAccepted(s.w, c)
      then Rebook(s1, i, BookOutcome(s.books[i], c.stage, c.view, false).(refused := s.books[i].refused + 1))
      else s1
    case StopEvent(receiver) =>
      s.(w := RequestStop(s.w, receiver))
    case WipeEvent(i) =>
      Rebook(s.(w := Wipe(s.w, i)), i, NEW_LEDGER)
  }

  // ---- Invariants ----

  /** How many more commands the session can dispatch before it adopts another request. */
  function Remaining(c: Control): nat {
    var left := match c.stage case Idle => 0 case Show => 3 case View => 2 case Keyframe => 1;
    if c.awaitingAck && left > 0 then left - 1 else left
  }

  /** The next command of a sequence goes out only after the one before was acknowledged. */
  predicate Follows(a: Sent, b: Sent) {
    a.outcome == Acked && b.stage == NextStage(a.stage)
  }

  predicate Chained(word: seq<Sent>) {
    && |word| <= 3
    && (|word| >= 2 ==> Follows(word[0], word[1]))
    && (|word| >= 3 ==> Follows(word[1], word[2]))
  }

  predicate ForView(word: seq<Sent>, view: int) {
    forall k :: 0 <= k < |word| ==> word[k].view == view
  }

  /** The commands since the last adopted request, and what they say about the stage. */
  predicate WordInv(c: Control, word: seq<Sent>) {
    && Chained(word)
    && ForView(word, c.targetView)
    && if word == [] then
         !c.awaitingAck && c.stage != Keyframe
       else
         var last := word[|word| - 1];
         && word[0].stage in {Show, View}
         && last.stage != Idle
         && (c.awaitingAck <==> last.outcome == Pending)
         && c.stage == (match last.outcome
                        case Pending => last.stage
                        case Acked => NextStage(last.stage)
                        case Failed => Idle)
  }

  predicate ShowInv(c: Control, b: Ledger) {
    c.lastUiSlot == if b.lastShow.ShowAcked? then b.lastShow.uiSlot else -1
  }

  predicate CountInv(c: Control, b: Ledger) {
    && b.dispatched == b.accepted + b.timedOut + b.refused + (if c.awaitingAck then 1 else 0)
    && b.dispatched + Remaining(c) <= 3 * b.adopted
  }

  /** Views in range, and a stage past showUI only for the UI slot that showUI put up. */
  predicate StageInv(c: Control) {
    && -1 <= c.targetView < 4
    && (c.stage != Idle ==> c.targetView >= 0)
    && (c.stage in {View, Keyframe} ==> c.lastUiSlot == c.targetView / 2)
  }

  predicate ControlInv(c: Control, b: Ledger) {
    StageInv(c) && CountInv(c, b) && WordInv(c, b.word) && ShowInv(c, b)
  }

  /** The view most recently requested, as the entry holds it. */
  function MostRecent(p: Request, c: Control): int {
    if p.view >= 0 then p.view else c.targetView
  }

  predicate RequestInv(p: Request, c: Control, b: Ledger) {
    -1 <= p.view < 4 && b.requested == MostRecent(p, c)
  }

  predicate SessionInv(s: Slot, b: Ledger) {
    s.active ==> ControlInv(s.control, b) && RequestInv(s.pending, s.control, b)
  }

  /** The serials bound what a session holds; the command it waits for is the one that was issued. */
  predicate TokenInv(w: World, issued: set<Command>, s: Slot) {
    s.active ==>
      && s.generation <= w.generationSerial
      && s.control.token <= w.requestSerial
      && forall c :: c in issued && s.control.awaitingAck && c.token == s.control.token ==> c == CommandOf(s)
  }

  /** Past its first-frame request, streaming, and with no mode-state call half done. */
  predicate Settled(s: Sys, i: nat)
    requires i < |s.w.slots| == |s.books|
  {
    && Streaming(s.w.slots[i])
    && s.books[i].phase == FrameRequested
    && s.w.slots[i].receiver !in s.routing
  }

  predicate RouteInv(s: Sys, i: nat)
    requires i < |s.w.slots| == |s.books|
  {
    && (s.books[i].phase in {Waiting, Ended} ==> !s.w.slots[i].screenStarted)
    && (Settled(s, i) ==> s.books[i].requested == RouteView(s.w.layoutSlot, s.w.slots[i]))
  }

  predicate Distinct(slots: seq<Slot>) {
    forall i, j :: 0 <= i < j < |slots| && slots[i].active && slots[j].active ==>
      slots[i].receiver != slots[j].receiver && slots[i].generation != slots[j].generation
  }

  predicate GlobalInv(s: Sys) {
    && |s.w.slots| == |s.books| == MAX_STATES
    && 0 <= s.w.layoutSlot <= 1
    && (forall c :: c in s.issued ==> c.token <= s.w.requestSerial && c.generation <= s.w.generationSerial)
    && Distinct(s.w.slots)
  }

  ghost predicate Inv(s: Sys) {
    && GlobalInv(s)
    && forall i :: 0 <= i < MAX_STATES ==>
         SessionInv(s.w.slots[i], s.books[i]) && TokenInv(s.w, s.issued, s.w.slots[i]) && RouteInv(s, i)
  }

  // ---- Runs ----

  predicate Legal(s: Sys, es: seq<Event>)
    decreases |es|
  {
    es == [] || (Enabled(s, es[0]) && Legal(Apply(s, es[0]), es[1..]))
  }

  function Exec(s: Sys, es: seq<Event>): Sys
    requires Legal(s, es)
    decreases |es|
  {
    if es == [] then s else Exec(Apply(s, es[0]), es[1..])
  }

  // ---- Every step keeps the invariant ----

  lemma InitInv()
    ensures Inv(Init())
  {
  }

  /** The state after a step that touches one entry, its ledger and the half-done mode-state calls. */
  function Put(s: Sys, i: nat, x: Slot, b: Ledger, routing: multiset<int>): Sys
    requires i < |s.w.slots| == |s.books|
  {
    s.(w := s.w.(slots := s.w.slots[i := x]), books := s.books[i := b], routing := routing)
  }

  /** The entry keeps its identity, and waits for nothing it did not wait for before. */
  predicate SameSession(s: Slot, x: Slot) {
    x.active ==>
      && s.active && x.receiver == s.receiver && x.generation == s.generation
      && x.control.token == s.control.token
      && (x.control.awaitingAck ==> s.control.awaitingAck && CommandOf(x) == CommandOf(s))
  }

  predicate RouteOk(layoutSlot: int, routing: multiset<int>, x: Slot, b: Ledger) {
    && (b.phase in {Waiting, Ended} ==> !x.screenStarted)
    && (Streaming(x) && b.phase == FrameRequested && x.receiver !in routing ==>
          b.requested == RouteView(layoutSlot, x))
  }

  lemma PutInv(s: Sys, i: nat, x: Slot, b: Ledger, routing: multiset<int>)
    requires Inv(s) && i < MAX_STATES
    requires SameSession(s.w.slots[i], x) && SessionInv(x, b) && RouteOk(s.w.layoutSlot, routing, x, b)
    requires forall k :: 0 <= k < MAX_STATES && k != i && s.w.slots[k].active && s.w.slots[k].receiver in s.routing
                         ==> s.w.slots[k].receiver in routing
    ensures Inv(Put(s, i, x, b, routing))
  {
    var t := Put(s, i, x, b, routing);
    assert TokenInv(s.w, s.issued, s.w.slots[i]);
    assert Distinct(t.w.slots);
    forall k | 0 <= k < MAX_STATES
      ensures SessionInv(t.w.slots[k], t.books[k]) && TokenInv(t.w, t.issued, t.w.slots[k]) && RouteInv(t, k)
    {
      if k != i {
        assert SessionInv(s.w.slots[k], s.books[k]) && TokenInv(s.w, s.issued, s.w.slots[k]) && RouteInv(s, k);
      } else {
        assert TokenInv(t.w, t.issued, x);
      }
    }
  }

  /** Everything that Inv says about one entry. */
  lemma EntryInv(s: Sys, i: nat)
    requires Inv(s) && i < MAX_STATES
    ensures SessionInv(s.w.slots[i], s.books[i]) && TokenInv(s.w, s.issued, s.w.slots[i])
    ensures RouteOk(s.w.layoutSlot, s.routing, s.w.slots[i], s.books[i])
  {
    assert SessionInv(s.w.slots[i], s.books[i]) && TokenInv(s.w, s.issued, s.w.slots[i]) && RouteInv(s, i);
  }

  /** The control machine does not look at what an event outside it records. */
  lemma SameControl(c: Control, b: Ledger, startup: bool, phase: Phase, requested: int)
    requires ControlInv(c, b)
    ensures ControlInv(c.(startup := startup), b.(phase := phase, requested := requested))
  {
  }

  lemma AllocInv(s: Sys, receiver: int)
    requires Inv(s) && Enabled(s, AllocEvent(receiver))
    ensures Inv(Apply(s, AllocEvent(receiver)))
  {
    var t := Apply(s, AllocEvent(receiver));
    var i := FreeFrom(s.w.slots, 0);
    if t.w != s.w {
      forall k | 0 <= k < MAX_STATES
        ensures s.w.slots[k].active ==>
                  s.w.slots[k].receiver != receiver && s.w.slots[k].generation < t.w.generationSerial
        ensures SessionInv(t.w.slots[k], t.books[k]) && TokenInv(t.w, t.issued, t.w.slots[k]) && RouteInv(t, k)
      {
        EntryInv(s, k);
        assert !Owns(s.w.slots[k], receiver);
      }
    }
  }

  /** An event that leaves the request and the control fields of its entry alone. */
  lemma IdentityInv(s: Sys, i: nat, x: Slot, phase: Phase, routing: multiset<int>)
    requires Inv(s) && i < MAX_STATES
    requires x == s.w.slots[i].(screenStarted := x.screenStarted, showSent := x.showSent,
                                stopRequested := x.stopRequested, routeKnown := x.routeKnown,
                                routeActive := x.routeActive)
    requires RouteOk(s.w.layoutSlot, routing, x, s.books[i].(phase := phase)) && s.routing <= routing
    ensures Inv(Put(s, i, x, s.books[i].(phase := phase), routing))
  {
    hide ControlInv;
    EntryInv(s, i);
    if x.active {
      SameControl(x.control, s.books[i], x.control.startup, phase, s.books[i].requested);
    }
    PutInv(s, i, x, s.books[i].(phase := phase), routing);
  }

  lemma StartInv(s: Sys, i: nat)
    requires Inv(s) && Enabled(s, StartEvent(i))
    ensures Inv(Apply(s, StartEvent(i)))
  {
    hide SessionInv;
    IdentityInv(s, i, s.w.slots[i].(screenStarted := true), Running, s.routing);
  }

  lemma EndInv(s: Sys, i: nat)
    requires Inv(s) && Enabled(s, EndEvent(i))
    ensures Inv(Apply(s, EndEvent(i)))
  {
    hide SessionInv;
    IdentityInv(s, i, s.w.slots[i].(screenStarted := false), Ended, s.routing);
  }

  lemma FirstFrameInv(s: Sys, i: nat)
    requires Inv(s) && Enabled(s, FirstFrameEvent(i))
    ensures Inv(Apply(s, FirstFrameEvent(i)))
  {
    hide SessionInv;
    if ClaimsFirstFrame(s.w.slots[i]) {
      IdentityInv(s, i, s.w.slots[i].(showSent := true), FrameClaimed, s.routing);
    }
  }

  lemma WipeInv(s: Sys, i: nat)
    requires Inv(s) && Enabled(s, WipeEvent(i))
    ensures Inv(Apply(s, WipeEvent(i)))
  {
    PutInv(s, i, ZERO_SLOT, NEW_LEDGER, s.routing);
  }

  lemma StopInv(s: Sys, receiver: int)
    requires Inv(s) && Enabled(s, StopEvent(receiver))
    ensures Inv(Apply(s, StopEvent(receiver)))
  {
    hide SessionInv;
    var i := Find(s.w.slots, receiver);
    if i < MAX_STATES {
      EntryInv(s, i);
      IdentityInv(s, i, s.w.slots[i].(stopRequested := true), s.books[i].phase, s.routing);
      assert s.books[i := s.books[i].(phase := s.books[i].phase)] == s.books;
    }
  }

  /** An event that makes a request, with or without marking the start-up sequence. */
  lemma RequestInvKept(s: Sys, i: nat, p: Request, startup: bool, phase: Phase, routing: multiset<int>)
    requires Inv(s) && i < MAX_STATES && Streaming(s.w.slots[i].(screenStarted := true))
    requires p.view == RouteView(s.w.layoutSlot, s.w.slots[i])
    requires phase == s.books[i].phase || (phase == FrameRequested && s.books[i].phase == FrameClaimed)
    requires forall k :: 0 <= k < MAX_STATES && k != i && s.w.slots[k].active && s.w.slots[k].receiver in s.routing
                         ==> s.w.slots[k].receiver in routing
    ensures Inv(Put(s, i, s.w.slots[i].(pending := p, control := s.w.slots[i].control.(startup := startup)),
                    s.books[i].(phase := phase, requested := p.view), routing))
  {
    hide ControlInv;
    EntryInv(s, i);
    var x := s.w.slots[i].(pending := p, control := s.w.slots[i].control.(startup := startup));
    SameControl(s.w.slots[i].control, s.books[i], startup, phase, p.view);
    PutInv(s, i, x, s.books[i].(phase := phase, requested := p.view), routing);
  }

  lemma RequestClusterInv(s: Sys, i: nat, now: nat)
    requires Inv(s) && Enabled(s, RequestClusterEvent(i, now))
    ensures Inv(Apply(s, RequestClusterEvent(i, now)))
  {
    hide SessionInv;
    var x := s.w.slots[i];
    if x.active && !x.stopRequested {
      RequestInvKept(s, i, Request(RouteView(s.w.layoutSlot, x), false, now), true, FrameRequested, s.routing);
    } else {
      EntryInv(s, i);
      IdentityInv(s, i, x, FrameRequested, s.routing);
      assert s.w.slots[i := x] == s.w.slots;
    }
  }

  lemma NoteRouteInv(s: Sys, receiver: int, route: bool)
    requires Inv(s) && Enabled(s, NoteRouteEvent(receiver, route))
    ensures Inv(Apply(s, NoteRouteEvent(receiver, route)))
  {
    hide SessionInv;
    var i := Find(s.w.slots, receiver);
    if i < MAX_STATES && RouteChanges(s.w.slots[i], route) {
      EntryInv(s, i);
      IdentityInv(s, i, s.w.slots[i].(routeActive := route, routeKnown := true), s.books[i].phase,
                  s.routing + multiset{receiver});
      assert s.books[i := s.books[i].(phase := s.books[i].phase)] == s.books;
    }
  }

  lemma QueueRouteInv(s: Sys, receiver: int, now: nat)
    requires Inv(s) && Enabled(s, QueueRouteEvent(receiver, now))
    ensures Inv(Apply(s, QueueRouteEvent(receiver, now)))
  {
    hide SessionInv;
    var i := Find(s.w.slots, receiver);
    var routing := s.routing - multiset{receiver};
    if i < MAX_STATES && !s.w.slots[i].stopRequested {
      var x := s.w.slots[i];
      RequestInvKept(s, i, Request(RouteView(s.w.layoutSlot, x), false, now + VIEW_REACQUIRE_DELAY_MS),
                     x.control.startup, s.books[i].phase, routing);
    } else {
      forall k | 0 <= k < MAX_STATES
        ensures RouteInv(s.(routing := routing), k)
      {
        EntryInv(s, k);
        assert i == MAX_STATES ==> !Owns(s.w.slots[k], receiver);
      }
    }
  }

  lemma LayoutInv(s: Sys, e: Event)
    requires Inv(s) && Enabled(s, e) && (e.GaugeEvent? || e.ZoomAreaEvent?)
    ensures Inv(Apply(s, e))
  {
    hide SessionInv;
    var t := Apply(s, e);
    forall k | 0 <= k < MAX_STATES
      ensures SessionInv(t.w.slots[k], t.books[k]) && TokenInv(t.w, t.issued, t.w.slots[k]) && RouteInv(t, k)
    {
      LayoutEntry(s, t, k, e.now);
    }
  }

  lemma LayoutEntry(s: Sys, t: Sys, k: nat, now: nat)
    requires Inv(s) && k < MAX_STATES && |t.w.slots| == |t.books| == MAX_STATES
    requires 0 <= t.w.layoutSlot <= 1
    requires t.issued == s.issued && t.routing == s.routing
    requires t.w.generationSerial == s.w.generationSerial && t.w.requestSerial == s.w.requestSerial
    requires if t.w.layoutSlot == s.w.layoutSlot then t.w.slots[k] == s.w.slots[k] && t.books[k] == s.books[k]
             else t.w.slots[k] == Relayout(s.w.slots[k], t.w.layoutSlot, now)
                  && t.books[k] == if Streaming(s.w.slots[k]) then BookRequest(s.books[k], t.w.slots[k].pending)
                                   else s.books[k]
    ensures SessionInv(t.w.slots[k], t.books[k]) && TokenInv(t.w, t.issued, t.w.slots[k]) && RouteInv(t, k)
  {
    hide ControlInv;
    EntryInv(s, k);
    var c, b := s.w.slots[k].control, s.books[k];
    if s.w.slots[k].active {
      SameControl(c, b, c.startup, b.phase, t.books[k].requested);
    }
  }

  /** A completion that counts brings back the command that was dispatched last. */
  lemma CurrentCommand(s: Sys, c: Command, i: nat)
    requires Inv(s) && c in s.issued && i < MAX_STATES && s.w.slots[i].active && Current(s.w.slots[i], c)
    ensures c == CommandOf(s.w.slots[i])
  {
    assert TokenInv(s.w, s.issued, s.w.slots[i]);
  }

  lemma ResolveWord(word: seq<Sent>, view: int, outcome: Outcome)
    requires Chained(word) && ForView(word, view) && word != []
    ensures Chained(Resolve(word, outcome)) && ForView(Resolve(word, outcome), view)
    ensures Resolve(word, outcome)[0].stage == word[0].stage
  {
  }

  lemma ResolveInv(c: Control, b: Ledger, ok: bool)
    requires ControlInv(c, b) && c.awaitingAck
    ensures var c' := if ok then Advance(c, c.targetView) else GiveUp(c);
            var b' := BookOutcome(b, c.stage, c.targetView, ok);
            && StageInv(c') && WordInv(c', b'.word) && ShowInv(c', b')
            && b'.dispatched + Remaining(c') <= 3 * b'.adopted && !c'.awaitingAck
            && c'.targetView == c.targetView && c'.token == c.token
            && b'.dispatched == b.accepted + b.timedOut + b.refused + 1
  {
    ResolveWord(b.word, c.targetView, if ok then Acked else Failed);
  }

  lemma CompleteInv(s: Sys, c: Command, ok: bool)
    requires Inv(s) && Enabled(s, CompleteEvent(c, ok))
    ensures Inv(Apply(s, CompleteEvent(c, ok)))
  {
    var i := Find(s.w.slots, c.receiver);
    if AckAccepted(s.w, c) {
      var t := Apply(s, CompleteEvent(c, ok));
      EntryInv(s, i);
      CurrentCommand(s, c, i);
      ResolveInv(s.w.slots[i].control, s.books[i], ok);
      PutInv(s, i, t.w.slots[i], t.books[i], s.routing);
    }
  }

  lemma RefuseInv(s: Sys, c: Command)
    requires Inv(s) && Enabled(s, RefuseEvent(c))
    ensures Inv(Apply(s, RefuseEvent(c)))
  {
    var i := Find(s.w.slots, c.receiver);
    if RefusalAccepted(s.w, c) {
      var t := Apply(s, RefuseEvent(c));
      EntryInv(s, i);
      CurrentCommand(s, c, i);
      ResolveInv(s.w.slots[i].control, s.books[i], false);
      PutInv(s, i, t.w.slots[i], t.books[i], s.routing);
    }
  }

  // ---- The tick ----

  lemma ExpireInv(c: Control, b: Ledger, now: nat)
    requires ControlInv(c, b)
    ensures ControlInv(Expire(c, now), BookTimeout(b, c, Overdue(c, now)))
    ensures BookTimeout(b, c, Overdue(c, now)).requested == b.requested && Expire(c, now).targetView == c.targetView
  {
    if Overdue(c, now) {
      ResolveInv(c, b, false);
    }
  }

  lemma AdoptInv(p: Request, c: Control, b: Ledger)
    requires ControlInv(c, b) && RequestInv(p, c, b) && !c.awaitingAck && p.view >= 0
    ensures ControlInv(Adopt(p, c), BookAdoption(b, true)) && !Adopt(p, c).awaitingAck
    ensures RequestInv(NO_REQUEST, Adopt(p, c), BookAdoption(b, true))
  {
  }

  lemma DispatchInv(c: Control, b: Ledger, now: nat, serial: nat)
    requires ControlInv(c, b) && !c.awaitingAck && !c.stage.Idle?
    ensures ControlInv(Dispatch(c, now, serial), BookDispatch(b, Dispatch(c, now, serial), true))
  {
  }

  lemma VisitReadyInv(p: Request, c: Control, b: Ledger, late: bool, adopted: bool, now: nat, marker: bool, serial: nat)
    requires ControlInv(c, b) && RequestInv(p, c, b) && !c.awaitingAck
    ensures var v := VisitReady(p, c, late, adopted, now, marker, serial);
            && ControlInv(v.control, BookDispatch(b, v.control, v.sent))
            && RequestInv(v.pending, v.control, BookDispatch(b, v.control, v.sent))
  {
    if Dispatches(c, marker) {
      DispatchInv(c, b, now, serial);
    }
  }

  lemma VisitDueInv(p: Request, c: Control, b: Ledger, late: bool, now: nat, marker: bool, serial: nat)
    requires ControlInv(c, b) && RequestInv(p, c, b)
    ensures var v := VisitDue(p, c, late, now, marker, serial);
            var b' := BookDispatch(BookAdoption(b, v.adopted), v.control, v.sent);
            ControlInv(v.control, b') && RequestInv(v.pending, v.control, b')
  {
    if !Waits(p, c, now) {
      if p.view >= 0 {
        AdoptInv(p, c, b);
        VisitReadyInv(NO_REQUEST, Adopt(p, c), BookAdoption(b, true), late, true, now, marker, serial);
      } else {
        VisitReadyInv(p, c, b, late, false, now, marker, serial);
      }
    }
  }

  lemma VisitInv(s: Slot, b: Ledger, now: nat, marker: bool, serial: nat)
    requires SessionInv(s, b)
    ensures SessionInv(AfterVisit(s, now, marker, serial), BookVisit(b, s.control, VisitSlot(s, now, marker, serial)))
  {
    if Visited(s) {
      var c := s.control;
      ExpireInv(c, b, now);
      VisitDueInv(s.pending, Expire(c, now), BookTimeout(b, c, Overdue(c, now)), Overdue(c, now), now, marker, serial);
    }
  }

  /** A visit that sends nothing leaves the entry waiting only if it changed nothing. */
  lemma VisitToken(s: Slot, now: nat, marker: bool, serial: nat)
    ensures var v := VisitSlot(s, now, marker, serial);
            if v.sent then v.control.token == serial + 1 && Visited(s)
            else v.control.token == s.control.token && (v.control.awaitingAck ==> v.control == s.control)
  {
  }

  lemma BookVisitKeeps(b: Ledger, c: Control, v: Visit)
    ensures BookVisit(b, c, v).phase == b.phase && BookVisit(b, c, v).requested == b.requested
  {
  }

  lemma TickEntry(s: Sys, t: Sys, now: nat, marker: bool, k: nat)
    requires Inv(s) && k < MAX_STATES && t == Apply(s, TickEvent(now, marker))
    ensures SessionInv(t.w.slots[k], t.books[k]) && RouteInv(t, k)
  {
    hide VisitSlot, BookVisit, SessionInv;
    var x, serial := s.w.slots[k], s.w.requestSerial;
    EntryInv(s, k);
    VisitInv(x, s.books[k], now, marker, serial);
    BookVisitKeeps(s.books[k], x.control, VisitSlot(x, now, marker, serial));
  }

  lemma TickTokens(s: Sys, t: Sys, now: nat, marker: bool, k: nat)
    requires Inv(s) && k < MAX_STATES && t == Apply(s, TickEvent(now, marker))
    ensures TokenInv(t.w, t.issued, t.w.slots[k])
  {
    hide VisitSlot, BookVisit, SessionInv;
    var serial := s.w.requestSerial;
    var r := FirstSender(s.w.slots, 0, now, marker, serial);
    EntryInv(s, k);
    VisitToken(s.w.slots[k], now, marker, serial);
    if r < MAX_STATES {
      VisitToken(s.w.slots[r], now, marker, serial);
    }
  }

  lemma TickInv(s: Sys, now: nat, marker: bool)
    requires Inv(s)
    ensures Inv(Apply(s, TickEvent(now, marker)))
  {
    hide VisitSlot, BookVisit, SessionInv;
    var t := Apply(s, TickEvent(now, marker));
    forall k | 0 <= k < MAX_STATES
      ensures SessionInv(t.w.slots[k], t.books[k]) && TokenInv(t.w, t.issued, t.w.slots[k]) && RouteInv(t, k)
    {
      TickEntry(s, t, now, marker, k);
      TickTokens(s, t, now, marker, k);
    }
    var r := FirstSender(s.w.slots, 0, now, marker, s.w.requestSerial);
    if r < MAX_STATES {
      EntryInv(s, r);
      VisitToken(s.w.slots[r], now, marker, s.w.requestSerial);
    }
  }

  lemma StepInv(s: Sys, e: Event)
    requires Inv(s) && Enabled(s, e)
    ensures Inv(Apply(s, e))
  {
    match e
    case AllocEvent(receiver) => AllocInv(s, receiver);
    case StartEvent(i) => StartInv(s, i);
    case EndEvent(i) => EndInv(s, i);
    case FirstFrameEvent(i) => FirstFrameInv(s, i);
    case RequestClusterEvent(i, now) => RequestClusterInv(s, i, now);
    case NoteRouteEvent(receiver, route) => NoteRouteInv(s, receiver, route);
    case QueueRouteEvent(receiver, now) => QueueRouteInv(s, receiver, now);
    case GaugeEvent(_, _) => LayoutInv(s, e);
    case ZoomAreaEvent(_, _) => LayoutInv(s, e);
    case TickEvent(now, marker) => TickInv(s, now, marker);
    case CompleteEvent(c, ok) => CompleteInv(s, c, ok);
    case RefuseEvent(c) => RefuseInv(s, c);
    case StopEvent(receiver) => StopInv(s, receiver);
    case WipeEvent(i) => WipeInv(s, i);
  }

  // ---- Runs ----

  lemma {:induction false} ExecInv(s: Sys, es: seq<Event>)
    requires Inv(s) && Legal(s, es)
    ensures Inv(Exec(s, es))
    decreases |es|
  {
    if es != [] {
      StepInv(s, es[0]);
      ExecInv(Apply(s, es[0]), es[1..]);
    }
  }

  ghost predicate Reachable(s: Sys) {
    exists es :: Legal(Init(), es) && s == Exec(Init(), es)
  }

  lemma ReachableInv(s: Sys)
    requires Reachable(s)
    ensures Inv(s)
  {
    var es :| Legal(Init(), es) && s == Exec(Init(), es);
    InitInv();
    ExecInv(Init(), es);
  }

  // ---- What holds in every reachable state ----

  /** The gauge layout and the route decide together which view was asked for last. */
  lemma RouteAgreement(s: Sys, i: nat)
    requires Reachable(s) && i < |s.w.slots| == |s.books| && Settled(s, i)
    ensures var x := s.w.slots[i];
            s.books[i].requested == MostRecent(x.pending, x.control) == 2 * s.w.layoutSlot + Route(x)
  {
    ReachableInv(s);
    EntryInv(s, i);
  }

  /** Past showUI means that the last resolved showUI put up the UI slot of the target view. */
  lemma UiBeforeView(s: Sys, i: nat)
    requires Reachable(s) && i < |s.w.slots| == |s.books| && s.w.slots[i].active
    requires s.w.slots[i].control.stage in {View, Keyframe}
    ensures var c := s.w.slots[i].control;
            c.lastUiSlot == c.targetView / 2 && s.books[i].lastShow == ShowAcked(c.targetView / 2)
  {
    ReachableInv(s);
    EntryInv(s, i);
  }

  /** Counting over one generation of a session: no command is lost, none is resolved twice. */
  lemma Conservation(s: Sys, i: nat)
    requires Reachable(s) && i < |s.w.slots| == |s.books| && s.w.slots[i].active
    ensures var b := s.books[i];
            && b.dispatched == b.accepted + b.timedOut + b.refused + (if s.w.slots[i].control.awaitingAck then 1 else 0)
            && b.dispatched <= 3 * b.adopted
  {
    ReachableInv(s);
    EntryInv(s, i);
  }

  function Stages(word: seq<Sent>): seq<Stage> {
    seq(|word|, k requires 0 <= k < |word| => word[k].stage)
  }

  /** Every command of the word but the last one was acknowledged with status 0. */
  predicate AckedButLast(word: seq<Sent>) {
    forall k :: 0 <= k < |word| - 1 ==> word[k].outcome == Acked
  }

  lemma ChainedIsPrefix(c: Control, word: seq<Sent>)
    requires WordInv(c, word)
    ensures Stages(word) <= [Show, View, Keyframe] || Stages(word) <= [View, Keyframe]
    ensures AckedButLast(word)
  {
  }

  /** What the session sent since it last adopted a request, whatever the phone did. */
  lemma WordDiscipline(s: Sys, i: nat)
    requires Reachable(s) && i < |s.w.slots| == |s.books| && s.w.slots[i].active
    ensures var word := s.books[i].word;
            && (Stages(word) <= [Show, View, Keyframe] || Stages(word) <= [View, Keyframe])
            && AckedButLast(word)
            && ForView(word, s.w.slots[i].control.targetView)
  {
    ReachableInv(s);
    EntryInv(s, i);
    ChainedIsPrefix(s.w.slots[i].control, s.books[i].word);
  }

  /** At most one live session per receiver: looking a receiver up finds the session. */
  lemma OneSessionPerReceiver(s: Sys, i: nat)
    requires Reachable(s) && i < |s.w.slots| && s.w.slots[i].active
    ensures Find(s.w.slots, s.w.slots[i].receiver) == i
  {
    ReachableInv(s);
    var f := Find(s.w.slots, s.w.slots[i].receiver);
    assert Owns(s.w.slots[i], s.w.slots[i].receiver);
  }

  // ---- What holds of every dispatch ----

  lemma VisitSendsLatest(s: Slot, b: Ledger, now: nat, marker: bool, serial: nat)
    requires SessionInv(s, b) && Sends(s, now, marker, serial)
    ensures var v := VisitSlot(s, now, marker, serial);
            v.pending.view < 0 && v.control.targetView == b.requested
  {
    VisitInv(s, b, now, marker, serial);
    BookVisitKeeps(b, s.control, VisitSlot(s, now, marker, serial));
  }

  /**
   * A dispatched command carries the view most recently requested from its session, and a command that
   * depends on the UI goes out only while the last resolved showUI was acknowledged for that view.
   */
  lemma DispatchIsCurrent(s: Sys, now: nat, marker: bool)
    requires Reachable(s) && |s.w.slots| == |s.books| && TickCommand(s.w, now, marker).Some?
    ensures var c := TickCommand(s.w, now, marker).value;
            var t := Apply(s, TickEvent(now, marker));
            var i := FirstSender(s.w.slots, 0, now, marker, s.w.requestSerial);
            && i < |s.w.slots| == |t.books| && t.w.slots[i].active
            && c.receiver == s.w.slots[i].receiver && c.generation == s.w.slots[i].generation
            && c !in s.issued
            && c.view == s.books[i].requested == t.books[i].requested
            && t.books[i].dispatched == s.books[i].dispatched + 1
            && (c.stage in {View, Keyframe} ==> t.books[i].lastShow == ShowAcked(c.view / 2))
  {
    ReachableInv(s);
    StepInv(s, TickEvent(now, marker));
    var i := FirstSender(s.w.slots, 0, now, marker, s.w.requestSerial);
    var x := s.w.slots[i];
    EntryInv(s, i);
    EntryInv(Apply(s, TickEvent(now, marker)), i);
    VisitToken(x, now, marker, s.w.requestSerial);
    VisitSendsLatest(x, s.books[i], now, marker, s.w.requestSerial);
    BookVisitKeeps(s.books[i], x.control, VisitSlot(x, now, marker, s.w.requestSerial));
  }

  /** After a failure or a finished sequence nothing is sent until someone asks for a view again. */
  lemma NoUnpromptedCommand(s: Slot, now: nat, marker: bool, serial: nat)
    requires s.control.stage == Idle && s.pending.view < 0
    ensures !Sends(s, now, marker, serial)
    ensures AfterVisit(s, now, marker, serial).control.stage == Idle
    ensures AfterVisit(s, now, marker, serial).pending.view < 0
  {
  }

  predicate CompleteWord(word: seq<Sent>, view: int) {
    && (Stages(word) == [Show, View, Keyframe] || Stages(word) == [View, Keyframe])
    && forall k :: 0 <= k < |word| ==> word[k].outcome == Acked && word[k].view == view
  }

  lemma VisitKeepsCurrentView(s: Slot, now: nat, marker: bool, serial: nat)
    ensures AfterVisit(s, now, marker, serial).control.currentView == s.control.currentView
  {
  }

  /** The four ways in which a step can set the control fields of a live entry. */
  predicate ControlStep(s: Sys, e: Event, k: nat, x: Slot, y: Slot) {
    || (x.active && y.control == x.control.(startup := y.control.startup))
    || (!x.active && y.control == FreshSlot(y.receiver, y.generation).control)
    || (e.TickEvent? && y == AfterVisit(x, e.now, e.marker, s.w.requestSerial))
    || (e.CompleteEvent? && AckAccepted(s.w, e.command) && k == Find(s.w.slots, e.command.receiver)
        && y.control == if e.ok then Advance(x.control, e.command.view) else GiveUp(x.control))
    || (e.RefuseEvent? && RefusalAccepted(s.w, e.command) && k == Find(s.w.slots, e.command.receiver)
        && y.control == GiveUp(x.control))
  }

  lemma StepControl(s: Sys, e: Event, k: nat)
    requires Inv(s) && Enabled(s, e) && k < |s.w.slots|
    ensures var t := Apply(s, e);
            |t.w.slots| == |s.w.slots| == |t.books| &&
            (t.w.slots[k].active ==> ControlStep(s, e, k, s.w.slots[k], t.w.slots[k]))
  {
    hide VisitSlot, Inv;
    if e.TickEvent? || e.CompleteEvent? || e.RefuseEvent? {
    } else if e.GaugeEvent? || e.ZoomAreaEvent? || e.NoteRouteEvent? || e.QueueRouteEvent? || e.RequestClusterEvent? {
      RouteControl(s, e, k);
    } else {
      LifeControl(s, e, k);
    }
  }

  lemma RouteControl(s: Sys, e: Event, k: nat)
    requires Enabled(s, e) && k < |s.w.slots|
    requires e.GaugeEvent? || e.ZoomAreaEvent? || e.NoteRouteEvent? || e.QueueRouteEvent? || e.RequestClusterEvent?
    ensures var t := Apply(s, e);
            |t.w.slots| == |s.w.slots| == |t.books| &&
            (t.w.slots[k].active ==> ControlStep(s, e, k, s.w.slots[k], t.w.slots[k]))
  {
  }

  lemma LifeControl(s: Sys, e: Event, k: nat)
    requires Enabled(s, e) && k < |s.w.slots|
    requires e.AllocEvent? || e.StartEvent? || e.EndEvent? || e.FirstFrameEvent? || e.StopEvent? || e.WipeEvent?
    ensures var t := Apply(s, e);
            |t.w.slots| == |s.w.slots| == |t.books| &&
            (t.w.slots[k].active ==> ControlStep(s, e, k, s.w.slots[k], t.w.slots[k]))
  {
  }

  /** The current view of a live session changes only when a whole sequence for it was acknowledged. */
  lemma CurrentViewOnlyByCompleteWord(s: Sys, e: Event, i: nat)
    requires Reachable(s) && Enabled(s, e)
    requires i < |s.w.slots| && |Apply(s, e).w.slots| == |Apply(s, e).books| == |s.w.slots|
    requires s.w.slots[i].active && Apply(s, e).w.slots[i].active
    requires Apply(s, e).w.slots[i].control.currentView != s.w.slots[i].control.currentView
    ensures e.CompleteEvent? && e.ok
    ensures CompleteWord(Apply(s, e).books[i].word, Apply(s, e).w.slots[i].control.currentView)
  {
    hide VisitSlot, SessionInv, ControlInv;
    ReachableInv(s);
    StepControl(s, e, i);
    if e.TickEvent? {
      VisitKeepsCurrentView(s.w.slots[i], e.now, e.marker, s.w.requestSerial);
    }
    CurrentCommand(s, e.command, i);
    EntryInv(s, i);
    LastAckCompletes(s.w.slots[i], s.books[i]);
  }

  lemma LastAckCompletes(s: Slot, b: Ledger)
    requires SessionInv(s, b) && s.active && s.control.awaitingAck
    requires Advance(s.control, s.control.targetView).currentView != s.control.currentView
    ensures CompleteWord(BookOutcome(b, s.control.stage, s.control.targetView, true).word, s.control.targetView)
    ensures Advance(s.control, s.control.targetView).currentView == s.control.targetView
  {
    ChainedIsPrefix(s.control, b.word);
    var word := Resolve(b.word, Acked);
    assert Stages(word) == Stages(b.word);
    ResolveWord(b.word, s.control.targetView, Acked);
  }

  // ---- Exactly-once resolution ----

  /** No live session waits for this token. */
  predicate Unawaited(w: World, token: nat) {
    forall k :: 0 <= k < |w.slots| ==>
      !(w.slots[k].active && w.slots[k].control.awaitingAck && w.slots[k].control.token == token)
  }

  /** A completion or a refusal of a command that nobody waits for changes nothing at all. */
  lemma UnawaitedIgnored(s: Sys, c: Command, ok: bool)
    requires Enabled(s, CompleteEvent(c, ok)) && Unawaited(s.w, c.token)
    ensures Apply(s, CompleteEvent(c, ok)) == s && Apply(s, RefuseEvent(c)) == s
  {
  }

  /** Once accepted, a command is waited for by nobody. */
  lemma AcceptedOnce(s: Sys, c: Command, ok: bool)
    requires Inv(s) && Enabled(s, CompleteEvent(c, ok))
    ensures AckAccepted(s.w, c) ==> Unawaited(Apply(s, CompleteEvent(c, ok)).w, c.token)
    ensures RefusalAccepted(s.w, c) ==> Unawaited(Apply(s, RefuseEvent(c)).w, c.token)
  {
    if RefusalAccepted(s.w, c) {
      var i := Find(s.w.slots, c.receiver);
      CurrentCommand(s, c, i);
      forall k | 0 <= k < MAX_STATES && k != i && s.w.slots[k].active
        ensures !(s.w.slots[k].control.awaitingAck && s.w.slots[k].control.token == c.token)
      {
        EntryInv(s, k);
      }
    }
  }

  /** An entry comes to wait for a token only by dispatching a new one. */
  lemma StepKeepsUnawaited(s: Sys, e: Event, token: nat)
    requires Inv(s) && Enabled(s, e) && Unawaited(s.w, token) && token <= s.w.requestSerial
    ensures Unawaited(Apply(s, e).w, token)
  {
    hide Apply, Enabled, Inv;
    SizeKept(s, e);
    forall k | 0 <= k < |s.w.slots|
      ensures var y := Apply(s, e).w.slots[k]; !(y.active && y.control.awaitingAck && y.control.token == token)
    {
      EntryKeepsUnawaited(s, e, token, k);
    }
  }

  lemma EntryKeepsUnawaited(s: Sys, e: Event, token: nat, k: nat)
    requires Inv(s) && Enabled(s, e) && Unawaited(s.w, token) && token <= s.w.requestSerial && k < |s.w.slots|
    requires |Apply(s, e).w.slots| == |s.w.slots|
    ensures var y := Apply(s, e).w.slots[k]; !(y.active && y.control.awaitingAck && y.control.token == token)
  {
    hide VisitSlot, Apply, Enabled, Inv;
    StepControl(s, e, k);
    if e.TickEvent? {
      VisitToken(s.w.slots[k], e.now, e.marker, s.w.requestSerial);
    }
  }

  lemma SizeKept(s: Sys, e: Event)
    requires Inv(s) && Enabled(s, e)
    ensures |Apply(s, e).w.slots| == |s.w.slots| == MAX_STATES
  {
    StepInv(s, e);
  }

  /** A command that was resolved, or given up, never counts again in any later state of any run. */
  lemma {:induction false} ResolvedForever(s: Sys, c: Command, es: seq<Event>)
    requires Inv(s) && c in s.issued && Unawaited(s.w, c.token) && Legal(s, es)
    ensures Unawaited(Exec(s, es).w, c.token)
    ensures !AckAccepted(Exec(s, es).w, c) && !RefusalAccepted(Exec(s, es).w, c)
    decreases |es|
  {
    if es != [] {
      StepInv(s, es[0]);
      StepKeepsUnawaited(s, es[0], c.token);
      ResolvedForever(Apply(s, es[0]), c, es[1..]);
    }
  }
}
