/**
What the events of a run say about each session, without a look at the session table: what the phone, the gauge and
the stream worker reported, what was asked, and what was sent and not answered yet. HistoryHolds shows that the table
holds exactly this.
*/
module AltscreenHistory {
  import opened AltscreenRuns
  import opened AltscreenSession
  import opened Wrappers

  /** A request that was not taken up yet: the view, from when on it may be, and whether a gauge made it. */
  datatype Ask = Ask(view: int, due: nat, fromGauge: bool)

  /** A session from its registration to its end. */
  datatype Note = Note(
    receiver: int,
    running: bool,            // its screen has started and not ended
    stopping: bool,           // its teardown has begun
    claimed: bool,            // its first frame was seen
    route: Option<bool>,      // what the phone said last about the route
    ask: Option<Ask>,         // the request made last, if it was not taken up
    goal: int,                // the view of the request taken up last, -1 before
    goalFromGauge: bool,
    sent: Option<Command>,    // the command sent last, if it was not answered, refused or given up
    sentAt: nat,
    starting: bool)           // the first frame asked for the UI, and no sequence of commands has ended since

  /** The last gauge indication, and the last zoom area that stands for a layout. */
  datatype History = History(notes: seq<Option<Note>>, gauge: Option<nat>, width: Option<int>)

  function Registered(receiver: int): Note {
    Note(receiver, false, false, false, None, None, -1, false, None, 0, false)
  }

  /** Slot 1 is for big gauges. The first gauge indication overrules all zoom areas. */
  function Layout(gauge: Option<nat>, width: Option<int>): (layout: int)
    ensures 0 <= layout <= 1
  {
    match gauge
    case Some(value) => if value % 2 == 0 then 1 else 0
    case None => if width.Some? && width.value <= 560 then 1 else 0
  }

  /** The view for what was reported. */
  function Wanted(layout: int, n: Note): int {
    2 * layout + if n.route == Some(true) then 1 else 0
  }

  // ---- How events are recorded ----

  function NextGauge(gauge: Option<nat>, e: Event): Option<nat> {
    if e.GaugeEvent? then Some(e.value) else gauge
  }

  function NextWidth(width: Option<int>, e: Event): Option<int> {
    if e.ZoomAreaEvent? && e.width <= 800 then Some(e.width) else width
  }

  /** The command counts as answered or refused; a sequence ends with its last command and with every failure. */
  function Resolved(n: Note, c: Command, ok: bool): Note {
    n.(sent := None, starting := n.starting && ok && c.stage != Keyframe)
  }

  /** What a tick shows of the entry: a command given up, a request taken up, a command sent. */
  function Ticked(n: Note, before: Ledger, after: Ledger, command: Option<Command>, now: nat): Note {
    var n1 := if after.timedOut > before.timedOut then n.(sent := None, starting := false) else n;
    var n2 := if after.adopted > before.adopted && n.ask.Some?
              then n1.(goal := n.ask.value.view, goalFromGauge := n.ask.value.fromGauge, ask := None) else n1;
    if command.Some? && command.value.receiver == n.receiver then n2.(sent := command, sentAt := now) else n2
  }

  /** The layout is the one before the event, and the layout behind it. */
  function NextNote(n: Note, k: nat, s: Sys, t: Sys, e: Event, layout: int, next: int): Note
    requires k < |s.w.slots| == |s.books| == |t.books|
  {
    match e
    case StartEvent(i) => if i == k then n.(running := true) else n
    case EndEvent(i) => if i == k then n.(running := false) else n
    case FirstFrameEvent(i) => if i == k && n.running && !n.stopping then n.(claimed := true) else n
    case RequestClusterEvent(i, now) =>
      if i == k && !n.stopping then n.(ask := Some(Ask(Wanted(layout, n), now, false)), starting := true) else n
    case NoteRouteEvent(receiver, route) => if receiver == n.receiver then n.(route := Some(route)) else n
    case QueueRouteEvent(receiver, now) =>
      if receiver == n.receiver && !n.stopping then n.(ask := Some(Ask(Wanted(layout, n), now + 150, false))) else n
    case GaugeEvent(_, now) =>
      if layout != next && n.running && !n.stopping then n.(ask := Some(Ask(Wanted(next, n), now + 150, true))) else n
    case ZoomAreaEvent(_, now) =>
      if layout != next && n.running && !n.stopping then n.(ask := Some(Ask(Wanted(next, n), now + 150, true))) else n
    case TickEvent(now, marker) => Ticked(n, s.books[k], t.books[k], TickCommand(s.w, now, marker), now)
    case CompleteEvent(c, ok) => if n.sent == Some(c) && !n.stopping then Resolved(n, c, ok) else n
    case RefuseEvent(c) => if n.sent == Some(c) then Resolved(n, c, false) else n
    case StopEvent(receiver) => if receiver == n.receiver then n.(stopping := true) else n
    case _ => n
  }

  /** Where a receiver is registered, counted from entry i on. */
  function EntryOf(notes: seq<Option<Note>>, receiver: int, i: nat): (k: nat)
    requires i <= |notes|
    ensures i <= k <= |notes|
    ensures k < |notes| ==> notes[k].Some? && notes[k].value.receiver == receiver
    ensures forall j :: i <= j < k ==> notes[j].None? || notes[j].value.receiver != receiver
    decreases |notes| - i
  {
    if i == |notes| || (notes[i].Some? && notes[i].value.receiver == receiver) then i
    else EntryOf(notes, receiver, i + 1)
  }

  function FreeEntry(notes: seq<Option<Note>>, i: nat): (k: nat)
    requires i <= |notes|
    ensures i <= k <= |notes|
    ensures k < |notes| ==> notes[k].None?
    ensures forall j :: i <= j < k ==> notes[j].Some?
    decreases |notes| - i
  {
    if i == |notes| || notes[i].None? then i else FreeEntry(notes, i + 1)
  }

  /** A receiver that is not registered gets the first free entry, if there is one. */
  function Register(notes: seq<Option<Note>>, receiver: int): (ns: seq<Option<Note>>)
    ensures |ns| == |notes|
  {
    var k := FreeEntry(notes, 0);
    if EntryOf(notes, receiver, 0) < |notes| || k == |notes| then notes else notes[k := Some(Registered(receiver))]
  }

  predicate Sized(h: History, s: Sys) {
    |h.notes| == |s.w.slots| == |s.books| == MAX_STATES
  }

  function Next(h: History, s: Sys, t: Sys, e: Event): (g: History)
    requires Sized(h, s) && |t.books| == MAX_STATES
    ensures |g.notes| == |h.notes|
  {
    var gauge, width := NextGauge(h.gauge, e), NextWidth(h.width, e);
    var notes :=
      match e
      case AllocEvent(receiver) => Register(h.notes, receiver)
      case WipeEvent(i) => if i < |h.notes| then h.notes[i := None] else h.notes
      case _ =>
        seq(MAX_STATES, k requires 0 <= k < MAX_STATES =>
          match h.notes[k]
          case None => None
          case Some(n) => Some(NextNote(n, k, s, t, e, Layout(h.gauge, h.width), Layout(gauge, width))));
    History(notes, gauge, width)
  }

  function Empty(): History {
    History(seq(MAX_STATES, _ => None), None, None)
  }

  /** The history is the one of a legal run that ends in this state. */
  ghost predicate Recorded(h: History, s: Sys) {
    exists es :: Legal(Init(), es) && Records(Empty(), Init(), es, h, s)
  }

  ghost predicate Records(h: History, s: Sys, es: seq<Event>, g: History, t: Sys)
    requires Legal(s, es)
    decreases |es|
  {
    if es == [] then g == h && t == s
    else
      var u := Apply(s, es[0]);
      Sized(h, s) && |u.books| == MAX_STATES && Records(Next(h, s, u, es[0]), u, es[1..], g, t)
  }

  // ---- The table holds the history ----

  /** Which command comes first after a request was taken up. */
  predicate FirstInv(c: Control, b: Ledger) {
    b.word == [] ==>
      && (c.stage != Idle <==> b.adopted > 0)
      && (c.stage != Idle ==> (c.stage == Show <==> b.lastShow != ShowAcked(c.targetView / 2)))
  }

  predicate Holds(n: Note, x: Slot, b: Ledger) {
    && x.receiver == n.receiver && x.screenStarted == n.running && x.stopRequested == n.stopping
    && x.showSent == n.claimed
    && x.routeKnown == n.route.Some? && (n.route.Some? ==> x.routeActive == n.route.value)
    && (x.pending.view >= 0 <==> n.ask.Some?)
    && (n.ask.Some? ==> x.pending == Request(n.ask.value.view, n.ask.value.fromGauge, n.ask.value.due))
    && x.control.targetView == n.goal && x.control.targetFromGauge == n.goalFromGauge
    && x.control.startup == n.starting && (n.sent.None? ==> x.control.deadlineMs == 0)
    && (x.control.awaitingAck <==> n.sent.Some?)
    && (n.sent.Some? ==> n.sent.value == CommandOf(x) && x.control.deadlineMs == n.sentAt + 2500)
    && FirstInv(x.control, b)
  }

  predicate EntryHolds(n: Option<Note>, x: Slot, b: Ledger) {
    if n.Some? then x.active && Holds(n.value, x, b) else x == ZERO_SLOT && b == NEW_LEDGER
  }

  ghost predicate HistoryInv(h: History, s: Sys) {
    && Inv(s) && Sized(h, s)
    && s.w.layoutSlot == Layout(h.gauge, h.width) && s.w.layoutKnown == h.gauge.Some?
    && forall k :: 0 <= k < MAX_STATES ==> EntryHolds(h.notes[k], s.w.slots[k], s.books[k])
  }

  /** At most one entry belongs to a receiver. */
  lemma FoundAt(s: Sys, k: nat, receiver: int)
    requires Inv(s) && k < MAX_STATES && s.w.slots[k].active
    ensures Find(s.w.slots, receiver) == k <==> s.w.slots[k].receiver == receiver
  {
    var i := Find(s.w.slots, receiver);
    assert s.w.slots[k].receiver == receiver ==> Owns(s.w.slots[k], receiver);
  }

  lemma EntryIs(h: History, s: Sys, k: nat)
    requires HistoryInv(h, s) && k < MAX_STATES
    ensures EntryHolds(h.notes[k], s.w.slots[k], s.books[k])
  {
  }

  /** What the stream worker of an entry reports. */
  lemma ScreenHolds(h: History, s: Sys, e: Event, k: nat)
    requires HistoryInv(h, s) && Enabled(s, e) && k < MAX_STATES && (e.StartEvent? || e.EndEvent?)
    ensures var t := Apply(s, e);
            |t.books| == |t.w.slots| == MAX_STATES && EntryHolds(Next(h, s, t, e).notes[k], t.w.slots[k], t.books[k])
  {
    hide Inv;
    EntryIs(h, s, k);
  }

  lemma FrameHolds(h: History, s: Sys, i: nat, k: nat)
    requires HistoryInv(h, s) && Enabled(s, FirstFrameEvent(i)) && k < MAX_STATES
    ensures var e := FirstFrameEvent(i);
            var t := Apply(s, e);
            |t.books| == |t.w.slots| == MAX_STATES && EntryHolds(Next(h, s, t, e).notes[k], t.w.slots[k], t.books[k])
  {
    hide Inv;
    EntryIs(h, s, k);
  }

  lemma ClusterHolds(h: History, s: Sys, i: nat, now: nat, k: nat)
    requires HistoryInv(h, s) && Enabled(s, RequestClusterEvent(i, now)) && k < MAX_STATES
    ensures var e := RequestClusterEvent(i, now);
            var t := Apply(s, e);
            |t.books| == |t.w.slots| == MAX_STATES && EntryHolds(Next(h, s, t, e).notes[k], t.w.slots[k], t.books[k])
  {
    hide Inv;
    EntryIs(h, s, k);
  }

  /** What the phone reports about the route. */
  lemma RouteHolds(h: History, s: Sys, receiver: int, route: bool, k: nat)
    requires HistoryInv(h, s) && k < MAX_STATES
    ensures var e := NoteRouteEvent(receiver, route);
            var t := Apply(s, e);
            |t.books| == |t.w.slots| == MAX_STATES && EntryHolds(Next(h, s, t, e).notes[k], t.w.slots[k], t.books[k])
  {
    hide Inv, FindFrom, FirstInv;
    EntryIs(h, s, k);
    if s.w.slots[k].active {
      FoundAt(s, k, receiver);
    }
  }

  lemma QueueHolds(h: History, s: Sys, receiver: int, now: nat, k: nat)
    requires HistoryInv(h, s) && Enabled(s, QueueRouteEvent(receiver, now)) && k < MAX_STATES
    ensures var e := QueueRouteEvent(receiver, now);
            var t := Apply(s, e);
            |t.books| == |t.w.slots| == MAX_STATES && EntryHolds(Next(h, s, t, e).notes[k], t.w.slots[k], t.books[k])
  {
    hide Inv, FindFrom;
    EntryIs(h, s, k);
    if s.w.slots[k].active {
      FoundAt(s, k, receiver);
    }
  }

  lemma StopHolds(h: History, s: Sys, receiver: int, k: nat)
    requires HistoryInv(h, s) && k < MAX_STATES
    ensures var e := StopEvent(receiver);
            var t := Apply(s, e);
            |t.books| == |t.w.slots| == MAX_STATES && EntryHolds(Next(h, s, t, e).notes[k], t.w.slots[k], t.books[k])
  {
    hide Inv, FindFrom, FirstInv;
    EntryIs(h, s, k);
    if s.w.slots[k].active {
      FoundAt(s, k, receiver);
    }
  }

  lemma LayoutHolds(h: History, s: Sys, e: Event, k: nat)
    requires HistoryInv(h, s) && Enabled(s, e) && k < MAX_STATES && (e.GaugeEvent? || e.ZoomAreaEvent?)
    ensures var t := Apply(s, e);
            |t.books| == |t.w.slots| == MAX_STATES && EntryHolds(Next(h, s, t, e).notes[k], t.w.slots[k], t.books[k])
  {
    hide Inv, Holds, Layout;
    EntryIs(h, s, k);
    LayoutKept(h, s, e);
    if h.notes[k].Some? {
      RelayoutHolds(h.notes[k].value, s.w.slots[k], s.books[k], Apply(s, e).w.layoutSlot, e.now);
    }
  }

  lemma RelayoutHolds(n: Note, x: Slot, b: Ledger, layout: int, now: nat)
    requires Holds(n, x, b) && x.active && layout >= 0
    ensures if n.running && !n.stopping then
              Streaming(x) && Holds(n.(ask := Some(Ask(Wanted(layout, n), now + 150, true))), Relayout(x, layout, now),
                                    BookRequest(b, Relayout(x, layout, now).pending))
            else !Streaming(x) && Relayout(x, layout, now) == x
  {
  }

  /** The layout is that of the reports. */
  lemma LayoutKept(h: History, s: Sys, e: Event)
    requires HistoryInv(h, s) && Enabled(s, e)
    ensures var w := Apply(s, e).w;
            var gauge, width := NextGauge(h.gauge, e), NextWidth(h.width, e);
            w.layoutSlot == Layout(gauge, width) && w.layoutKnown == gauge.Some?
  {
    hide Inv, EntryHolds, Apply, Enabled;
    if e.GaugeEvent? || e.ZoomAreaEvent? {
      LayoutReported(s, e);
    } else if e.AllocEvent? || e.StartEvent? || e.EndEvent? || e.FirstFrameEvent? || e.WipeEvent? || e.StopEvent? {
      LifeKeepsLayout(s, e);
    } else {
      ControlKeepsLayout(s, e);
    }
  }

  lemma LayoutReported(s: Sys, e: Event)
    requires Enabled(s, e) && (e.GaugeEvent? || e.ZoomAreaEvent?)
    ensures e.GaugeEvent? ==> Apply(s, e).w.layoutSlot == (if e.value % 2 == 0 then 1 else 0)
    ensures e.ZoomAreaEvent? ==>
              Apply(s, e).w.layoutSlot == (if s.w.layoutKnown || e.width > 800 then s.w.layoutSlot
                                           else if e.width <= 560 then 1 else 0)
    ensures Apply(s, e).w.layoutKnown == (s.w.layoutKnown || e.GaugeEvent?)
  {
  }

  lemma LifeKeepsLayout(s: Sys, e: Event)
    requires Enabled(s, e)
    requires e.AllocEvent? || e.StartEvent? || e.EndEvent? || e.FirstFrameEvent? || e.WipeEvent? || e.StopEvent?
    ensures Apply(s, e).w.layoutSlot == s.w.layoutSlot && Apply(s, e).w.layoutKnown == s.w.layoutKnown
  {
    hide FindFrom, FreeFrom;
  }

  lemma ControlKeepsLayout(s: Sys, e: Event)
    requires Enabled(s, e)
    requires e.RequestClusterEvent? || e.NoteRouteEvent? || e.QueueRouteEvent? || e.TickEvent? || e.CompleteEvent?
             || e.RefuseEvent?
    ensures Apply(s, e).w.layoutSlot == s.w.layoutSlot && Apply(s, e).w.layoutKnown == s.w.layoutKnown
  {
    hide FindFrom, FirstSender, VisitSlot, BookVisit, BookOutcome, Advance, GiveUp;
  }

  /** A session without a command on its way is not in the middle of resolving one. */
  lemma ResolvedHolds(n: Note, x: Slot, b: Ledger, ok: bool, accepted: nat, refused: nat)
    requires Holds(n, x, b) && SessionInv(x, b) && x.active && n.sent.Some?
    ensures var c := n.sent.value;
            Holds(Resolved(n, c, ok),
                  x.(control := if ok then Advance(x.control, c.view) else GiveUp(x.control)),
                  BookOutcome(b, c.stage, c.view, ok).(accepted := accepted, refused := refused))
  {
  }

  lemma CompleteHolds(h: History, s: Sys, c: Command, ok: bool, k: nat)
    requires HistoryInv(h, s) && c in s.issued && k < MAX_STATES
    ensures var e := CompleteEvent(c, ok);
            var t := Apply(s, e);
            |t.books| == |t.w.slots| == MAX_STATES && EntryHolds(Next(h, s, t, e).notes[k], t.w.slots[k], t.books[k])
  {
    hide Inv, SessionInv, Holds, FindFrom, Advance, GiveUp, BookOutcome, Current;
    EntryIs(h, s, k);
    if s.w.slots[k].active {
      EntryInv(s, k);
      SentIsAwaited(s, h, k, c);
      if h.notes[k].value.sent == Some(c) {
        ResolvedHolds(h.notes[k].value, s.w.slots[k], s.books[k], ok, s.books[k].accepted + 1, s.books[k].refused);
        assert BookOutcome(s.books[k], c.stage, c.view, ok).(refused := s.books[k].refused)
            == BookOutcome(s.books[k], c.stage, c.view, ok) by {
          BookKeeps(s.books[k], c, ok);
        }
      }
    }
  }

  lemma RefuseHolds(h: History, s: Sys, c: Command, k: nat)
    requires HistoryInv(h, s) && c in s.issued && k < MAX_STATES
    ensures var e := RefuseEvent(c);
            var t := Apply(s, e);
            |t.books| == |t.w.slots| == MAX_STATES && EntryHolds(Next(h, s, t, e).notes[k], t.w.slots[k], t.books[k])
  {
    hide Inv, SessionInv, Holds, FindFrom, Advance, GiveUp, BookOutcome, Current;
    EntryIs(h, s, k);
    if s.w.slots[k].active {
      EntryInv(s, k);
      SentIsAwaited(s, h, k, c);
      if h.notes[k].value.sent == Some(c) {
        ResolvedHolds(h.notes[k].value, s.w.slots[k], s.books[k], false, s.books[k].accepted, s.books[k].refused + 1);
        assert BookOutcome(s.books[k], c.stage, c.view, false).(accepted := s.books[k].accepted)
            == BookOutcome(s.books[k], c.stage, c.view, false) by {
          BookKeeps(s.books[k], c, false);
        }
      }
    }
  }

  lemma BookKeeps(b: Ledger, c: Command, ok: bool)
    ensures BookOutcome(b, c.stage, c.view, ok).accepted == b.accepted
    ensures BookOutcome(b, c.stage, c.view, ok).refused == b.refused
  {
  }

  /** The command that counts is the one that the history holds as sent. */
  lemma SentIsAwaited(s: Sys, h: History, k: nat, c: Command)
    requires HistoryInv(h, s) && c in s.issued && k < MAX_STATES && s.w.slots[k].active
    ensures h.notes[k].Some? && h.notes[k].value.stopping == s.w.slots[k].stopRequested
    ensures h.notes[k].value.sent == Some(c) <==> Find(s.w.slots, c.receiver) == k && Current(s.w.slots[k], c)
    ensures Find(s.w.slots, c.receiver) == k && Current(s.w.slots[k], c) ==> c == CommandOf(s.w.slots[k])
  {
    hide SessionInv, FindFrom, FirstInv;
    EntryIs(h, s, k);
    FoundAt(s, k, c.receiver);
    if Current(s.w.slots[k], c) {
      CurrentCommand(s, c, k);
    }
  }

  /** The first free entry, and whether the receiver is registered, as the table has it. */
  lemma SameEntries(h: History, s: Sys, receiver: int)
    requires HistoryInv(h, s)
    ensures FreeEntry(h.notes, 0) == FreeFrom(s.w.slots, 0)
    ensures EntryOf(h.notes, receiver, 0) == Find(s.w.slots, receiver)
  {
    hide Inv, FindFrom, FreeFrom, EntryOf, FreeEntry, FirstInv;
    forall k | 0 <= k < MAX_STATES
      ensures s.w.slots[k].active <==> h.notes[k].Some?
      ensures Owns(s.w.slots[k], receiver) <==> h.notes[k].Some? && h.notes[k].value.receiver == receiver
    {
      EntryIs(h, s, k);
    }
    var f, i := FreeEntry(h.notes, 0), FreeFrom(s.w.slots, 0);
    assert f < MAX_STATES ==> !s.w.slots[f].active;
    assert i < MAX_STATES ==> h.notes[i].None?;
    var m, j := EntryOf(h.notes, receiver, 0), Find(s.w.slots, receiver);
    assert m < MAX_STATES ==> Owns(s.w.slots[m], receiver);
    assert j < MAX_STATES ==> h.notes[j].Some? && h.notes[j].value.receiver == receiver;
  }

  lemma AllocHolds(h: History, s: Sys, receiver: int, k: nat)
    requires HistoryInv(h, s) && k < MAX_STATES
    ensures var e := AllocEvent(receiver);
            var t := Apply(s, e);
            |t.books| == |t.w.slots| == MAX_STATES && EntryHolds(Next(h, s, t, e).notes[k], t.w.slots[k], t.books[k])
  {
    hide Inv, FindFrom, FreeFrom, EntryOf, FreeEntry;
    EntryIs(h, s, k);
    SameEntries(h, s, receiver);
    var w := Alloc(s.w, receiver);
    assert w == s.w <==> Find(s.w.slots, receiver) < MAX_STATES || FreeFrom(s.w.slots, 0) == MAX_STATES;
  }

  lemma WipeHolds(h: History, s: Sys, i: nat, k: nat)
    requires HistoryInv(h, s) && Enabled(s, WipeEvent(i)) && k < MAX_STATES
    ensures var e := WipeEvent(i);
            var t := Apply(s, e);
            |t.books| == |t.w.slots| == MAX_STATES && EntryHolds(Next(h, s, t, e).notes[k], t.w.slots[k], t.books[k])
  {
    hide Inv;
    EntryIs(h, s, k);
  }

  /** The first half of a visit: a command that is late is given up. */
  function GivenUp(n: Note, late: bool): Note {
    if late then n.(sent := None, starting := false) else n
  }

  lemma ExpireHolds(n: Note, x: Slot, b: Ledger, now: nat)
    requires Holds(n, x, b) && SessionInv(x, b) && x.active
    ensures var late := Overdue(x.control, now);
            Holds(GivenUp(n, late), x.(control := Expire(x.control, now)), BookTimeout(b, x.control, late))
  {
  }

  /** The second half: a request is taken up, a command is sent. */
  function TakenUp(n: Note, adopted: bool): Note {
    if adopted && n.ask.Some?
    then n.(goal := n.ask.value.view, goalFromGauge := n.ask.value.fromGauge, ask := None) else n
  }

  function SentOff(n: Note, sent: bool, c: Command, now: nat): Note {
    if sent then n.(sent := Some(c), sentAt := now) else n
  }

  lemma AdoptHolds(n: Note, x: Slot, b: Ledger)
    requires Holds(n, x, b) && ShowInv(x.control, b) && x.pending.view >= 0 && !x.control.awaitingAck
    ensures n.ask.Some?
    ensures Holds(TakenUp(n, true), x.(pending := NO_REQUEST, control := Adopt(x.pending, x.control)),
                  BookAdoption(b, true))
  {
  }

  lemma DispatchHolds(n: Note, x: Slot, b: Ledger, now: nat, serial: nat)
    requires Holds(n, x, b) && !x.control.awaitingAck
    ensures var y := x.(control := Dispatch(x.control, now, serial));
            Holds(SentOff(n, true, CommandOf(y), now), y, BookDispatch(b, y.control, true))
  {
  }

  lemma DueHolds(n: Note, x: Slot, b: Ledger, late: bool, now: nat, marker: bool, serial: nat)
    requires Holds(n, x, b) && ShowInv(x.control, b)
    ensures var v := VisitDue(x.pending, x.control, late, now, marker, serial);
            var y := x.(pending := v.pending, control := v.control);
            Holds(SentOff(TakenUp(n, v.adopted), v.sent, CommandOf(y), now), y,
                  BookDispatch(BookAdoption(b, v.adopted), v.control, v.sent))
  {
    hide Holds, Adopt, Dispatch, CommandOf, ShowInv, Dispatches;
    if !Waits(x.pending, x.control, now) {
      var adopts := x.pending.view >= 0;
      var n1, x1, b1 := n, x, b;
      if adopts {
        AdoptHolds(n, x, b);
        n1, x1 := TakenUp(n, true), x.(pending := NO_REQUEST, control := Adopt(x.pending, x.control));
        b1 := BookAdoption(b, true);
        AdoptAwaits(x.pending, x.control);
      }
      if Dispatches(x1.control, marker) {
        DispatchHolds(n1, x1, b1, now, serial);
      }
    }
  }

  lemma AdoptAwaits(p: Request, c: Control)
    ensures Adopt(p, c).awaitingAck == c.awaitingAck
  {
  }

  /** A visit of the worker, as the history records it. */
  lemma VisitHolds(n: Note, x: Slot, b: Ledger, now: nat, marker: bool, serial: nat)
    requires x.active && Holds(n, x, b) && SessionInv(x, b)
    ensures var y, v := AfterVisit(x, now, marker, serial), VisitSlot(x, now, marker, serial);
            var c := BookVisit(b, x.control, v);
            Holds(Ticked(n, b, c, if v.sent then Some(CommandOf(y)) else None, now), y, c)
  {
    hide Holds, VisitDue, Expire, GiveUp;
    if Visited(x) {
      var late := Overdue(x.control, now);
      var x1, b1 := x.(control := Expire(x.control, now)), BookTimeout(b, x.control, late);
      ExpireHolds(n, x, b, now);
      ShowHolds(x, b, now);
      DueHolds(GivenUp(n, late), x1, b1, late, now, marker, serial);
      LateIs(x.pending, Expire(x.control, now), late, now, marker, serial);
      NoteReceiver(n, x, b);
    }
  }

  lemma ShowHolds(x: Slot, b: Ledger, now: nat)
    requires SessionInv(x, b) && x.active
    ensures ShowInv(Expire(x.control, now), BookTimeout(b, x.control, Overdue(x.control, now)))
  {
    ExpireInv(x.control, b, now);
  }

  lemma LateIs(p: Request, c: Control, late: bool, now: nat, marker: bool, serial: nat)
    ensures VisitDue(p, c, late, now, marker, serial).timedOut == late
  {
  }

  lemma TickHolds(h: History, s: Sys, now: nat, marker: bool, k: nat)
    requires HistoryInv(h, s) && k < MAX_STATES
    ensures var e := TickEvent(now, marker);
            var t := Apply(s, e);
            |t.books| == |t.w.slots| == MAX_STATES && EntryHolds(Next(h, s, t, e).notes[k], t.w.slots[k], t.books[k])
  {
    hide SessionInv, Holds, VisitSlot, BookVisit;
    EntryIs(h, s, k);
    if s.w.slots[k].active {
      var r := FirstSender(s.w.slots, 0, now, marker, s.w.requestSerial);
      EntryInv(s, k);
      NoteReceiver(h.notes[k].value, s.w.slots[k], s.books[k]);
      VisitHolds(h.notes[k].value, s.w.slots[k], s.books[k], now, marker, s.w.requestSerial);
      if r < MAX_STATES && r != k {
        VisitSends(s.w.slots[r], now, marker, s.w.requestSerial);
        assert s.w.slots[r].receiver != s.w.slots[k].receiver;
      }
    } else {
      FreeIsNotVisited(now, marker, s.w.requestSerial);
    }
  }

  lemma FreeIsNotVisited(now: nat, marker: bool, serial: nat)
    ensures AfterVisit(ZERO_SLOT, now, marker, serial) == ZERO_SLOT
    ensures BookVisit(NEW_LEDGER, ZERO_SLOT.control, VisitSlot(ZERO_SLOT, now, marker, serial)) == NEW_LEDGER
  {
  }

  lemma NoteReceiver(n: Note, x: Slot, b: Ledger)
    requires Holds(n, x, b)
    ensures n.receiver == x.receiver
  {
  }

  lemma VisitSends(x: Slot, now: nat, marker: bool, serial: nat)
    ensures Sends(x, now, marker, serial) ==> x.active
  {
  }

  lemma EntryNext(h: History, s: Sys, e: Event, k: nat)
    requires HistoryInv(h, s) && Enabled(s, e) && k < MAX_STATES
    ensures var t := Apply(s, e);
            |t.books| == |t.w.slots| == MAX_STATES && EntryHolds(Next(h, s, t, e).notes[k], t.w.slots[k], t.books[k])
  {
    hide Apply, Enabled, EntryHolds, Next;
    EnabledAnswer(s, e);
    match e
    case AllocEvent(receiver) => AllocHolds(h, s, receiver, k);
    case StartEvent(_) => ScreenHolds(h, s, e, k);
    case EndEvent(_) => ScreenHolds(h, s, e, k);
    case FirstFrameEvent(i) => FrameHolds(h, s, i, k);
    case RequestClusterEvent(i, now) => ClusterHolds(h, s, i, now, k);
    case NoteRouteEvent(receiver, route) => RouteHolds(h, s, receiver, route, k);
    case QueueRouteEvent(receiver, now) => QueueHolds(h, s, receiver, now, k);
    case GaugeEvent(_, _) => LayoutHolds(h, s, e, k);
    case ZoomAreaEvent(_, _) => LayoutHolds(h, s, e, k);
    case TickEvent(now, marker) => TickHolds(h, s, now, marker, k);
    case CompleteEvent(c, ok) => CompleteHolds(h, s, c, ok, k);
    case RefuseEvent(c) => RefuseHolds(h, s, c, k);
    case StopEvent(receiver) => StopHolds(h, s, receiver, k);
    case WipeEvent(i) => WipeHolds(h, s, i, k);
  }

  lemma EnabledAnswer(s: Sys, e: Event)
    requires Enabled(s, e)
    ensures e.CompleteEvent? || e.RefuseEvent? ==> e.command in s.issued
  {
  }

  lemma NextHolds(h: History, s: Sys, e: Event)
    requires HistoryInv(h, s) && Enabled(s, e)
    ensures var t := Apply(s, e); |t.books| == MAX_STATES && HistoryInv(Next(h, s, t, e), t)
  {
    hide Apply, Enabled, EntryHolds, Inv;
    StepInv(s, e);
    LayoutKept(h, s, e);
    EntryNext(h, s, e, 0);
    forall k | 0 <= k < MAX_STATES
      ensures var t := Apply(s, e);
              |t.books| == |t.w.slots| == MAX_STATES && EntryHolds(Next(h, s, t, e).notes[k], t.w.slots[k], t.books[k])
    {
      EntryNext(h, s, e, k);
    }
  }

  lemma {:induction false} RecordsHold(h: History, s: Sys, es: seq<Event>, g: History, t: Sys)
    requires HistoryInv(h, s) && Legal(s, es) && Records(h, s, es, g, t)
    ensures HistoryInv(g, t)
    decreases |es|
  {
    hide Apply, Enabled, HistoryInv;
    if es != [] {
      NextHolds(h, s, es[0]);
      RecordsHold(Next(h, s, Apply(s, es[0]), es[0]), Apply(s, es[0]), es[1..], g, t);
    }
  }

  lemma EmptyHolds()
    ensures HistoryInv(Empty(), Init())
  {
    InitInv();
  }

  /** In every reachable state the session table holds what the history says, entry by entry. */
  lemma HistoryHolds(h: History, s: Sys)
    requires Recorded(h, s)
    ensures HistoryInv(h, s)
  {
    hide HistoryInv;
    var es :| Legal(Init(), es) && Records(Empty(), Init(), es, h, s);
    EmptyHolds();
    RecordsHold(Empty(), Init(), es, h, s);
  }

  /** Every run has a history. */
  lemma {:induction false} EveryRunIsRecorded(h: History, s: Sys, es: seq<Event>) returns (g: History)
    requires HistoryInv(h, s) && Legal(s, es)
    ensures Records(h, s, es, g, Exec(s, es))
    decreases |es|
  {
    hide Apply, Enabled;
    if es == [] {
      g := h;
    } else {
      NextHolds(h, s, es[0]);
      g := EveryRunIsRecorded(Next(h, s, Apply(s, es[0]), es[0]), Apply(s, es[0]), es[1..]);
    }
  }
}
