/**
When the control worker acts, by the history alone: after how long a command is given up, when a request is taken up,
which command goes out, and which answers count.
*/
module AltscreenTimes {
  import opened AltscreenHistory
  import opened AltscreenRuns
  import opened AltscreenSession
  import opened Wrappers

  /** The worker looks at this session at all. */
  predicate Live(n: Note) {
    n.running && !n.stopping && n.receiver != NULL_RECEIVER
  }

  /** No entry in front of this one sends a command in this tick. */
  predicate Reached(h: History, command: Option<Command>, k: nat) {
    command.Some? ==> EntryOf(h.notes, command.value.receiver, 0) >= k
  }

  /** A command is on its way for too long. */
  predicate Late(n: Note, now: nat) {
    n.sent.Some? && now >= n.sentAt + 2500
  }

  /** There is a request that is due, and nothing on its way that it would have to wait for. */
  predicate TakesUp(n: Note, now: nat) {
    n.ask.Some? && now >= n.ask.value.due && (n.sent.None? || Late(n, now))
  }

  /** The first command for a view: showUI, unless the last showUI that was resolved put its gauge slot up. */
  function FirstStage(lastShow: ShowResult, view: int): Stage {
    if lastShow == ShowAcked(view / 2) then View else Show
  }

  /** What comes after the commands of the sequence, if it is not over. */
  function Following(n: Note, b: Ledger): Option<Stage> {
    if b.adopted == 0 then None
    else if b.word == [] then Some(FirstStage(b.lastShow, n.goal))
    else
      var last := b.word[|b.word| - 1];
      if last.outcome != Acked then None
      else
        match last.stage
        case Show => Some(View)
        case View => Some(Keyframe)
        case _ => None
  }

  /** The command that is next, when the worker comes by: of a new sequence, or of the one under way. */
  function NextStageOf(n: Note, b: Ledger, after: Ledger, now: nat): Option<Stage> {
    if TakesUp(n, now) then Some(FirstStage(after.lastShow, n.ask.value.view))
    else if n.ask.Some? || n.sent.Some? then None
    else Following(n, b)
  }

  // ---- One entry ----

  lemma VisitIs(n: Note, x: Slot, b: Ledger, now: nat, marker: bool, serial: nat)
    requires x.active && Holds(n, x, b) && SessionInv(x, b)
    ensures var y, v := AfterVisit(x, now, marker, serial), VisitSlot(x, now, marker, serial);
            var c := BookVisit(b, x.control, v);
            && (v.timedOut <==> Live(n) && Late(n, now))
            && (v.adopted <==> Live(n) && TakesUp(n, now))
            && (v.sent <==> Live(n) && NextStageOf(n, b, c, now).Some? && (marker || (n.starting && !Late(n, now))))
            && (v.sent ==> CommandOf(y) == Command(n.receiver, x.generation, serial + 1,
                                                   NextStageOf(n, b, c, now).value,
                                                   if TakesUp(n, now) then n.ask.value.view else n.goal))
            && (!Live(n) || (n.sent.Some? && !Late(n, now)) ==> y == x && c == b)
            && (y.control.awaitingAck <==> v.sent || (n.sent.Some? && !(Live(n) && Late(n, now))))
            && c.timedOut == b.timedOut + (if v.timedOut then 1 else 0)
            && c.adopted == b.adopted + (if v.adopted then 1 else 0)
            && c.dispatched == b.dispatched + (if v.sent then 1 else 0)
  {
  }

  lemma ReachedIs(h: History, s: Sys, now: nat, marker: bool, k: nat)
    requires HistoryInv(h, s) && k < MAX_STATES
    ensures Reached(h, TickCommand(s.w, now, marker), k) <==>
              k <= FirstSender(s.w.slots, 0, now, marker, s.w.requestSerial)
    ensures var c := TickCommand(s.w, now, marker);
            c.Some? && h.notes[k].Some? && c.value.receiver == h.notes[k].value.receiver ==>
              k == FirstSender(s.w.slots, 0, now, marker, s.w.requestSerial)
  {
    hide VisitSlot, EntryOf, FindFrom, SessionInv, FirstInv;
    var r := FirstSender(s.w.slots, 0, now, marker, s.w.requestSerial);
    if r < MAX_STATES {
      var receiver := s.w.slots[r].receiver;
      VisitSends(s.w.slots[r], now, marker, s.w.requestSerial);
      SameEntries(h, s, receiver);
      FoundAt(s, r, receiver);
      EntryIs(h, s, k);
      if h.notes[k].Some? {
        FoundAt(s, k, receiver);
      }
    }
  }

  /** What a tick does to one entry. */
  lemma TickIs(h: History, s: Sys, now: nat, marker: bool, k: nat)
    requires HistoryInv(h, s) && k < MAX_STATES && h.notes[k].Some?
    ensures var t, n := Apply(s, TickEvent(now, marker)), h.notes[k].value;
            && |t.books| == |t.w.slots| == MAX_STATES && |s.books| == |s.w.slots| == MAX_STATES
            && var v := VisitSlot(s.w.slots[k], now, marker, s.w.requestSerial);
            if k <= FirstSender(s.w.slots, 0, now, marker, s.w.requestSerial) then
              t.w.slots[k] == AfterVisit(s.w.slots[k], now, marker, s.w.requestSerial)
              && t.books[k] == BookVisit(s.books[k], s.w.slots[k].control, v)
            else t.w.slots[k] == s.w.slots[k] && t.books[k] == s.books[k]
  {
    hide VisitSlot, BookVisit, SessionInv;
  }

  // ---- Over whole runs ----

  /**
  A command is given up in a tick exactly if the tick reaches the session 2500 ms or more after the command was sent;
  before that the tick leaves the session as it is, and afterwards the session no longer waits for the command.
  */
  lemma TimeOutIsExact(h: History, s: Sys, now: nat, marker: bool, k: nat)
    requires Recorded(h, s) && k < |h.notes| && h.notes[k].Some?
    ensures Sized(h, s) && Sized(h, Apply(s, TickEvent(now, marker)))
    ensures var n, t := h.notes[k].value, Apply(s, TickEvent(now, marker));
            var reached := Live(n) && Reached(h, TickCommand(s.w, now, marker), k);
            && t.books[k].timedOut == s.books[k].timedOut + (if reached && Late(n, now) then 1 else 0)
            && (!reached || (n.sent.Some? && !Late(n, now)) ==>
                  t.w.slots[k] == s.w.slots[k] && t.books[k] == s.books[k])
            && (reached && Late(n, now) && t.w.slots[k].control.awaitingAck ==>
                  CommandOf(t.w.slots[k]) != n.sent.value)
  {
    hide VisitSlot, BookVisit, SessionInv, Holds, Apply, Records;
    HistoryHolds(h, s);
    EntryInv(s, k);
    EntryIs(h, s, k);
    ReachedIs(h, s, now, marker, k);
    TickIs(h, s, now, marker, k);
    VisitIs(h.notes[k].value, s.w.slots[k], s.books[k], now, marker, s.w.requestSerial);
    if h.notes[k].value.sent.Some? {
      SentToken(h, s, k);
    }
  }

  lemma SentToken(h: History, s: Sys, k: nat)
    requires HistoryInv(h, s) && k < MAX_STATES && h.notes[k].Some? && h.notes[k].value.sent.Some?
    ensures h.notes[k].value.sent.value.token <= s.w.requestSerial
  {
    EntryInv(s, k);
  }

  /**
  A request is taken up in a tick exactly if the tick reaches the session when the request is due and no command is on
  its way, or only one that is given up now; the sequence of commands then begins anew, for the view asked for.
  */
  lemma RequestIsTakenUp(h: History, s: Sys, now: nat, marker: bool, k: nat)
    requires Recorded(h, s) && k < |h.notes| && h.notes[k].Some?
    ensures Sized(h, s) && Sized(h, Apply(s, TickEvent(now, marker)))
    ensures var n, t := h.notes[k].value, Apply(s, TickEvent(now, marker));
            var takes := Live(n) && Reached(h, TickCommand(s.w, now, marker), k) && TakesUp(n, now);
            && t.books[k].adopted == s.books[k].adopted + (if takes then 1 else 0)
            && t.w.slots[k].control.targetView == (if takes then n.ask.value.view else n.goal)
            && (takes ==> |t.books[k].word| <= 1 && t.w.slots[k].pending.view < 0)
            && (!takes ==> s.books[k].word == [] || Stages(s.books[k].word) <= Stages(t.books[k].word))
  {
    hide VisitSlot, BookVisit, SessionInv, Holds, Apply, Records;
    HistoryHolds(h, s);
    EntryInv(s, k);
    EntryIs(h, s, k);
    ReachedIs(h, s, now, marker, k);
    TickIs(h, s, now, marker, k);
    VisitIs(h.notes[k].value, s.w.slots[k], s.books[k], now, marker, s.w.requestSerial);
    VisitTakesUp(h.notes[k].value, s.w.slots[k], s.books[k], now, marker, s.w.requestSerial);
  }

  lemma VisitTakesUp(n: Note, x: Slot, b: Ledger, now: nat, marker: bool, serial: nat)
    requires x.active && Holds(n, x, b) && SessionInv(x, b)
    ensures var y := AfterVisit(x, now, marker, serial);
            var c := BookVisit(b, x.control, VisitSlot(x, now, marker, serial));
            var takes := Live(n) && TakesUp(n, now);
            && y.control.targetView == (if takes then n.ask.value.view else n.goal)
            && (takes ==> |c.word| <= 1 && y.pending.view < 0)
            && (!takes ==> b.word == [] || Stages(b.word) <= Stages(c.word))
            && x.control.targetView == n.goal
  {
  }

  /**
  The command of a tick: the first session in the table that is live and has a command next sends it, if the cluster
  shows the map or the session is starting up; it is the next of the sequence for the view taken up last.
  */
  lemma SendsExactly(h: History, s: Sys, now: nat, marker: bool, k: nat)
    requires Recorded(h, s) && k < |h.notes| && h.notes[k].Some?
    ensures Sized(h, s) && Sized(h, Apply(s, TickEvent(now, marker)))
    ensures var n, t, c := h.notes[k].value, Apply(s, TickEvent(now, marker)), TickCommand(s.w, now, marker);
            var next := NextStageOf(n, s.books[k], t.books[k], now);
            var sends := && Live(n) && Reached(h, c, k) && next.Some?
                         && (marker || (n.starting && !Late(n, now)));
            && (sends <==> c.Some? && c.value.receiver == n.receiver)
            && (sends ==> c == Some(Command(n.receiver, s.w.slots[k].generation, s.w.requestSerial + 1, next.value,
                                            if TakesUp(n, now) then n.ask.value.view else n.goal)))
            && t.books[k].dispatched == s.books[k].dispatched + (if sends then 1 else 0)
  {
    hide VisitSlot, BookVisit, SessionInv, Holds, Apply, Records, NextStageOf;
    HistoryHolds(h, s);
    EntryInv(s, k);
    EntryIs(h, s, k);
    NoteReceiver(h.notes[k].value, s.w.slots[k], s.books[k]);
    ReachedIs(h, s, now, marker, k);
    TickIs(h, s, now, marker, k);
    VisitIs(h.notes[k].value, s.w.slots[k], s.books[k], now, marker, s.w.requestSerial);
  }

  /** A completion counts exactly for the command on its way of a session that is not stopping; a refusal for any. */
  lemma AnswerCounts(h: History, s: Sys, c: Command)
    requires Recorded(h, s) && c in s.issued
    ensures RefusalAccepted(s.w, c) <==>
              exists k :: 0 <= k < |h.notes| && h.notes[k].Some? && h.notes[k].value.sent == Some(c)
    ensures AckAccepted(s.w, c) <==>
              exists k :: 0 <= k < |h.notes| && h.notes[k].Some? && h.notes[k].value.sent == Some(c)
                          && !h.notes[k].value.stopping
  {
    hide SessionInv, Current, FirstInv, Records, FindFrom;
    HistoryHolds(h, s);
    forall k | 0 <= k < MAX_STATES && h.notes[k].Some?
      ensures h.notes[k].value.sent == Some(c) <==> Find(s.w.slots, c.receiver) == k && Current(s.w.slots[k], c)
      ensures h.notes[k].value.stopping == s.w.slots[k].stopRequested
    {
      EntryIs(h, s, k);
      SentIsAwaited(s, h, k, c);
    }
    var i := Find(s.w.slots, c.receiver);
    if i < MAX_STATES {
      EntryIs(h, s, i);
    }
  }

  /**
  The view most recently asked for is, for every session past its first frame, the one for the layout and the route as
  they were reported last.
  */
  lemma RequestFollowsReports(h: History, s: Sys, k: nat)
    requires Recorded(h, s) && k < |h.notes| && h.notes[k].Some?
    ensures Sized(h, s)
    ensures var n := h.notes[k].value;
            && s.books[k].requested == (if n.ask.Some? then n.ask.value.view else n.goal)
            && (n.running && !n.stopping && s.books[k].phase == FrameRequested && n.receiver !in s.routing ==>
                  s.books[k].requested == 2 * Layout(h.gauge, h.width) + if n.route == Some(true) then 1 else 0)
  {
    hide Records, ControlInv, FirstInv;
    HistoryHolds(h, s);
    EntryIs(h, s, k);
    EntryInv(s, k);
  }

  /** A report about the route is news exactly if the last one said otherwise, or there was none. */
  lemma RouteNewsIsExact(h: History, s: Sys, k: nat, route: bool)
    requires Recorded(h, s) && k < |h.notes| && h.notes[k].Some?
    ensures Sized(h, s)
    ensures RouteChanges(s.w.slots[k], route) <==> h.notes[k].value.route != Some(route)
  {
    hide Records, FirstInv;
    HistoryHolds(h, s);
    EntryIs(h, s, k);
  }

  /** The first frame of a session is claimed once, by a running session that is not being torn down. */
  lemma FirstFrameOnce(h: History, s: Sys, k: nat)
    requires Recorded(h, s) && k < |h.notes| && h.notes[k].Some?
    ensures Sized(h, s)
    ensures var n := h.notes[k].value; ClaimsFirstFrame(s.w.slots[k]) <==> n.running && !n.stopping && !n.claimed
  {
    hide Records, FirstInv;
    HistoryHolds(h, s);
    EntryIs(h, s, k);
  }
}
