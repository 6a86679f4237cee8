/**
What the events of a run say about the current generation, without a look at the retry state, and what every section
of send_hook.c decides by that alone.
*/
module SendHookHistory {
  import opened SendHook
  import opened SendHookRuns
  import opened Wrappers

  /** Everything that happened in the current generation. */
  datatype History = History(
    generation: nat,
    soft: bool,               // it was opened because the phone had fallen silent
    answered: bool,           // a route-guidance message came in
    answeredAt: nat,          // when the first one did
    heard: Option<nat>,       // when the last one did
    cycle: Option<int>,       // the context on which 0x5200 is sent and retried
    attempts: seq<nat>,       // when
    due: bool,                // a worker found that it is time for the next attempt
    worker: bool)             // a worker was started, and has neither failed to start nor left

  function Opened(generation: nat, soft: bool): History {
    History(generation, soft, false, 0, None, None, [], false, false)
  }

  predicate IsRouteGuidance(msgid: nat) {
    msgid in {0x5201, 0x5202, 0x5204}
  }

  /** The cycle goes on: it has begun and no message has answered it. */
  predicate Retries(h: History) {
    h.cycle.Some? && !h.answered
  }

  /** The first attempts are 2 s apart, all further ones 30 s. */
  predicate TimeIsUp(h: History, now: nat) {
    h.attempts != [] && now >= h.attempts[|h.attempts| - 1] + (if |h.attempts| < 5 then 2000 else 30000)
  }

  predicate CanBegin(h: History, reply: Ticket, tableReady: bool) {
    reply.ctx != NULL_CTX && tableReady && reply.generation == h.generation && h.cycle.None? && !h.answered
  }

  /** The phone has been silent for 10 s. */
  predicate Silent(h: History, now: nat) {
    h.heard.Some? && now != 0 && now >= h.heard.value + 10000
  }

  function Next(h: History, e: Event): History {
    match e
    case WorkerEvent(generation, now) =>
      if generation != h.generation then h
      else if !Retries(h) then h.(worker := false)
      else if TimeIsUp(h, now) then h.(due := true)
      else h
    case SpawnEvent(generation, ok) => if generation == h.generation && !ok then h.(worker := false) else h
    case SoftRearmEvent(now) => if Silent(h, now) then Opened(h.generation + 1, true) else h
    case BeginEvent(reply, tableReady, now) =>
      if CanBegin(h, reply, tableReady) then h.(cycle := Some(reply.ctx), attempts := [now], worker := true) else h
    case ClaimEvent(ctx, now) =>
      if Retries(h) && h.due && h.cycle == Some(ctx) then h.(due := false, attempts := h.attempts + [now]) else h
    case RxEvent(msgid, now) =>
      if IsRouteGuidance(msgid)
      then h.(answered := true, answeredAt := if h.answered then h.answeredAt else now, due := false, soft := false,
              heard := if now != 0 then Some(now) else h.heard)
      else h
    case ResetEvent => Opened(h.generation + 1, false)
    case _ => h
  }

  /** The history is the one of a legal run that ends in this state. */
  ghost predicate Recorded(h: History, s: Sys) {
    exists es :: Legal(Init(), es) && Records(Opened(1, false), Init(), es, h, s)
  }

  ghost predicate Records(h: History, s: Sys, es: seq<Event>, g: History, t: Sys)
    requires Legal(s, es)
    decreases |es|
  {
    if es == [] then g == h && t == s else Records(Next(h, es[0]), Apply(s, es[0]), es[1..], g, t)
  }

  // ---- The state is the history ----

  predicate Holds(h: History, r: Retry) {
    && r.generation == h.generation
    && r.softGeneration == (if h.soft then h.generation else 0) && h.generation > 0
    && (h.soft ==> !h.answered)
    && r.got == h.answered
    && r.lastRxMs == (if h.heard.Some? then h.heard.value else 0) && (h.heard.Some? ==> h.heard.value > 0)
    && (h.heard.Some? ==> h.answered)
    && r.enabled == Retries(h) && (Retries(h) ==> r.ctx == h.cycle.value && h.cycle.value != NULL_CTX)
    && r.need == h.due && (h.due ==> Retries(h))
    && r.attempts == |h.attempts| && (h.cycle.Some? <==> h.attempts != [])
    && (Retries(h) ==> r.lastSendMs == h.attempts[|h.attempts| - 1] > 0)
    && (h.answered ==> r.lastSendMs == h.answeredAt)
    && r.threadRunning == h.worker && (h.attempts == [] ==> !h.worker)
  }

  ghost predicate HistoryInv(h: History, s: Sys) {
    Inv(s) && Holds(h, s.r) && s.book.attemptAt == h.attempts && s.book.rgiSeen == h.answered
  }

  lemma NextHolds(h: History, s: Sys, e: Event)
    requires HistoryInv(h, s) && Enabled(s, e)
    ensures HistoryInv(Next(h, e), Apply(s, e))
  {
    hide Inv, Holds, Next, NextRetry, NextBook;
    StepInv(s, e);
    ClockRuns(s, e);
    RetryHolds(h, s.r, e, s.clock);
    BookHolds(h, s.r, s.book, e);
  }

  /** The sections that read the clock under the lock never read 0. */
  predicate ReadsClock(e: Event, clock: nat) {
    && clock > 0
    && (e.WorkerEvent? || e.BeginEvent? || e.ClaimEvent? ==> e.now >= clock)
  }

  lemma ClockRuns(s: Sys, e: Event)
    requires Inv(s) && Enabled(s, e)
    ensures ReadsClock(e, s.clock)
  {
  }

  lemma RetryHolds(h: History, r: Retry, e: Event, clock: nat)
    requires Holds(h, r) && ReadsClock(e, clock)
    ensures Holds(Next(h, e), NextRetry(r, e))
  {
  }

  lemma BookHolds(h: History, r: Retry, b: Ledger, e: Event)
    requires Holds(h, r) && b.attemptAt == h.attempts && b.rgiSeen == h.answered
    ensures NextBook(r, b, e).attemptAt == Next(h, e).attempts && NextBook(r, b, e).rgiSeen == Next(h, e).answered
  {
  }

  lemma {:induction false} RecordsHold(h: History, s: Sys, es: seq<Event>, g: History, t: Sys)
    requires HistoryInv(h, s) && Legal(s, es) && Records(h, s, es, g, t)
    ensures HistoryInv(g, t)
    decreases |es|
  {
    hide Apply, Enabled, HistoryInv;
    if es != [] {
      NextHolds(h, s, es[0]);
      RecordsHold(Next(h, es[0]), Apply(s, es[0]), es[1..], g, t);
    }
  }

  /** In every reachable state the retry state is what the history says. */
  lemma HistoryHolds(h: History, s: Sys)
    requires Recorded(h, s)
    ensures HistoryInv(h, s)
  {
    hide HistoryInv;
    var es :| Legal(Init(), es) && Records(Opened(1, false), Init(), es, h, s);
    assert HistoryInv(Opened(1, false), Init()) by {
      InitHolds();
    }
    RecordsHold(Opened(1, false), Init(), es, h, s);
  }

  lemma InitHolds()
    ensures HistoryInv(Opened(1, false), Init())
  {
    InitInv();
  }

  // ---- Decisions ----

  /**
  A worker of the current generation finds the next attempt due exactly if none is due yet and 2 s have passed since
  the last one, 30 s from the fifth on; it leaves exactly if its generation is over or there is nothing to retry.
  */
  lemma WorkerDecidesExactly(h: History, s: Sys, generation: nat, now: nat)
    requires Recorded(h, s) && Enabled(s, WorkerEvent(generation, now))
    ensures WorkerDecides(s.r, generation, now) == Mark <==>
              && generation == h.generation && Retries(h) && !h.due && s.book.attemptAt != []
              && now >= s.book.attemptAt[|s.book.attemptAt| - 1] + (if |s.book.attemptAt| < 5 then 2000 else 30000)
    ensures WorkerDecides(s.r, generation, now) == Leave <==> generation != h.generation || !Retries(h)
    ensures WorkerPass(s.r, generation, now).need <==> h.due || WorkerDecides(s.r, generation, now) == Mark
  {
    hide Records;
    HistoryHolds(h, s);
  }

  /** A cycle begins exactly with a reply of this generation, on a real context, the first time, before any answer. */
  lemma BeginsExactly(h: History, s: Sys, reply: Ticket, tableReady: bool)
    requires Recorded(h, s)
    ensures Begins(s.r, reply.ctx, reply.generation, tableReady) <==> CanBegin(h, reply, tableReady)
    ensures Spawns(s.r, reply.ctx, reply.generation, tableReady) <==> CanBegin(h, reply, tableReady)
  {
    hide Records;
    HistoryHolds(h, s);
  }

  /** An attempt is claimed exactly once it is due, on the context of the cycle; it is the next one. */
  lemma ClaimsExactly(h: History, s: Sys, ctx: int, now: nat)
    requires Recorded(h, s)
    ensures Claims(s.r, ctx) <==> h.due && h.cycle == Some(ctx)
    ensures Claims(s.r, ctx) ==> Claim(s.r, ctx, now).attempts == |h.attempts| + 1 && !Claim(s.r, ctx, now).need
  {
    hide Records;
    HistoryHolds(h, s);
  }

  /** A new generation is opened exactly if the phone answered and has been silent for 10 s since. */
  lemma StaleExactly(h: History, s: Sys, now: nat)
    requires Recorded(h, s)
    ensures Stale(s.r, now) <==> Silent(h, now)
    ensures Silent(h, now) ==> h.answered
  {
    hide Records;
    HistoryHolds(h, s);
  }
}
