/**
Whole runs of the 0x5200 retry protocol of send_hook.c: any number of retry workers, MsgReply calls, GPS
handlers, receivers and resets, their locked sections interleaved in any order.

`replies` holds the tracked replies taken by MsgReply and not yet passed to retry_begin, `spawning` and
`workers` the generations of the worker threads being created and running, and `tickets` the sends that
retry_begin or retry_claim_pending promised and that have not reached the link yet.
*/
module SendHookRuns {
  import opened Wrappers
  import opened SendHook

  /** A send on its way, and the generation in which it was promised. */
  datatype Ticket = Ticket(ctx: int, generation: nat)

  /** What an observer of the current generation has seen. */
  datatype Ledger = Ledger(
    ctx: int,                 // the context of the retry cycle
    attemptAt: seq<nat>,      // when each attempt of this generation was counted
    cycles: nat,              // successful calls of retry_begin
    workerStarts: nat,        // worker threads asked for
    rgiSeen: bool,            // a route-guidance message arrived
    sentAt: seq<nat>,         // transmissions promised in this generation
    strayAt: seq<nat>)        // transmissions promised in an earlier one

  const NEW_LEDGER := Ledger(NULL_CTX, [], 0, 0, false, [], [])

  datatype Sys = Sys(
    r: Retry,
    table: seq<Reply>,
    replies: multiset<Ticket>,
    spawning: multiset<nat>,
    workers: multiset<nat>,
    tickets: multiset<Ticket>,
    clock: nat,
    book: Ledger)

  datatype Event =
    | WorkerEvent(generation: nat, now: nat)
    | SoftRearmEvent(now: nat)
    | TrackEvent(rcvid: int, ctx: int, generation: nat)
    | DropEvent(rcvid: int)
    | ReplyEvent(rcvid: int)
    | BeginEvent(reply: Ticket, tableReady: bool, now: nat)
    | SpawnEvent(generation: nat, ok: bool)
    | ClaimEvent(ctx: int, now: nat)
    | SendEvent(ticket: Ticket, now: nat)
    | RxEvent(msgid: nat, now: nat)
    | ResetEvent
    | ResetTableEvent

  function Init(): Sys {
    Sys(INITIAL, seq(MAX_PENDING, _ => NO_REPLY), multiset{}, multiset{}, multiset{}, multiset{}, 1, NEW_LEDGER)
  }

  /**
   * Sections that read the clock under the lock read it in order. The receiver and the soft re-arm read it
   * before they take the lock, so their reading may be any. A generation is tracked after it was read.
   */
  predicate Enabled(s: Sys, e: Event) {
    match e
    case WorkerEvent(generation, now) => generation in s.workers && now >= s.clock
    case BeginEvent(reply, _, now) => reply in s.replies && now >= s.clock
    case ClaimEvent(_, now) => now >= s.clock
    case SendEvent(ticket, now) => ticket in s.tickets && now >= s.clock
    case SpawnEvent(generation, _) => generation in s.spawning
    case TrackEvent(_, _, generation) => generation <= s.r.generation
    case _ => true
  }

  function NextRetry(r: Retry, e: Event): Retry {
    match e
    case WorkerEvent(generation, now) => WorkerPass(r, generation, now)
    case SoftRearmEvent(now) => SoftRearm(r, now)
    case BeginEvent(reply, tableReady, now) => Begin(r, reply.ctx, reply.generation, tableReady, now)
    case SpawnEvent(generation, ok) => if ok then r else SpawnFailed(r, generation)
    case ClaimEvent(ctx, now) => Claim(r, ctx, now)
    case RxEvent(msgid, now) => NoteRx(r, msgid, now)
    case ResetEvent => Reset(r)
    case _ => r
  }

  function NextTable(table: seq<Reply>, e: Event): seq<Reply> {
    match e
    case TrackEvent(rcvid, ctx, generation) => Track(table, rcvid, ctx, generation)
    case DropEvent(rcvid) => Drop(table, rcvid)
    case ReplyEvent(rcvid) => Take(table, rcvid)
    case ResetTableEvent => seq(MAX_PENDING, _ => CLEARED_REPLY)
    case _ => table
  }

  function NextReplies(table: seq<Reply>, replies: multiset<Ticket>, e: Event): multiset<Ticket> {
    match e
    case ReplyEvent(rcvid) =>
      var p := Taken(table, rcvid);
      if p.None? || p.value.ctx == NULL_CTX then replies
      else replies + multiset{Ticket(p.value.ctx, p.value.generation)}
    case BeginEvent(reply, _, _) => replies - multiset{reply}
    case _ => replies
  }

  function NextSpawning(r: Retry, spawning: multiset<nat>, e: Event): multiset<nat> {
    match e
    case BeginEvent(reply, tableReady, _) =>
      if Spawns(r, reply.ctx, reply.generation, tableReady) then spawning + multiset{r.generation} else spawning
    case SpawnEvent(generation, _) => spawning - multiset{generation}
    case _ => spawning
  }

  function NextWorkers(r: Retry, workers: multiset<nat>, e: Event): multiset<nat> {
    match e
    case WorkerEvent(generation, now) =>
      if WorkerDecides(r, generation, now) == Leave then workers - multiset{generation} else workers
    case SpawnEvent(generation, ok) => if ok then workers + multiset{generation} else workers
    case _ => workers
  }

  function NextTickets(r: Retry, tickets: multiset<Ticket>, e: Event): multiset<Ticket> {
    match e
    case BeginEvent(reply, tableReady, _) =>
      if Begins(r, reply.ctx, reply.generation, tableReady) then tickets + multiset{Ticket(reply.ctx, r.generation)}
      else tickets
    case ClaimEvent(ctx, _) => if Claims(r, ctx) then tickets + multiset{Ticket(ctx, r.generation)} else tickets
    case SendEvent(ticket, _) => tickets - multiset{ticket}
    case _ => tickets
  }

  function NextClock(clock: nat, e: Event): nat {
    match e
    case WorkerEvent(_, now) => now
    case BeginEvent(_, _, now) => now
    case ClaimEvent(_, now) => now
    case SendEvent(_, now) => now
    case _ => clock
  }

  function NextBook(r: Retry, b: Ledger, e: Event): Ledger {
    match e
    case SoftRearmEvent(now) => if Stale(r, now) then NEW_LEDGER else b
    case BeginEvent(reply, tableReady, now) =>
      if !Begins(r, reply.ctx, reply.generation, tableReady) then b
      else
        var starts := if Spawns(r, reply.ctx, reply.generation, tableReady) then 1 else 0;
        b.(ctx := reply.ctx, attemptAt := b.attemptAt + [now], cycles := b.cycles + 1,
           workerStarts := b.workerStarts + starts)
    case ClaimEvent(ctx, now) => if Claims(r, ctx) then b.(attemptAt := b.attemptAt + [now]) else b
    case SendEvent(ticket, now) =>
      if !Authorised(r, ticket.ctx) then b
      else if ticket.generation == r.generation then b.(sentAt := b.sentAt + [now])
      else b.(strayAt := b.strayAt + [now])
    case RxEvent(msgid, _) => b.(rgiSeen := b.rgiSeen || IsRgi(msgid))
    case ResetEvent => NEW_LEDGER
    case _ => b
  }

  function Apply(s: Sys, e: Event): Sys
    requires Enabled(s, e)
  {
    Sys(NextRetry(s.r, e), NextTable(s.table, e), NextReplies(s.table, s.replies, e),
        NextSpawning(s.r, s.spawning, e), NextWorkers(s.r, s.workers, e), NextTickets(s.r, s.tickets, e),
        NextClock(s.clock, e), NextBook(s.r, s.book, e))
  }

  predicate Legal(s: Sys, es: seq<Event>)
    decreases |es|
  {
    es == [] || (Enabled(s, es[0]) && Legal(Apply(s, es[0]), es[1..]))
  }

  function Exec(s: Sys, es: seq<Event>): Sys
    requires Legal(s, es)
    decreases |es|
  {
    if es == [] then s else Exec(Apply(s, es[0]), es[1..])
  }

  ghost predicate Reachable(s: Sys) {
    exists es :: Legal(Init(), es) && s == Exec(Init(), es)
  }

  // ---- Invariants ----

  /** How long after the first attempt the n-th one may come at the earliest. */
  function Backoff(n: nat): int {
    FAST_RETRY_MS * ((if n < FAST_ATTEMPTS then n else FAST_ATTEMPTS) - 1)
    + SLOW_RETRY_MS * (if n > FAST_ATTEMPTS then n - FAST_ATTEMPTS else 0)
  }

  predicate StateInv(r: Retry, b: Ledger) {
    && (r.enabled ==> !r.got && r.ctx != NULL_CTX && r.ctx == b.ctx && r.attempts >= 1)
    && (r.need ==> r.enabled)
    && (r.got <==> b.rgiSeen)
    && b.cycles == (if r.attempts == 0 then 0 else 1)
    && b.workerStarts <= b.cycles
    && (r.attempts == 0 ==> !r.threadRunning)
  }

  /** The n-th of these times is no earlier than the back-off allows after the first attempt. */
  predicate Spaced(first: nat, times: seq<nat>) {
    forall n :: 0 <= n < |times| ==> times[n] >= first + Backoff(n + 1)
  }

  predicate NotAfter(times: seq<nat>, clock: nat) {
    forall n :: 0 <= n < |times| ==> times[n] <= clock
  }

  predicate TimeInv(r: Retry, b: Ledger, clock: nat) {
    && clock > 0
    && r.attempts == |b.attemptAt|
    && NotAfter(b.attemptAt, clock)
    && (b.attemptAt != [] ==> Spaced(b.attemptAt[0], b.attemptAt))
    && (r.enabled && b.attemptAt != [] ==> r.lastSendMs == b.attemptAt[|b.attemptAt| - 1])
    && (r.need ==> clock >= r.lastSendMs + RetryMs(r.attempts))
  }

  /** Sends promised in this generation that are still on their way. */
  function OwnTickets(s: Sys): nat {
    s.tickets[Ticket(s.book.ctx, s.r.generation)]
  }

  predicate TicketInv(s: Sys) {
    forall t :: t in s.tickets ==>
      t.generation <= s.r.generation && (t.generation == s.r.generation ==> t.ctx == s.book.ctx && s.r.attempts > 0)
  }

  /** Promised sends, made or still on their way, never outnumber the attempts counted. */
  predicate SendInv(s: Sys) {
    && |s.book.sentAt| + OwnTickets(s) <= |s.book.attemptAt|
    && (s.book.attemptAt != [] ==> Spaced(s.book.attemptAt[0], s.book.sentAt))
  }

  predicate Bounded(generations: multiset<nat>, top: nat) {
    forall g :: g in generations ==> g <= top
  }

  /** Tracked replies, worker threads and sends belong to this generation or to an earlier one. */
  predicate AgeInv(s: Sys) {
    && (forall k :: 0 <= k < |s.table| ==> s.table[k].generation <= s.r.generation)
    && (forall t :: t in s.replies ==> t.generation <= s.r.generation)
    && Bounded(s.spawning, s.r.generation) && Bounded(s.workers, s.r.generation)
    && s.spawning[s.r.generation] + s.workers[s.r.generation] <= s.book.workerStarts
  }

  predicate Inv(s: Sys) {
    StateInv(s.r, s.book) && TimeInv(s.r, s.book, s.clock) && TicketInv(s) && SendInv(s) && AgeInv(s)
  }

  lemma InitInv()
    ensures Inv(Init())
  {
  }

  lemma BackoffStep(n: nat)
    requires n >= 1
    ensures Backoff(1) == 0 && Backoff(n + 1) == Backoff(n) + RetryMs(n) && Backoff(n) >= 0
  {
  }

  lemma WorkerInv(s: Sys, generation: nat, now: nat)
    requires Inv(s) && Enabled(s, WorkerEvent(generation, now))
    ensures Inv(Apply(s, WorkerEvent(generation, now)))
  {
  }

  lemma BeginInv(s: Sys, reply: Ticket, tableReady: bool, now: nat)
    requires Inv(s) && Enabled(s, BeginEvent(reply, tableReady, now))
    ensures Inv(Apply(s, BeginEvent(reply, tableReady, now)))
  {
    hide Apply, StateInv, TimeInv, TicketInv, SendInv, AgeInv;
    BeginState(s, reply, tableReady, now);
    BeginTickets(s, reply, tableReady, now);
    BeginAge(s, reply, tableReady, now);
  }

  lemma BeginState(s: Sys, reply: Ticket, tableReady: bool, now: nat)
    requires Inv(s) && Enabled(s, BeginEvent(reply, tableReady, now))
    ensures var t := Apply(s, BeginEvent(reply, tableReady, now));
            StateInv(t.r, t.book) && TimeInv(t.r, t.book, t.clock)
  {
    hide TicketInv, SendInv, AgeInv;
    var t := Apply(s, BeginEvent(reply, tableReady, now));
    if Begins(s.r, reply.ctx, reply.generation, tableReady) {
      BackoffStep(1);
      assert t.book.attemptAt == [now];
    }
  }

  lemma BeginTickets(s: Sys, reply: Ticket, tableReady: bool, now: nat)
    requires Inv(s) && Enabled(s, BeginEvent(reply, tableReady, now))
    ensures var t := Apply(s, BeginEvent(reply, tableReady, now)); TicketInv(t) && SendInv(t)
  {
    hide AgeInv, Backoff;
    var t := Apply(s, BeginEvent(reply, tableReady, now));
    if Begins(s.r, reply.ctx, reply.generation, tableReady) {
      assert t.book.attemptAt == [now] && s.book.sentAt == [];
      assert s.tickets[Ticket(reply.ctx, s.r.generation)] == 0;
    }
  }

  lemma BeginAge(s: Sys, reply: Ticket, tableReady: bool, now: nat)
    requires Inv(s) && Enabled(s, BeginEvent(reply, tableReady, now))
    ensures AgeInv(Apply(s, BeginEvent(reply, tableReady, now)))
  {
    hide TimeInv, TicketInv, SendInv;
  }

  lemma ClaimInv(s: Sys, ctx: int, now: nat)
    requires Inv(s) && Enabled(s, ClaimEvent(ctx, now))
    ensures Inv(Apply(s, ClaimEvent(ctx, now)))
  {
    if Claims(s.r, ctx) {
      BackoffStep(s.r.attempts);
    }
  }

  lemma SendEventInv(s: Sys, ticket: Ticket, now: nat)
    requires Inv(s) && Enabled(s, SendEvent(ticket, now))
    ensures Inv(Apply(s, SendEvent(ticket, now)))
  {
    if Authorised(s.r, ticket.ctx) && ticket.generation == s.r.generation {
      assert s.tickets[ticket] >= 1;
      assert now >= s.book.attemptAt[|s.book.sentAt|];
    }
  }

  /** Soft re-arm and reset open a generation in which nothing has happened. */
  lemma NewGenerationInv(s: Sys, e: Event)
    requires Inv(s) && (e.ResetEvent? || e.SoftRearmEvent?)
    ensures Inv(Apply(s, e))
  {
    assert s.r.generation + 1 !in s.spawning && s.r.generation + 1 !in s.workers;
    assert Ticket(NULL_CTX, s.r.generation + 1) !in s.tickets;
  }

  lemma TableInv(s: Sys, e: Event)
    requires Inv(s) && Enabled(s, e)
    requires e.TrackEvent? || e.DropEvent? || e.ReplyEvent? || e.ResetTableEvent?
    ensures Inv(Apply(s, e))
  {
  }

  lemma SpawnInv(s: Sys, generation: nat, ok: bool)
    requires Inv(s) && Enabled(s, SpawnEvent(generation, ok))
    ensures Inv(Apply(s, SpawnEvent(generation, ok)))
  {
  }

  lemma RxInv(s: Sys, msgid: nat, now: nat)
    requires Inv(s)
    ensures Inv(Apply(s, RxEvent(msgid, now)))
  {
  }

  lemma StepInv(s: Sys, e: Event)
    requires Inv(s) && Enabled(s, e)
    ensures Inv(Apply(s, e))
  {
    match e
    case WorkerEvent(generation, now) => WorkerInv(s, generation, now);
    case SoftRearmEvent(_) => NewGenerationInv(s, e);
    case ResetEvent => NewGenerationInv(s, e);
    case TrackEvent(_, _, _) => TableInv(s, e);
    case DropEvent(_) => TableInv(s, e);
    case ReplyEvent(_) => TableInv(s, e);
    case ResetTableEvent => TableInv(s, e);
    case BeginEvent(reply, tableReady, now) => BeginInv(s, reply, tableReady, now);
    case SpawnEvent(generation, ok) => SpawnInv(s, generation, ok);
    case ClaimEvent(ctx, now) => ClaimInv(s, ctx, now);
    case SendEvent(ticket, now) => SendEventInv(s, ticket, now);
    case RxEvent(msgid, now) => RxInv(s, msgid, now);
  }

  lemma {:induction false} ExecInv(s: Sys, es: seq<Event>)
    requires Inv(s) && Legal(s, es)
    ensures Inv(Exec(s, es))
    decreases |es|
  {
    if es != [] {
      StepInv(s, es[0]);
      ExecInv(Apply(s, es[0]), es[1..]);
    }
  }

  lemma ReachableInv(s: Sys)
    requires Reachable(s)
    ensures Inv(s)
  {
    var es :| Legal(Init(), es) && s == Exec(Init(), es);
    InitInv();
    ExecInv(Init(), es);
  }

  // ---- What holds in every reachable state ----

  /** Retrying stops with the first route-guidance message and never runs without a context. */
  lemma RetryStateIsSound(s: Sys)
    requires Reachable(s)
    ensures s.r.enabled ==> !s.book.rgiSeen && s.r.ctx != NULL_CTX && s.r.attempts >= 1
    ensures s.r.need ==> s.r.enabled
    ensures s.book.cycles <= 1 && s.book.workerStarts <= s.book.cycles
  {
    ReachableInv(s);
  }

  /** No two workers of the current generation are ever being created or running together. */
  lemma OneWorker(s: Sys)
    requires Reachable(s)
    ensures s.spawning[s.r.generation] + s.workers[s.r.generation] <= 1
  {
    ReachableInv(s);
  }

  /** The n-th attempt of a generation, and the n-th send it promised, keep the back-off. */
  lemma AttemptsKeepBackoff(s: Sys, n: nat)
    requires Reachable(s) && 1 <= n <= |s.book.attemptAt|
    ensures s.book.attemptAt[n - 1] >= s.book.attemptAt[0]
                                       + 2000 * ((if n < 5 then n else 5) - 1) + 30000 * (if n > 5 then n - 5 else 0)
    ensures |s.book.sentAt| <= |s.book.attemptAt|
    ensures n <= |s.book.sentAt| ==>
              s.book.sentAt[n - 1] >= s.book.attemptAt[0]
                                      + 2000 * ((if n < 5 then n else 5) - 1) + 30000 * (if n > 5 then n - 5 else 0)
  {
    ReachableInv(s);
    assert s.book.attemptAt[n - 1] >= s.book.attemptAt[0] + Backoff(n - 1 + 1);
    if n <= |s.book.sentAt| {
      assert s.book.sentAt[n - 1] >= s.book.attemptAt[0] + Backoff(n - 1 + 1);
    }
  }

  // ---- A send that outlives its generation ----

  lemma {:induction false} ExecAppend(s: Sys, es: seq<Event>, e: Event)
    requires Legal(s, es) && Enabled(Exec(s, es), e)
    ensures Legal(s, es + [e]) && Exec(s, es + [e]) == Apply(Exec(s, es), e)
    decreases |es|
  {
    hide Apply, Enabled;
    if es == [] {
      assert Legal(Apply(s, e), [][..]);
    } else {
      ExecAppend(Apply(s, es[0]), es[1..], e);
      assert (es + [e])[1..] == es[1..] + [e];
    }
  }

  lemma InitIsReachable()
    ensures Reachable(Init())
  {
    assert Legal(Init(), []);
  }

  lemma ReachableStep(s: Sys, e: Event) returns (t: Sys)
    requires Reachable(s) && Enabled(s, e)
    ensures t == Apply(s, e) && Reachable(t)
  {
    var es :| Legal(Init(), es) && s == Exec(Init(), es);
    ExecAppend(Init(), es, e);
    t := Apply(s, e);
  }

  lemma SendLeaves(s: Sys, ticket: Ticket, now: nat) returns (t: Sys)
    requires Reachable(s) && Enabled(s, SendEvent(ticket, now)) && Authorised(s.r, ticket.ctx)
    ensures Reachable(t) && t.r == s.r && t.tickets == s.tickets - multiset{ticket} && t.clock == now
    ensures t.book == if ticket.generation == s.r.generation then s.book.(sentAt := s.book.sentAt + [now])
                      else s.book.(strayAt := s.book.strayAt + [now])
  {
    hide Reachable;
    t := ReachableStep(s, SendEvent(ticket, now));
  }

  /** A GPS message that is tracked and then really answered starts the retry cycle of a fresh generation. */
  lemma AnswerStartsCycle(s: Sys, rcvid: int, ctx: int, now: nat) returns (t: Sys)
    requires Reachable(s) && NeedsTrigger(s.r) && ctx != NULL_CTX && now >= s.clock
    requires s.table != [] && !s.table[0].active
    ensures Reachable(t) && t.r == Begin(s.r, ctx, s.r.generation, true, now) && t.r.enabled && t.clock == now
    ensures t.tickets == s.tickets + multiset{Ticket(ctx, s.r.generation)}
    ensures t.book.attemptAt == s.book.attemptAt + [now]
    ensures t.book.sentAt == s.book.sentAt && t.book.strayAt == s.book.strayAt
    ensures t.table != [] && !t.table[0].active
  {
    var reply := Ticket(ctx, s.r.generation);
    t := ReachableStep(s, TrackEvent(rcvid, ctx, s.r.generation));
    assert Taken(t.table, rcvid) == Some(Reply(true, rcvid, ctx, s.r.generation));
    t := ReachableStep(t, ReplyEvent(rcvid));
    t := ReachableStep(t, BeginEvent(reply, true, now));
  }

  /**
   * k2161_send_start_route_guidance authorises by context alone. A send promised before a reset can therefore
   * go out in the next generation on the same context: two transmissions at once, one attempt counted.
   */
  lemma StraySendWitness() returns (s: Sys)
    ensures Reachable(s) && |s.book.attemptAt| == 1 && s.book.sentAt == [1100] && s.book.strayAt == [1100]
  {
    hide Reachable;
    InitIsReachable();
    s := AnswerStartsCycle(Init(), 7, 5, 1000);
    s := ReachableStep(s, ResetEvent);
    s := AnswerStartsCycle(s, 8, 5, 1100);
    s := SendLeaves(s, Ticket(5, 1), 1100);
    s := SendLeaves(s, Ticket(5, 2), 1100);
  }
}
