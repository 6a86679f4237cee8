/**
Sends that outlive their generation. A send is authorised by its context alone, so one promised before a reset can
leave in a later generation; here is when it does, and when a whole run is free of such sends.
*/
module SendHookStray {
  import opened SendHook
  import opened SendHookRuns

  /** A reply may start a cycle exactly while none has begun in this generation and no message has arrived. */
  lemma TriggerMeans(s: Sys, ctx: int)
    requires Reachable(s)
    ensures NeedsTrigger(s.r) <==> s.book.cycles == 0 && !s.book.rgiSeen
    ensures Begins(s.r, ctx, s.r.generation, true) <==> ctx != NULL_CTX && s.book.cycles == 0 && !s.book.rgiSeen
  {
    hide Reachable, TimeInv, TicketInv, SendInv, AgeInv;
    ReachableInv(s);
  }

  /** A promised send leaves exactly if the cycle that retries now does so on the context of the send. */
  lemma AuthorisedSend(s: Sys, t: Ticket, now: nat)
    requires Reachable(s) && Enabled(s, SendEvent(t, now))
    ensures var b, c := s.book, Apply(s, SendEvent(t, now)).book;
            var leaves := s.r.enabled && s.r.ctx == t.ctx;
            && c.sentAt == (if leaves && t.generation == s.r.generation then b.sentAt + [now] else b.sentAt)
            && c.strayAt == (if leaves && t.generation < s.r.generation then b.strayAt + [now] else b.strayAt)
            && (leaves && t.generation == s.r.generation ==> |c.sentAt| <= |c.attemptAt|)
  {
    hide Reachable, TimeInv, AgeInv;
    ReachableInv(s);
    var next := Apply(s, SendEvent(t, now));
    assert Inv(next) by {
      hide Apply;
      StepInv(s, SendEvent(t, now));
    }
  }

  /** So it leaves in a generation other than its own exactly if that cycle began after the promise. */
  lemma StraySend(s: Sys, t: Ticket, now: nat)
    requires Reachable(s) && Enabled(s, SendEvent(t, now))
    ensures Apply(s, SendEvent(t, now)).book.strayAt != s.book.strayAt <==>
            s.r.enabled && s.r.ctx == t.ctx && t.generation < s.r.generation
  {
    hide Reachable, Apply;
    AuthorisedSend(s, t, now);
  }

  // ---- Runs without stray sends ----

  /** A send of an earlier generation is still on its way on this context. */
  ghost predicate Outstanding(s: Sys, ctx: int) {
    exists t :: t in s.tickets && t.ctx == ctx && t.generation < s.r.generation
  }

  /** The event starts a retry cycle on a context on which such a send is on its way. */
  ghost predicate Reuses(s: Sys, e: Event) {
    e.BeginEvent? && Begins(s.r, e.reply.ctx, e.reply.generation, e.tableReady) && Outstanding(s, e.reply.ctx)
  }

  ghost predicate NeverReuses(s: Sys, es: seq<Event>)
    requires Legal(s, es)
    decreases |es|
  {
    es == [] || (!Reuses(s, es[0]) && NeverReuses(Apply(s, es[0]), es[1..]))
  }

  ghost predicate Clean(s: Sys) {
    s.book.strayAt == [] && (s.r.enabled ==> !Outstanding(s, s.r.ctx))
  }

  /** Who retries after a step retried before it on the same context, or has just begun. */
  lemma StillEnabled(r: Retry, e: Event)
    requires NextRetry(r, e).enabled
    ensures NextRetry(r, e).generation == r.generation
    ensures || (r.enabled && NextRetry(r, e).ctx == r.ctx)
            || (e.BeginEvent? && Begins(r, e.reply.ctx, e.reply.generation, e.tableReady)
                && NextRetry(r, e).ctx == e.reply.ctx)
  {
    hide RetryMs, IsRgi;
  }

  /** A step promises sends of the generation it happens in only. */
  lemma OldTicketsAreOld(s: Sys, e: Event, x: Ticket)
    requires Enabled(s, e) && x in Apply(s, e).tickets && x.generation < s.r.generation
    ensures x in s.tickets
  {
  }

  /** The ledger of stray sends grows by such a send only. */
  lemma StrayGrows(s: Sys, e: Event)
    requires Enabled(s, e) && s.book.strayAt == [] && Apply(s, e).book.strayAt != []
    ensures e.SendEvent? && Authorised(s.r, e.ticket.ctx) && e.ticket.generation != s.r.generation
  {
  }

  lemma StepKeepsClean(s: Sys, e: Event)
    requires Inv(s) && Enabled(s, e) && Clean(s) && !Reuses(s, e)
    ensures Clean(Apply(s, e))
  {
    hide NextRetry, NextTickets, NextBook, Enabled, TimeInv, SendInv, AgeInv, StateInv, Begins;
    var t := Apply(s, e);
    if t.book.strayAt != [] {
      StrayGrows(s, e);
      TicketIsOutstanding(s, e);
    }
    if t.r.enabled {
      StillEnabled(s.r, e);
      forall x | x in t.tickets && x.generation < t.r.generation ensures x.ctx != t.r.ctx {
        OldTicketsAreOld(s, e, x);
      }
    }
  }

  lemma TicketIsOutstanding(s: Sys, e: Event)
    requires Inv(s) && Enabled(s, e) && e.SendEvent? && e.ticket.generation != s.r.generation
    ensures Outstanding(s, e.ticket.ctx)
  {
  }

  lemma {:induction false} ExecKeepsClean(s: Sys, es: seq<Event>)
    requires Inv(s) && Legal(s, es) && Clean(s) && NeverReuses(s, es)
    ensures Clean(Exec(s, es))
    decreases |es|
  {
    hide Apply, Enabled, Inv, Clean, Reuses;
    if es != [] {
      StepInv(s, es[0]);
      StepKeepsClean(s, es[0]);
      ExecKeepsClean(Apply(s, es[0]), es[1..]);
    }
  }

  /** A run that never begins on a context with an earlier send still on its way has no stray send. */
  lemma NoStrayWithoutReuse(es: seq<Event>)
    requires Legal(Init(), es) && NeverReuses(Init(), es)
    ensures Exec(Init(), es).book.strayAt == []
  {
    hide Legal, NeverReuses, Exec;
    InitInv();
    ExecKeepsClean(Init(), es);
  }

  /** And whenever a cycle does begin on such a context, that send can leave at once, as a stray. */
  lemma ReuseEnablesStray(s: Sys, e: Event) returns (t: Ticket)
    requires Reachable(s) && Enabled(s, e) && Reuses(s, e)
    ensures var next := Apply(s, e);
            && Enabled(next, SendEvent(t, e.now)) && t.generation < next.r.generation
            && Apply(next, SendEvent(t, e.now)).book.strayAt == next.book.strayAt + [e.now]
  {
    t :| t in s.tickets && t.ctx == e.reply.ctx && t.generation < s.r.generation;
    assert t in Apply(s, e).tickets;
  }
}
