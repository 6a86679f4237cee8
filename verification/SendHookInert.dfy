/** Leaving out everything that threads and replies of earlier generations do changes nothing in the retry state. */
module SendHookInert {
  import opened SendHook
  import opened SendHookRuns

  /** A step of a worker thread, of its creation or of a reply that belongs to another generation. */
  predicate Outdated(s: Sys, e: Event) {
    match e
    case WorkerEvent(generation, _) => generation != s.r.generation
    case SpawnEvent(generation, _) => generation != s.r.generation
    case BeginEvent(reply, _, _) => reply.generation != s.r.generation
    case _ => false
  }

  /** The run without the steps that are outdated when they come. */
  function Current(s: Sys, es: seq<Event>): (cs: seq<Event>)
    requires Legal(s, es)
    decreases |es|
  {
    if es == [] then []
    else
      var rest := Current(Apply(s, es[0]), es[1..]);
      if Outdated(s, es[0]) then rest else [es[0]] + rest
  }

  predicate SameCore(s: Sys, t: Sys) {
    s.r == t.r && s.book == t.book && s.table == t.table && s.tickets == t.tickets && t.clock <= s.clock
  }

  /** The same to everything that still counts: what belongs to this generation and to later ones. */
  ghost predicate Alike(s: Sys, t: Sys) {
    && SameCore(s, t)
    && (forall x: Ticket :: x.generation >= s.r.generation ==> s.replies[x] == t.replies[x])
    && (forall g: nat :: g >= s.r.generation ==> s.spawning[g] == t.spawning[g])
    && (forall g: nat :: g >= s.r.generation ==> s.workers[g] == t.workers[g])
  }

  lemma OutdatedChangesNothing(s: Sys, t: Sys, e: Event)
    requires Inv(s) && Enabled(s, e) && Outdated(s, e) && Alike(s, t)
    ensures Alike(Apply(s, e), t)
  {
    hide StateInv, TimeInv, TicketInv, SendInv, NextRetry;
    OutdatedRetry(s.r, e);
  }

  lemma OutdatedRetry(r: Retry, e: Event)
    requires match e
             case WorkerEvent(generation, _) => generation != r.generation
             case SpawnEvent(generation, _) => generation != r.generation
             case BeginEvent(reply, _, _) => reply.generation != r.generation
             case _ => false
    ensures NextRetry(r, e) == r
  {
  }

  lemma GenerationGrows(r: Retry, e: Event)
    ensures NextRetry(r, e).generation >= r.generation
  {
  }

  lemma RepliesAlike(table: seq<Reply>, a: multiset<Ticket>, b: multiset<Ticket>, e: Event, x: Ticket)
    requires a[x] == b[x]
    ensures NextReplies(table, a, e)[x] == NextReplies(table, b, e)[x]
  {
    hide Taken;
  }

  lemma SpawningAlike(r: Retry, a: multiset<nat>, b: multiset<nat>, e: Event, g: nat)
    requires a[g] == b[g]
    ensures NextSpawning(r, a, e)[g] == NextSpawning(r, b, e)[g]
  {
    hide Spawns;
  }

  lemma WorkersAlike(r: Retry, a: multiset<nat>, b: multiset<nat>, e: Event, g: nat)
    requires a[g] == b[g]
    ensures NextWorkers(r, a, e)[g] == NextWorkers(r, b, e)[g]
  {
    hide WorkerDecides;
  }

  lemma BothEnabled(s: Sys, t: Sys, e: Event)
    requires Enabled(s, e) && !Outdated(s, e) && Alike(s, t)
    ensures Enabled(t, e) && NextClock(t.clock, e) <= NextClock(s.clock, e)
  {
  }

  lemma BothStep(s: Sys, t: Sys, e: Event)
    requires Enabled(s, e) && !Outdated(s, e) && Alike(s, t)
    ensures Enabled(t, e) && Alike(Apply(s, e), Apply(t, e))
  {
    hide NextRetry, NextTable, NextTickets, NextBook, NextReplies, NextSpawning, NextWorkers, NextClock, Enabled,
      Outdated;
    GenerationGrows(s.r, e);
    BothEnabled(s, t, e);
    var x, y := Apply(s, e), Apply(t, e);
    forall k: Ticket | k.generation >= x.r.generation ensures x.replies[k] == y.replies[k] {
      RepliesAlike(s.table, s.replies, t.replies, e, k);
    }
    forall g: nat | g >= x.r.generation ensures x.spawning[g] == y.spawning[g] && x.workers[g] == y.workers[g] {
      SpawningAlike(s.r, s.spawning, t.spawning, e, g);
      WorkersAlike(s.r, s.workers, t.workers, e, g);
    }
  }

  /** Every run, and the same run without its outdated steps, end in the same retry state and ledger. */
  lemma {:induction false} OutdatedStepsAreInert(s: Sys, t: Sys, es: seq<Event>)
    requires Inv(s) && Legal(s, es) && Alike(s, t)
    ensures Legal(t, Current(s, es)) && Alike(Exec(s, es), Exec(t, Current(s, es)))
    decreases |es|
  {
    hide Apply, Enabled, Inv, Alike, Outdated;
    if es != [] {
      var e := es[0];
      StepInv(s, e);
      if Outdated(s, e) {
        OutdatedChangesNothing(s, t, e);
        OutdatedStepsAreInert(Apply(s, e), t, es[1..]);
      } else {
        BothStep(s, t, e);
        OutdatedStepsAreInert(Apply(s, e), Apply(t, e), es[1..]);
        assert Current(s, es)[1..] == Current(Apply(s, e), es[1..]);
      }
    }
  }

  /** In particular for the runs from the start. */
  lemma OlderGenerationsDoNotMatter(es: seq<Event>)
    requires Legal(Init(), es)
    ensures var cs := Current(Init(), es);
            && Legal(Init(), cs)
            && Exec(Init(), cs).r == Exec(Init(), es).r && Exec(Init(), cs).book == Exec(Init(), es).book
            && Exec(Init(), cs).tickets == Exec(Init(), es).tickets
  {
    hide Legal, Exec, Current;
    InitInv();
    OutdatedStepsAreInert(Init(), Init(), es);
  }
}
