/** The imperative form of send_hook.c: static fields and a table of eight tracked replies. */
module SendHookState {
  import opened Wrappers
  import opened SendHook

  class RetryState {
    var attempts: nat
    var lastSendMs: nat
    var lastRxMs: nat
    var got: bool
    var ctx: int
    var need: bool
    var enabled: bool
    var threadRunning: bool
    var generation: nat
    var softGeneration: nat
    const pending: array<Reply>

    ghost predicate Valid()
      reads this
    {
      pending.Length == MAX_PENDING
    }

    ghost function Model(): Retry
      reads this
    {
      Retry(attempts, lastSendMs, lastRxMs, got, ctx, need, enabled, threadRunning, generation, softGeneration)
    }

    constructor ()
      ensures Valid() && fresh(pending) && Model() == INITIAL
      ensures forall k :: 0 <= k < MAX_PENDING ==> pending[k] == NO_REPLY
    {
      attempts, lastSendMs, lastRxMs, got, ctx, need := 0, 0, 0, false, NULL_CTX, false;
      enabled, threadRunning, generation, softGeneration := false, false, 1, 0;
      pending := new Reply[MAX_PENDING](_ => NO_REPLY);
    }

    /** The locked part of one pass of retry_worker. */
    method RetryWorkerPass(myGeneration: nat, now: nat) returns (leave: bool, marked: bool)
      modifies this
      ensures Model() == WorkerPass(old(Model()), myGeneration, now)
      ensures leave <==> WorkerDecides(old(Model()), myGeneration, now) == Leave
      ensures marked <==> WorkerDecides(old(Model()), myGeneration, now) == Mark
    {
      leave, marked := true, false;
      if myGeneration != generation {
        return;
      }
      if !enabled || ctx == NULL_CTX {
        threadRunning := false;
        return;
      }
      if got {
        enabled, need, ctx, threadRunning := false, false, NULL_CTX, false;
        return;
      }
      leave := false;
      var retryMs := if attempts < FAST_ATTEMPTS then FAST_RETRY_MS else SLOW_RETRY_MS;
      if !need && now != 0 && lastSendMs != 0 && now >= lastSendMs && now - lastSendMs >= retryMs {
        need := true;
        marked := true;
      }
    }

    method RetryNeedsTrigger() returns (needed: bool, current: nat)
      ensures needed <==> NeedsTrigger(Model())
      ensures current == generation
    {
      needed := !got && !enabled && attempts == 0;
      current := generation;
    }

    method RetrySoftRearmIfStale(now: nat) returns (rearmed: bool)
      modifies this
      ensures Model() == SoftRearm(old(Model()), now)
      ensures rearmed <==> Stale(old(Model()), now)
    {
      rearmed := false;
      if got && !enabled && lastRxMs != 0 && now != 0 && now >= lastRxMs && now - lastRxMs >= STALE_REARM_MS {
        generation := generation + 1;
        attempts, lastSendMs, lastRxMs, got := 0, 0, 0, false;
        need, ctx, enabled, threadRunning := false, NULL_CTX, false, false;
        softGeneration := generation;
        rearmed := true;
      }
    }

    method RetryBegin(newCtx: int, expected: nat, tableReady: bool, now: nat) returns (began: bool, spawn: bool)
      modifies this
      ensures Model() == Begin(old(Model()), newCtx, expected, tableReady, now)
      ensures began <==> Begins(old(Model()), newCtx, expected, tableReady)
      ensures spawn <==> Spawns(old(Model()), newCtx, expected, tableReady)
    {
      began, spawn := false, false;
      if newCtx == NULL_CTX || !tableReady || expected != generation {
        return;
      }
      if got || enabled || attempts != 0 {
        return;
      }
      ctx, enabled, need, attempts, lastSendMs := newCtx, true, false, 1, now;
      if !threadRunning {
        threadRunning := true;
        spawn := true;
      }
      began := true;
    }

    method RetrySpawnFailed(workerGeneration: nat)
      modifies this
      ensures Model() == SpawnFailed(old(Model()), workerGeneration)
    {
      if generation == workerGeneration {
        threadRunning := false;
      }
    }

    method RetryClaimPending(claimCtx: int, now: nat) returns (claimed: bool, attempt: nat)
      modifies this
      ensures Model() == Claim(old(Model()), claimCtx, now)
      ensures claimed <==> Claims(old(Model()), claimCtx)
      ensures claimed ==> attempt == attempts
    {
      claimed, attempt := false, 0;
      if enabled && !got && need && ctx == claimCtx {
        need := false;
        attempts := attempts + 1;
        lastSendMs := now;
        attempt := attempts;
        claimed := true;
      }
    }

    method NoteRgiRx(msgid: nat, now: nat) returns (first: bool)
      modifies this
      ensures Model() == NoteRx(old(Model()), msgid, now)
      ensures first <==> IsRgi(msgid) && !old(got)
    {
      first := false;
      if msgid != 0x5201 && msgid != 0x5202 && msgid != 0x5204 {
        return;
      }
      if now != 0 {
        lastRxMs := now;
      }
      if !got {
        got, need, enabled, ctx, lastSendMs := true, false, false, NULL_CTX, now;
        if softGeneration != 0 && softGeneration == generation {
          softGeneration := 0;
        }
        first := true;
      }
    }

    method RetryReset()
      modifies this
      ensures Model() == Reset(old(Model()))
    {
      generation := generation + 1;
      attempts, lastSendMs, lastRxMs, got := 0, 0, 0, false;
      need, ctx, enabled, threadRunning, softGeneration := false, NULL_CTX, false, false, 0;
    }

    method SendAllowed(sendCtx: int) returns (allowed: bool)
      ensures allowed <==> Authorised(Model(), sendCtx)
    {
      allowed := sendCtx != NULL_CTX && enabled && ctx == sendCtx;
    }

    // ---- The tracked replies ----

    method TrackReply(rcvid: int, replyCtx: int, replyGeneration: nat) returns (tracked: bool)
      requires Valid()
      modifies pending
      ensures Valid() && pending[..] == Track(old(pending[..]), rcvid, replyCtx, replyGeneration)
      ensures tracked <==> UsableFrom(old(pending[..]), rcvid, 0) < MAX_PENDING
    {
      tracked := false;
      var i := 0;
      while i < pending.Length
        invariant i <= pending.Length
        invariant pending[..] == old(pending[..])
        invariant UsableFrom(pending[..], rcvid, 0) == UsableFrom(pending[..], rcvid, i)
      {
        if !pending[i].active || pending[i].rcvid == rcvid {
          pending[i] := Reply(true, rcvid, replyCtx, replyGeneration);
          return true;
        }
        i := i + 1;
      }
    }

    method TakeReply(rcvid: int) returns (reply: Option<Reply>)
      requires Valid()
      modifies pending
      ensures Valid() && pending[..] == Take(old(pending[..]), rcvid)
      ensures reply == Taken(old(pending[..]), rcvid)
    {
      reply := None;
      var i := 0;
      while i < pending.Length
        invariant i <= pending.Length
        invariant pending[..] == old(pending[..])
        invariant AnswerFrom(pending[..], rcvid, 0) == AnswerFrom(pending[..], rcvid, i)
      {
        if pending[i].active && pending[i].rcvid == rcvid {
          reply := Some(pending[i]);
          pending[i] := pending[i].(active := false, generation := 0);
          return;
        }
        i := i + 1;
      }
    }

    method DropReplies(rcvid: int)
      requires Valid()
      modifies pending
      ensures Valid() && pending[..] == Drop(old(pending[..]), rcvid)
    {
      var i := 0;
      while i < pending.Length
        invariant i <= pending.Length
        invariant forall k :: 0 <= k < i ==> pending[k] == Drop(old(pending[..]), rcvid)[k]
        invariant forall k :: i <= k < pending.Length ==> pending[k] == old(pending[..])[k]
      {
        if pending[i].active && pending[i].rcvid == rcvid {
          pending[i] := pending[i].(active := false, generation := 0);
        }
        i := i + 1;
      }
    }

    method ResetReplies()
      requires Valid()
      modifies pending
      ensures Valid() && pending[..] == seq(MAX_PENDING, _ => CLEARED_REPLY)
    {
      var i := 0;
      while i < pending.Length
        invariant i <= pending.Length
        invariant forall k :: 0 <= k < i ==> pending[k] == CLEARED_REPLY
      {
        pending[i] := CLEARED_REPLY;
        i := i + 1;
      }
    }
  }
}
