/**
The retry state of send_hook.c and what each section under retry_lock or pending_lock does to it.
A context is an integer, 0 standing for NULL. Generations are unbounded here.
*/
module SendHook {
  import opened Wrappers

  const FAST_RETRY_MS: nat := 2000
  const SLOW_RETRY_MS: nat := 30000
  const FAST_ATTEMPTS: nat := 5
  const STALE_REARM_MS: nat := 10000
  const MAX_PENDING: nat := 8
  const NULL_CTX: int := 0

  datatype Retry = Retry(
    attempts: nat,
    lastSendMs: nat,
    lastRxMs: nat,
    got: bool,
    ctx: int,
    need: bool,
    enabled: bool,
    threadRunning: bool,
    generation: nat,
    softGeneration: nat)

  const INITIAL := Retry(0, 0, 0, false, NULL_CTX, false, false, false, 1, 0)

  function RetryMs(attempts: nat): nat {
    if attempts < FAST_ATTEMPTS then FAST_RETRY_MS else SLOW_RETRY_MS
  }

  // ---- retry_worker ----

  datatype Pass = Leave | Mark | Sleep

  /** What one pass of a worker of the given generation decides. */
  function WorkerDecides(r: Retry, generation: nat, now: nat): Pass {
    if generation != r.generation || !r.enabled || r.ctx == NULL_CTX || r.got then Leave
    else if !r.need && now != 0 && r.lastSendMs != 0 && now >= r.lastSendMs
            && now - r.lastSendMs >= RetryMs(r.attempts) then Mark
    else Sleep
  }

  function WorkerPass(r: Retry, generation: nat, now: nat): Retry {
    if generation != r.generation then r
    else if !r.enabled || r.ctx == NULL_CTX then r.(threadRunning := false)
    else if r.got then r.(enabled := false, need := false, ctx := NULL_CTX, threadRunning := false)
    else if WorkerDecides(r, generation, now) == Mark then r.(need := true)
    else r
  }

  // ---- Trigger, soft re-arm, begin, claim, receive, reset ----

  predicate NeedsTrigger(r: Retry) {
    !r.got && !r.enabled && r.attempts == 0
  }

  predicate Stale(r: Retry, now: nat) {
    r.got && !r.enabled && r.lastRxMs != 0 && now != 0 && now >= r.lastRxMs && now - r.lastRxMs >= STALE_REARM_MS
  }

  function SoftRearm(r: Retry, now: nat): Retry {
    if Stale(r, now)
    then INITIAL.(generation := r.generation + 1, softGeneration := r.generation + 1)
    else r
  }

  predicate Begins(r: Retry, ctx: int, expected: nat, tableReady: bool) {
    ctx != NULL_CTX && tableReady && expected == r.generation && !r.got && !r.enabled && r.attempts == 0
  }

  predicate Spawns(r: Retry, ctx: int, expected: nat, tableReady: bool) {
    Begins(r, ctx, expected, tableReady) && !r.threadRunning
  }

  function Begin(r: Retry, ctx: int, expected: nat, tableReady: bool, now: nat): Retry {
    if Begins(r, ctx, expected, tableReady)
    then r.(ctx := ctx, enabled := true, need := false, attempts := 1, lastSendMs := now, threadRunning := true)
    else r
  }

  function SpawnFailed(r: Retry, generation: nat): Retry {
    if r.generation == generation then r.(threadRunning := false) else r
  }

  predicate Claims(r: Retry, ctx: int) {
    r.enabled && !r.got && r.need && r.ctx == ctx
  }

  function Claim(r: Retry, ctx: int, now: nat): Retry {
    if Claims(r, ctx) then r.(need := false, attempts := r.attempts + 1, lastSendMs := now) else r
  }

  predicate IsRgi(msgid: nat) {
    msgid == 0x5201 || msgid == 0x5202 || msgid == 0x5204
  }

  function NoteRx(r: Retry, msgid: nat, now: nat): Retry {
    if !IsRgi(msgid) then r
    else
      var r1 := if now != 0 then r.(lastRxMs := now) else r;
      if r.got then r1
      else
        r1.(got := true, need := false, enabled := false, ctx := NULL_CTX, lastSendMs := now,
            softGeneration := if r.softGeneration != 0 && r.softGeneration == r.generation then 0 else r.softGeneration)
  }

  function Reset(r: Retry): Retry {
    INITIAL.(generation := r.generation + 1)
  }

  /** The authorisation of k2161_send_start_route_guidance. */
  predicate Authorised(r: Retry, ctx: int) {
    ctx != NULL_CTX && r.enabled && r.ctx == ctx
  }

  // ---- pending_replies ----

  datatype Reply = Reply(active: bool, rcvid: int, ctx: int, generation: nat)

  const NO_REPLY := Reply(false, 0, NULL_CTX, 0)
  const CLEARED_REPLY := Reply(false, -1, NULL_CTX, 0)

  predicate Usable(p: Reply, rcvid: int) {
    !p.active || p.rcvid == rcvid
  }

  predicate Answers(p: Reply, rcvid: int) {
    p.active && p.rcvid == rcvid
  }

  function UsableFrom(table: seq<Reply>, rcvid: int, i: nat): (r: nat)
    requires i <= |table|
    ensures i <= r <= |table|
    ensures r < |table| ==> Usable(table[r], rcvid)
    ensures forall k :: i <= k < r ==> !Usable(table[k], rcvid)
    decreases |table| - i
  {
    if i == |table| || Usable(table[i], rcvid) then i else UsableFrom(table, rcvid, i + 1)
  }

  function AnswerFrom(table: seq<Reply>, rcvid: int, i: nat): (r: nat)
    requires i <= |table|
    ensures i <= r <= |table|
    ensures r < |table| ==> Answers(table[r], rcvid)
    ensures forall k :: i <= k < r ==> !Answers(table[k], rcvid)
    decreases |table| - i
  {
    if i == |table| || Answers(table[i], rcvid) then i else AnswerFrom(table, rcvid, i + 1)
  }

  function Track(table: seq<Reply>, rcvid: int, ctx: int, generation: nat): seq<Reply> {
    var i := UsableFrom(table, rcvid, 0);
    if i < |table| then table[i := Reply(true, rcvid, ctx, generation)] else table
  }

  function Retire(p: Reply): Reply {
    p.(active := false, generation := 0)
  }

  /** MsgReply takes the first tracked reply of its receive id. */
  function Take(table: seq<Reply>, rcvid: int): seq<Reply> {
    var i := AnswerFrom(table, rcvid, 0);
    if i < |table| then table[i := Retire(table[i])] else table
  }

  function Taken(table: seq<Reply>, rcvid: int): Option<Reply> {
    var i := AnswerFrom(table, rcvid, 0);
    if i < |table| then Some(table[i]) else None
  }

  /** The GPS wrapper drops whatever the stock handler did not answer. */
  function Drop(table: seq<Reply>, rcvid: int): seq<Reply> {
    seq(|table|, k requires 0 <= k < |table| => if Answers(table[k], rcvid) then Retire(table[k]) else table[k])
  }
}
