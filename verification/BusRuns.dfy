/** What holds of the bus over whole runs, whichever thread gets the lock next. */
module BusRuns {
  import opened Bus
  import opened Bytes
  import opened Wrappers

  /** One critical section of the bus. */
  datatype Event =
    | SetStickyType(ty: nat, on: bool)
    | SendFrame(ty: nat, flags: byte, payload: seq<byte>)
    | Write
    | Greet
    | Sync
    | Stop

  /**
  A run so far: the state, every frame that was numbered for the wire and left the queue or never was in it,
  the frames that sends were answered Ok for, the frames the writer took, and the snapshots.
  */
  datatype Run = Run(s: State, out: seq<Frame>, accepted: seq<Frame>, written: seq<Frame>, snapshots: seq<seq<Frame>>)

  /** bus_init: the table of types keeps what was registered and cached before. */
  function Init(s: State): (r: Run)
    requires s.Valid()
    ensures r.s.Valid()
  {
    Run(State([], 1, s.sticky, s.last, false), [], [], [], [])
  }

  function Apply(r: Run, e: Event): (t: Run)
    requires r.s.Valid()
    ensures t.s.Valid()
  {
    match e
    case SetStickyType(ty, on) => r.(s := SetSticky(r.s, ty, on))
    case SendFrame(ty, flags, payload) =>
      r.(s := Send(r.s, ty, flags, payload),
         accepted := if Answer(r.s, ty, payload) == Ok then r.accepted + [Frame(ty, flags, r.s.txSeq, payload)]
                     else r.accepted)
    case Write =>
      if r.s.queue == [] then r
      else r.(s := Dequeue(r.s), out := r.out + [r.s.queue[0]], written := r.written + [r.s.queue[0]])
    case Greet => r.(s := r.s.(txSeq := r.s.txSeq + 1), out := r.out + [HelloFrame(r.s)])
    case Sync =>
      var fs := SnapshotFrames(r.s);
      r.(s := r.s.(txSeq := r.s.txSeq + |fs|), out := r.out + fs, snapshots := r.snapshots + [fs])
    case Stop => r.(s := r.s.(shutdown := true))
  }

  function Exec(s: State, es: seq<Event>): (r: Run)
    requires s.Valid()
    ensures r.s.Valid()
    decreases |es|
  {
    if es == [] then Init(s) else Apply(Exec(s, es[..|es| - 1]), es[|es| - 1])
  }

  // ---- Queue ----

  ghost predicate FifoInv(r: Run) {
    r.accepted == r.written + r.s.queue
  }

  /** The writer takes exactly the accepted frames, once each, in the order they were accepted. */
  lemma {:induction false} WriterIsFifo(s: State, es: seq<Event>)
    requires s.Valid()
    ensures FifoInv(Exec(s, es)) && Exec(s, es).written <= Exec(s, es).accepted
    decreases |es|
  {
    hide SnapshotFrames;
    if es != [] {
      WriterIsFifo(s, es[..|es| - 1]);
      var r, e := Exec(s, es[..|es| - 1]), es[|es| - 1];
      if e.Write? && r.s.queue != [] {
        assert r.written + r.s.queue == (r.written + [r.s.queue[0]]) + r.s.queue[1..];
      } else if e.SendFrame? {
        assert r.written + r.s.queue + [Frame(e.ty, e.flags, r.s.txSeq, e.payload)]
            == r.written + (r.s.queue + [Frame(e.ty, e.flags, r.s.txSeq, e.payload)]);
      }
    }
  }

  /** The writer has not taken these yet. */
  function Waiting(r: Run): int {
    |r.accepted| - |r.written|
  }

  /**
  A send is turned away for a payload of more than 128 KiB or a type out of range, and otherwise refused exactly if the
  bus was stopped or 256 accepted frames wait for the writer.
  */
  lemma AnswersExactly(s: State, es: seq<Event>, ty: nat, payload: seq<byte>)
    requires s.Valid()
    ensures var r, a := Exec(s, es), Answer(Exec(s, es).s, ty, payload);
            && (a == Param <==> |payload| > 131072 || ty >= 288)
            && (a == Ok <==> |payload| <= 131072 && ty < 288 && Stop !in es && Waiting(r) < 256)
            && 0 <= Waiting(r) <= 256
  {
    hide Exec;
    WriterIsFifo(s, es);
    StoppedIs(s, es);
  }

  lemma {:induction false} StoppedIs(s: State, es: seq<Event>)
    requires s.Valid()
    ensures Exec(s, es).s.shutdown <==> Stop in es
    decreases |es|
  {
    hide SnapshotFrames, HelloText;
    if es != [] {
      var before, e := es[..|es| - 1], es[|es| - 1];
      assert es == before + [e];
      StoppedIs(s, before);
    }
  }

  /** The greeting names the version of the bus and the protocol. */
  lemma GreetingSays(s: State)
    ensures HelloFrame(s).ty == 1 && HelloFrame(s).seqNo == s.txSeq
    ensures HelloFrame(s).payload == Ascii("ver:n:1\nproto:s:carplay_bus\n")
  {
  }

  // ---- Numbers ----

  /** The numbers 1, 2, .. up to but not including next are each carried by exactly one of the frames. */
  ghost predicate Numbered(fs: seq<Frame>, next: nat) {
    && (forall i :: 0 <= i < |fs| ==> 1 <= fs[i].seqNo < next)
    && (forall i, j :: 0 <= i < j < |fs| ==> fs[i].seqNo != fs[j].seqNo)
    && (forall n :: 1 <= n < next ==> Carries(fs, n))
  }

  ghost predicate Carries(fs: seq<Frame>, n: nat) {
    exists i :: 0 <= i < |fs| && fs[i].seqNo == n
  }

  lemma NumberedGrows(a: seq<Frame>, b: seq<Frame>, ins: seq<Frame>, next: nat)
    requires Numbered(a + b, next) && forall k :: 0 <= k < |ins| ==> ins[k].seqNo == next + k
    requires next >= 1
    ensures Numbered(a + ins + b, next + |ins|)
  {
    var fs, gs := a + b, a + ins + b;
    forall n | 1 <= n < next + |ins| ensures Carries(gs, n) {
      if n < next {
        assert Carries(fs, n);
        var i :| 0 <= i < |fs| && fs[i].seqNo == n;
        assert gs[if i < |a| then i else i + |ins|] == fs[i];
      } else {
        assert gs[|a| + (n - next)] == ins[n - next];
      }
    }
    forall i, j | 0 <= i < j < |gs| ensures gs[i].seqNo != gs[j].seqNo {
      Origin(a, b, ins, i);
      Origin(a, b, ins, j);
    }
    forall i | 0 <= i < |gs| ensures 1 <= gs[i].seqNo < next + |ins| {
      Origin(a, b, ins, i);
    }
  }

  /** Where a frame comes from when new ones are put between two runs of others. */
  lemma Origin(a: seq<Frame>, b: seq<Frame>, ins: seq<Frame>, i: nat)
    requires i < |a + ins + b|
    ensures |a| <= i < |a| + |ins| ==> (a + ins + b)[i] == ins[i - |a|]
    ensures i < |a| ==> (a + ins + b)[i] == (a + b)[i]
    ensures i >= |a| + |ins| ==> i - |ins| < |a + b| && (a + ins + b)[i] == (a + b)[i - |ins|]
  {
  }

  /**
  However often a full queue makes a send give its number back, the frames that left for the wire and those
  still queued carry the numbers 1, 2, 3, .. once each, without a gap.
  */
  lemma {:induction false} NumbersAreDistinct(s: State, es: seq<Event>)
    requires s.Valid()
    ensures var r := Exec(s, es); r.s.txSeq >= 1 && Numbered(r.out + r.s.queue, r.s.txSeq)
    decreases |es|
  {
    hide Numbered;
    if es == [] {
      NothingNumbered();
      assert Exec(s, es).out + Exec(s, es).s.queue == [];
    } else {
      NumbersAreDistinct(s, es[..|es| - 1]);
      NumbersStep(Exec(s, es[..|es| - 1]), es[|es| - 1]);
    }
  }

  lemma NothingNumbered()
    ensures Numbered([], 1)
  {
  }

  lemma NumbersStep(r: Run, e: Event)
    requires r.s.Valid() && r.s.txSeq >= 1 && Numbered(r.out + r.s.queue, r.s.txSeq)
    ensures var t := Apply(r, e); t.s.txSeq >= 1 && Numbered(t.out + t.s.queue, t.s.txSeq)
  {
    hide Numbered, SnapshotFrames, HelloText;
    var t := Apply(r, e);
    match e
    case SendFrame(ty, flags, payload) =>
      if Answer(r.s, ty, payload) == Ok {
        var f := Frame(ty, flags, r.s.txSeq, payload);
        assert r.out + r.s.queue + [] == r.out + r.s.queue;
        NumberedGrows(r.out + r.s.queue, [], [f], r.s.txSeq);
        assert r.out + r.s.queue + [f] + [] == t.out + t.s.queue;
      }
    case Write =>
      if r.s.queue != [] {
        assert r.out + [r.s.queue[0]] + r.s.queue[1..] == r.out + r.s.queue;
      }
    case Greet => NumberedGrows(r.out, r.s.queue, [HelloFrame(r.s)], r.s.txSeq);
    case Sync => NumberedGrows(r.out, r.s.queue, SnapshotFrames(r.s), r.s.txSeq);
    case SetStickyType(_, _) =>
    case Stop =>
  }

  // ---- Sticky frames and snapshots ----

  /** Type ty is configured as sticky after these events. */
  predicate StickyAfter(s: State, es: seq<Event>, ty: nat)
    requires s.Valid() && ty < MAX_TYPES
    decreases |es|
  {
    if es == [] then s.sticky[ty]
    else
      var e := es[|es| - 1];
      if e.SetStickyType? && e.ty == ty then e.on else StickyAfter(s, es[..|es| - 1], ty)
  }

  predicate StoppedAfter(es: seq<Event>) {
    Stop in es
  }

  /** The latest sticky send of type ty among these events, whether or not the queue had room for it. */
  function LatestSticky(s: State, es: seq<Event>, ty: nat): Option<(byte, seq<byte>)>
    requires s.Valid() && ty < MAX_TYPES
    decreases |es|
  {
    if es == [] then (
      match s.last[ty]
      case None => None
      case Some(f) => Some((f.flags, f.payload)))
    else
      var before, e := es[..|es| - 1], es[|es| - 1];
      if && e.SendFrame? && e.ty == ty && |e.payload| <= MAX_PAYLOAD && !StoppedAfter(before)
         && (e.flags % 2 == 1 || StickyAfter(s, before, ty))
      then Some((e.flags, e.payload))
      else LatestSticky(s, before, ty)
  }

  /** Cached frames are filed under their own type. */
  predicate Filed(last: seq<Option<Frame>>) {
    forall i :: 0 <= i < |last| && last[i].Some? ==> last[i].value.ty == i
  }

  /** The cache of type ty holds what was sent last. */
  ghost predicate Caches(t: State, ty: nat, latest: Option<(byte, seq<byte>)>)
    requires t.Valid() && ty < MAX_TYPES
  {
    match t.last[ty]
    case None => latest.None?
    case Some(f) => latest == Some((f.flags, f.payload))
  }

  lemma {:induction false} CacheIsLatest(s: State, es: seq<Event>, ty: nat)
    requires s.Valid() && ty < MAX_TYPES && Filed(s.last)
    ensures var t := Exec(s, es).s;
            && Filed(t.last) && t.sticky[ty] == StickyAfter(s, es, ty) && t.shutdown == StoppedAfter(es)
            && Caches(t, ty, LatestSticky(s, es, ty))
    decreases |es|
  {
    hide SnapshotFrames, HelloText, Apply;
    if es != [] {
      var before, e := es[..|es| - 1], es[|es| - 1];
      assert es == before + [e];
      CacheIsLatest(s, before, ty);
      CacheStep(Exec(s, before), e, ty);
    }
  }

  /** The event is a send that leaves its frame in the cache of type ty. */
  predicate StoresIn(r: Run, e: Event, ty: nat)
    requires r.s.Valid() && ty < MAX_TYPES
  {
    && e.SendFrame? && e.ty == ty && |e.payload| <= MAX_PAYLOAD && !r.s.shutdown
    && (StickyFlag(e.flags) || r.s.sticky[ty])
  }

  lemma CacheStep(r: Run, e: Event, ty: nat)
    requires r.s.Valid() && ty < MAX_TYPES && Filed(r.s.last)
    ensures var t := Apply(r, e).s;
            && Filed(t.last)
            && t.sticky[ty] == (if e.SetStickyType? && e.ty == ty then e.on else r.s.sticky[ty])
            && t.shutdown == (e.Stop? || r.s.shutdown)
            && t.last[ty] == (if StoresIn(r, e, ty) then Some(Frame(ty, e.flags, r.s.txSeq, e.payload))
                              else r.s.last[ty])
  {
    hide SnapshotFrames, HelloText;
  }

  /** The replay of the type ty among the replays from i on. */
  lemma {:induction false} ReplayOf(last: seq<Option<Frame>>, i: nat, seqNo: nat, ty: nat) returns (k: nat)
    requires i <= ty < |last| && Filed(last) && last[ty].Some?
    ensures k < |Replays(last, i, seqNo)|
    ensures Replays(last, i, seqNo)[k]
              == last[ty].value.(flags := WithReplayFlag(last[ty].value.flags), seqNo := seqNo + k)
    decreases |last| - i
  {
    if i == ty {
      k := 0;
    } else if last[i].None? {
      k := ReplayOf(last, i + 1, seqNo, ty);
    } else {
      k := ReplayOf(last, i + 1, seqNo + 1, ty);
      k := k + 1;
    }
  }

  /** Replays come in the order of their types, so no type comes twice, and only of types with a cached frame. */
  lemma {:induction false} ReplaysAscend(last: seq<Option<Frame>>, i: nat, seqNo: nat, j: nat, k: nat)
    requires i <= |last| && Filed(last) && j < |Replays(last, i, seqNo)|
    ensures var fs := Replays(last, i, seqNo);
            && i <= fs[j].ty < |last| && last[fs[j].ty].Some?
            && (j < k < |fs| ==> fs[j].ty < fs[k].ty)
    decreases |last| - i
  {
    if last[i].None? {
      ReplaysAscend(last, i + 1, seqNo, j, k);
    } else if j == 0 {
      if 0 < k < |Replays(last, i, seqNo)| {
        ReplaysAscend(last, i + 1, seqNo + 1, k - 1, k);
      }
    } else {
      ReplaysAscend(last, i + 1, seqNo + 1, j - 1, if k > 0 then k - 1 else 0);
    }
  }

  /** A frame of a snapshot replays the latest sticky send of its type. */
  predicate IsReplayOf(f: Frame, latest: Option<(byte, seq<byte>)>) {
    latest.Some? && f.flags == WithReplayFlag(latest.value.0) && f.payload == latest.value.1
  }

  /**
  A snapshot opens and closes with its markers, numbers its frames upwards, and in between carries for every
  type with a sticky send the latest one, once, and nothing else.
  */
  lemma SnapshotIsLatest(s: State, es: seq<Event>)
    requires s.Valid() && Filed(s.last)
    ensures var fs := SnapshotFrames(Exec(s, es).s);
            && fs[0].ty == 2 && fs[|fs| - 1].ty == 3
            && (forall j, k :: 0 <= j < k < |fs| ==> fs[j].seqNo < fs[k].seqNo)
            && (forall j :: 1 <= j < |fs| - 1 ==>
                  fs[j].ty < MAX_TYPES && IsReplayOf(fs[j], LatestSticky(s, es, fs[j].ty)))
            && (forall j, k :: 1 <= j < k < |fs| - 1 ==> fs[j].ty < fs[k].ty)
            && (forall ty :: 0 <= ty < MAX_TYPES && LatestSticky(s, es, ty).Some? ==>
                  exists j :: 1 <= j < |fs| - 1 && fs[j].ty == ty)
  {
    hide Exec, LatestSticky, Replays, Filed;
    var t := Exec(s, es).s;
    var fs, last := SnapshotFrames(t), t.last;
    CacheIsLatest(s, es, 0);
    forall j | 1 <= j < |fs| - 1 ensures fs[j].ty < MAX_TYPES && IsReplayOf(fs[j], LatestSticky(s, es, fs[j].ty)) {
      SnapshotEntry(s, es, j);
    }
    forall j, k | 1 <= j < k < |fs| - 1 ensures fs[j].ty < fs[k].ty {
      ReplaysAscend(last, 0, t.txSeq + 1, j - 1, k - 1);
    }
    forall ty | 0 <= ty < MAX_TYPES && LatestSticky(s, es, ty).Some?
      ensures exists j :: 1 <= j < |fs| - 1 && fs[j].ty == ty
    {
      CacheIsLatest(s, es, ty);
      var k := ReplayOf(last, 0, t.txSeq + 1, ty);
      assert last[ty].value.ty == ty by {
        FiledAt(last, ty);
      }
      assert fs[k + 1].ty == ty;
    }
  }

  lemma FiledAt(last: seq<Option<Frame>>, ty: nat)
    requires Filed(last) && ty < |last| && last[ty].Some?
    ensures last[ty].value.ty == ty
  {
  }

  lemma SnapshotEntry(s: State, es: seq<Event>, j: nat)
    requires s.Valid() && Filed(s.last) && 1 <= j < |SnapshotFrames(Exec(s, es).s)| - 1
    ensures var f := SnapshotFrames(Exec(s, es).s)[j];
            f.ty < MAX_TYPES && IsReplayOf(f, LatestSticky(s, es, f.ty))
  {
    hide Exec, LatestSticky, Replays, Filed;
    var t := Exec(s, es).s;
    var replays := Replays(t.last, 0, t.txSeq + 1);
    CacheIsLatest(s, es, 0);
    assert SnapshotFrames(t)[j] == replays[j - 1];
    var ty := replays[j - 1].ty;
    ReplaysAscend(t.last, 0, t.txSeq + 1, j - 1, 0);
    CacheIsLatest(s, es, ty);
    var k := ReplayOf(t.last, 0, t.txSeq + 1, ty);
    FiledAt(t.last, ty);
    if k < j - 1 {
      ReplaysAscend(t.last, 0, t.txSeq + 1, k, j - 1);
    } else if j - 1 < k {
      ReplaysAscend(t.last, 0, t.txSeq + 1, j - 1, k);
    }
  }

  /** A sticky send that the full queue refuses still shows up in the next snapshot. */
  lemma RefusedStickyIsReplayed(s: State, es: seq<Event>, ty: nat, flags: byte, payload: seq<byte>)
    requires s.Valid() && Filed(s.last) && ty < MAX_TYPES && |payload| <= MAX_PAYLOAD && StickyFlag(flags)
    requires !StoppedAfter(es) && |Exec(s, es).s.queue| == CAPACITY
    ensures Answer(Exec(s, es).s, ty, payload) == Busy
    ensures var t := Apply(Exec(s, es), SendFrame(ty, flags, payload)).s;
            && t.queue == Exec(s, es).s.queue && t.txSeq == Exec(s, es).s.txSeq
            && exists j :: 0 <= j < |SnapshotFrames(t)| && SnapshotFrames(t)[j].ty == ty
                           && IsReplayOf(SnapshotFrames(t)[j], Some((flags, payload)))
  {
    hide SnapshotFrames, HelloText;
    var es' := es + [SendFrame(ty, flags, payload)];
    assert es'[..|es'| - 1] == es;
    CacheIsLatest(s, es, ty);
    SnapshotIsLatest(s, es');
    assert LatestSticky(s, es', ty) == Some((flags, payload));
    var fs := SnapshotFrames(Exec(s, es').s);
    var j :| 1 <= j < |fs| - 1 && fs[j].ty == ty;
    assert IsReplayOf(fs[j], LatestSticky(s, es', ty));
  }
}
