/**
What every access unit does, by the history of the run alone: whether the forwarder connects, replays parameter sets,
asks for a keyframe, and which frames go out whole.
*/
module ForwarderHistory {
  import opened AnnexB
  import opened AnnexBTheorems
  import opened Av11
  import opened Bytes
  import opened Forwarder
  import opened ForwarderRuns
  import opened Wrappers

  // ---- When the socket takes a frame ----

  /** Nothing among these outcomes makes the forwarder give up at once. */
  predicate Harmless(script: seq<SendOutcome>) {
    forall i :: 0 <= i < |script| ==> !script[i].Broken? && script[i] != Accepted(0)
  }

  /** Up to the k-th outcome the socket takes so many bytes, without a failure and with at most 20 stalls. */
  predicate TakesBy(script: seq<SendOutcome>, k: nat, total: nat, stalls: nat) {
    && k <= |script| && Harmless(script[..k]) && stalls + Stalls(script[..k]) <= 20 && Offered(script[..k]) >= total
  }

  ghost predicate Takes(script: seq<SendOutcome>, total: nat, stalls: nat) {
    exists k: nat :: TakesBy(script, k, total, stalls)
  }

  lemma TakesNothing(script: seq<SendOutcome>, stalls: nat)
    requires stalls <= 20
    ensures Takes(script, 0, stalls)
  {
    assert script[..0] == [];
    assert TakesBy(script, 0, 0, stalls);
  }

  lemma TakesRest(script: seq<SendOutcome>, k: nat, total: nat, stalls: nat)
    requires script != [] && 0 < k <= |script|
    ensures script[..k][0] == script[0] && script[..k][1..] == script[1..][..k - 1]
    ensures Harmless(script[..k]) <==> !script[0].Broken? && script[0] != Accepted(0) && Harmless(script[1..][..k - 1])
    ensures Stalls(script[..k]) == (if script[0].Stalled? then 1 else 0) + Stalls(script[1..][..k - 1])
    ensures Offered(script[..k]) == (if script[0].Accepted? then script[0].n else 0) + Offered(script[1..][..k - 1])
  {
    assert script[..k][1..] == script[1..][..k - 1];
    var a, b := script[..k], script[1..][..k - 1];
    assert forall i :: 0 <= i < |b| ==> b[i] == a[i + 1];
    assert forall i :: 1 <= i < |a| ==> a[i] == b[i - 1];
  }

  /** A frame is sent whole exactly if the socket takes all its bytes before it fails or stalls for the 21st time. */
  lemma {:induction false} SendCompletes(remaining: nat, stalls: nat, script: seq<SendOutcome>)
    requires stalls <= 20
    ensures SendAll(remaining, stalls, script).complete <==> Takes(script, remaining, stalls)
    decreases |script|
  {
    if remaining == 0 {
      TakesNothing(script, stalls);
    } else if script == [] {
      assert script[..0] == [];
    } else {
      var taken := if script[0].Accepted? then script[0].n else 0;
      var left := if taken < remaining then remaining - taken else 0;
      var more := stalls + if script[0].Stalled? then 1 else 0;
      if more <= 20 {
        SendCompletes(left, more, script[1..]);
      }
      if Takes(script, remaining, stalls) {
        var k: nat :| TakesBy(script, k, remaining, stalls);
        assert script[..0] == [];
        TakesRest(script, k, remaining, stalls);
        assert TakesBy(script[1..], k - 1, left, more);
      }
      if more <= 20 && !script[0].Broken? && script[0] != Accepted(0) && Takes(script[1..], left, more) {
        var k: nat :| TakesBy(script[1..], k, left, more);
        TakesRest(script, k + 1, remaining, stalls);
        assert TakesBy(script, k + 1, remaining, stalls);
      }
    }
  }

  // ---- The history ----

  /** What a run has brought about: the wait for an IDR picture, and the parameter sets seen last. */
  datatype History = History(
    open: bool,               // a connection was made and has neither failed nor been closed
    tried: Option<nat>,       // when the last attempt to connect was made, by a clock that runs
    waiting: bool,            // no unit with an IDR picture has come since the connection was made
    asked: Option<nat>,       // when a keyframe was asked for last in this wait; a failed clock counts as 1
    cache: seq<byte>,
    frames: nat,              // how many frames went out whole since the stub was opened
    lost: nat)                // and how many units did not

  predicate HasIdr(u: Unit) {
    AmongFirst(u.frame.payload, 5)
  }

  predicate HasSets(u: Unit) {
    AmongFirst(u.frame.payload, 7) || AmongFirst(u.frame.payload, 8)
  }

  /** The parameter sets known once the unit was looked at. */
  function Known(h: History, u: Unit): seq<byte> {
    match CachedSlice(u.frame.payload)
    case None => h.cache
    case Some(c) => c
  }

  /** An attempt to connect is made, 250 ms after the last one or later. */
  predicate Tries(h: History, u: Unit) {
    !h.open && (u.now == 0 || h.tried.None? || u.now >= h.tried.value + 250)
  }

  predicate Connects(h: History, u: Unit) {
    Tries(h, u) && u.reachable
  }

  /** The known parameter sets go ahead of a unit that brings none, on a connection just made. */
  predicate Primes(h: History, u: Unit) {
    Connects(h, u) && !HasSets(u) && Known(h, u) != []
  }

  ghost predicate GoesWhole(payload: seq<byte>, script: seq<SendOutcome>) {
    20 + |payload| <= 393216 && Takes(script, 20 + |payload|, 0)
  }

  /** They go out whole. */
  ghost predicate Replays(h: History, u: Unit) {
    Primes(h, u) && GoesWhole(Known(h, u), u.replay)
  }

  /** There is a connection for the unit itself. */
  ghost predicate Ready(h: History, u: Unit) {
    (h.open || Connects(h, u)) && (Primes(h, u) ==> GoesWhole(Known(h, u), u.replay))
  }

  predicate Waits(h: History, u: Unit) {
    Connects(h, u) || h.waiting
  }

  /** A keyframe is asked for: the first time in a wait, and then 750 ms after the last time or later. */
  ghost predicate Asks(h: History, u: Unit) {
    && Ready(h, u) && Waits(h, u) && !HasIdr(u)
    && (Connects(h, u) || h.asked.None? || u.later == 0 || (u.later - h.asked.value) % 0x1_0000_0000_0000_0000 >= 750)
  }

  /** A unit is written if no IDR picture is awaited, or it has one, or parameter sets. */
  ghost predicate Admits(h: History, u: Unit) {
    Ready(h, u) && (!Waits(h, u) || HasIdr(u) || HasSets(u))
  }

  ghost predicate Goes(h: History, u: Unit) {
    Admits(h, u) && GoesWhole(u.frame.payload, u.script)
  }

  ghost function Sent(h: History, u: Unit): History {
    if u.frame.payload == [] then h
    else
      var online := h.open || Connects(h, u);
      History(
        Ready(h, u) && (Admits(h, u) && 20 + |u.frame.payload| <= 393216 ==> Goes(h, u)),
        if Tries(h, u) && u.now != 0 then Some(u.now) else h.tried,
        if online then Waits(h, u) && !(Ready(h, u) && HasIdr(u)) else h.waiting,
        if Asks(h, u) then Some(if u.later != 0 then u.later else 1)
        else if Connects(h, u) || (Ready(h, u) && Waits(h, u) && HasIdr(u)) then None else h.asked,
        Known(h, u),
        h.frames + (if Replays(h, u) then 1 else 0) + (if Goes(h, u) then 1 else 0),
        h.lost + if Goes(h, u) then 0 else 1)
  }

  ghost function Next(h: History, e: Event): History {
    match e
    case Send(u) => Sent(h, u)
    case VideoClose => h.(open := false, waiting := false, asked := None)
    case VideoOpen => Nothing()
  }

  function Nothing(): History {
    History(false, None, false, None, [], 0, 0)
  }

  ghost function Record(h: History, es: seq<Event>): History
    decreases |es|
  {
    if es == [] then h else Record(Next(h, es[0]), es[1..])
  }

  // ---- The state is the history ----

  predicate Holds(h: History, s: State) {
    && s.Valid() && s.up == h.open && s.needIdr == h.waiting && s.cache == h.cache
    && |h.cache| <= 512 && s.sent == h.frames && s.dropped == h.lost
    && s.retryMs == (if h.tried.Some? then h.tried.value + 250 else 0)
    && s.lastRequestMs == (if h.asked.Some? then h.asked.value else 0) && (h.asked.Some? ==> h.asked.value > 0)
  }

  lemma SeesExactly(u: Unit)
    ensures SeesIdr(u.frame.payload) <==> HasIdr(u)
    ensures SeesParameterSets(u.frame.payload) <==> HasSets(u)
  {
    hide Kinds;
    FlagsAreExact(u.frame.payload, 5);
    FlagsAreExact(u.frame.payload, 7);
    FlagsAreExact(u.frame.payload, 8);
  }

  lemma KnownFits(h: History, u: Unit)
    requires |h.cache| <= 512
    ensures |Known(h, u)| <= 512
  {
    hide CachedSlice;
    if CachedSlice(u.frame.payload).Some? {
      CachedSliceHasBoth(u.frame.payload);
    }
  }

  /** A write, by what the socket does. */
  lemma WriteIs(s: State, f: Av11.Frame, script: seq<SendOutcome>)
    requires s.Valid() && s.up && f.payload != []
    ensures var t, whole := Write(s, f, script), GoesWhole(f.payload, script);
            && t.up == (20 + |f.payload| <= 393216 ==> whole)
            && t.needIdr == s.needIdr && t.cache == s.cache && t.retryMs == s.retryMs
            && t.lastRequestMs == s.lastRequestMs && |t.lines| == |s.lines|
            && Delivered(t.lines) == Delivered(s.lines) + (if whole then [f] else [])
            && t.dropped == s.dropped + (if whole then 0 else 1) && t.sent == s.sent + (if whole then 1 else 0)
  {
    hide SendAll, Encode, Takes, Delivered;
    SendCompletes(20 + |f.payload|, 0, script);
    WriteDelivers(s, f, script);
    assert Delivered(s.lines) + [] == Delivered(s.lines);
  }

  lemma PrepareIs(h: History, s: State, u: Unit)
    requires Holds(h, s) && u.frame.payload != []
    ensures var t := Prepare(s, u);
            && t.up == Ready(h, u) && t.cache == Known(h, u)
            && t.needIdr == Waits(h, u)
            && t.retryMs == (if Tries(h, u) && u.now != 0 then u.now + 250 else s.retryMs)
            && t.lastRequestMs == (if Connects(h, u) then 0 else s.lastRequestMs)
            && |t.lines| == |s.lines| + (if Connects(h, u) then 1 else 0)
            && Delivered(t.lines) == Delivered(s.lines)
                + (if Replays(h, u) then [Frame(u.frame.timestamp, 0, Known(h, u))] else [])
            && t.dropped == s.dropped + (if Ready(h, u) then 0 else 1)
            && t.sent == s.sent + (if Replays(h, u) then 1 else 0)
  {
    hide CachedSlice, Write, Delivered, GoesWhole, AmongFirst, SeesIdr, SeesParameterSets;
    SeesExactly(u);
    KnownFits(h, u);
    var c := Cache(s, u.frame.payload);
    var t := Connect(c, u.now, u.reachable);
    ConnectDelivers(c, u.now, u.reachable);
    assert Delivered(s.lines) + [] == Delivered(s.lines);
    if Primes(h, u) {
      WriteIs(t, Frame(u.frame.timestamp, 0, t.cache), u.replay);
    }
  }

  lemma GateIs(h: History, s: State, t: State, u: Unit)
    requires Holds(h, s) && u.frame.payload != [] && Ready(h, u) && t == Prepare(s, u)
    requires t.needIdr == Waits(h, u) && t.lastRequestMs == (if Connects(h, u) then 0 else s.lastRequestMs)
    ensures var g := Gate(t, u);
            && g.needIdr == (Waits(h, u) && !HasIdr(u))
            && g.lastRequestMs == (if Asks(h, u) then (if u.later != 0 then u.later else 1)
                                   else if Connects(h, u) || (Waits(h, u) && HasIdr(u)) then 0 else s.lastRequestMs)
            && g == t.(needIdr := g.needIdr, lastRequestMs := g.lastRequestMs)
    ensures Passes(t, u.frame.payload) <==> Admits(h, u)
    ensures t.needIdr && !SeesIdr(u.frame.payload) && RequestDue(t, u.later) <==> Asks(h, u)
  {
    hide Prepare, SeesIdr, SeesParameterSets, AmongFirst, Connects, Ready;
    SeesExactly(u);
  }

  /**
  One access unit. A keyframe is asked for exactly if Asks; the cached parameter sets go out whole, ahead of the unit,
  exactly if they prime a new connection and the socket takes them; the unit goes out whole exactly if it is admitted
  and the socket takes it, and is counted as dropped otherwise. There is a new connection exactly if Connects.
  */
  lemma UnitIsExact(h: History, s: State, u: Unit)
    requires Holds(h, s) && u.frame.payload != []
    ensures var t := SendUnit(s, u);
            var replay := Frame(u.frame.timestamp, 0, Known(h, u));
            && (Requests(s, u) <==> Asks(h, u))
            && Delivered(t.lines) == Delivered(s.lines)
                                     + (if Replays(h, u) then [replay] else [])
                                     + (if Goes(h, u) then [u.frame] else [])
            && t.dropped == s.dropped + (if Goes(h, u) then 0 else 1)
            && |t.lines| == |s.lines| + (if Connects(h, u) then 1 else 0)
    ensures Holds(Sent(h, u), SendUnit(s, u))
  {
    hide CachedSlice, Write, Delivered, GoesWhole, AmongFirst, SeesIdr, SeesParameterSets, Prepare, Gate, Passes, Ready,
      Waits, Connects, Primes, Known, Replays;
    PrepareIs(h, s, u);
    KnownFits(h, u);
    var t := Prepare(s, u);
    SentUnfold(h, u);
    if t.up {
      GateIs(h, s, t, u);
      assert t.Valid();
      if Admits(h, u) {
        WriteIs(Gate(t, u), u.frame, u.script);
      }
    }
  }

  lemma SentUnfold(h: History, u: Unit)
    ensures Ready(h, u) ==> h.open || Connects(h, u)
    ensures Connects(h, u) ==> Waits(h, u)
    ensures !h.open && !Connects(h, u) ==> Waits(h, u) == h.waiting && !Asks(h, u)
  {
  }

  lemma NextHolds(h: History, s: State, e: Event)
    requires Holds(h, s)
    ensures Holds(Next(h, e), Apply(s, e))
  {
    hide SendUnit, Sent;
    if e.Send? {
      if e.unit.frame.payload != [] {
        UnitIsExact(h, s, e.unit);
      } else {
        NothingSent(h, s, e.unit);
      }
    }
  }

  lemma NothingSent(h: History, s: State, u: Unit)
    requires s.Valid() && u.frame.payload == []
    ensures SendUnit(s, u) == s && Sent(h, u) == h
  {
  }

  /** In every run the globals of the forwarder are what the history says. */
  lemma {:induction false} HistoryHolds(h: History, s: State, es: seq<Event>)
    requires s.Valid() && Holds(h, s)
    ensures Holds(Record(h, es), Exec(s, es))
    decreases |es|
  {
    hide Apply, Next, Holds;
    if es != [] {
      NextHolds(h, s, es[0]);
      HistoryHolds(Next(h, es[0]), Apply(s, es[0]), es[1..]);
    }
  }

  lemma NothingHolds()
    ensures Holds(Nothing(), Initial())
  {
  }
}
