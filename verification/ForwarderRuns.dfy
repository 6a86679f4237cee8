/** What holds of every connection over whole runs of the forwarder, whatever its socket does. */
module ForwarderRuns {
  import opened AnnexB
  import opened Av11
  import opened Bytes
  import opened Forwarder

  datatype Event = Send(unit: Unit) | VideoClose | VideoOpen

  function Apply(s: State, e: Event): (t: State)
    requires s.Valid()
    ensures t.Valid()
  {
    match e
    case Send(u) => SendUnit(s, u)
    case VideoClose => Close(s)
    case VideoOpen => Reset(s)
  }

  function Exec(s: State, es: seq<Event>): (t: State)
    requires s.Valid()
    ensures t.Valid()
    decreases |es|
  {
    if es == [] then s else Exec(Apply(s, es[0]), es[1..])
  }

  // ---- Send loop ----

  function Stalls(script: seq<SendOutcome>): nat {
    if script == [] then 0 else (if script[0].Stalled? then 1 else 0) + Stalls(script[1..])
  }

  function Offered(script: seq<SendOutcome>): nat {
    if script == [] then 0 else (if script[0].Accepted? then script[0].n else 0) + Offered(script[1..])
  }

  /** At most 20 stalls and any number of interrupts never cost a frame whose bytes the socket takes in the end. */
  lemma {:induction false} SendSurvives(remaining: nat, stalls: nat, script: seq<SendOutcome>)
    requires forall i :: 0 <= i < |script| ==> !script[i].Broken? && script[i] != Accepted(0)
    requires stalls + Stalls(script) <= STALL_MAX && remaining <= Offered(script)
    ensures SendAll(remaining, stalls, script).complete
    decreases |script|
  {
    if remaining > 0 && script != [] {
      assert script[0] in script;
      var k := if script[0].Accepted? then (if script[0].n < remaining then script[0].n else remaining) else 0;
      SendSurvives(remaining - k, stalls + if script[0].Stalled? then 1 else 0, script[1..]);
    }
  }

  /** The 21st stall within a frame gives the connection up, whatever the socket would take after it. */
  lemma {:induction false} SendGivesUp(remaining: nat, stalls: nat, before: seq<SendOutcome>, after: seq<SendOutcome>)
    requires stalls + Stalls(before) > STALL_MAX >= stalls && remaining > Offered(before)
    ensures !SendAll(remaining, stalls, before + after).complete
    decreases |before|
  {
    assert before != [];
    assert (before + after)[1..] == before[1..] + after;
    match before[0]
    case Accepted(n) =>
      if n > 0 {
        SendGivesUp(remaining - n, stalls, before[1..], after);
      }
    case Interrupted => SendGivesUp(remaining, stalls, before[1..], after);
    case Stalled =>
      if stalls < STALL_MAX {
        SendGivesUp(remaining, stalls + 1, before[1..], after);
      }
    case Broken =>
  }

  // ---- Framing ----

  predicate SendableUnit(u: Unit) {
    u.frame.timestamp < TWO_64 && u.frame.flag < TWO_32
  }

  predicate SendableEvents(es: seq<Event>) {
    forall i :: 0 <= i < |es| && es[i].Send? ==> SendableUnit(es[i].unit)
  }

  predicate AllSendable(fs: seq<Frame>) {
    forall i :: 0 <= i < |fs| ==> Sendable(fs[i])
  }

  /** A frame of which only the first bytes, possibly none, went out. */
  ghost predicate IsTail(tail: seq<byte>) {
    exists f: Frame, k: nat {:trigger Encode(f)[..k]} :: Sendable(f) && k < |Encode(f)| && tail == Encode(f)[..k]
  }

  /** Whole frames and, on a closed connection only, a truncated tail. */
  ghost predicate Framed(line: Line, open: bool) {
    && AllSendable(line.whole)
    && if open then line.bytes == EncodeAll(line.whole)
       else exists tail :: IsTail(tail) && line.bytes == EncodeAll(line.whole) + tail
  }

  ghost predicate AllFramed(s: State) {
    && forall i :: 0 <= i < |s.lines| ==> Framed(s.lines[i], s.up && i == |s.lines| - 1)
  }

  /** No connection is started in the middle of a frame, and no frame follows a truncated one. */
  lemma ClosingKeepsFramed(line: Line)
    requires Framed(line, true)
    ensures Framed(line, false)
  {
    var f := Frame(0, 0, [0]);
    assert IsTail([]) by {
      assert Encode(f)[..0] == [];
    }
    assert line.bytes == EncodeAll(line.whole) + [];
  }

  lemma WriteKeepsFramed(s: State, f: Frame, script: seq<SendOutcome>)
    requires s.Valid() && AllFramed(s) && f.timestamp < TWO_64 && f.flag < TWO_32
    ensures AllFramed(Write(s, f, script)) && |Write(s, f, script).lines| == |s.lines|
  {
    hide Encode, SendAll, EncodeAll;
    if s.up && f.payload != [] && Fits(f.payload) {
      var line := s.Current();
      var out := SendAll(HEADER_SIZE + |f.payload|, 0, script);
      var t := Write(s, f, script);
      if out.complete {
        assert Encode(f)[..out.accepted] == Encode(f);
        EncodeAllAppend(line.whole, f);
      } else {
        assert IsTail(Encode(f)[..out.accepted]);
      }
      assert Framed(t.Current(), t.up);
    }
  }

  lemma ConnectKeepsFramed(s: State, now: nat, reachable: bool)
    requires s.Valid() && AllFramed(s)
    ensures AllFramed(Connect(s, now, reachable))
  {
  }

  lemma CloseKeepsFramed(s: State)
    requires s.Valid() && AllFramed(s)
    ensures AllFramed(Close(s)) && AllFramed(Reset(s))
  {
    if s.up {
      ClosingKeepsFramed(s.Current());
    }
  }

  lemma PrepareKeepsFramed(s: State, u: Unit)
    requires s.Valid() && AllFramed(s) && SendableUnit(u)
    ensures AllFramed(Prepare(s, u))
  {
    hide CachedSlice, Write, Connect, SeesParameterSets;
    ConnectKeepsFramed(Cache(s, u.frame.payload), u.now, u.reachable);
    var t := Connect(Cache(s, u.frame.payload), u.now, u.reachable);
    ConnectIsValid(Cache(s, u.frame.payload), u.now, u.reachable);
    WriteKeepsFramed(t, Frame(u.frame.timestamp, 0, t.cache), u.replay);
  }

  lemma ConnectIsValid(s: State, now: nat, reachable: bool)
    requires s.Valid()
    ensures Connect(s, now, reachable).Valid()
  {
  }

  lemma ApplyKeepsFramed(s: State, e: Event)
    requires s.Valid() && AllFramed(s) && (e.Send? ==> SendableUnit(e.unit))
    ensures AllFramed(Apply(s, e))
  {
    hide Write, Framed, SeesIdr, SeesParameterSets;
    CloseKeepsFramed(s);
    if e.Send? {
      PrepareKeepsFramed(s, e.unit);
      var t := Prepare(s, e.unit);
      var g := Gate(t, e.unit);
      if t.up {
        WriteKeepsFramed(g, e.unit.frame, e.unit.script);
      }
    }
  }

  lemma {:induction false} ExecKeepsFramed(s: State, es: seq<Event>)
    requires s.Valid() && AllFramed(s) && SendableEvents(es)
    ensures AllFramed(Exec(s, es))
    decreases |es|
  {
    hide Apply, AllFramed, SendableUnit;
    if es != [] {
      ApplyKeepsFramed(s, es[0]);
      ExecKeepsFramed(Apply(s, es[0]), es[1..]);
    }
  }

  /**
  On every connection of every run the renderer recovers exactly the frames that were written whole, in order,
  and never meets a bad header, whatever the socket did to the sender.
  */
  lemma RendererRecovers(es: seq<Event>, i: nat)
    requires SendableEvents(es) && i < |Exec(Initial(), es).lines|
    ensures Receive(Exec(Initial(), es).lines[i].bytes) == Reception(Exec(Initial(), es).lines[i].whole, false)
  {
    hide Receive, EncodeAll, Encode, Exec;
    ExecKeepsFramed(Initial(), es);
    var s := Exec(Initial(), es);
    var line := s.lines[i];
    if s.up && i == |s.lines| - 1 {
      ClosingKeepsFramed(line);
    }
    var tail :| IsTail(tail) && line.bytes == EncodeAll(line.whole) + tail;
    var f, k: nat :| Sendable(f) && k < |Encode(f)| && tail == Encode(f)[..k];
    ReceiveRecovers(line.whole, f, k);
  }

  // ---- Conservation ----

  /** The frames written whole on all connections, in order. */
  function Delivered(lines: seq<Line>): seq<Frame> {
    if lines == [] then [] else Delivered(lines[..|lines| - 1]) + lines[|lines| - 1].whole
  }

  lemma WriteDelivers(s: State, f: Frame, script: seq<SendOutcome>)
    requires s.Valid() && s.up && f.payload != []
    ensures var t := Write(s, f, script);
            || (t.up && Delivered(t.lines) == Delivered(s.lines) + [f]
                && t.sent == s.sent + 1 && t.dropped == s.dropped)
            || (Delivered(t.lines) == Delivered(s.lines) && t.sent == s.sent && t.dropped == s.dropped + 1)
    ensures Write(s, f, script).cache == s.cache
    ensures Fits(f.payload) && !Write(s, f, script).up ==> Write(s, f, script).dropped == s.dropped + 1
  {
    hide SendAll, Encode;
    var t := Write(s, f, script);
    assert t.lines[..|t.lines| - 1] == s.lines[..|s.lines| - 1];
    assert Delivered(s.lines[..|s.lines| - 1]) + s.Current().whole + [f]
        == Delivered(s.lines[..|s.lines| - 1]) + (s.Current().whole + [f]);
  }

  lemma ConnectDelivers(s: State, now: nat, reachable: bool)
    requires s.Valid()
    ensures var t := Connect(s, now, reachable);
            t.Valid() && Delivered(t.lines) == Delivered(s.lines) && t.sent == s.sent && t.dropped == s.dropped
            && t.cache == s.cache
  {
    var t := Connect(s, now, reachable);
    if t.lines != s.lines {
      assert t.lines[..|t.lines| - 1] == s.lines;
    }
  }

  /** The forwarder replays the cached parameter sets, whole. */
  predicate Replays(s: State, u: Unit)
    requires s.Valid()
  {
    Prepare(s, u).sent > s.sent
  }

  lemma PrepareDelivers(s: State, u: Unit)
    requires s.Valid()
    ensures var t := Prepare(s, u);
            var replay := Frame(u.frame.timestamp, 0, t.cache);
            && t.cache == Cache(s, u.frame.payload).cache
            && Delivered(t.lines) == Delivered(s.lines) + (if Replays(s, u) then [replay] else [])
            && t.sent == s.sent + (if Replays(s, u) then 1 else 0)
            && (t.up ==> t.dropped == s.dropped || !Fits(t.cache))
            && (!t.up ==> t.dropped == s.dropped + 1 && !Replays(s, u))
  {
    hide CachedSlice, Write, Connect, SeesParameterSets, Delivered;
    var c := Cache(s, u.frame.payload);
    ConnectDelivers(c, u.now, u.reachable);
    var t := Connect(c, u.now, u.reachable);
    if t.up && t.cache != [] {
      WriteDelivers(t, Frame(u.frame.timestamp, 0, t.cache), u.replay);
      WriteUp(t, Frame(u.frame.timestamp, 0, t.cache), u.replay);
    }
    ConnectUp(c, u.now, u.reachable);
  }

  lemma ConnectUp(s: State, now: nat, reachable: bool)
    ensures s.up ==> Connect(s, now, reachable) == s
  {
  }

  lemma WriteUp(s: State, f: Frame, script: seq<SendOutcome>)
    requires s.Valid() && s.up && f.payload != []
    ensures var t := Write(s, f, script);
            (Fits(f.payload) ==> (t.up <==> t.sent == s.sent + 1)) && (!Fits(f.payload) ==> t.up)
  {
  }

  /**
  Every access unit either goes out whole, once, behind all frames before it, or is counted as dropped, once;
  apart from that only the cached parameter sets may go out, ahead of it.
  */
  lemma WrittenOrDropped(s: State, u: Unit) returns (written: bool)
    requires s.Valid() && u.frame.payload != [] && Fits(Cache(s, u.frame.payload).cache)
    ensures var t := SendUnit(s, u);
            var replay := Frame(u.frame.timestamp, 0, Cache(s, u.frame.payload).cache);
            && Delivered(t.lines) == Delivered(s.lines) + (if Replays(s, u) then [replay] else [])
                                   + (if written then [u.frame] else [])
            && t.dropped == s.dropped + (if written then 0 else 1)
            && t.sent == s.sent + (if Replays(s, u) then 1 else 0) + (if written then 1 else 0)
            && (written ==> Fits(u.frame.payload) && Passes(Prepare(s, u), u.frame.payload))
  {
    hide CachedSlice, Write, Prepare, SeesParameterSets, SeesIdr, Delivered, Cache;
    PrepareDelivers(s, u);
    var t := Prepare(s, u);
    written := false;
    if t.up && Passes(t, u.frame.payload) {
      WriteDelivers(Gate(t, u), u.frame, u.script);
      WriteUp(Gate(t, u), u.frame, u.script);
      written := SendUnit(s, u).dropped == s.dropped;
      if !Fits(u.frame.payload) {
        OversizeIsDropped(Gate(t, u), u.frame, u.script);
      }
    }
  }

  lemma OversizeIsDropped(s: State, f: Frame, script: seq<SendOutcome>)
    requires s.Valid() && s.up && f.payload != [] && !Fits(f.payload)
    ensures Write(s, f, script).dropped == s.dropped + 1
  {
  }
}
