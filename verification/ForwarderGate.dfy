/**
What the renderer sees before its first IDR picture: only frames that carry parameter sets, and such a frame
first whenever any were known when the connection was made.
*/
module ForwarderGate {
  import opened AnnexB
  import opened AnnexBTheorems
  import opened Av11
  import opened Bytes
  import opened Forwarder
  import opened ForwarderRuns
  import opened Wrappers

  ghost predicate HasIdrFrame(fs: seq<Frame>) {
    exists i :: 0 <= i < |fs| && HasKind(fs[i].payload, IDR)
  }

  /** Every frame up to which no IDR picture has gone out brings a parameter set. */
  ghost predicate Gated(fs: seq<Frame>) {
    forall i :: 0 <= i < |fs| && !HasIdrFrame(fs[..i + 1]) ==> HasParameterSet(fs[i].payload)
  }

  /** The forwarder stops waiting for an IDR picture only when one is on the line. */
  ghost predicate WaitIsSound(s: State)
    requires s.Valid()
  {
    s.up && !s.needIdr ==> HasIdrFrame(s.Current().whole)
  }

  predicate CacheIsSound(s: State) {
    s.cache == [] || (|s.cache| <= MAX_PARAMETER_SETS && HasParameterSet(s.cache))
  }

  ghost predicate AllGated(s: State) {
    CacheIsSound(s) && forall i :: 0 <= i < |s.lines| ==> Gated(s.lines[i].whole)
  }

  /** On a primed connection a parameter set is the first thing that went out. */
  predicate Primed(line: Line, open: bool) {
    && (line.primed && line.whole != [] ==> HasParameterSet(line.whole[0].payload))
    && (line.primed && open ==> line.whole != [])
  }

  ghost predicate AllPrimed(s: State) {
    CacheIsSound(s) && forall i :: 0 <= i < |s.lines| ==> Primed(s.lines[i], s.up && i == |s.lines| - 1)
  }

  // ---- Single steps ----

  lemma CacheStaysSound(s: State, data: seq<byte>)
    requires CacheIsSound(s)
    ensures CacheIsSound(Cache(s, data))
  {
    hide CachedSlice, HasKind;
    if CachedSlice(data).Some? {
      CachedSliceHasBoth(data);
    }
  }

  lemma SeenIsThere(data: seq<byte>)
    ensures SeesIdr(data) ==> HasKind(data, IDR)
    ensures SeesParameterSets(data) ==> HasParameterSet(data)
  {
    hide Kinds, HasKind;
    FlagsAgree(data, IDR);
    FlagsAgree(data, SPS);
    FlagsAgree(data, PPS);
  }

  lemma HasIdrFrameGrows(fs: seq<Frame>, f: Frame)
    ensures HasIdrFrame(fs + [f]) <==> HasIdrFrame(fs) || HasKind(f.payload, IDR)
  {
    hide HasKind;
    var gs := fs + [f];
    if HasIdrFrame(fs) {
      var i :| 0 <= i < |fs| && HasKind(fs[i].payload, IDR);
      assert gs[i] == fs[i];
    }
    assert gs[|fs|] == f;
  }

  lemma GatedGrows(fs: seq<Frame>, f: Frame)
    requires Gated(fs)
    ensures Gated(fs + [f]) <==> HasIdrFrame(fs) || HasKind(f.payload, IDR) || HasParameterSet(f.payload)
  {
    hide HasKind, HasIdrFrame;
    var gs := fs + [f];
    HasIdrFrameGrows(fs, f);
    forall i | 0 <= i < |gs| && !HasIdrFrame(gs[..i + 1]) && i < |fs| ensures HasParameterSet(gs[i].payload) {
      assert gs[..i + 1] == fs[..i + 1];
    }
    assert gs[..|fs| + 1] == gs;
    assert gs[|fs|] == f;
  }

  /** What a write leaves on the line, and on every other line. */
  lemma WriteIs(s: State, f: Frame, script: seq<SendOutcome>)
    requires s.Valid() && s.up && f.payload != []
    ensures var t := Write(s, f, script);
            && |t.lines| == |s.lines| && t.needIdr == s.needIdr && t.cache == s.cache
            && (forall i :: 0 <= i < |s.lines| - 1 ==> t.lines[i] == s.lines[i])
            && t.Current().primed == s.Current().primed
            && (Fits(f.payload) && t.up ==> t.Current().whole == s.Current().whole + [f])
            && (!(Fits(f.payload) && t.up) ==> t.Current().whole == s.Current().whole)
            && (!Fits(f.payload) ==> t.up)
  {
  }

  // ---- Waiting for an IDR picture ----

  /** An IDR picture that the forwarder waited for is thrown away, yet taken for delivered. */
  ghost predicate LosesIdr(s: State, u: Unit)
    requires s.Valid()
  {
    u.frame.payload != [] && SeesIdr(u.frame.payload) && !Fits(u.frame.payload) &&
    var t := Prepare(s, u);
    t.up && t.needIdr && !HasIdrFrame(t.Current().whole)
  }

  lemma PrepareKeepsGate(s: State, u: Unit)
    requires s.Valid() && AllGated(s) && WaitIsSound(s)
    ensures AllGated(Prepare(s, u)) && WaitIsSound(Prepare(s, u))
  {
    hide CachedSlice, SeesParameterSets, HasKind, Gated, HasIdrFrame, Write;
    CacheStaysSound(s, u.frame.payload);
    var c := Cache(s, u.frame.payload);
    var t := Connect(c, u.now, u.reachable);
    assert c.lines == s.lines && c.up == s.up && c.needIdr == s.needIdr;
    if t.up && !s.up {
      EmptyIsGated();
      if t.cache != [] {
        var f := Frame(u.frame.timestamp, 0, t.cache);
        WriteIs(t, f, u.replay);
        GatedGrows([], f);
        assert [] + [f] == [f];
      }
    }
  }

  lemma EmptyIsGated()
    ensures Gated([]) && !HasIdrFrame([])
  {
  }

  /** One access unit keeps the gate shut as long as it should be, exactly if it does not lose an IDR picture. */
  lemma SendKeepsGate(s: State, u: Unit)
    requires s.Valid() && AllGated(s) && WaitIsSound(s)
    ensures AllGated(SendUnit(s, u))
    ensures WaitIsSound(SendUnit(s, u)) <==> !LosesIdr(s, u)
  {
    hide SeesIdr, SeesParameterSets, HasKind, Gated, HasIdrFrame, Write, Prepare, HasParameterSet;
    if u.frame.payload != [] {
      PrepareKeepsGate(s, u);
      var t := Prepare(s, u);
      if t.up && Passes(t, u.frame.payload) {
        WriteKeepsGate(t, Gate(t, u), u);
      }
    }
  }

  lemma WriteKeepsGate(t: State, g: State, u: Unit)
    requires t.Valid() && t.up && AllGated(t) && WaitIsSound(t) && u.frame.payload != []
    requires g == Gate(t, u) && Passes(t, u.frame.payload)
    ensures AllGated(Write(g, u.frame, u.script))
    ensures WaitIsSound(Write(g, u.frame, u.script)) <==>
            !(SeesIdr(u.frame.payload) && !Fits(u.frame.payload) && t.needIdr && !HasIdrFrame(t.Current().whole))
  {
    hide SeesIdr, SeesParameterSets, HasKind, Gated, HasIdrFrame, Write, HasParameterSet;
    SeenIsThere(u.frame.payload);
    WriteIs(g, u.frame, u.script);
    GatedGrows(t.Current().whole, u.frame);
    HasIdrFrameGrows(t.Current().whole, u.frame);
  }

  predicate IdrsFit(es: seq<Event>) {
    forall i :: 0 <= i < |es| && es[i].Send? && SeesIdr(es[i].unit.frame.payload) ==> Fits(es[i].unit.frame.payload)
  }

  lemma ApplyKeepsGate(s: State, e: Event)
    requires s.Valid() && AllGated(s) && WaitIsSound(s)
    requires e.Send? && SeesIdr(e.unit.frame.payload) ==> Fits(e.unit.frame.payload)
    ensures AllGated(Apply(s, e)) && WaitIsSound(Apply(s, e))
  {
    hide SeesIdr, Gated, HasIdrFrame, SendUnit, Prepare, HasKind;
    if e.Send? {
      SendKeepsGate(s, e.unit);
    }
  }

  lemma {:induction false} ExecKeepsGate(s: State, es: seq<Event>)
    requires s.Valid() && AllGated(s) && WaitIsSound(s) && IdrsFit(es)
    ensures AllGated(Exec(s, es)) && WaitIsSound(Exec(s, es))
    decreases |es|
  {
    hide Apply, AllGated, WaitIsSound, SeesIdr;
    if es != [] {
      ApplyKeepsGate(s, es[0]);
      ExecKeepsGate(Apply(s, es[0]), es[1..]);
    }
  }

  /** In every run whose IDR pictures fit the buffer, no predictive frame reaches a renderer before one of them. */
  lemma NothingPredictiveBeforeIdr(es: seq<Event>, line: nat, i: nat)
    requires IdrsFit(es) && line < |Exec(Initial(), es).lines|
    requires var fs := Exec(Initial(), es).lines[line].whole;
             i < |fs| && forall k :: 0 <= k <= i ==> !HasKind(fs[k].payload, IDR)
    ensures HasParameterSet(Exec(Initial(), es).lines[line].whole[i].payload)
  {
    hide HasKind, Exec;
    ExecKeepsGate(Initial(), es);
  }

  /** Once an IDR picture is lost, the next predictive frame goes through. */
  lemma LostIdrLeaks(s: State, u: Unit)
    requires s.Valid() && s.up && !s.needIdr && !HasIdrFrame(s.Current().whole)
    requires u.frame.payload == [0, 0, 1, 1] && u.script == [Accepted(HEADER_SIZE + 4)]
    ensures var t := SendUnit(s, u);
            t.lines != [] && t.Current().whole == s.Current().whole + [u.frame] && !Gated(t.Current().whole)
  {
    hide Gated, HasIdrFrame, Kinds, HasKind;
    var data := u.frame.payload;
    SliceHasNoSets(data);
    var t := SendUnit(s, u);
    var fs := t.Current().whole;
    assert fs == s.Current().whole + [u.frame] by {
      assert SendAll(HEADER_SIZE + 4, 0, u.script).complete;
    }
    HasIdrFrameGrows(s.Current().whole, u.frame);
    NotGated(fs);
  }

  lemma NotGated(fs: seq<Frame>)
    requires fs != [] && !HasIdrFrame(fs) && !HasParameterSet(fs[|fs| - 1].payload)
    ensures !Gated(fs)
  {
    hide HasIdrFrame;
    assert fs[..|fs| - 1 + 1] == fs;
  }

  lemma SliceHasNoSets(data: seq<byte>)
    requires data == [0, 0, 1, 1]
    ensures !HasKind(data, IDR) && !HasParameterSet(data)
  {
  }

  // ---- The first frame ----

  /** A connection is made for a unit that has parameter sets but does not fit the buffer. */
  predicate SkipsPriming(s: State, u: Unit) {
    !s.up && SeesParameterSets(u.frame.payload) && !Fits(u.frame.payload) &&
    var t := Connect(Cache(s, u.frame.payload), u.now, u.reachable);
    t.up && t.cache != []
  }

  lemma ReplayPrimes(s: State, u: Unit)
    requires s.Valid() && AllPrimed(s)
    requires s.up || !SeesParameterSets(u.frame.payload)
    ensures AllPrimed(Prepare(s, u))
  {
    hide CachedSlice, SeesParameterSets, HasKind, Write, HasParameterSet;
    CacheStaysSound(s, u.frame.payload);
    var c := Cache(s, u.frame.payload);
    var t := Connect(c, u.now, u.reachable);
    assert c.lines == s.lines && c.up == s.up;
    if t.up && !s.up && t.cache != [] {
      var f := Frame(u.frame.timestamp, 0, t.cache);
      WriteIs(t, f, u.replay);
      assert [] + [f] == [f];
    }
  }

  lemma WritePrimes(s: State, f: Frame, script: seq<SendOutcome>)
    requires s.Valid() && s.up && f.payload != [] && CacheIsSound(s)
    requires forall i :: 0 <= i < |s.lines| - 1 ==> Primed(s.lines[i], false)
    requires Primed(s.Current(), false)
    requires s.Current().whole == [] ==> HasParameterSet(f.payload) || !s.Current().primed
    ensures AllPrimed(Write(s, f, script)) <==>
              Fits(f.payload) || s.Current().whole != [] || !s.Current().primed
  {
    hide SendAll, HasParameterSet, Encode;
    WriteIs(s, f, script);
    var t := Write(s, f, script);
    if Fits(f.payload) && t.up {
      assert t.Current().whole[0] == if s.Current().whole == [] then f else s.Current().whole[0];
    }
    assert Primed(t.Current(), t.up) <==> Fits(f.payload) || s.Current().whole != [] || !s.Current().primed;
  }

  /** One access unit leaves every primed connection primed, exactly if it does not skip the priming. */
  lemma SendKeepsPrimed(s: State, u: Unit)
    requires s.Valid() && AllPrimed(s) && u.frame.payload != []
    ensures AllPrimed(SendUnit(s, u)) <==> !SkipsPriming(s, u)
  {
    hide SeesIdr, SeesParameterSets, HasKind, HasParameterSet, Write, Prepare, CachedSlice;
    SeenIsThere(u.frame.payload);
    if s.up || !SeesParameterSets(u.frame.payload) {
      ReplayPrimes(s, u);
      SendAfterPriming(s, u);
    } else {
      SendFirst(s, u);
    }
  }

  lemma SendAfterPriming(s: State, u: Unit)
    requires s.Valid() && u.frame.payload != [] && AllPrimed(Prepare(s, u))
    ensures AllPrimed(SendUnit(s, u))
  {
    hide SeesIdr, SeesParameterSets, HasKind, HasParameterSet, Write, Prepare;
    var t := Prepare(s, u);
    if t.up {
      var g := Gate(t, u);
      if Passes(t, u.frame.payload) {
        assert Primed(g.Current(), true);
        WritePrimes(g, u.frame, u.script);
      }
    }
  }

  lemma SendFirst(s: State, u: Unit)
    requires s.Valid() && AllPrimed(s) && u.frame.payload != [] && !s.up
    requires SeesParameterSets(u.frame.payload) && HasParameterSet(u.frame.payload)
    ensures AllPrimed(SendUnit(s, u)) <==> !SkipsPriming(s, u)
  {
    hide SeesIdr, SeesParameterSets, HasKind, HasParameterSet, Write, CachedSlice;
    CacheStaysSound(s, u.frame.payload);
    var c := Cache(s, u.frame.payload);
    assert c.lines == s.lines && c.up == s.up;
    var t := Prepare(s, u);
    if t.up {
      var g := Gate(t, u);
      assert g.Current() == Line(t.cache != [], [], []);
      WritePrimes(g, u.frame, u.script);
    }
  }

  predicate ParameterSetsFit(es: seq<Event>) {
    forall i :: 0 <= i < |es| && es[i].Send? && SeesParameterSets(es[i].unit.frame.payload)
                ==> Fits(es[i].unit.frame.payload)
  }

  lemma ApplyKeepsPrimed(s: State, e: Event)
    requires s.Valid() && AllPrimed(s)
    requires e.Send? && SeesParameterSets(e.unit.frame.payload) ==> Fits(e.unit.frame.payload)
    ensures AllPrimed(Apply(s, e))
  {
    hide SeesParameterSets, Prepare, HasParameterSet;
    if e.Send? && e.unit.frame.payload != [] {
      SendKeepsPrimed(s, e.unit);
    }
  }

  lemma {:induction false} ExecKeepsPrimed(s: State, es: seq<Event>)
    requires s.Valid() && AllPrimed(s) && ParameterSetsFit(es)
    ensures AllPrimed(Exec(s, es))
    decreases |es|
  {
    hide Apply, AllPrimed, SeesParameterSets;
    if es != [] {
      ApplyKeepsPrimed(s, es[0]);
      ExecKeepsPrimed(Apply(s, es[0]), es[1..]);
    }
  }

  /** In every run whose units with parameter sets fit, a connection made while some are cached starts with one. */
  lemma FirstFrameHasParameterSet(es: seq<Event>, line: nat)
    requires ParameterSetsFit(es) && line < |Exec(Initial(), es).lines|
    requires Exec(Initial(), es).lines[line].primed && Exec(Initial(), es).lines[line].whole != []
    ensures HasParameterSet(Exec(Initial(), es).lines[line].whole[0].payload)
  {
    hide HasParameterSet, Exec;
    ExecKeepsPrimed(Initial(), es);
  }
}
