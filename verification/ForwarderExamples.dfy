/** Runs from the start in which a unit that does not fit the buffer lets something through too early. */
module ForwarderExamples {
  import opened AnnexB
  import opened AnnexBTheorems
  import opened Av11
  import opened Bytes
  import opened Forwarder
  import opened ForwarderGate
  import opened ForwarderRuns
  import opened Wrappers

  // ---- An IDR picture that is lost ----

  function BigIdr(): (data: seq<byte>)
    ensures !Fits(data) && |data| >= 4
  {
    [0, 0, 1, 5] + seq(BUFFER_SIZE - 4, i => 9)
  }

  lemma BigIdrHasOne(q: nat)
    ensures IsNal(BigIdr(), q) <==> q == 0
  {
  }

  lemma BigIdrSeen()
    ensures SeesIdr(BigIdr()) && !SeesParameterSets(BigIdr())
  {
    hide BigIdr, IsNal;
    BigIdrHasOne(0);
    BigIdrKind();
    var k := NalsComplete(BigIdr(), 0, 0);
    NalsFromZero(BigIdr());
    assert AmongFirst(BigIdr(), IDR);
    FlagsAreExact(BigIdr(), IDR);
    OnlyIdr(SPS);
    OnlyIdr(PPS);
  }

  lemma BigIdrKind()
    ensures IsNal(BigIdr(), 0) && Kind(BigIdr(), 0) == IDR
  {
  }

  lemma NalsFromZero(data: seq<byte>)
    requires IsNal(data, 0)
    ensures |Nals(data, 0)| > 0 && Nals(data, 0)[0] == 0
  {
  }

  lemma OnlyIdr(kind: nat)
    requires kind != IDR
    ensures kind !in Kinds(BigIdr())
  {
    hide BigIdr, Kinds, Nals;
    BigIdrKind();
    FlagsAreExact(BigIdr(), kind);
    if AmongFirst(BigIdr(), kind) {
      var k :| 0 <= k < |Nals(BigIdr(), 0)| && k < MAX_NALS && Kind(BigIdr(), Nals(BigIdr(), 0)[k]) == kind;
      BigIdrHasOne(Nals(BigIdr(), 0)[k]);
      assert false;
    }
  }

  function UnitOf(data: seq<byte>, now: nat): Unit {
    Unit(Frame(now, 0, data), now, true, [], now, [Accepted(HEADER_SIZE + 4)])
  }

  /** One unit brings the forwarder from its start into the state in which an IDR picture is lost. */
  lemma LosesIdrAtOnce()
    ensures LosesIdr(Initial(), UnitOf(BigIdr(), 1))
    ensures var s := SendUnit(Initial(), UnitOf(BigIdr(), 1));
            s.up && !s.needIdr && s.Current().whole == [] && s.lines == [s.Current()]
  {
    hide BigIdr, SeesIdr, SeesParameterSets, CachedSlice;
    BigIdrSeen();
    NothingToCache(BigIdr());
    EmptyIsGated();
  }

  lemma NothingToCache(data: seq<byte>)
    requires !SeesParameterSets(data)
    ensures CachedSlice(data) == None
  {
    hide Kinds;
  }

  /** So a predictive frame, and no parameter set, is the first that this renderer gets. */
  lemma PredictiveFirst()
    ensures var es := [Send(UnitOf(BigIdr(), 1)), Send(UnitOf([0, 0, 1, 1], 2))];
            var s := Exec(Initial(), es);
            SendableEvents(es) && |s.lines| == 1 && s.lines[0].whole == [Frame(2, 0, [0, 0, 1, 1])]
            && !Gated(s.lines[0].whole)
  {
    hide BigIdr, SendUnit, Gated, SeesIdr, Kinds;
    var e1, e2 := Send(UnitOf(BigIdr(), 1)), Send(UnitOf([0, 0, 1, 1], 2));
    LosesIdrAtOnce();
    EmptyIsGated();
    var s := SendUnit(Initial(), e1.unit);
    LostIdrLeaks(s, e2.unit);
    OneLine(s, e2.unit);
    TwoSteps(e1, e2);
  }

  lemma TwoSteps(e1: Event, e2: Event)
    ensures Exec(Initial(), [e1, e2]) == Apply(Apply(Initial(), e1), e2)
  {
    hide Apply;
    assert [e1, e2][1..] == [e2] && [e2][1..] == [];
    assert Exec(Apply(Initial(), e1), [e2]) == Exec(Apply(Apply(Initial(), e1), e2), []);
  }

  /** A unit sent on an open connection makes no new one. */
  lemma OneLine(s: State, u: Unit)
    requires s.Valid() && s.up
    ensures |SendUnit(s, u).lines| == |s.lines|
  {
    hide SeesIdr, SeesParameterSets, CachedSlice, SendAll;
  }

  // ---- A replay that is skipped ----

  /** A parameter set of each type, a picture, and more than the buffer holds. */
  function BigSets(): (data: seq<byte>)
    ensures !Fits(data) && |data| > 12
  {
    [0, 0, 1, 7, 0, 0, 1, 8, 0, 0, 1, 1] + seq(BUFFER_SIZE, i => 9)
  }

  lemma {:induction false} NoZerosNoNals(data: seq<byte>, i: nat)
    requires forall k :: i <= k < |data| ==> data[k] != 0
    ensures Nals(data, i) == []
    decreases |data| - i
  {
    if i + 3 < |data| {
      NoZerosNoNals(data, i + 1);
    }
  }

  lemma BigSetsBytes()
    ensures var d := BigSets();
            && IsNal(d, 0) && IsNal(d, 4) && IsNal(d, 8)
            && Kind(d, 0) == SPS && Kind(d, 4) == PPS && Kind(d, 8) == 1
            && d[3] != 0 && d[7] != 0 && forall k :: 11 <= k < |d| ==> d[k] != 0
  {
  }

  lemma BigSetsNals()
    ensures Nals(BigSets(), 0) == [0, 4, 8]
  {
    hide BigSets;
    var d := BigSets();
    BigSetsBytes();
    NalsSkip(d, 0);
    NalsSkip(d, 4);
    NalsSkip(d, 8);
    NoZerosNoNals(d, 11);
    assert Nals(d, 3) == Nals(d, 4) && Nals(d, 7) == Nals(d, 8);
  }

  lemma BigSetsCached()
    ensures CachedSlice(BigSets()) == Some(BigSets()[0..8])
    ensures SeesParameterSets(BigSets()) && !SeesIdr(BigSets())
  {
    hide BigSets, Nals;
    var d := BigSets();
    BigSetsBytes();
    BigSetsNals();
    assert Kinds(d) == [SPS, PPS, 1];
    assert FirstSps(Kinds(d), 0) == 0 && RunEnd(Kinds(d), 2) == 2 && RunEnd(Kinds(d), 1) == 2;
    assert Kinds(d)[0] == SPS && Kinds(d)[0..2][1] == PPS;
    assert Start(d, 0) == 0 && Start(d, 8) == 8;
  }

  /** The first unit of a run skips the priming of the connection that is made for it. */
  lemma SkipsPrimingAtOnce()
    ensures SkipsPriming(Initial(), UnitOf(BigSets(), 1))
    ensures var s := SendUnit(Initial(), UnitOf(BigSets(), 1));
            s.up && s.needIdr && s.lines == [Line(true, [], [])]
  {
    hide BigSets, SeesIdr, SeesParameterSets, CachedSlice, Kinds;
    BigSetsCached();
    assert BigSets()[0..8] != [];
  }

  lemma SmallIdr()
    ensures SeesIdr([0, 0, 1, 5]) && !HasParameterSet([0, 0, 1, 5])
  {
    var d: seq<byte> := [0, 0, 1, 5];
    assert IsNal(d, 0) && Kind(d, 0) == IDR;
    assert Nals(d, 1) == [];
    assert Kinds(d)[0] == IDR;
  }

  /** So an IDR picture without parameter sets is the first frame of a connection that was made knowing some. */
  lemma UnprimedFirst()
    ensures var es := [Send(UnitOf(BigSets(), 1)), Send(UnitOf([0, 0, 1, 5], 2))];
            var s := Exec(Initial(), es);
            SendableEvents(es) && |s.lines| == 1 && s.lines[0].primed
            && s.lines[0].whole == [Frame(2, 0, [0, 0, 1, 5])] && !HasParameterSet(s.lines[0].whole[0].payload)
  {
    hide BigSets, SendUnit, SeesIdr, HasParameterSet, Kinds;
    var e1, e2 := Send(UnitOf(BigSets(), 1)), Send(UnitOf([0, 0, 1, 5], 2));
    SkipsPrimingAtOnce();
    SmallIdr();
    var s := SendUnit(Initial(), e1.unit);
    IdrGoesOut(s, e2.unit);
    TwoSteps(e1, e2);
  }

  lemma IdrGoesOut(s: State, u: Unit)
    requires s.Valid() && s.up && s.lines == [Line(true, [], [])]
    requires SeesIdr(u.frame.payload) && |u.frame.payload| == 4 && u.script == [Accepted(HEADER_SIZE + 4)]
    ensures var t := SendUnit(s, u);
            |t.lines| == 1 && t.lines[0].primed && t.lines[0].whole == [u.frame]
  {
    hide SeesIdr, SeesParameterSets, CachedSlice, Encode;
    assert SendAll(HEADER_SIZE + 4, 0, u.script).complete;
  }
}
