/** What the scanner's flags and its cached slice mean for the access unit they were taken from. */
module AnnexBTheorems {
  import opened Wrappers
  import opened Bytes
  import opened AnnexB

  /** One of the first NALs of the unit, as many as the tables hold, is of this type. */
  predicate AmongFirst(data: seq<byte>, kind: nat) {
    exists k :: 0 <= k < |Nals(data, 0)| && k < MAX_NALS && Kind(data, Nals(data, 0)[k]) == kind
  }

  /** A type is reported exactly if it is that of one of the first 64 NALs of the unit. */
  lemma FlagsAreExact(data: seq<byte>, kind: nat)
    ensures kind in Kinds(data) <==> AmongFirst(data, kind)
  {
    var ps := Nals(data, 0);
    if kind in Kinds(data) {
      var k :| 0 <= k < |Kinds(data)| && Kinds(data)[k] == kind;
      assert Kind(data, ps[k]) == kind;
    }
    if AmongFirst(data, kind) {
      var k :| 0 <= k < |ps| && k < MAX_NALS && Kind(data, ps[k]) == kind;
      assert Kinds(data)[k] == kind;
    }
  }

  /** A type occurs exactly if it is that of some NAL of the list. */
  lemma OccursInList(data: seq<byte>, kind: nat)
    ensures HasKind(data, kind) <==> exists k :: 0 <= k < |Nals(data, 0)| && Kind(data, Nals(data, 0)[k]) == kind
  {
    var ps := Nals(data, 0);
    if HasKind(data, kind) {
      var q: nat :| q < |data| && IsNal(data, q) && Kind(data, q) == kind;
      var k := NalsComplete(data, 0, q);
      assert Kind(data, ps[k]) == kind;
    }
    if exists k :: 0 <= k < |ps| && Kind(data, ps[k]) == kind {
      var k :| 0 <= k < |ps| && Kind(data, ps[k]) == kind;
      assert IsNal(data, ps[k]);
    }
  }

  /**
  The report agrees with the unit exactly if the type does not occur, or not only behind the tables. It always
  does for units with at most 64 NALs.
  */
  lemma FlagsAgree(data: seq<byte>, kind: nat)
    ensures kind in Kinds(data) ==> HasKind(data, kind)
    ensures (kind in Kinds(data) <==> HasKind(data, kind)) <==>
              AmongFirst(data, kind) ||
              (forall k :: MAX_NALS <= k < |Nals(data, 0)| ==> Kind(data, Nals(data, 0)[k]) != kind)
    ensures |Nals(data, 0)| <= MAX_NALS ==> (kind in Kinds(data) <==> HasKind(data, kind))
  {
    hide Nals, Kinds, Kind, HasKind, IsNal;
    FlagsAreExact(data, kind);
    OccursInList(data, kind);
    var ps := Nals(data, 0);
    if HasKind(data, kind) && !AmongFirst(data, kind) {
      var k :| 0 <= k < |ps| && Kind(data, ps[k]) == kind;
      assert k >= MAX_NALS;
    }
    if AmongFirst(data, kind) {
      FirstOccurs(data, kind);
    }
  }

  lemma FirstOccurs(data: seq<byte>, kind: nat)
    requires AmongFirst(data, kind)
    ensures HasKind(data, kind)
  {
    hide Nals, Kind;
    var k :| 0 <= k < |Nals(data, 0)| && k < MAX_NALS && Kind(data, Nals(data, 0)[k]) == kind;
    assert IsNal(data, Nals(data, 0)[k]);
  }

  // ---- The cached slice ----

  lemma SliceNal(data: seq<byte>, from: nat, to: nat, q: nat)
    requires from <= to <= |data|
    ensures IsNal(data[from..to], q) <==> IsNal(data, from + q) && from + q + 3 < to
    ensures IsNal(data[from..to], q) ==> Kind(data[from..to], q) == Kind(data, from + q)
  {
  }

  /** A later NAL starts behind the header of an earlier one, unless that header is a zero byte. */
  lemma StartsApart(data: seq<byte>, p: nat, q: nat)
    requires IsNal(data, p) && IsNal(data, q) && p < q
    ensures p < Start(data, q)
    ensures Kind(data, p) != 0 ==> p + 3 < Start(data, q)
  {
    assert q >= p + 3;
  }

  /** The NALs of the unit that lie in the slice that runs from the j-th NAL to the NAL numbered end. */
  lemma NalInSlice(data: seq<byte>, j: nat, end: nat, to: nat, q: nat) returns (m: nat)
    requires var ps := Nals(data, 0);
             && j < end <= |ps|
             && to == (if end < |ps| then Start(data, ps[end]) else |data|)
             && Start(data, ps[j]) <= q && q + 3 < to && IsNal(data, q)
    ensures j <= m < end && Nals(data, 0)[m] == q
  {
    var ps := Nals(data, 0);
    m := NalsComplete(data, 0, q);
    if m < j {
      NalsAscend(data, 0, m, j);
      StartsApart(data, q, ps[j]);
    }
    if end < m {
      NalsAscend(data, 0, end, m);
    }
  }

  lemma SliceHolds(data: seq<byte>, j: nat, end: nat, to: nat, m: nat)
    requires var ps := Nals(data, 0);
             && j <= m < end <= |ps|
             && to == (if end < |ps| then Start(data, ps[end]) else |data|)
             && Kind(data, ps[m]) != 0
    ensures Start(data, Nals(data, 0)[j]) <= Nals(data, 0)[m] && Nals(data, 0)[m] + 3 < to
  {
    var ps := Nals(data, 0);
    if j < m {
      NalsAscend(data, 0, j, m);
    }
    if end < |ps| {
      NalsAscend(data, 0, m, end);
      StartsApart(data, ps[m], ps[end]);
    }
  }

  /** Where the run of parameter sets that gets cached begins and ends, as positions in the tables. */
  function RunFrom(data: seq<byte>): nat {
    FirstSps(Kinds(data), 0)
  }

  function RunTo(data: seq<byte>): nat {
    RunEnd(Kinds(data), RunFrom(data))
  }

  /** The scanner saw where the run ends, or there are only parameter sets behind its tables. */
  predicate RunIsClosed(data: seq<byte>) {
    || RunTo(data) < |Kinds(data)|
    || forall m :: MAX_NALS <= m < |Nals(data, 0)| ==> IsSet(Kind(data, Nals(data, 0)[m]))
  }

  /** Where the slice ends among all NALs of the unit: at the one that ends the run, or behind the last. */
  function SliceBound(data: seq<byte>): (bound: nat)
    ensures bound <= |Nals(data, 0)|
  {
    if RunTo(data) < |Kinds(data)| then RunTo(data) else |Nals(data, 0)|
  }

  lemma SliceIs(data: seq<byte>) returns (from: nat, to: nat)
    requires CachedSlice(data).Some?
    ensures from < to <= |data| && to - from <= MAX_PARAMETER_SETS && CachedSlice(data) == Some(data[from..to])
    ensures var ps, j, bound := Nals(data, 0), RunFrom(data), SliceBound(data);
            && j < bound && from == Start(data, ps[j])
            && to == (if bound < |ps| then Start(data, ps[bound]) else |data|)
  {
    from, to := Start(data, Nals(data, 0)[RunFrom(data)]), SliceEnd(data, RunTo(data));
  }

  lemma RunKinds(data: seq<byte>) returns (sps: nat, pps: nat)
    requires CachedSlice(data).Some?
    ensures var ps, j, end := Nals(data, 0), RunFrom(data), RunTo(data);
            && j <= sps < end <= SliceBound(data) && j <= pps < end
            && (forall m :: j <= m < end ==> IsSet(Kind(data, ps[m])))
            && Kind(data, ps[sps]) == SPS && Kind(data, ps[pps]) == PPS
  {
    hide Nals, Kinds, IsNal, Start;
    var kinds, j, end := Kinds(data), RunFrom(data), RunTo(data);
    forall m | 0 <= m < |kinds| ensures kinds[m] == Kind(data, Nals(data, 0)[m]) {
      KindIs(data, m);
    }
    var i :| 0 <= i < |kinds[j..end]| && kinds[j..end][i] == PPS;
    sps, pps := j, j + i;
    assert kinds[pps] == PPS;
  }

  lemma KindIs(data: seq<byte>, m: nat)
    requires m < |Kinds(data)|
    ensures Kinds(data)[m] == Kind(data, Nals(data, 0)[m])
  {
  }

  /** Every parameter set of the run is in the slice. */
  lemma SliceHasNal(data: seq<byte>, m: nat)
    requires CachedSlice(data).Some? && RunFrom(data) <= m < SliceBound(data)
    requires Kind(data, Nals(data, 0)[m]) != 0
    ensures HasKind(CachedSlice(data).value, Kind(data, Nals(data, 0)[m]))
    ensures exists q: nat :: IsNal(CachedSlice(data).value, q)
                             && Kind(CachedSlice(data).value, q) == Kind(data, Nals(data, 0)[m])
  {
    hide CachedSlice, RunFrom, RunTo, Nals, Start, SliceBound;
    var from, to := SliceIs(data);
    SliceHolds(data, RunFrom(data), SliceBound(data), to, m);
    SliceNal(data, from, to, Nals(data, 0)[m] - from);
  }

  /** A cached slice fits the cache and holds at least one parameter set of each type. */
  lemma CachedSliceHasBoth(data: seq<byte>)
    requires CachedSlice(data).Some?
    ensures var s := CachedSlice(data).value;
            1 <= |s| <= MAX_PARAMETER_SETS && HasKind(s, SPS) && HasKind(s, PPS)
  {
    hide CachedSlice, RunFrom, RunTo, Kind, IsNal, Start, HasKind, SliceBound;
    var from, to := SliceIs(data);
    var sps, pps := RunKinds(data);
    SliceHasNal(data, sps);
    SliceHasNal(data, pps);
  }

  lemma SliceKinds(data: seq<byte>, m: nat)
    requires CachedSlice(data).Some? && RunIsClosed(data) && RunFrom(data) <= m < SliceBound(data)
    ensures IsSet(Kind(data, Nals(data, 0)[m]))
  {
    var sps, pps := RunKinds(data);
  }

  lemma ClosedRunIsClean(data: seq<byte>)
    requires CachedSlice(data).Some? && RunIsClosed(data)
    ensures OnlyParameterSets(CachedSlice(data).value)
  {
    hide CachedSlice, RunFrom, RunTo, Nals, Start, SliceBound, RunIsClosed;
    var from, to := SliceIs(data);
    var s := CachedSlice(data).value;
    forall q: nat | IsNal(s, q) ensures IsSet(Kind(s, q)) {
      SliceNal(data, from, to, q);
      var m := NalInSlice(data, RunFrom(data), SliceBound(data), to, from + q);
      SliceKinds(data, m);
    }
  }

  /** A NAL behind the tables of the scanner lies in the slice when the run reaches their end. */
  lemma OpenRunIsNotClean(data: seq<byte>)
    requires CachedSlice(data).Some? && !RunIsClosed(data)
    ensures !OnlyParameterSets(CachedSlice(data).value)
  {
    hide CachedSlice, RunFrom, Nals;
    var ps := Nals(data, 0);
    var m :| MAX_NALS <= m < |ps| && !IsSet(Kind(data, ps[m]));
    var from, to := SliceIs(data);
    var sps, pps := RunKinds(data);
    NalsAscend(data, 0, RunFrom(data), m);
    SliceNal(data, from, to, ps[m] - from);
  }

  /** It holds parameter sets only exactly if the run was seen to end, or nothing else follows. */
  lemma CachedSliceIsClean(data: seq<byte>)
    requires CachedSlice(data).Some?
    ensures OnlyParameterSets(CachedSlice(data).value) <==> RunIsClosed(data)
  {
    hide CachedSlice, RunIsClosed, OnlyParameterSets;
    if RunIsClosed(data) {
      ClosedRunIsClean(data);
    } else {
      OpenRunIsNotClean(data);
    }
  }

  /** A unit whose NALs all fit the tables leaves a clean slice. */
  lemma SmallUnitsCacheCleanly(data: seq<byte>)
    requires CachedSlice(data).Some? && |Nals(data, 0)| <= MAX_NALS
    ensures OnlyParameterSets(CachedSlice(data).value)
  {
    CachedSliceIsClean(data);
  }

  // ---- Which slice is cached ----

  /** The parameter sets from the first sequence parameter set on, among the first 64 NALs, with a picture one. */
  predicate IsRun(data: seq<byte>, j: nat, end: nat) {
    var ps := Nals(data, 0);
    var seen := if |ps| <= 64 then |ps| else 64;
    && j < end <= seen
    && Kind(data, ps[j]) == 7 && (forall i :: 0 <= i < j ==> Kind(data, ps[i]) != 7)
    && (forall i :: j <= i < end ==> Kind(data, ps[i]) in {7, 8})
    && (exists i :: j <= i < end && Kind(data, ps[i]) == 8)
    && (end < seen ==> Kind(data, ps[end]) !in {7, 8})
  }

  /** Where the run starts in the unit. */
  function RunBegins(data: seq<byte>, j: nat): nat
    requires j < |Nals(data, 0)|
  {
    Start(data, Nals(data, 0)[j])
  }

  /** Where the NAL behind the run starts, or the unit ends. */
  function RunEnds(data: seq<byte>, end: nat): nat {
    if end < |Nals(data, 0)| && end < 64 then Start(data, Nals(data, 0)[end]) else |data|
  }

  lemma {:induction false} RunEndIs(kinds: seq<nat>, k: nat, r: nat)
    requires k <= r <= |kinds| && (forall i :: k <= i < r ==> IsSet(kinds[i])) && (r < |kinds| ==> !IsSet(kinds[r]))
    ensures RunEnd(kinds, k) == r
    decreases r - k
  {
    if k < r {
      RunEndIs(kinds, k + 1, r);
    }
  }

  /**
  Of a unit with such a run the run is cached, from its first start code up to whatever comes behind it, if that is at
  most 512 bytes; whether the unit has a picture makes no difference.
  */
  lemma RunIsCached(data: seq<byte>, j: nat, end: nat)
    requires IsRun(data, j, end)
    ensures var from, to := RunBegins(data, j), RunEnds(data, end);
            from < to <= |data| && CachedSlice(data) == if to - from <= 512 then Some(data[from..to]) else None
  {
    hide Nals, Kind, IsNal, RunEnd, FirstSps;
    var ps, kinds := Nals(data, 0), Kinds(data);
    forall m | 0 <= m < |kinds| ensures kinds[m] == Kind(data, ps[m]) {
      KindIs(data, m);
    }
    FirstSpsIs(kinds, 0, j);
    RunEndIs(kinds, j, end);
    var i :| j <= i < end && Kind(data, ps[i]) == 8;
    assert kinds[j..end][i - j] == PPS;
    SliceHolds(data, j, end, if end < |ps| then Start(data, ps[end]) else |data|, j);
    RunBounds(data, j, end);
  }

  lemma RunBounds(data: seq<byte>, j: nat, end: nat)
    requires j < end <= |Kinds(data)|
    ensures RunBegins(data, j) == Start(data, Seen(data)[j]) <= Nals(data, 0)[j] && RunBegins(data, j) < |data|
    ensures RunEnds(data, end) == SliceEnd(data, end) <= |data|
  {
    StartInUnit(data, end);
  }

  /** Nothing is cached of any other unit. */
  lemma NothingElseIsCached(data: seq<byte>)
    ensures CachedSlice(data).Some? ==> IsRun(data, RunFrom(data), RunTo(data))
  {
    hide Nals, Kind, IsNal, Start, FirstSps, RunEnd;
    var ps, kinds := Nals(data, 0), Kinds(data);
    forall m | 0 <= m < |kinds| ensures kinds[m] == Kind(data, ps[m]) {
      KindIs(data, m);
    }
    if CachedSlice(data).Some? {
      var j, end := RunFrom(data), RunTo(data);
      FirstSpsMisses(kinds, 0);
      var i :| 0 <= i < |kinds[j..end]| && kinds[j..end][i] == PPS;
      assert Kind(data, ps[j + i]) == 8;
    }
  }

  lemma {:induction false} FirstSpsMisses(kinds: seq<nat>, k: nat)
    requires k <= |kinds|
    ensures forall i :: k <= i < FirstSps(kinds, k) ==> kinds[i] != SPS
    decreases |kinds| - k
  {
    if k < |kinds| && kinds[k] != SPS {
      FirstSpsMisses(kinds, k + 1);
    }
  }

  // ---- Units with more NALs than the scanner has room for ----

  /** Start codes with the given NAL headers behind them. */
  function Headers(hs: seq<byte>): (data: seq<byte>)
    ensures |data| == 4 * |hs|
  {
    seq(4 * |hs|, i requires 0 <= i < 4 * |hs| =>
      if i % 4 == 3 then hs[i / 4] else if i % 4 == 2 then 1 else 0)
  }

  lemma {:induction false} HeadersNals(hs: seq<byte>, k: nat)
    requires k <= |hs| && forall i :: 0 <= i < |hs| ==> hs[i] != 0
    ensures var ps := Nals(Headers(hs), 4 * k);
            |ps| == |hs| - k && forall i :: 0 <= i < |ps| ==> ps[i] == 4 * (k + i)
    decreases |hs| - k
  {
    var data := Headers(hs);
    if k < |hs| {
      assert data[4 * k] == 0 && data[4 * k + 1] == 0 && data[4 * k + 2] == 1;
      assert data[4 * k + 3] == hs[k];
      NalsSkip(data, 4 * k);
      assert Nals(data, 4 * k + 3) == Nals(data, 4 * k + 4);
      HeadersNals(hs, k + 1);
    }
  }

  lemma HeadersKinds(hs: seq<byte>)
    requires forall i :: 0 <= i < |hs| ==> hs[i] != 0
    ensures |Nals(Headers(hs), 0)| == |hs|
    ensures forall i :: 0 <= i < |hs| ==> Nals(Headers(hs), 0)[i] == 4 * i && Kind(Headers(hs), 4 * i) == hs[i] % 32
    ensures |Kinds(Headers(hs))| == if |hs| <= MAX_NALS then |hs| else MAX_NALS
    ensures forall i :: 0 <= i < |Kinds(Headers(hs))| ==> Kinds(Headers(hs))[i] == hs[i] % 32
  {
    hide Nals, Headers;
    var data, ps := Headers(hs), Nals(Headers(hs), 0);
    HeadersNals(hs, 0);
    forall i | 0 <= i < |hs| ensures ps[i] == 4 * i && Kind(data, 4 * i) == hs[i] % 32 {
      HeaderAt(hs, i);
      assert ps[i] == 4 * (0 + i);
    }
  }

  lemma HeaderAt(hs: seq<byte>, i: nat)
    requires i < |hs|
    ensures Headers(hs)[4 * i + 3] == hs[i]
  {
  }

  /** An IDR slice behind 64 other NALs goes unreported. */
  lemma MissedIdrWitness()
    ensures var data := Headers(seq(64, i => 9) + [5]);
            HasKind(data, IDR) && IDR !in Kinds(data)
  {
    var hs: seq<byte> := seq(64, i => 9) + [5];
    HeadersKinds(hs);
    assert IsNal(Headers(hs), 4 * 64);
  }

  /** 62 access unit delimiters, a parameter set of each type and a slice of a picture. */
  function LongUnit(): (hs: seq<byte>)
    ensures |hs| == 65 && (forall i :: 0 <= i < 62 ==> hs[i] == 9) && hs[62] == 7 && hs[63] == 8 && hs[64] == 1
    ensures forall i :: 0 <= i < |hs| ==> hs[i] != 0
  {
    seq(62, i => 9) + [7, 8, 1]
  }

  /** A run of parameter sets that fills the tables drags whatever follows into the cache. */
  lemma UncleanCacheWitness()
    ensures var data := Headers(LongUnit());
            CachedSlice(data).Some? && !OnlyParameterSets(CachedSlice(data).value)
  {
    hide Nals, Kinds, Kind, CachedSlice, LongUnit, Headers, RunEnd, OnlyParameterSets, FirstSps;
    var data := Headers(LongUnit());
    HeadersKinds(LongUnit());
    WitnessIsCached(data, Kinds(data));
    CachedSliceIsClean(data);
    assert !IsSet(Kind(data, Nals(data, 0)[64]));
  }

  lemma WitnessIsCached(data: seq<byte>, kinds: seq<nat>)
    requires |data| == 260 && |kinds| == 64 && kinds == Kinds(data)
    requires (forall i :: 0 <= i < 62 ==> kinds[i] == 9) && kinds[62] == SPS && kinds[63] == PPS
    requires Nals(data, 0)[62] == 248
    ensures CachedSlice(data).Some? && RunTo(data) == 64
  {
    hide Nals, Kinds, Kind;
    FirstSpsIs(kinds, 0, 62);
    assert RunEnd(kinds, 62) == 64;
    assert kinds[62..64][1] == PPS;
  }

  lemma {:induction false} FirstSpsIs(kinds: seq<nat>, k: nat, r: nat)
    requires k <= r < |kinds| && kinds[r] == SPS && forall m :: k <= m < r ==> kinds[m] != SPS
    ensures FirstSps(kinds, k) == r
    decreases r - k
  {
    if k < r {
      FirstSpsIs(kinds, k + 1, r);
    }
  }
}
