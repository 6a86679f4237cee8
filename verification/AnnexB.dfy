/**
The parameter-set scanner of altscreen_output.c (fwd_scan_parameter_sets) against a declarative reading of
Annex B of ITU-T H.264: a NAL unit follows every 00 00 01 that has a byte after it, and the low five bits of
that byte are its type (Table 7-1: 5 is an IDR slice, 7 a sequence and 8 a picture parameter set).
*/
module AnnexB {
  import opened Wrappers
  import opened Bytes

  const IDR: nat := 5
  const SPS: nat := 7
  const PPS: nat := 8
  const MAX_NALS: nat := 64
  const MAX_PARAMETER_SETS: nat := 512

  // ---- The declarative reading ----

  /** 00 00 01 at q, and a NAL header after it. */
  predicate IsNal(data: seq<byte>, q: nat) {
    q + 3 < |data| && data[q] == 0 && data[q + 1] == 0 && data[q + 2] == 1
  }

  function Kind(data: seq<byte>, q: nat): nat
    requires IsNal(data, q)
  {
    data[q + 3] % 32
  }

  predicate IsSet(kind: nat) {
    kind == SPS || kind == PPS
  }

  predicate HasKind(data: seq<byte>, kind: nat) {
    exists q {:trigger IsNal(data, q)} :: 0 <= q < |data| && IsNal(data, q) && Kind(data, q) == kind
  }

  predicate HasParameterSet(data: seq<byte>) {
    HasKind(data, SPS) || HasKind(data, PPS)
  }

  ghost predicate OnlyParameterSets(data: seq<byte>) {
    forall q: nat :: IsNal(data, q) ==> IsSet(Kind(data, q))
  }

  /** Where a NAL starts, counting the zero byte of a four-byte start code. */
  function Start(data: seq<byte>, q: nat): nat
    requires IsNal(data, q)
  {
    if q > 0 && data[q - 1] == 0 then q - 1 else q
  }

  /** All NALs from i on, in order. */
  function Nals(data: seq<byte>, i: nat): (ps: seq<nat>)
    ensures forall k :: 0 <= k < |ps| ==> ps[k] >= i && IsNal(data, ps[k])
    decreases |data| - i
  {
    if i + 3 >= |data| then []
    else if IsNal(data, i) then [i] + Nals(data, i + 1)
    else Nals(data, i + 1)
  }

  lemma {:induction false} NalsComplete(data: seq<byte>, i: nat, q: nat) returns (k: nat)
    requires q >= i && IsNal(data, q)
    ensures k < |Nals(data, i)| && Nals(data, i)[k] == q
    decreases |data| - i
  {
    if q == i {
      k := 0;
    } else {
      k := NalsComplete(data, i + 1, q);
      if IsNal(data, i) {
        k := k + 1;
      }
    }
  }

  lemma {:induction false} NalsAscend(data: seq<byte>, i: nat, j: nat, k: nat)
    requires j < k < |Nals(data, i)|
    ensures Nals(data, i)[j] < Nals(data, i)[k]
    decreases |data| - i
  {
    if IsNal(data, i) {
      if j > 0 {
        NalsAscend(data, i + 1, j - 1, k - 1);
      }
    } else {
      NalsAscend(data, i + 1, j, k);
    }
  }

  /** No NAL starts inside the start code of another. */
  lemma NalsSkip(data: seq<byte>, q: nat)
    requires IsNal(data, q)
    ensures Nals(data, q) == [q] + Nals(data, q + 3)
  {
    assert !IsNal(data, q + 1) && !IsNal(data, q + 2);
    assert Nals(data, q + 1) == Nals(data, q + 2) == Nals(data, q + 3);
  }

  // ---- What the scanner reports ----

  /** The NALs the scanner has room for. */
  function Seen(data: seq<byte>): seq<nat> {
    var ps := Nals(data, 0);
    if |ps| <= MAX_NALS then ps else ps[..MAX_NALS]
  }

  function Kinds(data: seq<byte>): (ks: seq<nat>)
    ensures |ks| == |Seen(data)| <= MAX_NALS
  {
    var ps := Seen(data);
    seq(|ps|, k requires 0 <= k < |ps| => Kind(data, ps[k]))
  }

  /** The first sequence parameter set from index k on. */
  function FirstSps(kinds: seq<nat>, k: nat): (r: nat)
    requires k <= |kinds|
    ensures k <= r <= |kinds|
    ensures r < |kinds| ==> kinds[r] == SPS
    decreases |kinds| - k
  {
    if k == |kinds| || kinds[k] == SPS then k else FirstSps(kinds, k + 1)
  }

  /** The end of the run of parameter sets that begins at index k. */
  function RunEnd(kinds: seq<nat>, k: nat): (r: nat)
    requires k <= |kinds|
    ensures k <= r <= |kinds|
    ensures forall m :: k <= m < r ==> IsSet(kinds[m])
    ensures r < |kinds| ==> !IsSet(kinds[r])
    decreases |kinds| - k
  {
    if k == |kinds| || !IsSet(kinds[k]) then k else RunEnd(kinds, k + 1)
  }

  /** Where the slice to cache ends: at the NAL after the run, or at the end of the unit. */
  function SliceEnd(data: seq<byte>, end: nat): nat
    requires end <= |Seen(data)|
  {
    if end < |Seen(data)| then Start(data, Seen(data)[end]) else |data|
  }

  /** The parameter sets that a unit leaves in the cache, if it has any that fit. */
  function CachedSlice(data: seq<byte>): Option<seq<byte>> {
    var kinds := Kinds(data);
    var j := FirstSps(kinds, 0);
    var end := RunEnd(kinds, j);
    if j == |kinds| || PPS !in kinds[j..end] then None
    else
      var from, to := Start(data, Seen(data)[j]), SliceEnd(data, end);
      if from < to <= |data| && to - from <= MAX_PARAMETER_SETS then Some(data[from..to]) else None
  }

  // ---- The scanner ----

  method ScanParameterSets(data: seq<byte>)
    returns (hasIdr: bool, hasParameterSets: bool, cached: Option<seq<byte>>)
    ensures hasIdr <==> IDR in Kinds(data)
    ensures hasParameterSets <==> SPS in Kinds(data) || PPS in Kinds(data)
    ensures cached == CachedSlice(data)
  {
    hide Nals, Kinds, Seen, Start, Kind;
    var starts, types, count := FindNals(data);
    ghost var kinds := Kinds(data);
    hasIdr, hasParameterSets, cached := false, false, None;
    for j := 0 to count
      invariant hasIdr <==> IDR in kinds[..j]
      invariant hasParameterSets <==> SPS in kinds[..j] || PPS in kinds[..j]
    {
      assert kinds[..j + 1] == kinds[..j] + [types[j]];
      if types[j] == IDR {
        hasIdr := true;
      }
      if types[j] == SPS || types[j] == PPS {
        hasParameterSets := true;
      }
    }
    assert kinds[..count] == kinds;
    var first := 0;
    while first < count && types[first] != SPS
      invariant first <= count && FirstSps(kinds, 0) == FirstSps(kinds, first)
    {
      first := first + 1;
    }
    if first < count {
      var havePps, end := RunOfParameterSets(types, count, first, kinds);
      if havePps {
        var sliceEnd := if end < count then starts[end] else |data|;
        var from := starts[first];
        if from < sliceEnd && sliceEnd - from <= MAX_PARAMETER_SETS {
          StartInUnit(data, end);
          cached := Some(data[from..sliceEnd]);
        }
      }
    }
  }

  lemma StartInUnit(data: seq<byte>, end: nat)
    requires end <= |Seen(data)|
    ensures SliceEnd(data, end) <= |data|
  {
  }

  method RunOfParameterSets(types: array<nat>, count: nat, first: nat, ghost kinds: seq<nat>)
    returns (havePps: bool, end: nat)
    requires first <= count <= types.Length && types[..count] == kinds
    ensures end == RunEnd(kinds, first)
    ensures havePps <==> PPS in kinds[first..end]
  {
    havePps, end := false, first;
    while end < count && (types[end] == SPS || types[end] == PPS)
      invariant first <= end <= count && RunEnd(kinds, first) == RunEnd(kinds, end)
      invariant havePps <==> PPS in kinds[first..end]
    {
      assert kinds[first..end + 1] == kinds[first..end] + [types[end]];
      if types[end] == PPS {
        havePps := true;
      }
      end := end + 1;
    }
  }

  /** The scanner has not just stepped over a zero byte that belongs to a start code here. */
  predicate AtBoundary(data: seq<byte>, i: nat) {
    i == 0 || i > |data| || data[i - 1] != 0 || !IsNal(data, i)
  }

  /** The length of the start code at i that a NAL header follows, or 0. */
  method StartCodeAt(data: seq<byte>, i: nat) returns (code: nat)
    requires i + 4 <= |data| && AtBoundary(data, i)
    ensures code == 0 || code == 3 || code == 4
    ensures code == 0 ==> !IsNal(data, i) && AtBoundary(data, i + 1)
    ensures code != 0 ==> IsNal(data, i + code - 3) && Start(data, i + code - 3) == i && AtBoundary(data, i + code)
    ensures code == 4 ==> !IsNal(data, i)
  {
    code := 0;
    if data[i] == 0 && data[i + 1] == 0 && data[i + 2] == 1 {
      code := 3;
    } else if i + 5 <= |data| && data[i] == 0 && data[i + 1] == 0 && data[i + 2] == 0 && data[i + 3] == 1 {
      code := 4;
    }
  }

  lemma NalsStep(data: seq<byte>, i: nat, code: nat)
    requires code == 0 || code == 3 || code == 4
    requires code == 0 || code == 4 ==> !IsNal(data, i)
    requires code != 0 ==> IsNal(data, i + code - 3)
    ensures code == 0 ==> Nals(data, i) == Nals(data, i + 1)
    ensures code != 0 ==> Nals(data, i) == [i + code - 3] + Nals(data, i + code)
  {
    if code != 0 {
      NalsSkip(data, i + code - 3);
    }
  }

  lemma SeenIs(data: seq<byte>, found: seq<nat>, i: nat)
    requires Nals(data, 0) == found + Nals(data, i) && |found| <= MAX_NALS
    requires i + 4 > |data| || |found| == MAX_NALS
    ensures found == Seen(data)
  {
  }

  /** The first loop of the scanner: it fills the two fixed tables. */
  method FindNals(data: seq<byte>) returns (starts: array<nat>, types: array<nat>, count: nat)
    ensures starts.Length == types.Length == MAX_NALS && count == |Seen(data)|
    ensures types[..count] == Kinds(data)
    ensures forall k :: 0 <= k < count ==> starts[k] == Start(data, Seen(data)[k])
  {
    hide Nals, Seen, AtBoundary, IsNal;
    starts, types, count := new nat[MAX_NALS], new nat[MAX_NALS], 0;
    ghost var found: seq<nat> := [];
    var i := 0;
    AtBoundaryZero(data);
    while i + 4 <= |data| && count < MAX_NALS
      invariant count == |found| <= MAX_NALS && AtBoundary(data, i)
      invariant Nals(data, 0) == found + Nals(data, i)
      invariant forall k :: 0 <= k < count ==> IsNal(data, found[k]) && starts[k] == Start(data, found[k])
                                               && types[k] == Kind(data, found[k])
      decreases |data| - i
    {
      var code := StartCodeAt(data, i);
      NalsStep(data, i, code);
      if code != 0 {
        ghost var q := i + code - 3;
        assert found + Nals(data, i) == (found + [q]) + Nals(data, i + code);
        starts[count] := i;
        types[count] := NalType(data, i, code);
        found := found + [q];
        count := count + 1;
        i := i + code;
      } else {
        i := i + 1;
      }
    }
    SeenIs(data, found, i);
  }

  lemma AtBoundaryZero(data: seq<byte>)
    ensures AtBoundary(data, 0)
  {
  }

  function NalType(data: seq<byte>, i: nat, code: nat): (kind: nat)
    requires code >= 3 && IsNal(data, i + code - 3)
    ensures kind == Kind(data, i + code - 3)
  {
    data[i + code] % 32
  }
}
