/**
A 0x5204 message and the lane information inside it: rgd_parse_lane_guidance and rgd_parse_lane_information_value in
rgd_tlv.c. A lane begins with an index TLV; status, angle and highlight TLVs belong to the lane before them, and to a
first one if there is none.
*/
module LaneParse {
  import opened Bytes
  import opened Sequences
  import opened Tlv
  import opened Wrappers

  const INDEX: nat := 0
  const STATUS: nat := 1
  const ANGLES: nat := 2
  const HIGHLIGHT: nat := 3
  const MAX_ANGLES: nat := 16
  const NO_ANGLE: nat := 1000

  datatype Lane = Lane(position: nat, direction: nat, status: nat, angles: seq<nat>)

  predicate Attaches(id: nat) {
    id == STATUS || id == ANGLES || id == HIGHLIGHT
  }

  // ---- What the lanes are ----

  /** The TLVs of each lane, as the index TLVs separate them. */
  function Groups(ts: seq<Tlv>): (gs: seq<seq<Tlv>>)
    ensures forall k :: 0 <= k < |gs| ==> gs[k] != []
    decreases |ts|
  {
    if ts == [] then []
    else
      var before, t := Groups(ts[..|ts| - 1]), ts[|ts| - 1];
      if t.id == INDEX then before + [[t]]
      else if !Attaches(t.id) then before
      else if before == [] then [[t]]
      else before[|before| - 1 := before[|before| - 1] + [t]]
  }

  /** A value as 16-bit numbers, an odd byte at its end as one of its own. */
  function Numbers(value: seq<byte>): seq<nat> {
    if value == [] then []
    else if |value| == 1 then [Single(value[0])]
    else [FromBe16(value[0], value[1])] + Numbers(value[2..])
  }

  function Single(b: byte): nat {
    var n: int := b;
    n
  }

  /** The first number of a value. */
  function Leading(value: seq<byte>): nat
    requires value != []
  {
    Numbers(value)[0]
  }

  function AllAngles(group: seq<Tlv>): seq<nat> {
    if group == [] then []
    else
      var t := group[|group| - 1];
      AllAngles(group[..|group| - 1]) + if t.id == ANGLES then Numbers(t.value) else []
  }

  /** The first angle that is one. */
  function FirstReal(angles: seq<nat>): nat {
    if angles == [] then NO_ANGLE else if angles[0] != NO_ANGLE then angles[0] else FirstReal(angles[1..])
  }

  function LastHighlight(group: seq<Tlv>): Option<nat> {
    if group == [] then None
    else
      var t := group[|group| - 1];
      if t.id == HIGHLIGHT && t.value != [] then Some(Leading(t.value)) else LastHighlight(group[..|group| - 1])
  }

  function LastStatus(group: seq<Tlv>): nat {
    if group == [] then 0
    else
      var t := group[|group| - 1];
      if t.id == STATUS && t.value != [] then Single(t.value[0]) else LastStatus(group[..|group| - 1])
  }

  function Position(t: Tlv, k: nat): nat {
    if t.id == INDEX && t.value != [] then Leading(t.value) else k
  }

  /** The k-th lane: its highlight decides the direction, and without one the first real angle of at most 16. */
  function LaneOf(group: seq<Tlv>, k: nat): Lane
    requires group != []
  {
    var angles := First(AllAngles(group), MAX_ANGLES);
    Lane(Position(group[0], k),
         match LastHighlight(group) case Some(d) => d case None => FirstReal(angles),
         LastStatus(group), angles)
  }

  // ---- The parser, step by step ----

  /** The lanes so far, whether the last one has a highlight, and whether one more was refused. */
  datatype Parser = Parser(lanes: seq<Lane>, highlight: bool, full: bool)

  function Reset(k: nat): Lane {
    Lane(k, NO_ANGLE, 0, [])
  }

  function AddAngles(l: Lane, highlight: bool, value: seq<byte>): Lane {
    var more := First(Numbers(value), if |l.angles| < MAX_ANGLES then MAX_ANGLES - |l.angles| else 0);
    l.(angles := l.angles + more,
       direction := if !highlight && l.direction == NO_ANGLE then FirstReal(more) else l.direction)
  }

  function Attach(p: Parser, t: Tlv): Parser
    requires p.lanes != []
  {
    var i := |p.lanes| - 1;
    if t.id == STATUS && t.value != [] then p.(lanes := p.lanes[i := p.lanes[i].(status := Single(t.value[0]))])
    else if t.id == ANGLES then p.(lanes := p.lanes[i := AddAngles(p.lanes[i], p.highlight, t.value)])
    else if t.id == HIGHLIGHT && t.value != [] then
      p.(lanes := p.lanes[i := p.lanes[i].(direction := Leading(t.value))], highlight := true)
    else p
  }

  function Step(p: Parser, t: Tlv, max: nat): Parser {
    if p.full then p
    else if t.id == INDEX then
      if |p.lanes| >= max then p.(full := true)
      else Parser(p.lanes + [Reset(|p.lanes|).(position := Position(t, |p.lanes|))], false, false)
    else if !Attaches(t.id) then p
    else if p.lanes == [] then
      if max == 0 then p.(full := true) else Attach(Parser([Reset(0)], false, false), t)
    else Attach(p, t)
  }

  function Fold(ts: seq<Tlv>, max: nat): Parser
    decreases |ts|
  {
    if ts == [] then Parser([], false, false) else Step(Fold(ts[..|ts| - 1], max), ts[|ts| - 1], max)
  }

  function Lanes(value: seq<byte>, max: nat): seq<Lane> {
    if max == 0 || |value| < 4 then [] else Fold(Tlvs(value, 0), max).lanes
  }

  // ---- The code ----

  /** The loop over the angles of one TLV. */
  method CollectAngles(l: Lane, highlight: bool, value: seq<byte>) returns (r: Lane)
    requires |l.angles| <= MAX_ANGLES
    ensures r == AddAngles(l, highlight, value)
  {
    hide Numbers, FirstReal, First;
    r := l;
    var p := 0;
    ghost var more: seq<nat> := [];
    assert value[0..] == value;
    NoReal();
    while p < |value| && |r.angles| < MAX_ANGLES
      invariant p <= |value| && |more| <= MAX_ANGLES - |l.angles|
      invariant Numbers(value) == more + Numbers(value[p..])
      invariant r == l.(angles := l.angles + more,
                        direction := if !highlight && l.direction == NO_ANGLE then FirstReal(more) else l.direction)
    {
      NumbersStep(value, p);
      var angle := if p + 1 < |value| then FromBe16(value[p], value[p + 1]) else Single(value[p]);
      p := if p + 1 < |value| then p + 2 else p + 1;
      FirstRealGrows(more, angle);
      more := more + [angle];
      r := r.(angles := r.angles + [angle]);
      if !highlight && r.direction == NO_ANGLE {
        r := r.(direction := angle);
      }
    }
    NumbersEnd(value, p, more, MAX_ANGLES - |l.angles|);
  }

  lemma NoReal()
    ensures FirstReal([]) == NO_ANGLE
  {
  }

  lemma NumbersEnd(value: seq<byte>, p: nat, more: seq<nat>, max: nat)
    requires p <= |value| && Numbers(value) == more + Numbers(value[p..])
    requires |more| <= max && (p == |value| || |more| == max)
    ensures more == First(Numbers(value), max)
  {
    assert p == |value| ==> Numbers(value[p..]) == [];
  }

  lemma NumbersStep(value: seq<byte>, p: nat)
    requires p < |value|
    ensures p + 1 < |value| ==> Numbers(value[p..]) == [FromBe16(value[p], value[p + 1])] + Numbers(value[p + 2..])
    ensures p + 1 == |value| ==> Numbers(value[p..]) == [Single(value[p])] + Numbers(value[p + 1..])
  {
    if p + 1 < |value| {
      assert value[p..][2..] == value[p + 2..];
    }
  }

  lemma {:induction false} FirstRealGrows(angles: seq<nat>, angle: nat)
    ensures FirstReal(angles + [angle]) == if FirstReal(angles) == NO_ANGLE then angle else FirstReal(angles)
  {
    if angles != [] {
      assert (angles + [angle])[1..] == angles[1..] + [angle];
      FirstRealGrows(angles[1..], angle);
    }
  }

  /** The switch on one sub-TLV, for the lane that is being filled. */
  method AttachTo(l: Lane, highlight: bool, id: nat, value: seq<byte>) returns (r: Lane, marked: bool)
    requires Attaches(id) && |l.angles| <= MAX_ANGLES
    ensures Attach(Parser([l], highlight, false), Tlv(id, value)) == Parser([r], marked, false)
    ensures |r.angles| <= MAX_ANGLES
  {
    hide Numbers, FirstReal;
    r, marked := l, highlight;
    if id == STATUS {
      if |value| >= 1 {
        r := r.(status := Single(value[0]));
      }
    } else if id == ANGLES {
      r := CollectAngles(l, highlight, value);
    } else if |value| >= 1 {
      LeadingIs(value);
      r := r.(direction := if |value| >= 2 then FromBe16(value[0], value[1]) else Single(value[0]));
      marked := true;
    }
  }

  lemma LeadingIs(value: seq<byte>)
    requires value != []
    ensures Leading(value) == if |value| >= 2 then FromBe16(value[0], value[1]) else Single(value[0])
  {
  }

  /** rgd_parse_lane_information_value */
  method ParseLanes(value: seq<byte>, max: nat) returns (lanes: seq<Lane>)
    ensures lanes == Lanes(value, max)
  {
    hide Tlvs, Numbers, Position, Leading, AddAngles;
    lanes := [];
    if max == 0 || |value| < 4 {
      return;
    }
    var off, highlight := 0, false;
    ghost var seen, all := [], Tlvs(value, 0);
    while off + 4 <= |value|
      invariant off <= |value| && all == seen + Tlvs(value, off)
      invariant Fold(seen, max) == Parser(lanes, highlight, false) && |lanes| <= max
      invariant lanes != [] ==> |lanes[|lanes| - 1].angles| <= MAX_ANGLES
      decreases |value| - off
    {
      var length, id := Word(value, off), Word(value, off + 2);
      TlvsUnfold(value, off);
      if length < 4 || off + length > |value| {
        break;
      }
      var sub := value[off + 4..off + length];
      ghost var t := Tlv(id, sub);
      assert all == (seen + [t]) + Tlvs(value, off + length) && (seen + [t])[..|seen|] == seen;
      if id == INDEX {
        if |lanes| >= max {
          FullStays(seen + [t], Tlvs(value, off + length), max);
          return;
        }
        LanePosition(t, |lanes|);
        var lane := Reset(|lanes|);
        if |sub| >= 2 {
          lane := lane.(position := FromBe16(sub[0], sub[1]));
        } else if |sub| >= 1 {
          lane := lane.(position := Single(sub[0]));
        }
        lanes, highlight := lanes + [lane], false;
      } else if Attaches(id) {
        if lanes == [] {
          lanes, highlight := [Reset(0)], false;
        }
        var i := |lanes| - 1;
        var lane, marked := AttachTo(lanes[i], highlight, id, sub);
        AttachLast(lanes, highlight, t);
        lanes, highlight := lanes[i := lane], marked;
      }
      seen := seen + [t];
      off := off + length;
    }
    TlvsUnfold(value, off);
    assert all == seen;
  }

  lemma LanePosition(t: Tlv, k: nat)
    requires t.id == INDEX
    ensures Position(t, k) == if |t.value| >= 2 then FromBe16(t.value[0], t.value[1])
                              else if |t.value| >= 1 then Single(t.value[0]) else k
  {
  }

  lemma AttachLast(lanes: seq<Lane>, highlight: bool, t: Tlv)
    requires lanes != []
    ensures var p := Attach(Parser(lanes, highlight, false), t);
            var q := Attach(Parser([lanes[|lanes| - 1]], highlight, false), t);
            && |q.lanes| == 1 && p == Parser(lanes[|lanes| - 1 := q.lanes[0]], q.highlight, false)
  {
    hide AddAngles, Leading;
  }

  lemma {:induction false} FullStays(a: seq<Tlv>, b: seq<Tlv>, max: nat)
    requires Fold(a, max).full
    ensures Fold(a + b, max) == Fold(a, max)
    decreases |b|
  {
    if b == [] {
      assert a + b == a;
    } else {
      assert (a + b)[..|a + b| - 1] == a + b[..|b| - 1];
      FullStays(a, b[..|b| - 1], max);
    }
  }

  // ---- The parser finds the lanes ----

  /** The parser stands behind these TLVs. */
  ghost predicate Tracks(p: Parser, gs: seq<seq<Tlv>>, max: nat)
    requires forall k :: 0 <= k < |gs| ==> gs[k] != []
  {
    && |p.lanes| == (if |gs| <= max then |gs| else max)
    && (p.full <==> |gs| > max)
    && (forall k :: 0 <= k < |p.lanes| ==> p.lanes[k] == LaneOf(gs[k], k))
    && (!p.full && gs != [] ==> (p.highlight <==> LastHighlight(gs[|gs| - 1]).Some?))
  }

  lemma NewLane(t: Tlv, k: nat)
    requires t.id == INDEX
    ensures LaneOf([t], k) == Reset(k).(position := Position(t, k)) && LastHighlight([t]).None?
  {
    OfOne(t);
  }

  /** What a group of one TLV amounts to. */
  lemma OfOne(t: Tlv)
    ensures AllAngles([t]) == if t.id == ANGLES then Numbers(t.value) else []
    ensures LastStatus([t]) == if t.id == STATUS && t.value != [] then Single(t.value[0]) else 0
    ensures LastHighlight([t]) == if t.id == HIGHLIGHT && t.value != [] then Some(Leading(t.value)) else None
  {
    hide Numbers, Leading;
    assert [t][..0] == [];
    assert AllAngles([]) + Numbers(t.value) == Numbers(t.value);
  }

  lemma {:induction false} FirstRealAppend(a: seq<nat>, b: seq<nat>)
    ensures FirstReal(a + b) == if FirstReal(a) == NO_ANGLE then FirstReal(b) else FirstReal(a)
    decreases |a|
  {
    if a == [] {
      assert a + b == b;
    } else {
      assert (a + b)[1..] == a[1..] + b;
      FirstRealAppend(a[1..], b);
    }
  }

  /** Attaching a TLV to the lane of a group gives the lane of the longer group. */
  lemma AttachGrows(group: seq<Tlv>, k: nat, t: Tlv)
    requires group != [] && Attaches(t.id)
    ensures Attach(Parser([LaneOf(group, k)], LastHighlight(group).Some?, false), t)
              == Parser([LaneOf(group + [t], k)], LastHighlight(group + [t]).Some?, false)
  {
    hide Numbers, First, FirstReal, Leading;
    assert (group + [t])[..|group|] == group;
    var angles := First(AllAngles(group), MAX_ANGLES);
    FirstAppend(AllAngles(group), if t.id == ANGLES then Numbers(t.value) else [], MAX_ANGLES);
    if t.id == ANGLES {
      var more := First(Numbers(t.value), MAX_ANGLES - |angles|);
      FirstRealAppend(angles, more);
    } else {
      assert AllAngles(group) + [] == AllAngles(group);
    }
  }

  /** The lane of a group that starts without an index is the one filled from scratch. */
  lemma FirstLane(t: Tlv)
    requires Attaches(t.id)
    ensures Attach(Parser([Reset(0)], false, false), t) == Parser([LaneOf([t], 0)], LastHighlight([t]).Some?, false)
  {
    hide Numbers, Leading, AllAngles, LastStatus, LastHighlight;
    OfOne(t);
    assert Reset(0).angles + First(Numbers(t.value), MAX_ANGLES) == First(Numbers(t.value), MAX_ANGLES);
  }

  lemma {:induction false} FoldTracks(ts: seq<Tlv>, max: nat)
    requires max > 0
    ensures Tracks(Fold(ts, max), Groups(ts), max)
    decreases |ts|
  {
    hide LaneOf, Position, LastHighlight, Attach;
    if ts != [] {
      var before, t := ts[..|ts| - 1], ts[|ts| - 1];
      FoldTracks(before, max);
      StepTracks(Fold(before, max), Groups(before), t, max);
    }
  }

  lemma StepTracks(p: Parser, gs: seq<seq<Tlv>>, t: Tlv, max: nat)
    requires max > 0 && (forall k :: 0 <= k < |gs| ==> gs[k] != []) && Tracks(p, gs, max)
    ensures t.id == INDEX ==> Tracks(Step(p, t, max), gs + [[t]], max)
    ensures !Attaches(t.id) && t.id != INDEX ==> Tracks(Step(p, t, max), gs, max)
    ensures Attaches(t.id) && gs == [] ==> Tracks(Step(p, t, max), [[t]], max)
    ensures Attaches(t.id) && gs != [] ==> Tracks(Step(p, t, max), gs[|gs| - 1 := gs[|gs| - 1] + [t]], max)
  {
    hide LaneOf, Position, LastHighlight, Attach;
    if t.id == INDEX {
      NewLane(t, |gs|);
    } else if Attaches(t.id) && gs == [] {
      FirstLane(t);
    } else if Attaches(t.id) && !p.full {
      AttachLast(p.lanes, p.highlight, t);
      AttachGrows(gs[|gs| - 1], |gs| - 1, t);
    }
  }

  /** The parser finds, of the readable TLVs, exactly the lanes that the index TLVs mark off, up to the limit. */
  lemma LanesAreGroups(value: seq<byte>, max: nat)
    requires max > 0
    ensures var gs, lanes := Groups(Tlvs(value, 0)), Lanes(value, max);
            && |lanes| == (if |gs| <= max then |gs| else max)
            && forall k :: 0 <= k < |lanes| ==> lanes[k] == LaneOf(gs[k], k)
  {
    hide LaneOf, LastHighlight, Fold, Groups;
    FoldTracks(Tlvs(value, 0), max);
    if |value| < 4 {
      NoGroups();
    }
  }

  lemma NoGroups()
    ensures Groups([]) == []
  {
  }

  // ---- The message ----

  const EVENT_TLV: nat := 1
  const LANES_TLV: nat := 2
  const HEADER: nat := 6
  const MAX_LANES: nat := 8

  /** The lane event that a message names, whether it describes lanes at all, and the lanes. */
  datatype Guidance = Guidance(event: Option<nat>, described: bool, lanes: seq<Lane>)

  function Parts(message: seq<byte>): seq<Tlv> {
    if |message| < HEADER then [] else Tlvs(message, HEADER)
  }

  /** One case of the switch. */
  function Store(g: Guidance, t: Tlv): Guidance {
    if t.id == EVENT_TLV && t.value != [] then g.(event := Some(Leading(t.value)))
    else if t.id == LANES_TLV then
      g.(described := true, lanes := if |g.lanes| < MAX_LANES then g.lanes + Lanes(t.value, MAX_LANES - |g.lanes|)
                                     else g.lanes)
    else g
  }

  function Collect(ts: seq<Tlv>): Guidance {
    if ts == [] then Guidance(None, false, []) else Store(Collect(ts[..|ts| - 1]), ts[|ts| - 1])
  }

  function ParseGuidance(message: seq<byte>): Guidance {
    Collect(Parts(message))
  }

  /** rgd_parse_lane_guidance, without component ids and description */
  method ParseLaneGuidance(message: seq<byte>) returns (g: Guidance)
    ensures g == ParseGuidance(message)
  {
    hide Tlvs, Leading, Numbers, Lanes;
    g := Guidance(None, false, []);
    if |message| < HEADER {
      return;
    }
    var off := HEADER;
    ghost var seen, all := [], Tlvs(message, HEADER);
    while off + 4 <= |message|
      invariant off <= |message| && all == seen + Tlvs(message, off) && g == Collect(seen)
      decreases |message| - off
    {
      var length, id := Word(message, off), Word(message, off + 2);
      TlvsUnfold(message, off);
      if length < 4 || off + length > |message| {
        break;
      }
      var value := message[off + 4..off + length];
      ghost var t := Tlv(id, value);
      assert all == (seen + [t]) + Tlvs(message, off + length) && (seen + [t])[..|seen|] == seen;
      if id == EVENT_TLV {
        if |value| >= 1 {
          LeadingIs(value);
          g := g.(event := Some(if |value| >= 2 then FromBe16(value[0], value[1]) else Single(value[0])));
        }
      } else if id == LANES_TLV {
        g := g.(described := true);
        if |value| > 0 && |g.lanes| < MAX_LANES {
          var parsed := ParseLanes(value, MAX_LANES - |g.lanes|);
          g := g.(lanes := g.lanes + parsed);
        } else {
          NoLanes(MAX_LANES - |g.lanes|);
        }
      }
      seen := seen + [t];
      off := off + length;
    }
    TlvsUnfold(message, off);
    assert all == seen;
  }

  lemma NoLanes(max: int)
    ensures max > 0 ==> Lanes([], max) == []
  {
  }

  // ---- What a message says ----

  function EventOf(ts: seq<Tlv>): Option<nat> {
    if ts == [] then None
    else
      var t := ts[|ts| - 1];
      if t.id == EVENT_TLV && t.value != [] then Some(Leading(t.value)) else EventOf(ts[..|ts| - 1])
  }

  /** All lanes of one value, without a limit. */
  function LanesOf(value: seq<byte>): seq<Lane> {
    var gs := Groups(Tlvs(value, 0));
    seq(|gs|, k requires 0 <= k < |gs| => LaneOf(gs[k], k))
  }

  function AllLanes(ts: seq<Tlv>): seq<Lane> {
    if ts == [] then []
    else
      var t := ts[|ts| - 1];
      AllLanes(ts[..|ts| - 1]) + if t.id == LANES_TLV then LanesOf(t.value) else []
  }

  lemma LanesAreFirst(value: seq<byte>, max: nat)
    requires max > 0
    ensures Lanes(value, max) == First(LanesOf(value), max)
  {
    hide Lanes, Groups, LaneOf, Tlvs;
    LanesAreGroups(value, max);
  }

  /** The event named last, and the first 8 of all lanes that the index TLVs of all lane values mark off. */
  lemma {:induction false} LanesAreCollected(ts: seq<Tlv>)
    ensures var g := Collect(ts);
            && g.event == EventOf(ts)
            && (g.described <==> exists i :: 0 <= i < |ts| && ts[i].id == LANES_TLV)
            && g.lanes == First(AllLanes(ts), MAX_LANES)
    decreases |ts|
  {
    hide Lanes, LanesOf, Leading, First;
    FirstOfNone<Lane>(MAX_LANES);
    if ts != [] {
      var before, t := ts[..|ts| - 1], ts[|ts| - 1];
      LanesAreCollected(before);
      assert forall i :: 0 <= i < |before| ==> before[i] == ts[i];
      var more := if t.id == LANES_TLV then LanesOf(t.value) else [];
      FirstAppend(AllLanes(before), more, MAX_LANES);
      var room := MAX_LANES - |Collect(before).lanes|;
      FirstOfNone<Lane>(room);
      if t.id == LANES_TLV && room > 0 {
        LanesAreFirst(t.value, room);
      }
    }
  }
}
