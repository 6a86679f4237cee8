/** The 0x5204 message from the side of the phone: a writer of lanes, and the round trip through the parser. */
module LaneMessage {
  import opened Bytes
  import opened LaneParse
  import opened Sequences
  import opened Tlv
  import opened Wrappers
  import R = RouteMessage

  /** A lane with its angles and its highlighted direction. */
  predicate Writable(l: Lane) {
    && l.position < 0x1_0000 && l.direction < 0x1_0000 && l.status < 0x100
    && |l.angles| <= 16 && forall i :: 0 <= i < |l.angles| ==> l.angles[i] < 0x1_0000
  }

  predicate AllWritable(ls: seq<Lane>) {
    forall i :: 0 <= i < |ls| ==> Writable(ls[i])
  }

  /** The TLVs of one lane: where it is, its status, all its angles, and the one that is highlighted. */
  function LaneTlvs(l: Lane): seq<Tlv>
    requires Writable(l)
  {
    [Tlv(0, R.BigEndian(l.position, 2)), Tlv(1, R.BigEndian(l.status, 1)), Tlv(2, R.Bytes16(l.angles)),
     Tlv(3, R.BigEndian(l.direction, 2))]
  }

  function AllTlvs(ls: seq<Lane>): seq<Tlv>
    requires AllWritable(ls)
  {
    if ls == [] then [] else AllTlvs(ls[..|ls| - 1]) + LaneTlvs(ls[|ls| - 1])
  }

  /** A message about a lane event. */
  function Message(header: seq<byte>, event: nat, ls: seq<Lane>): seq<byte>
    requires AllWritable(ls)
  {
    header + EncodeAll([Tlv(1, R.BigEndian(event, 2)), Tlv(2, EncodeAll(AllTlvs(ls)))])
  }

  // ---- One lane ----

  lemma {:induction false} NumbersRead(ws: seq<nat>)
    requires forall i :: 0 <= i < |ws| ==> ws[i] < 0x1_0000
    ensures Numbers(R.Bytes16(ws)) == ws
  {
    if ws != [] {
      var b := R.Bytes16(ws);
      assert b[2..] == R.Bytes16(ws[1..]);
      NumbersRead(ws[1..]);
      R.WordReads(ws[0]);
      assert b[0] == R.BigEndian(ws[0], 2)[0] && b[1] == R.BigEndian(ws[0], 2)[1];
      assert ws == [ws[0]] + ws[1..];
    }
  }

  lemma WordLeads(n: nat)
    requires n < 0x1_0000
    ensures Leading(R.BigEndian(n, 2)) == n
  {
    R.WordReads(n);
    LeadingIs(R.BigEndian(n, 2));
  }

  lemma ByteReads(n: nat)
    requires n < 0x100
    ensures Single(R.BigEndian(n, 1)[0]) == n
  {
    assert R.BigEndian(n / 256, 0) == [];
  }

  /** The TLVs of a lane give the lane. */
  lemma LaneReads(l: Lane, k: nat)
    requires Writable(l)
    ensures LaneOf(LaneTlvs(l), k) == l
  {
    hide R.BigEndian, R.Bytes16, Numbers, Leading, First;
    var ts := LaneTlvs(l);
    assert ts[..3] == [ts[0], ts[1], ts[2]] && ts[..3][..2] == [ts[0], ts[1]];
    assert [ts[0], ts[1]][..1] == [ts[0]] && [ts[0]][..0] == [];
    WordLeads(l.position);
    WordLeads(l.direction);
    ByteReads(l.status);
    NumbersRead(l.angles);
    AnglesOf(ts, l);
    StatusOf(ts, l);
    assert LastHighlight(ts) == Some(l.direction);
    assert First(l.angles, MAX_ANGLES) == l.angles by {
      Whole(l.angles);
    }
  }

  lemma Whole(angles: seq<nat>)
    requires |angles| <= 16
    ensures First(angles, MAX_ANGLES) == angles
  {
  }

  lemma AnglesOf(ts: seq<Tlv>, l: Lane)
    requires Writable(l) && ts == LaneTlvs(l) && Numbers(R.Bytes16(l.angles)) == l.angles
    ensures AllAngles(ts) == l.angles
  {
    hide R.BigEndian, R.Bytes16, Numbers;
    assert ts[..3] == [ts[0], ts[1], ts[2]] && ts[..3][..2] == [ts[0], ts[1]];
    assert [ts[0], ts[1]][..1] == [ts[0]] && [ts[0]][..0] == [];
    assert AllAngles([ts[0]]) == [];
    assert AllAngles([ts[0], ts[1]]) == [];
    assert AllAngles(ts[..3]) == l.angles;
  }

  lemma StatusOf(ts: seq<Tlv>, l: Lane)
    requires Writable(l) && ts == LaneTlvs(l) && Single(R.BigEndian(l.status, 1)[0]) == l.status
    ensures LastStatus(ts) == l.status
  {
    hide R.BigEndian, R.Bytes16;
    assert ts[..3] == [ts[0], ts[1], ts[2]] && ts[..3][..2] == [ts[0], ts[1]];
    assert LastStatus([ts[0], ts[1]]) == l.status;
  }

  // ---- All lanes ----

  lemma GroupStarts(ts: seq<Tlv>, t: Tlv)
    requires t.id == INDEX
    ensures Groups(ts + [t]) == Groups(ts) + [[t]]
  {
    assert (ts + [t])[..|ts|] == ts;
  }

  lemma GroupGrows(ts: seq<Tlv>, gs: seq<seq<Tlv>>, g: seq<Tlv>, t: Tlv)
    requires Attaches(t.id) && Groups(ts) == gs + [g]
    ensures Groups(ts + [t]) == gs + [g + [t]]
  {
    assert (ts + [t])[..|ts|] == ts;
    assert (gs + [g])[|gs| := g + [t]] == gs + [g + [t]];
  }

  lemma GroupOfLane(ts: seq<Tlv>, l: Lane)
    requires Writable(l)
    ensures Groups(ts + LaneTlvs(l)) == Groups(ts) + [LaneTlvs(l)]
  {
    hide Groups, R.BigEndian, R.Bytes16;
    var us, gs := LaneTlvs(l), Groups(ts);
    GroupStarts(ts, us[0]);
    GroupGrows(ts + [us[0]], gs, [us[0]], us[1]);
    GroupGrows(ts + [us[0]] + [us[1]], gs, [us[0]] + [us[1]], us[2]);
    GroupGrows(ts + [us[0]] + [us[1]] + [us[2]], gs, [us[0]] + [us[1]] + [us[2]], us[3]);
    assert ts + us == ts + [us[0]] + [us[1]] + [us[2]] + [us[3]];
    assert us == [us[0]] + [us[1]] + [us[2]] + [us[3]];
  }

  lemma {:induction false} GroupsOfLanes(ls: seq<Lane>)
    requires AllWritable(ls)
    ensures var gs := Groups(AllTlvs(ls)); |gs| == |ls| && forall k :: 0 <= k < |ls| ==> gs[k] == LaneTlvs(ls[k])
  {
    hide LaneTlvs, Writable;
    if ls == [] {
      NoGroups();
    } else {
      var before := ls[..|ls| - 1];
      GroupsOfLanes(before);
      GroupOfLane(AllTlvs(before), ls[|ls| - 1]);
    }
  }

  lemma LaneFits(l: Lane)
    requires Writable(l)
    ensures AllFit(LaneTlvs(l)) && |EncodeAll(LaneTlvs(l))| <= 64
  {
    hide R.BigEndian, R.Bytes16, Encode, EncodeAll;
    R.WordsSize(l.angles);
    var ts := LaneTlvs(l);
    assert ts == [ts[0]] + ([ts[1]] + ([ts[2]] + ([ts[3]] + [])));
    EncodeCons(ts[0], [ts[1]] + ([ts[2]] + ([ts[3]] + [])));
    EncodeCons(ts[1], [ts[2]] + ([ts[3]] + []));
    EncodeCons(ts[2], [ts[3]] + []);
    EncodeCons(ts[3], []);
  }

  lemma {:induction false} LanesFit(ls: seq<Lane>)
    requires AllWritable(ls)
    ensures AllFit(AllTlvs(ls)) && |EncodeAll(AllTlvs(ls))| <= 64 * |ls|
  {
    hide LaneTlvs, EncodeAll, Writable;
    if ls == [] {
      EncodeCons(Tlv(0, []), []);
    } else {
      var before := ls[..|ls| - 1];
      LanesFit(before);
      LaneFits(ls[|ls| - 1]);
      EncodeAllAppend(AllTlvs(before), LaneTlvs(ls[|ls| - 1]));
    }
  }

  /** Round trip for one value: the lanes that were written are read, up to the limit. */
  lemma LanesRoundTrip(ls: seq<Lane>, max: nat)
    requires AllWritable(ls) && max > 0
    ensures Lanes(EncodeAll(AllTlvs(ls)), max) == First(ls, max)
  {
    hide EncodeAll, Tlvs, Lanes, LaneTlvs, LaneOf, Groups, Writable;
    var ts := AllTlvs(ls);
    var value := EncodeAll(ts);
    LanesFit(ls);
    RoundTrip([], ts);
    assert [] + value == value;
    GroupsOfLanes(ls);
    LanesAreGroups(value, max);
    forall k | 0 <= k < |ls| ensures LaneOf(Groups(ts)[k], k) == ls[k] {
      LaneReads(ls[k], k);
    }
  }

  /** Round trip for a message: its lane event and its lanes, of which there may be eight. */
  lemma MessageRoundTrip(header: seq<byte>, event: nat, ls: seq<Lane>)
    requires |header| == LaneParse.HEADER && AllWritable(ls) && |ls| <= 8 && event < 0x1_0000
    ensures ParseGuidance(Message(header, event, ls)) == LaneParse.Guidance(Some(event), true, ls)
  {
    hide EncodeAll, Tlvs, Lanes, R.BigEndian, AllTlvs, Leading;
    var ts := [Tlv(1, R.BigEndian(event, 2)), Tlv(2, EncodeAll(AllTlvs(ls)))];
    LanesFit(ls);
    RoundTrip(header, ts);
    WordLeads(event);
    LanesRoundTrip(ls, MAX_LANES);
    assert LaneParse.Parts(header + EncodeAll(ts)) == ts;
    assert ts[..1] == [ts[0]] && [ts[0]][..0] == [];
    assert Collect([ts[0]]) == LaneParse.Guidance(Some(event), false, []);
    assert [] + ls == ls;
  }
}
