/**
Maneuver index 0xFFFF, the marker of an empty slot, as an index that a message may carry: it is accepted, it can
push out a live maneuver, and what is stored under it lasts until the next new index.
*/
module RgdSentinel {
  import opened Bytes
  import opened Rgd
  import opened RgdExamples
  import opened RgdRuns
  import opened RgdSlots
  import opened RgdStore
  import opened Tlv
  import opened Wrappers
  import U = RouteUpdate

  // ---- Any store ----

  /** Storing under the marker takes the slot that will be found for it again, and no other empty one before it. */
  lemma StoredAsMarker(s: Slots, l: Listing, m: Maneuver)
    requires s.Valid() && Distinct(s) && NoLanes(s) && |l.items| <= LIST_MAX && m.lanes.None?
    ensures var t, a := Keep(s, l, EMPTY, m), SlotFor(s, l, EMPTY).at;
            Find(t.index, EMPTY) == a && t.data[a] == m && Distinct(t) && NoLanes(t)
  {
    hide FindFrom, SlotFor, VictimFrom, Keep, Refresh, LastWord;
    var r := SlotFor(s, l, EMPTY);
    var t := r.slots.(data := r.slots.data[r.at := m]);
    SlotForIs(s, l, EMPTY);
    KeepIs(s, l, EMPTY, m);
    RefreshIs(t, if LinkOf(m).Some? then LinkOf(m).value else 0);
    assert forall j :: 0 <= j < r.at ==> s.index[j] != EMPTY;
    FindIs(t.index, EMPTY, r.at);
    forall i, j | 0 <= i < j < SLOTS && Occupied(t, i) && Occupied(t, j) ensures t.index[i] != t.index[j] {
      assert Occupied(s, i) && Occupied(s, j);
    }
  }

  /**
  What is stored under 0xFFFF stays just as long as no maneuver with a new index comes: that one takes its slot,
  whatever the store holds and the list on display says.
  */
  lemma SentinelIsLost(s: Slots, l: Listing, m: Maneuver, k: Listing, y: nat, n: Maneuver)
    requires s.Valid() && Distinct(s) && NoLanes(s) && |l.items| <= LIST_MAX && |k.items| <= LIST_MAX
    requires m.lanes.None? && n.lanes.None? && y != EMPTY
    ensures var t, a := Keep(s, l, EMPTY, m), SlotFor(s, l, EMPTY).at;
            var u := Keep(t, k, y, n);
            if Find(t.index, y) < SLOTS then u.index[a] == EMPTY && u.data[a] == m
            else u.index[a] == y && u.data[a] == n
  {
    hide FindFrom, VictimFrom, Keep, Refresh, LastWord;
    StoredAsMarker(s, l, m);
    var t := Keep(s, l, EMPTY, m);
    var r := SlotFor(t, k, y);
    var u := r.slots.(data := r.slots.data[r.at := n]);
    SlotForIs(t, k, y);
    KeepIs(t, k, y, n);
    RefreshIs(u, if LinkOf(n).Some? then LinkOf(n).value else 0);
  }

  // ---- By messages ----

  /** A 0x5202 message that says nothing but its index. */
  function IndexMessage(x: nat): seq<byte> {
    [0x40, 0x40, 0, 12, 0x52, 2] + EncodeAll([Tlv(1, Be16(x))])
  }

  lemma IndexMessageSays(x: nat)
    requires x < TWO_16
    ensures RgdSlots.IndexOf(ParseManeuver(IndexMessage(x))) == Some(x)
    ensures LinkOf(ParseManeuver(IndexMessage(x))) == None
  {
    hide EncodeAll, Tlvs, Be16;
    var t := Tlv(1, Be16(x));
    RoundTrip([0x40, 0x40, 0, 12, 0x52, 2], [t]);
    assert ParseManeuver(IndexMessage(x)).tlvs == [t];
    assert [t][..0] == [];
    assert LastWord([t], 12) == LastWord([t][..0], 12) == None;
    Be16RoundTrip(x);
  }

  /** A route, and then the maneuvers 0, 1, .. below k. */
  function Filling(k: nat): seq<Event> {
    if k == 0 then [UpdateMessage(StateMessage(1), 1)] else Filling(k - 1) + [ManeuverMessage(IndexMessage(k - 1))]
  }

  /** While no list is on display every index is accepted, 0xFFFF as well. */
  lemma EveryIndexIsAccepted(g: Guidance, x: nat)
    requires g.Valid() && g.haveUpdate && !g.shown.present && x < TWO_16
    ensures Stores(g, ManeuverMessage(IndexMessage(x))) == Some(x)
    ensures var h := HandleManeuver(g, IndexMessage(x));
            && h.haveUpdate && !h.shown.present
            && h.slots == Keep(g.slots, g.shown, x, ParseManeuver(IndexMessage(x)))
  {
    hide RgdSlots.IndexOf, Keep, IndexMessage, U.Valid, U.Zero;
    IndexMessageSays(x);
  }

  lemma RouteBegun()
    ensures var g := Exec(Filling(0));
            g.haveUpdate && !g.shown.present && g.slots == Reset()
  {
    hide U.Parse, U.Valid, HardClear, Evidence, NumberOf, StateMessage, Reset, U.Zero, U.Merge, Told, SaysAnything;
    var es := Filling(0);
    assert es[..0] == [];
    StateMessageSays(1);
    NoListInState();
  }

  lemma NoListInState()
    ensures ListOf(U.Parse(StateMessage(1))).None?
  {
    hide EncodeAll, Tlvs;
    var t, m := Tlv(STATE, [1]), StateMessage(1);
    RoundTrip([0x40, 0x40, 0, 11, 0x52, 1], [t]);
    assert U.Parts(m) == [t];
    assert U.Fold(U.Zero(), [t]) == U.Step(U.Zero(), t) by {
      assert [t][1..] == [];
    }
  }

  lemma {:induction false} Filled(k: nat)
    requires k <= SLOTS
    ensures var g := Exec(Filling(k));
            && g.haveUpdate && !g.shown.present
            && forall i :: 0 <= i < SLOTS ==> g.slots.index[i] == if i < k then i else EMPTY
  {
    hide Exec, Apply, HandleManeuver, Keep, Reset, IndexMessage, ParseManeuver, Stores;
    if k == 0 {
      RouteBegun();
      EmptyStore();
    } else {
      Filled(k - 1);
      var es, message := Filling(k - 1), IndexMessage(k - 1);
      ExecMore(es, ManeuverMessage(message));
      ApplyManeuver(Exec(es), message);
      EveryIndexIsAccepted(Exec(es), k - 1);
      NoLanesParsed(message);
      FillNext(Exec(es).slots, Exec(es).shown, k - 1, ParseManeuver(message), es);
    }
  }

  lemma ExecMore(es: seq<Event>, e: Event)
    ensures Exec(es + [e]) == Apply(Exec(es), e)
  {
    hide Apply;
    assert (es + [e])[..|es|] == es;
  }

  lemma NoLanesParsed(message: seq<byte>)
    ensures ParseManeuver(message).lanes.None?
  {
  }

  lemma EmptyStore()
    ensures forall i :: 0 <= i < SLOTS ==> Reset().index[i] == EMPTY
  {
  }

  lemma FillNext(s: Slots, l: Listing, x: nat, m: Maneuver, es: seq<Event>)
    requires s.Valid() && s == Exec(es).slots && l == Exec(es).shown && x < SLOTS && m.lanes.None?
    requires forall i :: 0 <= i < SLOTS ==> s.index[i] == if i < x then i else EMPTY
    ensures forall i :: 0 <= i < SLOTS ==> Keep(s, l, x, m).index[i] == if i < x + 1 then i else EMPTY
  {
    hide Exec, Stored, Touches, Keep, Refresh, VictimFrom, LastWord, Holds, Complete, FindFrom;
    StoreHoldsLatest(es);
    FindIs(s.index, EMPTY, x);
    assert Find(s.index, x) == SLOTS;
    var r := SlotFor(s, l, x);
    KeepIs(s, l, x, m);
    RefreshIs(r.slots.(data := r.slots.data[r.at := m]), if LinkOf(m).Some? then LinkOf(m).value else 0);
  }

  /** In a full store a message with index 0xFFFF is accepted and makes the store give up a live maneuver. */
  lemma SentinelEvicts() returns (x: nat)
    ensures var es := Filling(SLOTS);
            var e := ManeuverMessage(IndexMessage(EMPTY));
            && x < SLOTS && Find(Exec(es).slots.index, x) < SLOTS
            && Stores(Exec(es), e) == Some(EMPTY)
            && Find(Exec(es + [e]).slots.index, x) == SLOTS
  {
    hide Apply, Keep, Refresh, VictimFrom, LastWord, SlotFor, Stored, Touches, Holds, Complete, FindFrom, Filling,
      IndexMessage, Stores;
    var es := Filling(SLOTS);
    var g, m := Exec(es), ParseManeuver(IndexMessage(EMPTY));
    Filled(SLOTS);
    StoreHoldsLatest(es);
    EveryIndexIsAccepted(g, EMPTY);
    x := SlotFor(g.slots, g.shown, EMPTY).at;
    var r := SlotFor(g.slots, g.shown, EMPTY);
    SlotForIs(g.slots, g.shown, EMPTY);
    KeepIs(g.slots, g.shown, EMPTY, m);
    RefreshIs(r.slots.(data := r.slots.data[r.at := m]), if LinkOf(m).Some? then LinkOf(m).value else 0);
    assert (es + [ManeuverMessage(IndexMessage(EMPTY))])[..|es|] == es;
    FindIs(g.slots.index, x, x);
    assert Apply(g, ManeuverMessage(IndexMessage(EMPTY))).slots.index == g.slots.index[x := EMPTY] by {
      ApplyManeuver(g, IndexMessage(EMPTY));
    }
    NotFound(g.slots.index[x := EMPTY], x);
  }

  lemma NotFound(index: seq<nat>, x: nat)
    requires |index| == SLOTS && forall i :: 0 <= i < SLOTS ==> index[i] != x
    ensures Find(index, x) == SLOTS
  {
  }

  lemma ApplyManeuver(g: Guidance, message: seq<byte>)
    requires g.Valid()
    ensures Apply(g, ManeuverMessage(message)) == HandleManeuver(g, message)
  {
  }
}
