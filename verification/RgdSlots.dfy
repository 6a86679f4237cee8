/**
The maneuver store of rgd_hook.c as functions on values: 32 slots that maneuver indices are remapped to, evicted
in the order they were last used, and the list of maneuvers that are on display.
*/
module RgdSlots {
  import opened Bytes
  import opened Tlv
  import opened Wrappers

  const SLOTS: nat := 32
  const EMPTY: nat := 0xFFFF
  const LIST_MAX: nat := 16
  const HEADER: nat := 6

  /**
  A parsed maneuver (message 0x5202): the TLVs its fields come from, and lanes copied from another maneuver,
  which the parser never provides.
  */
  datatype Maneuver = Maneuver(tlvs: seq<Tlv>, lanes: Option<seq<nat>>)

  const NOTHING: Maneuver := Maneuver([], None)

  function ParseManeuver(message: seq<byte>): Maneuver {
    Maneuver(if |message| < HEADER then [] else Tlvs(message, HEADER), None)
  }

  /** The first two bytes of the last TLV with this id that has them. */
  function LastWord(tlvs: seq<Tlv>, id: nat): Option<nat> {
    if tlvs == [] then None
    else
      var t := tlvs[|tlvs| - 1];
      if t.id == id && |t.value| >= 2 then Some(FromBe16(t.value[0], t.value[1])) else LastWord(tlvs[..|tlvs| - 1], id)
  }

  function IndexOf(m: Maneuver): Option<nat> {
    LastWord(m.tlvs, 1)
  }

  function LinkOf(m: Maneuver): Option<nat> {
    LastWord(m.tlvs, 12)
  }

  predicate HasType(m: Maneuver) {
    exists i :: 0 <= i < |m.tlvs| && m.tlvs[i].id == 3 && m.tlvs[i].value != []
  }

  datatype Slots = Slots(index: seq<nat>, used: seq<nat>, ver: seq<nat>, data: seq<Maneuver>, clock: nat,
                         versions: nat)
  {
    predicate Valid() {
      |index| == |used| == |ver| == |data| == SLOTS
    }
  }

  datatype Listing = Listing(present: bool, items: seq<nat>)

  function Reset(): (s: Slots)
    ensures s.Valid()
  {
    Slots(seq(SLOTS, i => EMPTY), seq(SLOTS, i => 0), seq(SLOTS, i => 0), seq(SLOTS, i => NOTHING), 0, 0)
  }

  // ---- Finding a slot ----

  /** The first slot from i on with this index. */
  function FindFrom(index: seq<nat>, x: nat, i: nat): (r: nat)
    requires i <= |index|
    ensures i <= r <= |index|
    ensures r < |index| ==> index[r] == x
    ensures forall k :: i <= k < r ==> index[k] != x
    decreases |index| - i
  {
    if i == |index| || index[i] == x then i else FindFrom(index, x, i + 1)
  }

  function Find(index: seq<nat>, x: nat): nat {
    FindFrom(index, x, 0)
  }

  predicate IsActive(l: Listing, x: nat) {
    l.present && x in l.items
  }

  /** The scan for a victim from slot i on; SLOTS stands for none found yet. */
  function VictimFrom(s: Slots, l: Listing, i: nat, best: nat): (v: nat)
    requires s.Valid() && i <= SLOTS && best <= SLOTS
    ensures v <= SLOTS
    decreases SLOTS - i
  {
    if i == SLOTS then best
    else if !IsActive(l, s.index[i]) && (best == SLOTS || s.used[i] < s.used[best]) then VictimFrom(s, l, i + 1, i)
    else VictimFrom(s, l, i + 1, best)
  }

  function Touch(s: Slots, i: nat): (t: Slots)
    requires s.Valid() && i < SLOTS
    ensures t.Valid()
  {
    s.(used := s.used[i := s.clock + 1], clock := s.clock + 1)
  }

  function Assign(s: Slots, i: nat, x: nat): (t: Slots)
    requires s.Valid() && i < SLOTS
    ensures t.Valid()
  {
    s.(index := s.index[i := x], used := s.used[i := s.clock + 1], clock := s.clock + 1,
       ver := s.ver[i := s.versions + 1], versions := s.versions + 1)
  }

  const NONE_ACTIVE: Listing := Listing(false, [])

  /** The slot to take when none is free: the least recently used that is not on display, or of all. */
  function Victim(s: Slots, l: Listing): (v: nat)
    requires s.Valid()
    ensures v < SLOTS
  {
    var v := VictimFrom(s, l, 0, SLOTS);
    if v < SLOTS then v
    else
      VictimIsLeast(s, NONE_ACTIVE, 0, SLOTS);
      VictimFrom(s, NONE_ACTIVE, 0, SLOTS)
  }

  /** The scan ends with the least recently used of all slots that are not on display, if there are any. */
  lemma {:induction false} VictimIsLeast(s: Slots, l: Listing, i: nat, best: nat)
    requires s.Valid() && i <= SLOTS && best <= SLOTS
    ensures var v := VictimFrom(s, l, i, best);
            && (v < SLOTS ==> v == best || (i <= v && !IsActive(l, s.index[v])))
            && (best < SLOTS ==> v < SLOTS && s.used[v] <= s.used[best])
            && (forall k :: i <= k < SLOTS && !IsActive(l, s.index[k]) ==> v < SLOTS && s.used[v] <= s.used[k])
    decreases SLOTS - i
  {
    if i < SLOTS {
      var take := !IsActive(l, s.index[i]) && (best == SLOTS || s.used[i] < s.used[best]);
      VictimIsLeast(s, l, i + 1, if take then i else best);
    }
  }

  datatype Lookup = Lookup(slots: Slots, at: nat)

  /** rgd_slot_for_iap_index with create set. */
  function SlotFor(s: Slots, l: Listing, x: nat): (r: Lookup)
    requires s.Valid()
    ensures r.slots.Valid() && r.at < SLOTS
  {
    if Find(s.index, x) < SLOTS then Lookup(Touch(s, Find(s.index, x)), Find(s.index, x))
    else if Find(s.index, EMPTY) < SLOTS then Lookup(Assign(s, Find(s.index, EMPTY), x), Find(s.index, EMPTY))
    else
      var v := Victim(s, l);
      Lookup(Assign(s, v, x).(data := s.data[v := NOTHING]), v)
  }

  /** The same without create. */
  function Refresh(s: Slots, x: nat): (t: Slots)
    requires s.Valid()
    ensures t.Valid()
  {
    if Find(s.index, x) < SLOTS then Touch(s, Find(s.index, x)) else s
  }

  // ---- Storing a maneuver ----

  predicate HasLanes(m: Maneuver) {
    m.lanes.Some? && m.lanes.value != []
  }

  /** rgd_resolve_linked_lanes */
  function Resolve(s: Slots, i: nat): (t: Slots)
    requires s.Valid() && i < SLOTS
    ensures t.Valid()
  {
    var m := s.data[i];
    if LinkOf(m).None? || m.lanes.Some? then s
    else
      var t := Refresh(s, LinkOf(m).value);
      var j := Find(s.index, LinkOf(m).value);
      if j < SLOTS && HasLanes(s.data[j]) then t.(data := t.data[i := m.(lanes := s.data[j].lanes)]) else t
  }

  /** rgd_backpropagate_linked_lanes */
  function Backpropagate(s: Slots, i: nat): (t: Slots)
    requires s.Valid() && i < SLOTS
    ensures t.Valid()
  {
    if !HasLanes(s.data[i]) || s.index[i] == EMPTY then s
    else s.(data := seq(SLOTS, k requires 0 <= k < SLOTS =>
                      if k != i && LinkOf(s.data[k]) == Some(s.index[i]) && s.data[k].lanes.None?
                      then s.data[k].(lanes := s.data[i].lanes) else s.data[k]))
  }

  /** The part of write_bus_maneuver_partial behind the checks. */
  function Keep(s: Slots, l: Listing, x: nat, m: Maneuver): (t: Slots)
    requires s.Valid()
    ensures t.Valid()
  {
    var r := SlotFor(s, l, x);
    var stored := Resolve(r.slots.(data := r.slots.data[r.at := m]), r.at);
    if stored.data[r.at].lanes.Some? then Backpropagate(stored, r.at) else stored
  }

  // ---- Publishing ----

  /** The slots that the published maneuver_list names. */
  function Published(s: Slots, items: seq<nat>): (slots: seq<nat>)
    requires s.Valid()
    ensures |slots| <= |items| && forall k :: 0 <= k < |slots| ==> slots[k] < SLOTS
  {
    if items == [] then []
    else
      var before := Published(s, items[..|items| - 1]);
      var i := Find(s.index, items[|items| - 1]);
      if i < SLOTS && HasType(s.data[i]) then before + [i] else before
  }
}
