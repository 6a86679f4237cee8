/** The maneuver store as it is in rgd_hook.c: parallel arrays that lookups and assignments update in place. */
module RgdSlotMap {
  import opened RgdSlots
  import opened Tlv
  import opened Wrappers

  class SlotMap {
    const index: array<nat>
    const used: array<nat>
    const ver: array<nat>
    const data: array<Maneuver>
    var clock: nat
    var versions: nat
    var listPresent: bool
    var listCount: nat
    const list: array<nat>

    ghost function Repr(): set<object> {
      {this, index, used, ver, data, list}
    }

    ghost predicate Valid()
      reads this
    {
      && index.Length == used.Length == ver.Length == data.Length == SLOTS
      && list.Length == LIST_MAX && listCount <= LIST_MAX
      && index != used && index != ver && used != ver && index != list && used != list && ver != list
    }

    ghost function Model(): (s: Slots)
      requires Valid()
      reads this, Repr()
      ensures s.Valid()
    {
      Slots(index[..], used[..], ver[..], data[..], clock, versions)
    }

    ghost function Shown(): Listing
      requires Valid()
      reads this, Repr()
    {
      Listing(listPresent, list[..listCount])
    }

    constructor ()
      ensures Valid() && fresh(Repr()) && Model() == Reset() && Shown() == Listing(false, [])
    {
      index := new nat[SLOTS](i => EMPTY);
      used := new nat[SLOTS](i => 0);
      ver := new nat[SLOTS](i => 0);
      data := new Maneuver[SLOTS](i => NOTHING);
      list := new nat[LIST_MAX](i => 0);
      clock, versions, listPresent, listCount := 0, 0, false, 0;
    }

    /** rgd_maneuver_map_reset; the data of a slot is only marked as not present. */
    method MapReset()
      requires Valid()
      modifies this, index, used, ver, data
      ensures Valid() && Model() == Reset() && Shown() == Listing(false, [])
    {
      listPresent, listCount, clock, versions := false, 0, 0, 0;
      for i := 0 to SLOTS
        invariant Valid() && !listPresent && listCount == 0 && clock == 0 && versions == 0
        invariant forall k :: 0 <= k < i ==> index[k] == EMPTY && used[k] == 0 && ver[k] == 0 && data[k] == NOTHING
      {
        index[i], used[i], ver[i], data[i] := EMPTY, 0, 0, NOTHING;
      }
      assert index[..] == Reset().index && used[..] == Reset().used;
      assert ver[..] == Reset().ver && data[..] == Reset().data;
    }

    /** rgd_find_slot_for_iap_index_no_touch */
    method FindSlot(x: nat) returns (i: nat)
      requires Valid()
      ensures i == Find(index[..], x)
    {
      i := 0;
      while i < SLOTS && index[i] != x
        invariant i <= SLOTS && Find(index[..], x) == FindFrom(index[..], x, i)
      {
        i := i + 1;
      }
    }

    /** rgd_is_active_index */
    method IsActiveIndex(x: nat) returns (active: bool)
      requires Valid()
      ensures active == IsActive(Shown(), x)
    {
      if !listPresent {
        return false;
      }
      for i := 0 to listCount
        invariant x !in list[..i]
      {
        if list[i] == x {
          assert list[..listCount][i] == x;
          return true;
        }
      }
      active := false;
    }

    method TouchSlot(i: nat)
      requires Valid() && i < SLOTS
      modifies this`clock, used
      ensures Valid() && Model() == Touch(old(Model()), i) && Shown() == old(Shown())
    {
      clock := clock + 1;
      used[i] := clock;
    }

    method AssignSlot(i: nat, x: nat)
      requires Valid() && i < SLOTS
      modifies this`clock, this`versions, index, used, ver
      ensures Valid() && Model() == Assign(old(Model()), i, x) && Shown() == old(Shown())
    {
      index[i] := x;
      clock, versions := clock + 1, versions + 1;
      used[i] := clock;
      ver[i] := versions;
    }

    /** The scan for the least recently used slot, over those not on display or over all of them. */
    method ScanVictim(all: bool) returns (v: nat)
      requires Valid()
      ensures v == VictimFrom(Model(), if all then NONE_ACTIVE else Shown(), 0, SLOTS)
    {
      ghost var l := if all then NONE_ACTIVE else Shown();
      v := SLOTS;
      for i := 0 to SLOTS
        invariant v <= SLOTS && VictimFrom(Model(), l, 0, SLOTS) == VictimFrom(Model(), l, i, v)
      {
        var active := false;
        if !all {
          active := IsActiveIndex(index[i]);
        }
        if !active && (v == SLOTS || used[i] < used[v]) {
          v := i;
        }
      }
    }

    /** rgd_slot_for_iap_index(x, true) */
    method SlotForIndex(x: nat) returns (i: nat)
      requires Valid()
      modifies this`clock, this`versions, index, used, ver, data
      ensures Valid() && Lookup(Model(), i) == SlotFor(old(Model()), old(Shown()), x) && Shown() == old(Shown())
    {
      hide VictimFrom, FindFrom;
      i := FindSlot(x);
      if i < SLOTS {
        TouchSlot(i);
        return;
      }
      i := FindSlot(EMPTY);
      if i < SLOTS {
        AssignSlot(i, x);
        return;
      }
      i := ScanVictim(false);
      if i == SLOTS {
        i := ScanVictim(true);
      }
      assert i == Victim(Model(), Shown());
      AssignSlot(i, x);
      data[i] := NOTHING;
    }

    /** rgd_slot_for_iap_index(x, false) */
    method RefreshIndex(x: nat) returns (i: nat)
      requires Valid()
      modifies this`clock, used
      ensures Valid() && Model() == Refresh(old(Model()), x) && i == Find(old(Model()).index, x)
      ensures Shown() == old(Shown())
    {
      i := FindSlot(x);
      if i < SLOTS {
        TouchSlot(i);
      }
    }

    method ResolveLinkedLanes(i: nat)
      requires Valid() && i < SLOTS
      modifies this`clock, used, data
      ensures Valid() && Model() == Resolve(old(Model()), i) && Shown() == old(Shown())
    {
      hide FindFrom, LastWord;
      var m := data[i];
      var link := LinkOf(m);
      if link.None? || m.lanes.Some? {
        return;
      }
      var j := RefreshIndex(link.value);
      if j == SLOTS || !HasLanes(data[j]) {
        return;
      }
      data[i] := m.(lanes := data[j].lanes);
    }

    method BackpropagateLanes(i: nat)
      requires Valid() && i < SLOTS
      modifies data
      ensures Valid() && Model() == Backpropagate(old(Model()), i) && Shown() == old(Shown())
    {
      hide LastWord;
      var source := data[i];
      if !HasLanes(source) || index[i] == EMPTY {
        return;
      }
      ghost var after := Backpropagate(Model(), i).data;
      for k := 0 to SLOTS
        invariant data[i] == source
        invariant forall j :: 0 <= j < SLOTS ==> data[j] == if j < k then after[j] else old(data[j])
      {
        if k != i && LinkOf(data[k]) == Some(index[i]) && data[k].lanes.None? {
          data[k] := data[k].(lanes := source.lanes);
        }
      }
      assert data[..] == after;
    }

    /** The part of write_bus_maneuver_partial that changes the store. */
    method KeepManeuver(x: nat, m: Maneuver) returns (i: nat)
      requires Valid()
      modifies this`clock, this`versions, index, used, ver, data
      ensures Valid() && Model() == Keep(old(Model()), old(Shown()), x, m) && Shown() == old(Shown())
      ensures i == SlotFor(old(Model()), old(Shown()), x).at
    {
      hide SlotFor, Resolve, Backpropagate;
      i := SlotForIndex(x);
      data[i] := m;
      ResolveLinkedLanes(i);
      if data[i].lanes.Some? {
        BackpropagateLanes(i);
      }
    }

    /** The list part of write_bus_snapshot_from_cache: a new list replaces the one on display. */
    method SetList(items: seq<nat>)
      requires Valid() && |items| <= LIST_MAX
      modifies this`listPresent, this`listCount, list
      ensures Valid() && Model() == old(Model()) && Shown() == Listing(true, items)
    {
      listPresent, listCount := true, 0;
      while listCount < |items|
        invariant Valid() && listCount <= |items| && listPresent && list[..listCount] == items[..listCount]
        invariant Model() == old(Model())
      {
        list[listCount] := items[listCount];
        listCount := listCount + 1;
      }
    }

    /** Characters that a slot number takes in the text. */
    function Digits(i: nat): nat {
      if i < 10 then 1 else 2
    }

    /**
    The slots named by the published maneuver_list. The length of the text is tracked as in the source; it
    never comes near the size of its buffer, so nothing is cut off.
    */
    method PublishList() returns (slots: seq<nat>)
      requires Valid()
      ensures slots == Published(Model(), Shown().items)
    {
      slots := [];
      var length := 0;
      for k := 0 to listCount
        invariant slots == Published(Model(), list[..k]) && length <= 3 * |slots| && |slots| <= k
      {
        assert list[..k + 1][..k] == list[..k];
        var i := FindSlot(list[k]);
        if i < SLOTS && HasType(data[i]) {
          length := length + Digits(i) + (if slots == [] then 0 else 1);
          slots := slots + [i];
          assert length < 128 - 4;
        }
      }
    }
  }
}
