/**
What linking does to maneuvers that have lanes. The parser provides none (RgdStore.LinkedLanesAreNeverCopied), so this
is what the code promises if it ever does.
*/
module RgdLanes {
  import opened RgdSlots
  import opened Wrappers

  /** The lanes that a maneuver is stored with: its own, or else those of the one it links to, if that has any. */
  function StoredLanes(s: Slots, m: Maneuver): Option<seq<nat>>
    requires s.Valid()
  {
    if m.lanes.Some? || LinkOf(m).None? then m.lanes
    else
      var j := Find(s.index, LinkOf(m).value);
      if j < SLOTS && HasLanes(s.data[j]) then s.data[j].lanes else None
  }

  lemma ResolveShares(s: Slots, i: nat)
    requires s.Valid() && i < SLOTS
    ensures var t := Resolve(s, i);
            && t.index == s.index && t.ver == s.ver
            && t.data == s.data[i := s.data[i].(lanes := StoredLanes(s, s.data[i]))]
  {
    hide FindFrom, LastWord;
  }

  /**
  Behind storing a maneuver every maneuver that links to it has lanes if it has any itself. Nothing else changes: lanes
  of their own are kept, and only the lanes of the maneuver stored are passed on, only to those that link to it.
  */
  lemma LinkedShareLanes(s: Slots, l: Listing, x: nat, m: Maneuver, k: nat)
    requires s.Valid() && x != EMPTY && k < SLOTS
    ensures var r, t := SlotFor(s, l, x), Keep(s, l, x, m);
            var before := r.slots.(data := r.slots.data[r.at := m]);
            var lanes := StoredLanes(before, m);
            && t.data[r.at] == m.(lanes := lanes)
            && (k != r.at ==> t.data[k] == before.data[k].(lanes := t.data[k].lanes))
            && (k != r.at && before.data[k].lanes.Some? ==> t.data[k] == before.data[k])
            && (HasLanes(t.data[r.at]) && LinkOf(t.data[k]) == Some(x) && k != r.at && before.data[k].lanes.None? ==>
                  t.data[k].lanes == lanes)
            && (t.data[k].lanes.Some? && k != r.at && before.data[k].lanes.None? ==>
                  HasLanes(t.data[r.at]) && LinkOf(t.data[k]) == Some(x) && t.data[k].lanes == lanes)
            && (HasLanes(t.data[r.at]) && LinkOf(t.data[k]) == Some(x) ==> t.data[k].lanes.Some?)
  {
    hide FindFrom, LastWord, SlotFor, Resolve;
    var r := SlotFor(s, l, x);
    var before := r.slots.(data := r.slots.data[r.at := m]);
    SlotIndex(s, l, x);
    ResolveShares(before, r.at);
  }

  lemma SlotIndex(s: Slots, l: Listing, x: nat)
    requires s.Valid()
    ensures SlotFor(s, l, x).slots.index[SlotFor(s, l, x).at] == x
  {
    hide VictimFrom;
  }
}
