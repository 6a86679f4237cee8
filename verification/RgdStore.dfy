/** The maneuver store over whole runs: what it keeps, what it gives up, and what it publishes. */
module RgdStore {
  import opened Rgd
  import opened RgdRuns
  import opened RgdSlots
  import opened Wrappers
  import U = RouteUpdate

  // ---- Lanes ----

  predicate NoLanes(s: Slots)
    requires s.Valid()
  {
    forall i :: 0 <= i < SLOTS ==> s.data[i].lanes.None?
  }

  /**
  Lanes are only ever copied from a slot that has some, and the parser provides none, so resolving links and
  propagating them back does nothing but touch the slot that is linked to.
  */
  lemma LinkedLanesAreNeverCopied(s: Slots, i: nat)
    requires s.Valid() && NoLanes(s) && i < SLOTS
    ensures Resolve(s, i) == (if LinkOf(s.data[i]).Some? then Refresh(s, LinkOf(s.data[i]).value) else s)
    ensures Backpropagate(s, i) == s
  {
    hide FindFrom, LastWord;
  }

  // ---- The store keeps the latest ----

  predicate Occupied(s: Slots, i: nat)
    requires s.Valid() && i < SLOTS
  {
    s.index[i] != EMPTY
  }

  /** Where an index was touched last, counting from 1; 0 if it never was. */
  function LastTouch(touches: seq<nat>, x: nat): (n: nat)
    ensures n <= |touches| && (n > 0 ==> touches[n - 1] == x)
    ensures forall k :: n <= k < |touches| ==> touches[k] != x
  {
    if touches == [] then 0
    else if touches[|touches| - 1] == x then |touches|
    else LastTouch(touches[..|touches| - 1], x)
  }

  predicate Distinct(s: Slots)
    requires s.Valid()
  {
    forall i, j :: 0 <= i < j < SLOTS && Occupied(s, i) && Occupied(s, j) ==> s.index[i] != s.index[j]
  }

  /** Occupied slots hold what was stored last under their index, and know when that was touched last. */
  predicate Holds(s: Slots, stored: map<nat, Maneuver>, touches: seq<nat>)
    requires s.Valid()
  {
    && s.clock == |touches|
    && (forall i :: 0 <= i < SLOTS && Occupied(s, i) ==>
          s.index[i] in stored && s.data[i] == stored[s.index[i]] && s.used[i] == LastTouch(touches, s.index[i]) > 0)
  }

  /** As long as no more than 32 indices were stored, nothing had to be given up. */
  ghost predicate Complete(s: Slots, stored: map<nat, Maneuver>)
    requires s.Valid()
  {
    |stored| > SLOTS || forall x :: x in stored && x != EMPTY ==> Find(s.index, x) < SLOTS
  }

  ghost predicate Inv(s: Slots, stored: map<nat, Maneuver>, touches: seq<nat>)
    requires s.Valid()
  {
    Distinct(s) && Holds(s, stored, touches) && NoLanes(s) && Complete(s, stored)
  }

  lemma TouchGrows(touches: seq<nat>, x: nat, y: nat)
    ensures LastTouch(touches + [y], x) == if x == y then |touches| + 1 else LastTouch(touches, x)
  {
    assert (touches + [y])[..|touches|] == touches;
  }

  lemma FindOccupied(s: Slots, i: nat)
    requires s.Valid() && Distinct(s) && i < SLOTS && Occupied(s, i)
    ensures Find(s.index, s.index[i]) == i
  {
    assert Find(s.index, s.index[i]) <= i;
  }

  // ---- Pigeonhole ----

  function Values(index: seq<nat>): (vs: set<nat>)
    ensures forall x :: x in vs <==> x in index
  {
    set x | x in index
  }

  lemma {:induction false} DistinctCount(index: seq<nat>)
    requires forall i, j :: 0 <= i < j < |index| ==> index[i] != index[j]
    ensures |Values(index)| == |index|
  {
    if index != [] {
      var n := |index| - 1;
      DistinctCount(index[..n]);
      assert Values(index) == Values(index[..n]) + {index[n]};
    } else {
      assert Values(index) == {};
    }
  }

  lemma {:induction false} ValuesBound(items: seq<nat>)
    ensures |Values(items)| <= |items|
  {
    if items != [] {
      var n := |items| - 1;
      ValuesBound(items[..n]);
      assert Values(items) == Values(items[..n]) + {items[n]};
    } else {
      assert Values(items) == {};
    }
  }

  lemma SubsetCount(a: set<nat>, b: set<nat>)
    requires a <= b
    ensures |a| <= |b|
  {
    if a != {} {
      var x :| x in a;
      SubsetCount(a - {x}, b - {x});
    }
  }

  /** A full store always has a slot that is not on display. */
  lemma SomeInactive(s: Slots, l: Listing) returns (i: nat)
    requires s.Valid() && Distinct(s) && Find(s.index, EMPTY) == SLOTS && |l.items| <= LIST_MAX
    ensures i < SLOTS && !IsActive(l, s.index[i])
  {
    hide FindFrom;
    if forall k :: 0 <= k < SLOTS ==> s.index[k] in l.items {
      FullCount(s);
      ValuesBound(l.items);
      SubsetCount(Values(s.index), Values(l.items));
      assert false;
    }
    i :| 0 <= i < SLOTS && s.index[i] !in l.items;
  }

  lemma FullCount(s: Slots)
    requires s.Valid() && Distinct(s) && Find(s.index, EMPTY) == SLOTS
    ensures |Values(s.index)| == SLOTS
  {
    assert forall i :: 0 <= i < SLOTS ==> Occupied(s, i);
    DistinctCount(s.index);
  }

  /** The scan over all slots, display or not, is never needed. */
  lemma VictimIsInactive(s: Slots, l: Listing)
    requires s.Valid() && Distinct(s) && Find(s.index, EMPTY) == SLOTS && |l.items| <= LIST_MAX
    ensures VictimFrom(s, l, 0, SLOTS) < SLOTS && Victim(s, l) == VictimFrom(s, l, 0, SLOTS)
    ensures !IsActive(l, s.index[Victim(s, l)])
    ensures forall k :: 0 <= k < SLOTS && !IsActive(l, s.index[k]) ==> s.used[Victim(s, l)] <= s.used[k]
  {
    hide FindFrom;
    var i := SomeInactive(s, l);
    VictimIsLeast(s, l, 0, SLOTS);
  }

  /** What is given up is, of all indices not on display, the one that was touched the longest time ago. */
  lemma VictimIsLeastRecentlyTouched(s: Slots, l: Listing, stored: map<nat, Maneuver>, touches: seq<nat>, k: nat)
    requires s.Valid() && Inv(s, stored, touches) && Find(s.index, EMPTY) == SLOTS && |l.items| <= LIST_MAX
    requires k < SLOTS && k != Victim(s, l) && !IsActive(l, s.index[k])
    ensures LastTouch(touches, s.index[Victim(s, l)]) < LastTouch(touches, s.index[k])
  {
    hide FindFrom, VictimFrom;
    VictimIsInactive(s, l);
    var v := Victim(s, l);
    assert Occupied(s, v) && Occupied(s, k);
  }

  // ---- Steps ----

  /** The slots that one step leaves alone, and the one it reassigns at most. */
  lemma SlotForIs(s: Slots, l: Listing, x: nat)
    requires s.Valid() && Distinct(s) && |l.items| <= LIST_MAX
    ensures var r := SlotFor(s, l, x);
            && r.slots.index == s.index[r.at := x]
            && r.slots.used == s.used[r.at := s.clock + 1] && r.slots.clock == s.clock + 1
            && (forall i :: 0 <= i < SLOTS && i != r.at ==> r.slots.ver[i] == s.ver[i] && r.slots.data[i] == s.data[i])
            && (Find(s.index, x) < SLOTS ==> r.at == Find(s.index, x) && r.slots.ver == s.ver)
            && (Find(s.index, x) == SLOTS ==>
                  !Occupied(s, r.at) || (Find(s.index, EMPTY) == SLOTS && r.at == Victim(s, l)))
            && (s.index[r.at] != x && Occupied(s, r.at) ==> !IsActive(l, s.index[r.at]))
            && (NoLanes(s) ==> NoLanes(r.slots))
  {
    hide FindFrom, VictimFrom;
    if Find(s.index, x) == SLOTS && Find(s.index, EMPTY) == SLOTS {
      VictimIsInactive(s, l);
    }
  }

  /** A slot taken from another index holds nothing of it any more. */
  lemma VictimIsForgotten(s: Slots, l: Listing, x: nat)
    requires s.Valid() && Find(s.index, x) == SLOTS && Find(s.index, EMPTY) == SLOTS
    ensures var r := SlotFor(s, l, x); r.slots.data[r.at] == NOTHING && r.slots.index[r.at] == x
  {
    hide FindFrom, VictimFrom;
  }

  /** Storing a maneuver: its slot, and the slot of the maneuver it links to, are touched. */
  lemma KeepIs(s: Slots, l: Listing, x: nat, m: Maneuver)
    requires s.Valid() && Distinct(s) && NoLanes(s) && |l.items| <= LIST_MAX && m.lanes.None?
    ensures var r := SlotFor(s, l, x);
            var t := r.slots.(data := r.slots.data[r.at := m]);
            Keep(s, l, x, m) == if LinkOf(m).Some? then Refresh(t, LinkOf(m).value) else t
  {
    hide SlotFor, Resolve, Backpropagate, LastWord;
    var r := SlotFor(s, l, x);
    var t := r.slots.(data := r.slots.data[r.at := m]);
    SlotForIs(s, l, x);
    LinkedLanesAreNeverCopied(t, r.at);
    RefreshIs(t, if LinkOf(m).Some? then LinkOf(m).value else 0);
  }

  lemma RefreshIs(s: Slots, x: nat)
    requires s.Valid()
    ensures var t := Refresh(s, x);
            && t.index == s.index && t.ver == s.ver && t.data == s.data && t.versions == s.versions
            && (Find(s.index, x) == SLOTS ==> t == s)
            && (Find(s.index, x) < SLOTS ==>
                  t.used == s.used[Find(s.index, x) := s.clock + 1] && t.clock == s.clock + 1)
  {
    hide FindFrom;
  }

  lemma RefreshKeepsInv(s: Slots, stored: map<nat, Maneuver>, touches: seq<nat>, x: nat)
    requires s.Valid() && Inv(s, stored, touches)
    ensures Inv(Refresh(s, x), stored, if Find(s.index, x) < SLOTS then touches + [x] else touches)
  {
    hide FindFrom, LastTouch, Refresh;
    RefreshIs(s, x);
    if Find(s.index, x) < SLOTS {
      var t := Refresh(s, x);
      forall i | 0 <= i < SLOTS && Occupied(t, i)
        ensures t.index[i] in stored && t.data[i] == stored[t.index[i]]
                && t.used[i] == LastTouch(touches + [x], t.index[i]) > 0
      {
        assert Occupied(s, i);
        TouchGrows(touches, t.index[i], x);
        FindOccupied(s, i);
      }
    }
  }

  lemma StoreKeepsHolds(s: Slots, l: Listing, x: nat, m: Maneuver, stored: map<nat, Maneuver>, touches: seq<nat>)
    requires s.Valid() && Inv(s, stored, touches) && |l.items| <= LIST_MAX && m.lanes.None?
    ensures var r := SlotFor(s, l, x);
            var t := r.slots.(data := r.slots.data[r.at := m]);
            Distinct(t) && Holds(t, stored[x := m], touches + [x]) && NoLanes(t)
  {
    hide FindFrom, LastTouch, SlotFor, VictimFrom;
    SlotForIs(s, l, x);
    var r := SlotFor(s, l, x);
    var t := r.slots.(data := r.slots.data[r.at := m]);
    forall i | 0 <= i < SLOTS && i != r.at && Occupied(t, i) ensures Occupied(s, i) && s.index[i] != x {
      assert Occupied(s, i);
      FindOccupied(s, i);
    }
    forall i | 0 <= i < SLOTS && Occupied(t, i)
      ensures t.index[i] in stored[x := m] && t.data[i] == stored[x := m][t.index[i]]
              && t.used[i] == LastTouch(touches + [x], t.index[i]) > 0
    {
      TouchGrows(touches, t.index[i], x);
    }
  }

  lemma StoreKeepsComplete(s: Slots, l: Listing, x: nat, m: Maneuver, stored: map<nat, Maneuver>, touches: seq<nat>)
    requires s.Valid() && Inv(s, stored, touches) && |l.items| <= LIST_MAX
    ensures Complete(SlotFor(s, l, x).slots, stored[x := m])
  {
    hide LastTouch, SlotFor, VictimFrom;
    SlotForIs(s, l, x);
    var r, after := SlotFor(s, l, x), stored[x := m];
    if s.index[r.at] != x && Occupied(s, r.at) {
      FullCount(s);
      assert Values(s.index) <= after.Keys - {x};
      SubsetCount(Values(s.index), after.Keys - {x});
    } else if |after| <= SLOTS {
      SubsetCount(stored.Keys, after.Keys);
      forall y | y in after && y != EMPTY ensures Find(r.slots.index, y) < SLOTS {
        var i := if y == x then r.at else Find(s.index, y);
        assert r.slots.index[i] == y;
      }
    }
  }

  lemma KeepKeepsInv(s: Slots, l: Listing, x: nat, m: Maneuver, stored: map<nat, Maneuver>, touches: seq<nat>)
    requires s.Valid() && Inv(s, stored, touches) && |l.items| <= LIST_MAX && m.lanes.None?
    ensures Inv(Keep(s, l, x, m), stored[x := m], touches + Touched(s, l, x, m))
  {
    hide FindFrom, LastTouch, SlotFor, VictimFrom, Keep, Refresh, LastWord;
    var r := SlotFor(s, l, x);
    var t := r.slots.(data := r.slots.data[r.at := m]);
    StoreKeepsHolds(s, l, x, m, stored, touches);
    StoreKeepsComplete(s, l, x, m, stored, touches);
    KeepIs(s, l, x, m);
    SlotForIs(s, l, x);
    if LinkOf(m).Some? {
      RefreshKeepsInv(t, stored[x := m], touches + [x], LinkOf(m).value);
      assert touches + [x] + [LinkOf(m).value] == touches + [x, LinkOf(m).value];
    }
  }

  /** The indices that storing a maneuver touches. */
  function Touched(s: Slots, l: Listing, x: nat, m: Maneuver): seq<nat>
    requires s.Valid()
  {
    if LinkOf(m).Some? && Find(SlotFor(s, l, x).slots.index, LinkOf(m).value) < SLOTS then [x, LinkOf(m).value] else [x]
  }

  // ---- Runs ----

  /** The event empties the store. */
  predicate Resets(g: Guidance, e: Event) {
    match e
    case UpdateMessage(message, _) =>
      StateOf(message) == Some(0) && (HardClear(U.Parse(message)) || (g.d.emitted != 0 && g.d.last > 0))
    case ClearAll => true
    case _ => false
  }

  /** The index under which the event stores a maneuver. */
  function Stores(g: Guidance, e: Event): Option<nat> {
    if e.ManeuverMessage? then StoredIndex(g, ParseManeuver(e.message)) else None
  }

  /** What was accepted last under each index since the store was emptied. */
  function Stored(es: seq<Event>): map<nat, Maneuver>
    decreases |es|
  {
    if es == [] then map[]
    else
      var before, e := es[..|es| - 1], es[|es| - 1];
      if Resets(Exec(before), e) then map[]
      else
        match Stores(Exec(before), e)
        case None => Stored(before)
        case Some(x) => Stored(before)[x := ParseManeuver(e.message)]
  }

  /** The indices that were touched since, in order. */
  function Touches(es: seq<Event>): seq<nat>
    decreases |es|
  {
    if es == [] then []
    else
      var before, e := es[..|es| - 1], es[|es| - 1];
      var g := Exec(before);
      if Resets(g, e) then []
      else
        match Stores(g, e)
        case None => Touches(before)
        case Some(x) => Touches(before) + Touched(g.slots, g.shown, x, ParseManeuver(e.message))
  }

  lemma SlotsAfter(g: Guidance, e: Event)
    requires g.Valid()
    ensures Apply(g, e).slots ==
              (if Resets(g, e) then Reset()
               else if Stores(g, e).Some? then Keep(g.slots, g.shown, Stores(g, e).value, ParseManeuver(e.message))
               else g.slots)
  {
    hide U.Valid, U.Parse, Reset, Evidence, HardClear, NumberOf, Keep, IndexOf, ParseManeuver, U.Zero, Publish, Accepts;
    match e
    case UpdateMessage(message, now) =>
      var u := U.Parse(message);
      var r := Decide(g, u, now);
      PublishLeavesSlots(r.g, u);
    case ManeuverMessage(message) => AcceptsCancelled(g, ParseManeuver(message));
    case LaneMessage(_) =>
    case TickAt(_) =>
    case ClearAll =>
  }

  lemma PublishLeavesSlots(g: Guidance, u: seq<U.Field>)
    requires g.Valid() && U.Valid(u)
    ensures Publish(g, u).slots == g.slots
  {
  }

  lemma AcceptsCancelled(g: Guidance, m: Maneuver)
    ensures StoredIndex(g.(d := Cancel(g.d)), m) == StoredIndex(g, m)
  {
    hide IndexOf;
  }

  lemma ResetHolds()
    ensures Inv(Reset(), map[], [])
  {
  }

  /**
  In every run, occupied slots have different indices, and each holds exactly the maneuver that was accepted
  last under its index since the store was emptied.
  */
  lemma {:induction false} StoreHoldsLatest(es: seq<Event>)
    ensures Inv(Exec(es).slots, Stored(es), Touches(es))
    decreases |es|
  {
    hide Apply, Inv, Keep, SlotFor, U.Zero, Reset, Stores, Resets, Touched;
    ResetHolds();
    if es != [] {
      var before, e := es[..|es| - 1], es[|es| - 1];
      var g := Exec(before);
      StoreHoldsLatest(before);
      SlotsAfter(g, e);
      if !Resets(g, e) && Stores(g, e).Some? {
        StoresParsed(g, e);
        KeepKeepsInv(g.slots, g.shown, Stores(g, e).value, ParseManeuver(e.message), Stored(before), Touches(before));
      }
    }
  }

  lemma StoresParsed(g: Guidance, e: Event)
    requires Stores(g, e).Some?
    ensures e.ManeuverMessage?
  {
  }

  /** In particular a look-up by index finds the last maneuver accepted under it, whenever it finds one. */
  lemma LookupFindsLatest(es: seq<Event>, x: nat)
    requires x != EMPTY
    ensures var s := Exec(es).slots;
            && (Find(s.index, x) < SLOTS ==> x in Stored(es) && s.data[Find(s.index, x)] == Stored(es)[x])
            && (x in Stored(es) && |Stored(es)| <= SLOTS ==> Find(s.index, x) < SLOTS)
  {
    hide Exec, Stored, Touches, FindFrom, LastTouch;
    StoreHoldsLatest(es);
    var s := Exec(es).slots;
    if Find(s.index, x) < SLOTS {
      assert Occupied(s, Find(s.index, x));
    }
  }

  /** One step of ActiveIsKept. */
  lemma StepKeepsActive(es: seq<Event>, e: Event, x: nat)
    requires x != EMPTY && IsActive(Exec(es).shown, x) && Find(Exec(es).slots.index, x) < SLOTS
    requires !Resets(Exec(es), e)
    ensures var s, t := Exec(es).slots, Exec(es + [e]).slots;
            var i := Find(s.index, x);
            && Find(t.index, x) == i && t.ver[i] == s.ver[i]
            && (Stores(Exec(es), e) != Some(x) ==> t.data[i] == s.data[i])
  {
    hide Apply, Keep, Stores, Resets, U.Zero, Reset, Stored, Touches, Inv;
    assert (es + [e])[..|es|] == es;
    StoreHoldsLatest(es);
    InvParts(Exec(es).slots, Stored(es), Touches(es));
    SlotsAfter(Exec(es), e);
    if Stores(Exec(es), e).Some? {
      StoresParsed(Exec(es), e);
      KeepKeepsActive(Exec(es).slots, Exec(es).shown, Stores(Exec(es), e).value, ParseManeuver(e.message), x);
    }
  }

  /** After each of these events so far the index was on display, and none of them emptied the store. */
  predicate Displayed(es: seq<Event>, fs: seq<Event>, x: nat) {
    forall k :: 0 <= k < |fs| ==> IsActive(Exec(es + fs[..k]).shown, x) && !Resets(Exec(es + fs[..k]), fs[k])
  }

  /**
  A cached index keeps its slot and version for as long as it is on display and the store is not emptied, over any
  run, and its data unless a maneuver is stored under that very index.
  */
  lemma {:induction false} ActiveIsKept(es: seq<Event>, fs: seq<Event>, x: nat)
    requires x != EMPTY && Find(Exec(es).slots.index, x) < SLOTS && Displayed(es, fs, x)
    ensures var s, t := Exec(es).slots, Exec(es + fs).slots;
            var i := Find(s.index, x);
            && Find(t.index, x) == i && t.ver[i] == s.ver[i]
            && ((forall k :: 0 <= k < |fs| ==> Stores(Exec(es + fs[..k]), fs[k]) != Some(x)) ==> t.data[i] == s.data[i])
    decreases |fs|
  {
    hide Exec, Stores, Resets, IsActive, FindFrom;
    if fs == [] {
      assert es + fs == es;
    } else {
      var before, f := fs[..|fs| - 1], fs[|fs| - 1];
      assert forall k :: 0 <= k < |before| ==> before[..k] == fs[..k] && before[k] == fs[k];
      ActiveIsKept(es, before, x);
      StepKeepsActive(es + before, f, x);
      assert es + fs == es + before + [f];
    }
  }

  lemma InvParts(s: Slots, stored: map<nat, Maneuver>, touches: seq<nat>)
    requires s.Valid() && Inv(s, stored, touches)
    ensures Distinct(s) && NoLanes(s)
  {
  }

  lemma KeepKeepsActive(s: Slots, l: Listing, y: nat, m: Maneuver, x: nat)
    requires s.Valid() && Distinct(s) && NoLanes(s) && |l.items| <= LIST_MAX && m.lanes.None?
    requires x != EMPTY && IsActive(l, x) && Find(s.index, x) < SLOTS
    ensures var t := Keep(s, l, y, m);
            var i := Find(s.index, x);
            && Find(t.index, x) == i && t.ver[i] == s.ver[i] && (y != x ==> t.data[i] == s.data[i])
  {
    hide FindFrom, SlotFor, VictimFrom, Keep, Refresh, LastWord, IsActive;
    var i, r := Find(s.index, x), SlotFor(s, l, y);
    var t := r.slots.(data := r.slots.data[r.at := m]);
    KeepIs(s, l, y, m);
    SlotForIs(s, l, y);
    RefreshIs(t, if LinkOf(m).Some? then LinkOf(m).value else 0);
    assert Occupied(s, i);
    if r.at == i && y != x {
      assert false;
    }
    var k := Keep(s, l, y, m);
    assert k.index[i] == x;
    forall j | 0 <= j < i ensures k.index[j] != x {
      assert s.index[j] != x;
    }
    FindIs(k.index, x, i);
  }

  lemma FindIs(index: seq<nat>, x: nat, i: nat)
    requires i < |index| && index[i] == x && forall j :: 0 <= j < i ==> index[j] != x
    ensures Find(index, x) == i
  {
  }

  // ---- Publishing ----

  /** The listed indices with a typed maneuver in the store, in order. */
  function Typed(s: Slots, stored: map<nat, Maneuver>, items: seq<nat>): seq<nat>
    requires s.Valid()
  {
    if items == [] then []
    else
      var before, x := Typed(s, stored, items[..|items| - 1]), items[|items| - 1];
      if Find(s.index, x) < SLOTS && x in stored && HasType(stored[x]) then before + [x] else before
  }

  function Indices(s: Slots, slots: seq<nat>): seq<nat>
    requires s.Valid() && forall k :: 0 <= k < |slots| ==> slots[k] < SLOTS
  {
    seq(|slots|, k requires 0 <= k < |slots| => s.index[slots[k]])
  }

  /** A list without the marker of an empty slot. */
  function Named(items: seq<nat>): seq<nat> {
    if items == [] then []
    else
      var before, x := Named(items[..|items| - 1]), items[|items| - 1];
      if x == EMPTY then before else before + [x]
  }

  lemma {:induction false} PublishedRead(s: Slots, stored: map<nat, Maneuver>, touches: seq<nat>, items: seq<nat>)
    requires s.Valid() && Inv(s, stored, touches)
    ensures Named(Indices(s, Published(s, items))) == Typed(s, stored, Named(items))
    ensures EMPTY !in items ==> Indices(s, Published(s, items)) == Typed(s, stored, items)
    decreases |items|
  {
    hide FindFrom, LastTouch, HasType, Complete, Published, Typed, Named, Indices;
    if items == [] {
      NothingPublished(s, stored);
    } else {
      var before, x := items[..|items| - 1], items[|items| - 1];
      PublishedRead(s, stored, touches, before);
      assert items == before + [x];
      PublishedMore(s, before, x);
      NamedMore(before, x);
      NamedMore(Indices(s, Published(s, before)), x);
      TypedMore(s, stored, before, x);
      TypedMore(s, stored, Named(before), x);
      if Find(s.index, x) < SLOTS && x != EMPTY {
        assert Occupied(s, Find(s.index, x));
      }
    }
  }

  lemma NothingPublished(s: Slots, stored: map<nat, Maneuver>)
    requires s.Valid()
    ensures Named(Indices(s, Published(s, []))) == Typed(s, stored, Named([])) == []
    ensures Indices(s, Published(s, [])) == Typed(s, stored, []) == []
  {
  }

  lemma PublishedMore(s: Slots, items: seq<nat>, x: nat)
    requires s.Valid()
    ensures var i := Find(s.index, x);
            var before := Indices(s, Published(s, items));
            Indices(s, Published(s, items + [x])) == if i < SLOTS && HasType(s.data[i]) then before + [x] else before
  {
    hide FindFrom, HasType;
    assert (items + [x])[..|items|] == items;
  }

  lemma TypedMore(s: Slots, stored: map<nat, Maneuver>, items: seq<nat>, x: nat)
    requires s.Valid()
    ensures var before := Typed(s, stored, items);
            Typed(s, stored, items + [x])
              == if Find(s.index, x) < SLOTS && x in stored && HasType(stored[x]) then before + [x] else before
  {
    hide FindFrom, HasType;
    assert (items + [x])[..|items|] == items;
  }

  lemma NamedMore(items: seq<nat>, x: nat)
    ensures Named(items + [x]) == if x == EMPTY then Named(items) else Named(items) + [x]
  {
    assert (items + [x])[..|items|] == items;
  }

  /**
  The published list, read back through the slots, is the list on display without the untyped or unknown. If the list
  names the marker of an empty slot, this still holds of all the other indices.
  */
  lemma PublishedIsTypedList(es: seq<Event>)
    ensures var g, stored := Exec(es), Stored(es);
            var published := Indices(g.slots, Published(g.slots, g.shown.items));
            && Named(published) == Typed(g.slots, stored, Named(g.shown.items))
            && (EMPTY !in g.shown.items ==> published == Typed(g.slots, stored, g.shown.items))
  {
    hide Exec, Stored, Touches, Inv, Published, Typed;
    StoreHoldsLatest(es);
    PublishedRead(Exec(es).slots, Stored(es), Touches(es), Exec(es).shown.items);
  }
}
