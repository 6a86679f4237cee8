/** The version of a slot: it tells the assignments of the slot apart, so Java can see that a slot was given away. */
module RgdVersions {
  import opened Rgd
  import opened RgdRuns
  import opened RgdSlots
  import opened RgdStore
  import opened Wrappers
  import U = RouteUpdate

  predicate Versioned(s: Slots)
    requires s.Valid()
  {
    forall i :: 0 <= i < SLOTS ==> s.ver[i] <= s.versions
  }

  /** Storing a maneuver gives a slot a new version, higher than all so far, exactly if it gives it another index. */
  lemma KeepVersions(s: Slots, l: Listing, x: nat, m: Maneuver, i: nat)
    requires s.Valid() && Distinct(s) && NoLanes(s) && |l.items| <= LIST_MAX && m.lanes.None? && Versioned(s)
    requires i < SLOTS
    ensures var t := Keep(s, l, x, m);
            && Versioned(t)
            && (t.ver[i] != s.ver[i] <==> t.index[i] != s.index[i])
            && (t.index[i] != s.index[i] ==> t.index[i] == x && forall k :: 0 <= k < SLOTS ==> s.ver[k] < t.ver[i])
  {
    hide FindFrom, VictimFrom, Keep, Refresh, LastWord;
    var r := SlotFor(s, l, x);
    KeepIs(s, l, x, m);
    SlotForIs(s, l, x);
    RefreshIs(r.slots.(data := r.slots.data[r.at := m]), if LinkOf(m).Some? then LinkOf(m).value else 0);
  }

  lemma {:induction false} RunVersioned(es: seq<Event>)
    ensures Versioned(Exec(es).slots)
    decreases |es|
  {
    hide Exec, Apply, Keep, Stores, Resets, Reset, Stored, Touches, RgdStore.Inv, Versioned;
    if es == [] {
      NewVersions();
      assert Exec(es).slots == Reset() by {
        StartEmpty();
      }
    } else {
      var before, e := es[..|es| - 1], es[|es| - 1];
      RunVersioned(before);
      assert es == before + [e];
      StepVersions(before, e, 0);
    }
  }

  lemma StartEmpty()
    ensures Exec([]).slots == Reset()
  {
  }

  lemma NewVersions()
    ensures Versioned(Reset())
  {
  }

  /** One event that does not empty the store. */
  lemma StepVersions(es: seq<Event>, e: Event, i: nat)
    requires i < SLOTS && Versioned(Exec(es).slots)
    ensures var s, t := Exec(es).slots, Exec(es + [e]).slots;
            && Versioned(t)
            && (!Resets(Exec(es), e) ==>
                  && (t.ver[i] != s.ver[i] <==> t.index[i] != s.index[i])
                  && t.ver[i] >= s.ver[i]
                  && (t.index[i] != s.index[i] ==> t.ver[i] > s.ver[i] && Stores(Exec(es), e) == Some(t.index[i])))
  {
    hide Apply, Keep, Stores, Resets, U.Zero, Reset, Stored, Touches, RgdStore.Inv;
    assert (es + [e])[..|es|] == es;
    StoreHoldsLatest(es);
    InvParts(Exec(es).slots, Stored(es), Touches(es));
    SlotsAfter(Exec(es), e);
    NewVersions();
    if Stores(Exec(es), e).Some? && !Resets(Exec(es), e) {
      StoresParsed(Exec(es), e);
      KeepVersions(Exec(es).slots, Exec(es).shown, Stores(Exec(es), e).value, ParseManeuver(e.message), i);
    }
  }

  /** No event of the continuation empties the store. */
  predicate Lasts(es: seq<Event>, fs: seq<Event>) {
    forall k :: 0 <= k < |fs| ==> !Resets(Exec(es + fs[..k]), fs[k])
  }

  /**
  Over every run that does not empty the store: versions only grow, and a slot that has kept its version was not given
  to another index at any time in between.
  */
  lemma {:induction false} VersionTells(es: seq<Event>, fs: seq<Event>, i: nat, k: nat)
    requires i < SLOTS && Lasts(es, fs) && k <= |fs|
    ensures var s, m, t := Exec(es).slots, Exec(es + fs[..k]).slots, Exec(es + fs).slots;
            && s.ver[i] <= m.ver[i] <= t.ver[i]
            && (t.ver[i] == s.ver[i] ==> m.index[i] == s.index[i])
    decreases |fs|
  {
    hide Exec, Resets, Stores, Versioned;
    if fs == [] {
      assert es + fs == es && es + fs[..k] == es;
    } else {
      var before, f := fs[..|fs| - 1], fs[|fs| - 1];
      assert forall j :: 0 <= j < |before| ==> before[..j] == fs[..j] && before[j] == fs[j];
      VersionTells(es, before, i, if k < |fs| then k else k - 1);
      RunVersioned(es + before);
      StepVersions(es + before, f, i);
      assert es + fs == es + before + [f];
      if k < |fs| {
        assert before[..k] == fs[..k];
      } else {
        assert fs[..k] == fs && before[..k - 1] == before;
      }
    }
  }
}
