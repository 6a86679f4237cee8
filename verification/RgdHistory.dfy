/**
Route guidance by the messages alone: what the route state, the pending reset, the list on display and the cache are is
defined here on what the messages said and when, and HistoryHolds shows that the globals are exactly that.
*/
module RgdHistory {
  import opened Bytes
  import opened Rgd
  import opened RgdRuns
  import opened RgdSlots
  import opened RouteUpdateTheorems
  import opened Wrappers
  import L = LaneParse
  import S = RgdStore
  import U = RouteUpdate

  // ---- What an update says ----

  /** What the last TLV about a field says that is long enough. */
  function Said(message: seq<byte>, id: nat): Option<Content>
    requires id < U.FIELDS
  {
    Latest(U.Parts(message), id)
  }

  function NumberSaid(message: seq<byte>, id: nat): Option<nat>
    requires id < U.FIELDS
  {
    var c := Said(message, id);
    if c.Some? && c.value.NumberIs? then Some(c.value.n) else None
  }

  function TextSaid(message: seq<byte>, id: nat): seq<byte>
    requires id < U.FIELDS
  {
    var c := Said(message, id);
    if c.Some? && c.value.StringIs? then c.value.s else []
  }

  /** The maneuver list of an update. */
  function ListSaid(message: seq<byte>): Option<seq<nat>> {
    var c := Said(message, 0x0D);
    if c.Some? && c.value.ListIs? then Some(c.value.ws) else None
  }

  /** Signs of a route: a state, maneuvers, a distance, a destination or a road. */
  predicate ShowsRoute(message: seq<byte>) {
    || Positive(NumberSaid(message, 0x01))
    || Positive(NumberSaid(message, 0x0E))
    || (ListSaid(message).Some? && ListSaid(message).value != [])
    || Positive(NumberSaid(message, 0x0A))
    || Positive(NumberSaid(message, 0x07))
    || TextSaid(message, 0x04) != []
    || TextSaid(message, 0x03) != []
  }

  /** The source does not support route guidance. */
  predicate Unsupported(message: seq<byte>) {
    NumberSaid(message, 0x14) == Some(0)
  }

  lemma FieldSays(message: seq<byte>, id: nat)
    requires id < U.FIELDS
    ensures var f := U.Parse(message)[id];
            && U.Fits(U.KindOf(id), f)
            && (f.present <==> Said(message, id).Some?)
            && (f.present ==> Said(message, id).value == ContentOf(f.data))
  {
    hide U.Fold, U.Zero, U.KindOf, Latest, U.Parts, U.Valid;
    FieldFits(U.Parse(message), id);
    FieldFits(U.Zero(), id);
    FoldMeans(U.Zero(), U.Parts(message), id);
    ZeroMeans(id);
  }

  lemma NumberSays(message: seq<byte>, id: nat)
    requires id < U.FIELDS && U.KindOf(id).Scalar?
    ensures NumberOf(U.Parse(message), id) == NumberSaid(message, id)
  {
    hide U.Parse, Said;
    FieldSays(message, id);
  }

  lemma TextSays(message: seq<byte>, id: nat)
    requires id < U.FIELDS && U.KindOf(id).Text?
    ensures HasText(U.Parse(message), id) <==> TextSaid(message, id) != []
  {
    hide U.Parse, Said;
    FieldSays(message, id);
  }

  lemma ListSays(message: seq<byte>)
    ensures ListOf(U.Parse(message)) == ListSaid(message)
  {
    hide U.Parse, Said;
    FieldSays(message, 0x0D);
  }

  /** What the handlers look at in a parsed update is what the message says. */
  lemma UpdateSays(message: seq<byte>)
    ensures NumberOf(U.Parse(message), STATE) == NumberSaid(message, 0x01)
    ensures ListOf(U.Parse(message)) == ListSaid(message)
    ensures Evidence(U.Parse(message)) <==> ShowsRoute(message)
    ensures HardClear(U.Parse(message)) <==> Unsupported(message)
    ensures StateOf(message) == NumberSaid(message, 0x01)
  {
    hide U.Parse, NumberSaid, TextSaid, ListSaid, NumberOf, HasText, ListOf;
    NumberSays(message, 0x01);
    NumberSays(message, 0x0E);
    NumberSays(message, 0x0A);
    NumberSays(message, 0x07);
    NumberSays(message, 0x14);
    TextSays(message, 0x03);
    TextSays(message, 0x04);
    ListSays(message);
  }

  // ---- The history ----

  /** A route state of 0 that is held back from Java: since when, and whether it came while rerouting. */
  datatype Pending = Pending(since: nat, rerouting: bool)

  datatype History = History(
    updated: bool,                  // a 0x5201 message came in since the state was cleared
    last: nat,                      // the route state received last
    emitted: nat,                   // the route state that counts
    reset: Option<Pending>,
    list: Option<seq<nat>>,         // the list published last since the store was emptied
    published: seq<seq<byte>>,      // the updates published since the cache was emptied
    unstamped: bool)                // a reset came while the clock failed, and could not be held as pending

  function Nothing(): History {
    History(false, 0, 0, None, None, [], false)
  }

  function Published(h: History, message: seq<byte>): History {
    h.(list := if ListSaid(message).Some? then ListSaid(message) else h.list, published := h.published + [message])
  }

  /** An update with a route state. */
  function StateReported(h: History, message: seq<byte>, state: nat, now: nat): History {
    var n := h.(updated := true, last := state);
    if state > 0 then Published(n.(emitted := state, reset := None), message)
    else if Unsupported(message) then Published(n.(emitted := 0, reset := None, list := None, published := []), message)
    else if h.emitted == 0 then Published(n, message)
    else
      n.(list := if h.last > 0 then None else h.list, published := [],
         reset := if h.reset.Some? || now == 0 then h.reset
                  else Some(Pending(now, h.last == 5 || h.emitted == 5)),
         unstamped := h.unstamped || (h.reset.None? && now == 0))
  }

  function Updated(h: History, message: seq<byte>, now: nat): History {
    var n := h.(updated := true);
    if NumberSaid(message, 0x01).Some? then StateReported(h, message, NumberSaid(message, 0x01).value, now)
    else if ShowsRoute(message) then Published(n.(reset := None), message)
    else if Unsupported(message) || h.reset.None? then Published(n, message)
    else n
  }

  /** The pending reset is taken for the end of the route, unless it came while rerouting. */
  predicate TimesOut(h: History, now: nat) {
    h.reset.Some? && !h.reset.value.rerouting && now >= h.reset.value.since + 800
  }

  function Next(h: History, e: Event): History {
    match e
    case UpdateMessage(message, now) => Updated(h, message, now)
    case ManeuverMessage(_) => h.(reset := None)
    case LaneMessage(_) => h.(reset := None)
    case TickAt(now) => if TimesOut(h, now) then h.(emitted := 0, reset := None) else h
    case ClearAll => Nothing()
  }

  function Recorded(es: seq<Event>): History
    decreases |es|
  {
    if es == [] then Nothing() else Next(Recorded(es[..|es| - 1]), es[|es| - 1])
  }

  // ---- The state is the history ----

  predicate Holds(h: History, g: Guidance) {
    && g.Valid()
    && g.haveUpdate == h.updated && g.d.last == h.last && g.d.emitted == h.emitted
    && (g.d.started != 0 <==> h.reset.Some?)
    && (h.reset.Some? ==>
          && h.emitted != 0 && g.d.started == h.reset.value.since && g.d.fromReroute == h.reset.value.rerouting
          && g.d.deadline == if h.reset.value.rerouting then 0 else h.reset.value.since + 800)
    && (h.reset.None? && !h.unstamped ==> g.d.deadline == 0 && !g.d.fromReroute)
    && g.shown == (match h.list case None => Listing(false, []) case Some(items) => Listing(true, items))
    && g.cache == U.MergeAll(U.Zero(), h.published)
  }

  lemma {:induction false} MergeOneMore(c: seq<U.Field>, messages: seq<seq<byte>>, message: seq<byte>)
    requires U.Valid(c)
    ensures U.MergeAll(c, messages + [message]) == U.Merge(U.MergeAll(c, messages), U.Parse(message))
    decreases |messages|
  {
    hide U.Merge, U.Parse, U.Valid;
    if messages == [] {
      assert [message][1..] == [];
      assert [] + [message] == [message];
      MergeNone(U.Merge(c, U.Parse(message)));
    } else {
      assert (messages + [message])[1..] == messages[1..] + [message];
      MergeOneMore(U.Merge(c, U.Parse(messages[0])), messages[1..], message);
    }
  }

  lemma MergeNone(c: seq<U.Field>)
    requires U.Valid(c)
    ensures U.MergeAll(c, []) == c
  {
  }

  lemma MergeSilent(c: seq<U.Field>, u: seq<U.Field>)
    requires U.Valid(c) && U.Valid(u) && !SaysAnything(u)
    ensures U.Merge(c, u) == c && ListOf(u).None?
  {
    hide U.Fits, U.KindOf;
  }

  /** Publishing an update records it. */
  lemma PublishHolds(h: History, g: Guidance, message: seq<byte>)
    requires Holds(h, g)
    ensures Holds(Published(h, message), Publish(g, U.Parse(message)))
  {
    hide U.Merge, U.Parse, U.Valid, NumberOf, U.Zero, ListSaid, ListOf, SaysAnything;
    MergeOneMore(U.Zero(), h.published, message);
    ListSays(message);
    if !SaysAnything(U.Parse(message)) {
      MergeSilent(g.cache, U.Parse(message));
    }
  }

  /** What the handler decides about an update: the state, and whether it is published. */
  lemma DecideHolds(h: History, g: Guidance, message: seq<byte>, now: nat)
    requires Holds(h, g)
    ensures var r := Decide(g, U.Parse(message), now);
            exists n :: Holds(n, r.g) && Updated(h, message, now) == if r.publish then Published(n, message) else n
  {
    hide U.Merge, U.Parse, U.Valid, NumberOf, U.Zero, Evidence, HardClear, ShowsRoute, Unsupported, NumberSaid,
      Published, ListSaid;
    UpdateSays(message);
    MergeNone(U.Zero());
    var r := Decide(g, U.Parse(message), now);
    var state := NumberSaid(message, 0x01);
    var n := h.(updated := true, last := if state.Some? then state.value else h.last);
    if state.None? {
      var m := if ShowsRoute(message) then n.(reset := None) else n;
      assert Holds(m, r.g);
    } else if state.value > 0 {
      assert Holds(n.(emitted := state.value, reset := None), r.g);
    } else if Unsupported(message) {
      assert Holds(n.(emitted := 0, reset := None, list := None, published := []), r.g);
    } else if h.emitted == 0 {
      assert Holds(n, r.g);
    } else {
      assert Holds(Updated(h, message, now), r.g);
    }
  }

  lemma NextHolds(h: History, g: Guidance, e: Event)
    requires Holds(h, g)
    ensures Holds(Next(h, e), Apply(g, e))
  {
    hide Decide, Publish, Updated, Published, U.Parse, U.Valid, U.Zero, Reset, Keep, StoredIndex, ParseManeuver,
      LanesArePublished;
    match e
    case UpdateMessage(message, now) =>
      DecideHolds(h, g, message, now);
      var r := Decide(g, U.Parse(message), now);
      var n :| Holds(n, r.g) && Updated(h, message, now) == if r.publish then Published(n, message) else n;
      if r.publish {
        PublishHolds(n, r.g, message);
      }
    case ManeuverMessage(_) =>
    case LaneMessage(_) =>
    case TickAt(_) =>
    case ClearAll => MergeNone(U.Zero());
  }

  /** In every run the state, the pending reset, the list on display and the cache are what the messages made them. */
  lemma {:induction false} HistoryHolds(es: seq<Event>)
    ensures Holds(Recorded(es), Exec(es))
    decreases |es|
  {
    hide Apply, Next, Holds;
    if es == [] {
      NothingHolds();
    } else {
      HistoryHolds(es[..|es| - 1]);
      NextHolds(Recorded(es[..|es| - 1]), Exec(es[..|es| - 1]), es[|es| - 1]);
    }
  }

  lemma NothingHolds()
    ensures Holds(Nothing(), Initial())
  {
    hide U.Zero;
    MergeNone(U.Zero());
  }

  // ---- What the store takes ----

  /**
  A maneuver is accepted once an update has come in, unless its index lies below every one of a list on display that
  has any, and the route state received last is not rerouting.
  */
  predicate Welcome(h: History, x: nat) {
    && h.updated
    && (h.list.None? || h.list.value == [] || h.last == 5 || exists y :: y in h.list.value && y <= x)
  }

  lemma LeastBelow(items: seq<nat>, x: nat)
    requires items != []
    ensures Least(items) <= x <==> exists y :: y in items && y <= x
  {
  }

  /** Which message stores a maneuver, and under which index. */
  lemma StoresExactly(es: seq<Event>, message: seq<byte>, x: nat)
    ensures S.Stores(Exec(es), ManeuverMessage(message)) == Some(x) <==>
              LastWord(L.Parts(message), 1) == Some(x) && Welcome(Recorded(es), x)
  {
    hide Exec, Recorded, Least, LastWord, U.MergeAll, U.Zero;
    HistoryHolds(es);
    var h := Recorded(es);
    if h.list.Some? && h.list.value != [] {
      LeastBelow(h.list.value, x);
    }
  }

  /** Which event empties the store. */
  lemma EmptiesExactly(es: seq<Event>, e: Event)
    ensures S.Resets(Exec(es), e) <==>
              || e == ClearAll
              || (e.UpdateMessage? && NumberSaid(e.message, 0x01) == Some(0)
                  && (Unsupported(e.message) || (Recorded(es).emitted != 0 && Recorded(es).last > 0)))
  {
    hide Exec, Recorded, U.MergeAll, U.Zero, U.Parse, Unsupported, NumberSaid, HardClear;
    HistoryHolds(es);
    if e.UpdateMessage? {
      UpdateSays(e.message);
    }
  }

  /** The maneuvers accepted since the store was emptied, the last one under each index. */
  function Kept(es: seq<Event>): map<nat, Maneuver>
    decreases |es|
  {
    if es == [] then map[]
    else
      var before, e := es[..|es| - 1], es[|es| - 1];
      var h := Recorded(before);
      match e
      case ClearAll => map[]
      case UpdateMessage(message, _) =>
        if NumberSaid(message, 0x01) == Some(0) && (Unsupported(message) || (h.emitted != 0 && h.last > 0)) then map[]
        else Kept(before)
      case ManeuverMessage(message) =>
        var x := LastWord(L.Parts(message), 1);
        if x.Some? && Welcome(h, x.value) then Kept(before)[x.value := ParseManeuver(message)] else Kept(before)
      case _ => Kept(before)
  }

  /** They are the ones that the theorems about the store speak of. */
  lemma {:induction false} KeptIsStored(es: seq<Event>)
    ensures Kept(es) == S.Stored(es)
    decreases |es|
  {
    hide Exec, Recorded, S.Resets, S.Stores, Welcome, LastWord, Unsupported, NumberSaid, ParseManeuver;
    if es != [] {
      var before, e := es[..|es| - 1], es[|es| - 1];
      KeptIsStored(before);
      EmptiesExactly(before, e);
      if e.ManeuverMessage? {
        var x := LastWord(L.Parts(e.message), 1);
        var y := S.Stores(Exec(before), e);
        StoresExactly(before, e.message, if x.Some? then x.value else 0);
        StoresExactly(before, e.message, if y.Some? then y.value else 0);
      } else {
        OnlyManeuversStore(Exec(before), e);
      }
    }
  }

  lemma OnlyManeuversStore(g: Guidance, e: Event)
    requires !e.ManeuverMessage?
    ensures S.Stores(g, e).None?
  {
  }

  /**
  The maneuver list that is published is the one in the last update with a list, without the indices under which no
  maneuver with a type was accepted; the marker of an empty slot is not an index.
  */
  lemma PublishedIsReported(es: seq<Event>)
    ensures var g, h := Exec(es), Recorded(es);
            var items := if h.list.Some? then h.list.value else [];
            && g.shown.present == h.list.Some?
            && S.Named(S.Indices(g.slots, RgdSlots.Published(g.slots, g.shown.items)))
                 == S.Typed(g.slots, Kept(es), S.Named(items))
  {
    hide Exec, Recorded, S.Typed, S.Named, S.Indices, RgdSlots.Published, U.MergeAll, U.Zero;
    HistoryHolds(es);
    KeptIsStored(es);
    S.PublishedIsTypedList(es);
  }

  // ---- When lanes lead to a snapshot ----

  /** The lane event that is current: the one named last by a published update. */
  function CurrentEvent(h: History): Option<Content> {
    Latest(AllParts(h.published), 0x10)
  }

  /**
  A 0x5204 message leads to a snapshot exactly if it describes lanes of an event, or is about the current one; the
  event is the one it names last, or else the first maneuver on display.
  */
  lemma LanesPublishExactly(es: seq<Event>, message: seq<byte>)
    ensures var h, ts := Recorded(es), L.Parts(message);
            var described := exists i :: 0 <= i < |ts| && ts[i].id == 2;
            var named := L.EventOf(ts);
            var x := if named.Some? then named.value
                     else if h.list.Some? && h.list.value != [] then h.list.value[0] else 0xFFFF;
            LanesArePublished(Exec(es), L.ParseGuidance(message)) <==>
              x != 0xFFFF && (described || (named.Some? && CurrentEvent(h) == Some(NumberIs(x))))
  {
    hide Exec, Recorded, U.MergeAll, U.Zero, L.Collect, L.Parts, L.EventOf, Latest, AllParts, U.KindOf;
    HistoryHolds(es);
    L.LanesAreCollected(L.Parts(message));
    CurrentEventIs(Recorded(es), Exec(es));
  }

  lemma CurrentEventIs(h: History, g: Guidance)
    requires Holds(h, g)
    ensures NumberOf(g.cache, LANE_EVENT).Some? <==> CurrentEvent(h).Some?
    ensures CurrentEvent(h).Some? ==> CurrentEvent(h) == Some(NumberIs(NumberOf(g.cache, LANE_EVENT).value))
  {
    hide U.MergeAll, U.Zero, Latest, AllParts;
    CacheIsLatest(h.published, 0x10);
    FieldFits(g.cache, 0x10);
    ZeroMeans(0x10);
  }
}
