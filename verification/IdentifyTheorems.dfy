/** What the Identify patch does to the TLVs of a frame, and when doing it twice changes nothing. */
module IdentifyTheorems {
  import opened Bytes
  import opened Identify
  import opened IdentifyPatcher
  import opened Sequences
  import opened Tlv

  /** The TLVs of a frame. */
  function Parts(frame: seq<byte>): seq<Tlv>
    requires |frame| >= HEADER
  {
    Tlvs(frame[HEADER..], 0)
  }

  /** They run exactly to the end of the frame. */
  predicate WellFormed(frame: seq<byte>)
    requires |frame| >= HEADER
  {
    End(frame[HEADER..], 0) == |frame| - HEADER
  }

  predicate HasComponent(frame: seq<byte>)
    requires |frame| >= HEADER
  {
    IndexOf(Parts(frame), COMPONENT) < |Parts(frame)|
  }

  /** The first component replaced in place, or one appended. */
  function WithComponent(ts: seq<Tlv>, component: Tlv): seq<Tlv> {
    var k := IndexOf(ts, COMPONENT);
    if k < |ts| then ts[k := component] else ts + [component]
  }

  // ---- The component ----

  /** The id that was built in is the id that is read out. */
  lemma ExtractsWhatWasBuilt(id: nat)
    requires id < TWO_16
    ensures ExtractId(Encode(Component(id))) == id
    ensures Tlvs(Encode(Component(id)), 4) == Capabilities(id)
  {
    hide Be16, Tlvs;
    LaidSize(id);
    var header := Be16(COMPONENT_SIZE) + Be16(COMPONENT);
    assert Encode(Component(id)) == header + EncodeAll(Capabilities(id)) by {
      assert Capabilities(id)[..9] == Capabilities(id);
    }
    RoundTrip(header, Capabilities(id));
    Be16RoundTrip(id);
  }

  /** An identifier, the name, and the most that the display takes of everything. */
  function Pieces(id: nat): seq<seq<byte>>
    requires id < TWO_16
  {
    [[0, 6, 0, 0, id / 256, id % 256], [0, 34, 0, 1] + Ascii("RouteGuidanceDisplayComponent") + [0],
     [0, 6, 0, 2, 1, 0], [0, 6, 0, 3, 1, 0], [0, 6, 0, 4, 1, 0], [0, 6, 0, 5, 1, 0],
     [0, 6, 0, 6, 0, 6], [0, 6, 0, 7, 1, 0], [0, 6, 0, 8, 0, 6]]
  }

  /** The component, byte by byte. */
  lemma ComponentIs(id: nat)
    requires id < TWO_16
    ensures Encode(Component(id)) == [0, 86, 0, 0x1E] + Flat(Pieces(id))
  {
    hide EncodeAll, Encode, Flat;
    NameIs();
    forall k | 0 <= k < 9 ensures Encode(Capabilities(id)[k]) == Pieces(id)[k] {
      CapabilityEncodes(id, k);
    }
    EncodePieces(Capabilities(id), Pieces(id));
    ComponentEncodes(id);
  }

  lemma {:induction false} EncodePieces(ts: seq<Tlv>, pieces: seq<seq<byte>>)
    requires |ts| == |pieces| && forall k :: 0 <= k < |ts| ==> Encode(ts[k]) == pieces[k]
    ensures EncodeAll(ts) == Flat(pieces)
  {
    hide Encode;
    if ts != [] {
      EncodePieces(ts[1..], pieces[1..]);
    }
  }

  lemma CapabilityEncodes(id: nat, k: nat)
    requires id < TWO_16 && k < 9
    ensures var c := Capabilities(id)[k];
            c.id == k && 4 + |c.value| < 256 && Encode(c) == [0, 4 + |c.value|, 0, k] + c.value
  {
  }

  lemma ComponentEncodes(id: nat)
    requires id < TWO_16
    ensures Encode(Component(id)) == [0, 86, 0, 0x1E] + EncodeAll(Capabilities(id))
  {
    hide EncodeAll;
    ComponentFits(id);
  }

  lemma NameIs()
    ensures Name() == Ascii("RouteGuidanceDisplayComponent") + [0]
  {
  }

  /** The TLVs inside the first component of a frame, if it has one. */
  function Inside(frame: seq<byte>): seq<Tlv>
    requires |frame| >= HEADER
  {
    if HasComponent(frame) then Tlvs(Parts(frame)[IndexOf(Parts(frame), COMPONENT)].value, 0) else []
  }

  predicate Identifies(t: Tlv) {
    t.id == 0 && |t.value| >= 2
  }

  /**
  Whatever put the component into the frame and whatever else it holds: its first identifier is adopted unless that is
  0, and without one the id so far stays.
  */
  lemma AdoptsExistingId(frame: seq<byte>, componentId: nat, k: nat)
    requires |frame| >= HEADER && k <= |Inside(frame)|
    requires k == |Inside(frame)| || Identifies(Inside(frame)[k])
    requires forall j :: 0 <= j < k ==> !Identifies(Inside(frame)[j])
    ensures Adopted(frame, componentId)
              == (var ts := Inside(frame);
                  var id := if k == |ts| then 0 else FromBe16(ts[k].value[0], ts[k].value[1]);
                  if id == 0 then componentId else id)
  {
    hide FromBe16, Tlvs;
    if HasComponent(frame) {
      ExtractsFirst(Parts(frame)[IndexOf(Parts(frame), COMPONENT)]);
      FirstIdIs(Inside(frame), k);
    }
  }

  /** What is read out of an encoded component is what the TLVs of its value say. */
  lemma ExtractsFirst(t: Tlv)
    ensures ExtractId(Encode(t)) == FirstId(Tlvs(t.value, 0))
  {
    hide Be16;
    var header := Be16(4 + |t.value|) + Be16(t.id);
    if |t.value| >= 6 {
      Shifted(header, t.value, 0);
    } else {
      FewBytes(t.value, 0);
      FirstIdIs(Tlvs(t.value, 0), |Tlvs(t.value, 0)|);
    }
  }

  /** TLVs do not depend on what stands in front of them. */
  lemma {:induction false} Shifted(a: seq<byte>, b: seq<byte>, off: nat)
    requires off <= |b|
    ensures Tlvs(a + b, |a| + off) == Tlvs(b, off)
    decreases |b| - off
  {
    hide Readable, At, Word, Tlvs;
    ShiftedAt(a, b, off);
    TlvsUnfold(b, off);
    TlvsUnfold(a + b, |a| + off);
    if Readable(b, off) {
      Shifted(a, b, off + Word(b, off));
    }
  }

  lemma ShiftedAt(a: seq<byte>, b: seq<byte>, off: nat)
    requires off <= |b|
    ensures Readable(a + b, |a| + off) <==> Readable(b, off)
    ensures Readable(b, off) ==>
              0 < Word(b, off) == Word(a + b, |a| + off) && off + Word(b, off) <= |b|
              && At(b, off) == At(a + b, |a| + off)
  {
    hide FromBe16;
    assert Readable(b, off) ==> b[off + 4..off + Word(b, off)] == (a + b)[|a| + off + 4..|a| + off + Word(b, off)];
  }

  /** An identifier takes six bytes. */
  lemma {:induction false} FewBytes(b: seq<byte>, off: nat)
    requires off <= |b| < 6
    ensures forall j :: 0 <= j < |Tlvs(b, off)| ==> !Identifies(Tlvs(b, off)[j])
    decreases |b| - off
  {
    hide FromBe16;
    if Readable(b, off) {
      FewBytes(b, off + Word(b, off));
    }
  }

  lemma {:induction false} FirstIdIs(ts: seq<Tlv>, k: nat)
    requires k <= |ts| && (k == |ts| || Identifies(ts[k]))
    requires forall j :: 0 <= j < k ==> !Identifies(ts[j])
    ensures FirstId(ts) == if k == |ts| then 0 else FromBe16(ts[k].value[0], ts[k].value[1])
    decreases k
  {
    if k > 0 {
      FirstIdIs(ts[1..], k - 1);
    }
  }

  // ---- One patch ----

  lemma SameTail(b: seq<byte>, off: nat)
    requires off <= |b|
    ensures Readable(b, off) <==> Readable(b[off..], 0)
    ensures off + 2 <= |b| ==> Word(b, off) == Word(b[off..], 0)
  {
  }

  /** TLVs with something unreadable behind them. */
  lemma TlvsBefore(ts: seq<Tlv>, junk: seq<byte>)
    requires AllFit(ts) && !Readable(junk, 0)
    ensures Tlvs(EncodeAll(ts) + junk, 0) == ts && End(EncodeAll(ts) + junk, 0) == |EncodeAll(ts)|
  {
    hide Readable, EncodeAll;
    var b := EncodeAll(ts) + junk;
    assert [] + EncodeAll(ts) + junk == b;
    assert b[|EncodeAll(ts)|..] == junk;
    assert !Readable(b, |EncodeAll(ts)|) by { SameTail(b, |EncodeAll(ts)|); }
    ReadAllEncoded([], ts, junk);
  }

  lemma ComponentFits(id: nat)
    ensures Component(id).Fits() && |Encode(Component(id))| == COMPONENT_SIZE
  {
    LaidSize(id);
  }

  function Junk(frame: seq<byte>): (junk: seq<byte>)
    requires |frame| >= HEADER
  {
    frame[HEADER..][End(frame[HEADER..], 0)..]
  }

  lemma JunkIsUnreadable(frame: seq<byte>)
    requires |frame| >= HEADER
    ensures frame[HEADER..] == EncodeAll(Parts(frame)) + Junk(frame) && !Readable(Junk(frame), 0)
    ensures WellFormed(frame) <==> Junk(frame) == []
  {
    hide Readable;
    EncodeTlvs(frame[HEADER..], 0);
    SameTail(frame[HEADER..], End(frame[HEADER..], 0));
  }

  lemma PatchedPayload(frame: seq<byte>, componentId: nat)
    requires |frame| >= HEADER
    ensures var r := Patched(frame, componentId);
            var component := Component(Adopted(frame, componentId));
            && r[..HEADER] == Header(frame, |r|)
            && (HasComponent(frame) || WellFormed(frame) ==>
                  r[HEADER..] == EncodeAll(WithComponent(Parts(frame), component)) + Junk(frame))
            && (!HasComponent(frame) ==>
                  r[HEADER..] == EncodeAll(Parts(frame)) + Junk(frame) + Encode(component))
  {
    hide Header, Readable, Encode, Component, Adopted, End, Tlvs, EncodeAll, IndexOf;
    JunkIsUnreadable(frame);
    var ts := Parts(frame);
    var component := Component(Adopted(frame, componentId));
    var k := IndexOf(ts, COMPONENT);
    var r := Patched(frame, componentId);
    if k < |ts| {
      var all := ts[k := component];
      EncodeAround(all, k);
      assert all[..k] == ts[..k] && all[k + 1..] == ts[k + 1..];
      assert r[HEADER..] == EncodeAll(all) + Junk(frame);
    } else {
      EncodeAllAppend(ts, [component]);
      EncodeOne(component);
      assert r[HEADER..] == frame[HEADER..] + Encode(component);
      if WellFormed(frame) {
        assert r[HEADER..] == EncodeAll(WithComponent(ts, component)) + Junk(frame);
      }
    }
  }

  lemma EncodeOne(t: Tlv)
    ensures EncodeAll([t]) == Encode(t)
  {
    assert [t][1..] == [];
  }

  /**
  In a well-formed frame that stays below 64 KiB exactly the component changes: it is replaced where it stands
  or appended, every other TLV stays as it is and in order, and the length field says how long the frame is.
  */
  lemma PatchIsLocal(frame: seq<byte>, componentId: nat)
    requires |frame| >= HEADER && WellFormed(frame)
    ensures var r := Patched(frame, componentId);
            && Parts(r) == WithComponent(Parts(frame), Component(Adopted(frame, componentId)))
            && WellFormed(r)
            && r[..2] == frame[..2] && r[4..HEADER] == frame[4..HEADER]
            && FromBe16(r[2], r[3]) == |r| % TWO_16
            && |r| == |frame| + COMPONENT_SIZE
                      - (if HasComponent(frame) then |Encode(Parts(frame)[IndexOf(Parts(frame), COMPONENT)])| else 0)
  {
    hide Be16, Readable, Encode, Component, Adopted, End, Tlvs, EncodeAll, IndexOf, Patched;
    var r := Patched(frame, componentId);
    var ts := Parts(frame);
    var component := Component(Adopted(frame, componentId));
    PatchedPayload(frame, componentId);
    JunkIsUnreadable(frame);
    ComponentFits(Adopted(frame, componentId));
    TlvsBefore(WithComponent(ts, component), []);
    HeaderFields(r, frame);
    PatchedSize(ts, component);
    assert EncodeAll(ts) + [] == EncodeAll(ts);
    assert EncodeAll(WithComponent(ts, component)) + [] == EncodeAll(WithComponent(ts, component));
  }

  lemma HeaderFields(r: seq<byte>, frame: seq<byte>)
    requires |r| >= HEADER && |frame| >= HEADER && r[..HEADER] == Header(frame, |r|)
    ensures r[..2] == frame[..2] && r[4..HEADER] == frame[4..HEADER] && FromBe16(r[2], r[3]) == |r| % TWO_16
  {
    hide Be16;
    Be16RoundTrip(|r|);
    assert r[..2] == r[..HEADER][..2] && r[4..HEADER] == r[..HEADER][4..] && r[2..4] == r[..HEADER][2..4];
    assert r[2] == r[2..4][0] && r[3] == r[2..4][1];
  }

  lemma PatchedSize(ts: seq<Tlv>, component: Tlv)
    ensures var k := IndexOf(ts, COMPONENT);
            |EncodeAll(WithComponent(ts, component))|
              == |EncodeAll(ts)| + |Encode(component)| - (if k < |ts| then |Encode(ts[k])| else 0)
  {
    hide Encode, EncodeAll, IndexOf;
    var k := IndexOf(ts, COMPONENT);
    if k < |ts| {
      EncodeAround(ts, k);
      var all := ts[k := component];
      EncodeAround(all, k);
      assert all[..k] == ts[..k] && all[k + 1..] == ts[k + 1..];
    } else {
      EncodeAllAppend(ts, [component]);
      EncodeOne(component);
    }
  }

  // ---- Two patches ----

  lemma HeaderTwice(r: seq<byte>, frame: seq<byte>)
    requires |r| >= HEADER && |frame| >= HEADER && r[..HEADER] == Header(frame, |r|)
    ensures Header(r, |r|) == r[..HEADER]
  {
    hide Be16;
    assert r[..2] == r[..HEADER][..2] && r[4..HEADER] == r[..HEADER][4..];
  }

  lemma IndexAfterPatch(ts: seq<Tlv>, component: Tlv)
    requires component.id == COMPONENT
    ensures var all := WithComponent(ts, component);
            var k := IndexOf(ts, COMPONENT);
            && IndexOf(all, COMPONENT) == k < |all| && all[k] == component
            && WithComponent(all, component) == all
  {
    var k, all := IndexOf(ts, COMPONENT), WithComponent(ts, component);
    FirstIs(all, COMPONENT, k);
  }

  lemma SecondPatchIsIdle(frame: seq<byte>, componentId: nat)
    requires |frame| >= HEADER && componentId < TWO_16 && (HasComponent(frame) || WellFormed(frame))
    ensures var r := Patched(frame, componentId);
            Adopted(r, Adopted(frame, componentId)) == Adopted(frame, componentId)
            && Patched(r, Adopted(frame, componentId)) == r
  {
    hide Header, Be16, Readable, Encode, Component, Adopted, End, Tlvs, EncodeAll, IndexOf, Patched, WithComponent,
      ExtractId;
    var r, id := Patched(frame, componentId), Adopted(frame, componentId);
    var ts := Parts(frame);
    var all := WithComponent(ts, Component(id));
    PatchedPayload(frame, componentId);
    JunkIsUnreadable(frame);
    ComponentFits(id);
    ComponentId(id);
    AllFitWith(ts, Component(id));
    IndexAfterPatch(ts, Component(id));
    TlvsBefore(all, Junk(frame));
    AdoptedFits(frame, componentId);
    ExtractsWhatWasBuilt(id);
    AdoptedFrom(r, id, id);
    PatchedPayload(r, id);
    assert r[HEADER..] == EncodeAll(all) + Junk(frame) && Junk(r) == Junk(frame);
    HeaderTwice(r, frame);
    assert |Patched(r, id)| == |r|;
    assert r == r[..HEADER] + r[HEADER..];
    assert Patched(r, id) == Patched(r, id)[..HEADER] + Patched(r, id)[HEADER..];
  }

  lemma ComponentId(id: nat)
    ensures Component(id).id == COMPONENT
  {
  }

  lemma AllFitWith(ts: seq<Tlv>, component: Tlv)
    requires AllFit(ts) && component.Fits()
    ensures AllFit(WithComponent(ts, component))
  {
  }

  lemma AdoptedFits(frame: seq<byte>, componentId: nat)
    requires |frame| >= HEADER && componentId < TWO_16
    ensures Adopted(frame, componentId) < TWO_16
  {
  }

  lemma AdoptedFrom(frame: seq<byte>, id: nat, componentId: nat)
    requires |frame| >= HEADER && HasComponent(frame)
    requires ExtractId(Encode(Parts(frame)[IndexOf(Parts(frame), COMPONENT)])) == id
    ensures Adopted(frame, componentId) == if id != 0 then id else componentId
  {
  }

  // ---- Frames that end in something unreadable ----

  predicate Lacks(b: seq<byte>, x: nat) {
    forall i :: 0 <= i < |b| ==> b[i] != x
  }

  lemma {:induction false} EncodeAllLacks(ts: seq<Tlv>, x: nat)
    requires forall i :: 0 <= i < |ts| ==> Lacks(Encode(ts[i]), x)
    ensures Lacks(EncodeAll(ts), x)
  {
    hide Encode;
    if ts != [] {
      EncodeAllLacks(ts[1..], x);
    }
  }

  lemma NumberLacks(t: Tlv)
    requires t.id < 9 && (t.value == Be16(0x100) || t.value == Be16(6))
    ensures Lacks(Encode(t), 86)
  {
  }

  lemma NameLacks()
    ensures Lacks(Encode(Tlv(1, Name())), 86)
  {
    assert Encode(Tlv(1, Name())) == [0, 34, 0, 1] + Name();
  }

  lemma CapabilityLacks(id: nat, i: nat)
    requires 1 <= i < 9
    ensures |Capabilities(id)| == 9 && Lacks(Encode(Capabilities(id)[i]), 86)
  {
    hide Encode, Be16, Name, Lacks;
    if i == 1 {
      NameLacks();
    } else {
      NumberLacks(Capabilities(id)[i]);
    }
  }

  /** Behind the identifier the component has no byte like that of its length. */
  lemma CapabilityBytes(id: nat)
    ensures var tail := EncodeAll(Capabilities(id)[1..]);
            |tail| >= 2 && tail[0] == 0 && tail[1] == 34 && tail[|tail| - 1] == 6 && Lacks(tail, 86)
  {
    hide EncodeAll;
    var tail := Capabilities(id)[1..];
    forall i | 0 <= i < |tail| ensures Lacks(Encode(tail[i]), 86) {
      CapabilityLacks(id, i + 1);
    }
    EncodeAllLacks(tail, 86);
    assert tail == tail[..7] + [tail[7]] && tail == [tail[0]] + tail[1..];
    EncodeAllAppend(tail[..7], [tail[7]]);
    EncodeAllAppend([tail[0]], tail[1..]);
    EncodeOne(tail[0]);
    EncodeOne(tail[7]);
    assert Encode(tail[0])[0] == 0 && Encode(tail[0])[1] == 34;
    assert Encode(tail[7])[5] == 6;
  }

  lemma ComponentBytes(id: nat)
    ensures var c := Encode(Component(id));
            && |c| == COMPONENT_SIZE
            && c[0] == 0 && c[1] == 86 && c[3] == 30 && c[10] == 0 && c[11] == 34 && c[85] == 6
            && (forall i :: 2 <= i < |c| && c[i] == 86 ==> i == 8 || i == 9)
  {
    hide EncodeAll;
    var caps := Capabilities(id);
    var tail := EncodeAll(caps[1..]);
    ComponentFits(id);
    CapabilityBytes(id);
    EncodeAllAppend([caps[0]], caps[1..]);
    EncodeOne(caps[0]);
    assert caps == [caps[0]] + caps[1..];
    assert Encode(Component(id)) == [0, 86, 0, 30] + ([0, 6, 0, 0] + Be16(id) + tail);
    forall i | 10 <= i < COMPONENT_SIZE ensures Encode(Component(id))[i] == tail[i - 10] {
    }
  }

  /** No component overlaps the beginning of another one in its own tail. */
  lemma NoOverlap(a: nat, b: nat, j: nat)
    requires 1 <= j < COMPONENT_SIZE == |Encode(Component(a))| == |Encode(Component(b))|
    ensures Encode(Component(a))[j..] != Encode(Component(b))[..COMPONENT_SIZE - j]
  {
    hide Component, Encode;
    ComponentBytes(a);
    ComponentBytes(b);
    var x, y := Encode(Component(a)), Encode(Component(b));
    var i := if j == 85 then 0 else if j == 7 || j == 8 then 3 else 1;
    assert x[j..][i] == x[j + i] != y[i] == y[..COMPONENT_SIZE - j][i];
  }

  /** A frame without a component that ends in something unreadable does not show the component it was given. */
  lemma SecondPatchGrows(frame: seq<byte>, componentId: nat)
    requires |frame| >= HEADER && !HasComponent(frame) && !WellFormed(frame)
    ensures Patched(Patched(frame, componentId), componentId) != Patched(frame, componentId)
  {
    hide Header, Be16, Encode, Component, Adopted, End, Tlvs, EncodeAll, IndexOf, Patched, Locates;
    var r := Patched(frame, componentId);
    var c := Encode(Component(Adopted(frame, componentId)));
    var d := Encode(Component(Adopted(r, componentId)));
    var ts, junk, b := Parts(frame), Junk(frame), r[HEADER..];
    PatchedPayload(frame, componentId);
    JunkIsUnreadable(frame);
    ComponentFits(Adopted(frame, componentId));
    ComponentFits(Adopted(r, componentId));
    var off, length := Location(b);
    PatchedBytes(r, componentId, off, length);
    if Patched(r, componentId) == r {
      assert length == COMPONENT_SIZE;
      PartAt(r, Header(r, |r|), r[HEADER..HEADER + off], d, r[HEADER + off + length..]);
      assert b[off..off + length] == d;
      LocationBehind(ts, junk, c, off, length);
      assert b[off..off + length] == junk + c[..COMPONENT_SIZE - |junk|];
      assert d[|junk|..] == c[..COMPONENT_SIZE - |junk|];
      NoOverlap(Adopted(r, componentId), Adopted(frame, componentId), |junk|);
    }
  }

  lemma PartAt(r: seq<byte>, head: seq<byte>, before: seq<byte>, part: seq<byte>, after: seq<byte>)
    requires r == head + (before + part + after)
    ensures r[|head|..][|before|..|before| + |part|] == part
  {
    assert r[|head|..] == before + part + after;
  }

  lemma Location(payload: seq<byte>) returns (off: nat, length: nat)
    ensures Locates(payload, off, length) && off + length <= |payload|
  {
    hide IndexOf, Encode, Tlvs;
    var ts := Tlvs(payload, 0);
    var k := IndexOf(ts, COMPONENT);
    if k < |ts| {
      EncodeTlvs(payload, 0);
      EncodeAround(ts, k);
      off, length := |EncodeAll(ts[..k])|, |Encode(ts[k])|;
    } else {
      off, length := |payload|, 0;
    }
  }

  /** A component of full length found in such a payload starts right where the unreadable bytes do. */
  lemma LocationBehind(ts: seq<Tlv>, junk: seq<byte>, c: seq<byte>, off: nat, length: nat)
    requires AllFit(ts) && IndexOf(ts, COMPONENT) == |ts| && !Readable(junk, 0) && junk != [] && |c| == COMPONENT_SIZE
    requires Locates(EncodeAll(ts) + junk + c, off, length) && length == COMPONENT_SIZE
    requires off + length <= |EncodeAll(ts) + junk + c|
    ensures off == |EncodeAll(ts)| && |junk| < COMPONENT_SIZE
  {
    hide Encode, EncodeAll, Tlvs, End, Word, IndexOf;
    var b, o := EncodeAll(ts) + junk + c, |EncodeAll(ts)|;
    var k := IndexOf(Tlvs(b, 0), COMPONENT);
    FoundBehind(ts, junk, c, b);
    TailReaches(b, o, junk, c);
    TlvsUnfold(b, o);
    if k == |ts| {
      assert Tlvs(b, 0)[k] == At(b, o);
    }
  }

  /** Where the first component of such a payload can be. */
  lemma FoundBehind(ts: seq<Tlv>, junk: seq<byte>, c: seq<byte>, b: seq<byte>)
    requires AllFit(ts) && IndexOf(ts, COMPONENT) == |ts| && !Readable(junk, 0) && b == EncodeAll(ts) + junk + c
    ensures var all := Tlvs(b, 0);
            var k := IndexOf(all, COMPONENT);
            && all == ts + Tlvs(b, |EncodeAll(ts)|)
            && k >= |ts| && all[..|ts|] == ts
            && (k > |ts| ==> |EncodeAll(all[..k])| > |EncodeAll(ts)| + |junk|)
  {
    hide Encode, EncodeAll, Tlvs, End, Word, IndexOf;
    var o, all := |EncodeAll(ts)|, Tlvs(b, 0);
    var k := IndexOf(all, COMPONENT);
    assert [] + EncodeAll(ts) + (junk + c) == b;
    ReadAllEncoded([], ts, junk + c);
    assert forall i :: 0 <= i < |ts| ==> all[i] == ts[i];
    TailReaches(b, o, junk, c);
    TlvsUnfold(b, o);
    if k > |ts| {
      var first, rest := At(b, o), all[|ts| + 1..k];
      assert all[..k] == ts + ([first] + rest);
      EncodeAllAppend(ts, [first] + rest);
      EncodeAllAppend([first], rest);
      EncodeOne(first);
    }
  }

  /** Only with bytes from behind can what is unreadable become a TLV. */
  lemma TailReaches(b: seq<byte>, o: nat, junk: seq<byte>, c: seq<byte>)
    requires o + |junk| + |c| == |b| && b[o..] == junk + c && !Readable(junk, 0)
    ensures Readable(b, o) ==> Word(b, o) > |junk|
  {
    SameTail(b, o);
    assert |junk| >= 2 ==> Word(junk + c, 0) == Word(junk, 0);
  }

  /** Patching twice is patching once, exactly if the component was there or nothing unreadable ends the frame. */
  lemma PatchTwice(frame: seq<byte>, componentId: nat)
    requires |frame| >= HEADER && componentId < TWO_16
    ensures var r := Patched(frame, componentId);
            Patched(r, Adopted(frame, componentId)) == r <==> HasComponent(frame) || WellFormed(frame)
  {
    hide Patched, WellFormed;
    if HasComponent(frame) || WellFormed(frame) {
      SecondPatchIsIdle(frame, componentId);
    } else {
      assert Adopted(frame, componentId) == componentId;
      SecondPatchGrows(frame, componentId);
    }
  }

  /** A frame with a stray byte behind its header: it gets a second component with the second patch. */
  lemma PatchTwiceFails()
    ensures var frame: seq<byte> := [0x40, 0x40, 0, 7, 0x1D, 1, 1];
            var r := Patched(frame, DEFAULT_ID);
            !HasComponent(frame) && !WellFormed(frame) && Patched(r, Adopted(frame, DEFAULT_ID)) != r
  {
    hide Patched, Adopted;
    var frame: seq<byte> := [0x40, 0x40, 0, 7, 0x1D, 1, 1];
    assert frame[HEADER..] == [1];
    PatchTwice(frame, DEFAULT_ID);
  }
}
