/**
The Identify patcher of rgd_hook.c: it puts the route guidance display component (TLV 0x001E) into an
identification frame, in place of the one that is there or behind everything else.
*/
module Identify {
  import opened Bytes
  import opened Tlv

  const COMPONENT: nat := 0x1E
  const COMPONENT_SIZE: nat := 86
  const HEADER: nat := 6

  // ---- The component ----

  function Name(): (b: seq<byte>)
    ensures |b| == 30
  {
    [82, 111, 117, 116, 101, 71, 117, 105, 100, 97, 110, 99, 101, 68, 105, 115, 112, 108, 97, 121,
     67, 111, 109, 112, 111, 110, 101, 110, 116, 0]
  }

  function Capabilities(componentId: nat): seq<Tlv> {
    [Tlv(0, Be16(componentId)), Tlv(1, Name()), Tlv(2, Be16(0x100)), Tlv(3, Be16(0x100)), Tlv(4, Be16(0x100)),
     Tlv(5, Be16(0x100)), Tlv(6, Be16(6)), Tlv(7, Be16(0x100)), Tlv(8, Be16(6))]
  }

  function Component(componentId: nat): Tlv {
    Tlv(COMPONENT, EncodeAll(Capabilities(componentId)))
  }

  /** The first identifier among the TLVs inside a component, or 0. */
  function FirstId(ts: seq<Tlv>): (id: nat)
    ensures id < TWO_16
  {
    if ts == [] then 0
    else if ts[0].id == 0 && |ts[0].value| >= 2 then FromBe16(ts[0].value[0], ts[0].value[1])
    else FirstId(ts[1..])
  }

  function ExtractId(tlv: seq<byte>): (id: nat)
    ensures id < TWO_16
  {
    if |tlv| < 10 then 0 else FirstId(Tlvs(tlv, 4))
  }

  /** rgd_extract_component_id */
  method ExtractComponentId(tlv: seq<byte>) returns (id: nat)
    ensures id == ExtractId(tlv)
  {
    if |tlv| < 10 {
      return 0;
    }
    var off := 4;
    while off + 4 <= |tlv|
      invariant 4 <= off <= |tlv| && FirstId(Tlvs(tlv, 4)) == FirstId(Tlvs(tlv, off))
      decreases |tlv| - off
    {
      var length, inner := Word(tlv, off), Word(tlv, off + 2);
      if length < 4 || off + length > |tlv| {
        break;
      }
      assert Tlvs(tlv, off) == [At(tlv, off)] + Tlvs(tlv, off + length);
      if inner == 0 && length >= 6 {
        return Word(tlv, off + 4);
      }
      off := off + length;
    }
    id := 0;
  }

  // ---- The patch on frames ----

  /** The header of a frame with its length field rewritten. */
  function Header(frame: seq<byte>, length: nat): (h: seq<byte>)
    requires |frame| >= HEADER
    ensures |h| == HEADER
  {
    frame[..2] + Be16(length) + frame[4..HEADER]
  }

  /** The component id that the patcher announces. */
  function Adopted(frame: seq<byte>, componentId: nat): nat
    requires |frame| >= HEADER
  {
    var ts := Tlvs(frame[HEADER..], 0);
    var k := IndexOf(ts, COMPONENT);
    if k == |ts| then componentId
    else
      var id := ExtractId(Encode(ts[k]));
      if id != 0 then id else componentId
  }

  /** The patched frame, with everything behind its length field as bytes. */
  function Patched(frame: seq<byte>, componentId: nat): (r: seq<byte>)
    requires |frame| >= HEADER
    ensures |r| >= HEADER
  {
    var payload := frame[HEADER..];
    var ts := Tlvs(payload, 0);
    var k := IndexOf(ts, COMPONENT);
    var component := Encode(Component(Adopted(frame, componentId)));
    EncodeTlvs(payload, 0);
    var body :=
      if k == |ts| then payload + component
      else EncodeAll(ts[..k]) + component + EncodeAll(ts[k + 1..]) + payload[End(payload, 0)..];
    Header(frame, HEADER + |body|) + body
  }
}
