/** The Identify patcher as it runs: in place on the frame buffer, which it grows when it has to. */
module IdentifyPatcher {
  import opened Bytes
  import opened Identify
  import opened Tlv

  const DEFAULT_ID: nat := 0x10

  // ---- Building the component ----

  method Put16(out: array<byte>, off: nat, x: nat)
    requires off + 2 <= out.Length
    modifies out
    ensures out[..off + 2] == old(out[..off]) + Be16(x) && out[off + 2..] == old(out[off + 2..])
  {
    out[off], out[off + 1] := x / 0x100 % 256, x % 256;
  }

  method PutU16Tlv(out: array<byte>, off: nat, id: nat, value: nat) returns (next: nat)
    requires off + 6 <= out.Length
    modifies out
    ensures next == off + 6 && out[..next] == old(out[..off]) + Encode(Tlv(id, Be16(value)))
  {
    hide Be16;
    Put16(out, off, 6);
    Put16(out, off + 2, id);
    Put16(out, off + 4, value);
    next := off + 6;
  }

  method PutBytes(out: array<byte>, off: nat, bytes: seq<byte>)
    requires off + |bytes| <= out.Length
    modifies out
    ensures out[..off + |bytes|] == old(out[..off]) + bytes
    ensures out[off + |bytes|..] == old(out[off + |bytes|..])
  {
    for i := 0 to |bytes|
      invariant out[..off] == old(out[..off]) && out[off..off + i] == bytes[..i]
      invariant out[off + |bytes|..] == old(out[off + |bytes|..])
    {
      out[off + i] := bytes[i];
    }
    assert out[..off + |bytes|] == out[..off] + out[off..off + |bytes|];
  }

  /** What has been laid out once the first k capabilities are written. */
  ghost function Laid(componentId: nat, k: nat): seq<byte>
    requires k <= 9
  {
    Be16(COMPONENT_SIZE) + Be16(COMPONENT) + EncodeAll(Capabilities(componentId)[..k])
  }

  lemma LaidGrows(componentId: nat, k: nat)
    requires k < 9
    ensures Laid(componentId, k + 1) == Laid(componentId, k) + Encode(Capabilities(componentId)[k])
  {
    hide Encode, Be16, Capabilities;
    var caps := Capabilities(componentId);
    assert |caps| == 9 by {
      CapabilitiesCount(componentId);
    }
    assert caps[..k + 1] == caps[..k] + [caps[k]];
    EncodeAllAppend(caps[..k], [caps[k]]);
    assert EncodeAll([caps[k]]) == Encode(caps[k]) + EncodeAll([]);
  }

  lemma CapabilitiesCount(componentId: nat)
    ensures |Capabilities(componentId)| == 9
  {
  }

  lemma LaidSize(componentId: nat)
    ensures |Laid(componentId, 9)| == COMPONENT_SIZE
    ensures Laid(componentId, 9) == Encode(Component(componentId))
    ensures Component(componentId).Fits()
  {
    hide Be16, Encode, Name;
    forall k | 0 <= k < 9
      ensures Laid(componentId, k + 1) == Laid(componentId, k) + Encode(Capabilities(componentId)[k])
    {
      LaidGrows(componentId, k);
    }
    LaidLength(componentId);
    assert Capabilities(componentId)[..9] == Capabilities(componentId);
    ComponentEncoding(componentId);
  }

  lemma LaidLength(componentId: nat)
    ensures |Laid(componentId, 9)| == COMPONENT_SIZE
  {
    hide Be16, Encode, Name, Laid, EncodeAll;
    LaidGrows(componentId, 0);
    LaidGrows(componentId, 1);
    LaidGrows(componentId, 2);
    LaidGrows(componentId, 3);
    LaidGrows(componentId, 4);
    LaidGrows(componentId, 5);
    LaidGrows(componentId, 6);
    LaidGrows(componentId, 7);
    LaidGrows(componentId, 8);
    LaidNothing(componentId);
  }

  lemma LaidNothing(componentId: nat)
    ensures |Laid(componentId, 0)| == 4
  {
  }

  lemma ComponentEncoding(componentId: nat)
    requires |Laid(componentId, 9)| == COMPONENT_SIZE
    ensures Encode(Component(componentId)) == Laid(componentId, 9)
  {
    assert Capabilities(componentId)[..9] == Capabilities(componentId);
  }

  /** rgd_build_component_tlv; 0 when the buffer is too small. */
  method BuildComponentTlv(out: array<byte>, componentId: nat) returns (off: nat)
    modifies out
    ensures out.Length < COMPONENT_SIZE ==> off == 0
    ensures out.Length >= COMPONENT_SIZE ==>
              off == COMPONENT_SIZE == |Encode(Component(componentId))| && out[..off] == Encode(Component(componentId))
  {
    hide Be16, Encode, Laid, EncodeAll;
    if out.Length < COMPONENT_SIZE {
      return 0;
    }
    Put16(out, 0, COMPONENT_SIZE);
    Put16(out, 2, COMPONENT);
    off := 4;
    LaidHeader(componentId);
    assert out[..off] == Laid(componentId, 0);
    LaidGrows(componentId, 0);
    off := PutU16Tlv(out, off, 0, componentId);
    LaidGrows(componentId, 1);
    off := PutName(out, off);
    LaidGrows(componentId, 2);
    off := PutU16Tlv(out, off, 2, 0x100);
    LaidGrows(componentId, 3);
    off := PutU16Tlv(out, off, 3, 0x100);
    LaidGrows(componentId, 4);
    off := PutU16Tlv(out, off, 4, 0x100);
    LaidGrows(componentId, 5);
    off := PutU16Tlv(out, off, 5, 0x100);
    LaidGrows(componentId, 6);
    off := PutU16Tlv(out, off, 6, 6);
    LaidGrows(componentId, 7);
    off := PutU16Tlv(out, off, 7, 0x100);
    LaidGrows(componentId, 8);
    off := PutU16Tlv(out, off, 8, 6);
    LaidSize(componentId);
  }

  lemma LaidHeader(componentId: nat)
    ensures Laid(componentId, 0) == Be16(COMPONENT_SIZE) + Be16(COMPONENT)
  {
  }

  method PutName(out: array<byte>, off: nat) returns (next: nat)
    requires off + 34 <= out.Length
    modifies out
    ensures next == off + 34 && out[..next] == old(out[..off]) + Encode(Tlv(1, Name()))
  {
    hide Be16, Name;
    Put16(out, off, 34);
    Put16(out, off + 2, 1);
    PutBytes(out, off + 4, Name());
    next := off + 34;
  }

  // ---- Patching the frame ----

  /** memmove */
  method MoveBytes(buf: array<byte>, dst: nat, src: nat, n: nat)
    requires dst + n <= buf.Length && src + n <= buf.Length
    modifies buf
    ensures buf[dst..dst + n] == old(buf[src..src + n])
    ensures buf[..dst] == old(buf[..dst])
  {
    var moved := buf[src..src + n];
    for i := 0 to n
      invariant buf[..dst] == old(buf[..dst]) && buf[dst..dst + i] == moved[..i]
    {
      buf[dst + i] := moved[i];
    }
  }

  /** Offset and length of the component in a payload: all of it is in front if there is none. */
  ghost predicate Locates(payload: seq<byte>, off: nat, length: nat) {
    var ts := Tlvs(payload, 0);
    var k := IndexOf(ts, COMPONENT);
    if k < |ts| then off == |EncodeAll(ts[..k])| && length == |Encode(ts[k])| && off + length <= |payload|
    else off == |payload| && length == 0
  }

  lemma PayloadParts(payload: seq<byte>, off: nat, length: nat)
    requires Locates(payload, off, length)
    ensures off + length <= |payload|
    ensures var ts := Tlvs(payload, 0);
            var k := IndexOf(ts, COMPONENT);
            k < |ts| ==> && payload[..off] == EncodeAll(ts[..k])
                         && payload[off..off + length] == Encode(ts[k])
                         && payload[off + length..] == EncodeAll(ts[k + 1..]) + payload[End(payload, 0)..]
  {
    hide Encode, IndexOf, Tlvs, End;
    var ts := Tlvs(payload, 0);
    var k := IndexOf(ts, COMPONENT);
    EncodeTlvs(payload, 0);
    if k < |ts| {
      EncodeAround(ts, k);
      assert payload == payload[0..End(payload, 0)] + payload[End(payload, 0)..];
      Cut(payload, EncodeAll(ts[..k]), Encode(ts[k]), EncodeAll(ts[k + 1..]), payload[End(payload, 0)..]);
    }
  }

  lemma EncodeAround(ts: seq<Tlv>, k: nat)
    requires k < |ts|
    ensures EncodeAll(ts) == EncodeAll(ts[..k]) + Encode(ts[k]) + EncodeAll(ts[k + 1..])
  {
    hide Encode, EncodeAll;
    SplitAt(ts, k);
    EncodeAllAppend(ts[..k], [ts[k]] + ts[k + 1..]);
    EncodeCons(ts[k], ts[k + 1..]);
  }

  lemma Cut(all: seq<byte>, a: seq<byte>, b: seq<byte>, c: seq<byte>, d: seq<byte>)
    requires all == a + b + c + d
    ensures all[..|a|] == a && all[|a|..|a| + |b|] == b && all[|a| + |b|..] == c + d
  {
  }

  /** The same patch cut out of the bytes of the frame: what is between off and off + length is replaced. */
  lemma PatchedBytes(frame: seq<byte>, componentId: nat, off: nat, length: nat)
    requires |frame| >= HEADER && Locates(frame[HEADER..], off, length)
    ensures off + length <= |frame| - HEADER
    ensures var component := Encode(Component(Adopted(frame, componentId)));
            Patched(frame, componentId) == Header(frame, |frame| - length + |component|)
              + (frame[HEADER..HEADER + off] + component + frame[HEADER + off + length..])
  {
    hide Encode, Component, Header, Adopted, IndexOf, Tlvs, End, EncodeAll;
    var payload := frame[HEADER..];
    var ts := Tlvs(payload, 0);
    var k := IndexOf(ts, COMPONENT);
    var component := Encode(Component(Adopted(frame, componentId)));
    PayloadParts(payload, off, length);
    assert frame[HEADER..HEADER + off] == payload[..off];
    assert frame[HEADER + off + length..] == payload[off + length..];
    var body := payload[..off] + component + payload[off + length..];
    if k == |ts| {
      assert body == payload + component;
    } else {
      assert body == EncodeAll(ts[..k]) + component + EncodeAll(ts[k + 1..]) + payload[End(payload, 0)..];
    }
  }

  class Patcher {
    var componentId: nat
    var componentValid: bool

    constructor ()
      ensures componentId == DEFAULT_ID && !componentValid
    {
      componentId, componentValid := DEFAULT_ID, false;
    }

    /** The first half of rgd_identify_patcher: find the component and settle on its id. */
    method Locate(frame: seq<byte>) returns (off: nat, length: nat)
      requires |frame| >= HEADER
      modifies this
      ensures componentId == Adopted(frame, old(componentId)) && componentValid
      ensures Locates(frame[HEADER..], off, length)
    {
      hide EncodeAll, Tlvs, IndexOf, ExtractId, Encode;
      var payload := frame[HEADER..];
      off, length := FindTlvOffset(payload, COMPONENT);
      if length > 0 {
        PayloadParts(payload, off, length);
        var id := ExtractComponentId(payload[off..off + length]);
        if id != 0 {
          componentId := id;
        }
      } else {
        off := |payload|;
      }
      componentValid := true;
    }

    /** rgd_identify_patcher; canGrow tells whether a buffer that is too small can be replaced by a larger one. */
    method Patch(buf: array<byte>, len: nat, canGrow: bool) returns (out: array<byte>, newLen: nat)
      requires len <= buf.Length
      modifies this, buf
      ensures out == buf || fresh(out)
      ensures newLen <= out.Length
      ensures len < HEADER ==> newLen == len && out[..len] == old(buf[..len]) && componentId == old(componentId)
      ensures len >= HEADER ==>
                var frame := old(buf[..len]);
                componentId == Adopted(frame, old(componentId)) && componentValid &&
                out[..newLen] == (if |Patched(frame, old(componentId))| <= buf.Length || canGrow
                                  then Patched(frame, old(componentId)) else frame)
    {
      hide EncodeAll, Tlvs, IndexOf, ExtractId, Encode, Patched, Adopted, Component, Be16, Locates, Identify.Header;
      out, newLen := buf, len;
      if len < HEADER {
        return;
      }
      ghost var frame := buf[..len];
      var off, length := Locate(buf[..len]);
      PatchedBytes(frame, old(componentId), off, length);
      var tlv := new byte[256];
      var n := BuildComponentTlv(tlv, componentId);
      var need := len - length + n;
      if need > buf.Length {
        if !canGrow {
          return;
        }
        out := new byte[need + 64];
        PutBytes(out, 0, buf[..len]);
      }
      assert out[..len] == frame;
      Rewrite(out, len, off, length, tlv[..n]);
      newLen := need;
    }
  }

  /** Puts the component into the frame and rewrites the length field. */
  method Rewrite(out: array<byte>, len: nat, off: nat, length: nat, component: seq<byte>)
    requires HEADER + off + length <= len <= out.Length && len - length + |component| <= out.Length
    modifies out
    ensures var frame := old(out[..len]);
            out[..len - length + |component|] == Header(frame, len - length + |component|)
              + (frame[HEADER..HEADER + off] + component + frame[HEADER + off + length..])
  {
    hide Identify.Header;
    ghost var frame := out[..len];
    ReplaceBytes(out, len, HEADER + off, length, component);
    var need := len - length + |component|;
    Spliced(out[..need], frame, off, length, component);
    assert out[..HEADER] == out[..need][..HEADER] && out[HEADER..need] == out[..need][HEADER..];
    SetLength(out, frame, need);
  }

  lemma Spliced(all: seq<byte>, frame: seq<byte>, off: nat, length: nat, component: seq<byte>)
    requires HEADER + off + length <= |frame|
    requires all == frame[..HEADER + off] + component + frame[HEADER + off + length..]
    ensures |all| == |frame| - length + |component| >= HEADER && all[..HEADER] == frame[..HEADER]
    ensures all[HEADER..] == frame[HEADER..HEADER + off] + component + frame[HEADER + off + length..]
  {
  }

  /** Puts bytes in place of the ones between from and from + length, moving what is behind them. */
  method ReplaceBytes(out: array<byte>, len: nat, from: nat, length: nat, bytes: seq<byte>)
    requires from + length <= len <= out.Length && len - length + |bytes| <= out.Length
    modifies out
    ensures out[..len - length + |bytes|] == old(out[..from]) + bytes + old(out[from + length..len])
  {
    ghost var was := out[..];
    var after := len - (from + length);
    MoveBytes(out, from + |bytes|, from + length, after);
    ghost var moved := out[..];
    PutBytes(out, from, bytes);
    assert out[from + |bytes|..] == moved[from + |bytes|..];
    assert out[from + |bytes|..len - length + |bytes|] == was[from + length..len];
    assert out[..from + |bytes|] == was[..from] + bytes;
    assert out[..len - length + |bytes|] == out[..from + |bytes|] + out[from + |bytes|..len - length + |bytes|];
  }

  /** Rewrites the length field of the frame. */
  method SetLength(out: array<byte>, ghost frame: seq<byte>, need: nat)
    requires HEADER <= |frame| && HEADER <= need <= out.Length && out[..HEADER] == frame[..HEADER]
    modifies out
    ensures out[..need] == Header(frame, need) + old(out[HEADER..need])
  {
    hide Be16;
    ghost var was := out[..];
    Put16(out, 2, need);
    assert out[..4] == was[..2] + Be16(need);
    assert out[4..need] == was[4..need] == frame[4..HEADER] + was[HEADER..need];
    assert out[..need] == out[..4] + out[4..need];
  }
}
