/** iAP2 TLVs as iap2_protocol.c reads them: a 16-bit length that counts its own header, a 16-bit id, a value. */
module Tlv {
  import opened Bytes
  import opened Wrappers

  datatype Tlv = Tlv(id: nat, value: seq<byte>) {
    predicate Fits() {
      id < TWO_16 && 4 + |value| < TWO_16
    }
  }

  function Encode(t: Tlv): (b: seq<byte>)
    ensures |b| == 4 + |t.value|
  {
    Be16(4 + |t.value|) + Be16(t.id) + t.value
  }

  function EncodeAll(ts: seq<Tlv>): seq<byte> {
    if ts == [] then [] else Encode(ts[0]) + EncodeAll(ts[1..])
  }

  predicate AllFit(ts: seq<Tlv>) {
    forall i :: 0 <= i < |ts| ==> ts[i].Fits()
  }

  function Word(b: seq<byte>, off: nat): (x: nat)
    requires off + 2 <= |b|
    ensures x < TWO_16
  {
    FromBe16(b[off], b[off + 1])
  }

  /** A whole TLV starts at off. */
  predicate Readable(b: seq<byte>, off: nat) {
    off + 4 <= |b| && Word(b, off) >= 4 && off + Word(b, off) <= |b|
  }

  function At(b: seq<byte>, off: nat): (t: Tlv)
    requires Readable(b, off)
    ensures t.Fits() && |Encode(t)| == Word(b, off)
  {
    Tlv(Word(b, off + 2), b[off + 4..off + Word(b, off)])
  }

  /** The TLVs from off on, up to the first that is cut short or claims to be shorter than its header. */
  function Tlvs(b: seq<byte>, off: nat): (ts: seq<Tlv>)
    ensures AllFit(ts)
    decreases |b| - off
  {
    if Readable(b, off) then [At(b, off)] + Tlvs(b, off + Word(b, off)) else []
  }

  /** Where reading them stops. */
  function End(b: seq<byte>, off: nat): (end: nat)
    ensures off <= end && (off <= |b| ==> end <= |b|)
    ensures !Readable(b, end)
    decreases |b| - off
  {
    if Readable(b, off) then End(b, off + Word(b, off)) else off
  }

  lemma EncodeAt(b: seq<byte>, off: nat)
    requires Readable(b, off)
    ensures Encode(At(b, off)) == b[off..off + Word(b, off)]
  {
    Be16Injective(b[off], b[off + 1]);
    Be16Injective(b[off + 2], b[off + 3]);
    assert Encode(At(b, off)) == [b[off], b[off + 1]] + [b[off + 2], b[off + 3]] + b[off + 4..off + Word(b, off)];
  }

  lemma EncodeCons(t: Tlv, ts: seq<Tlv>)
    ensures EncodeAll([t] + ts) == Encode(t) + EncodeAll(ts) && EncodeAll([]) == []
  {
    hide Encode;
    assert ([t] + ts)[1..] == ts;
  }

  /** One turn of reading. */
  lemma TlvsUnfold(b: seq<byte>, off: nat)
    ensures Readable(b, off) ==> var next := off + Word(b, off);
                                 Tlvs(b, off) == [At(b, off)] + Tlvs(b, next) && End(b, off) == End(b, next)
    ensures !Readable(b, off) ==> Tlvs(b, off) == [] && End(b, off) == off
  {
  }

  lemma SplitAt<T>(s: seq<T>, k: nat)
    requires k < |s|
    ensures s == s[..k] + ([s[k]] + s[k + 1..])
  {
  }

  lemma Joins(b: seq<byte>, i: nat, j: nat, k: nat)
    requires i <= j <= k <= |b|
    ensures b[i..j] + b[j..k] == b[i..k]
  {
  }

  /** Writing out what was read gives the bytes back. */
  lemma {:induction false} EncodeTlvs(b: seq<byte>, off: nat)
    requires off <= |b|
    ensures EncodeAll(Tlvs(b, off)) == b[off..End(b, off)]
    decreases |b| - off
  {
    hide Word, Encode, Tlvs, End, At, EncodeAll;
    TlvsUnfold(b, off);
    if Readable(b, off) {
      var next := off + Word(b, off);
      EncodeAt(b, off);
      EncodeTlvs(b, next);
      EncodeCons(At(b, off), Tlvs(b, next));
      Joins(b, off, next, End(b, next));
    } else {
      EncodeCons(Tlv(0, []), []);
    }
  }

  /** Reading what was written gives the TLV back, whatever stands around it. */
  lemma ReadEncoded(before: seq<byte>, t: Tlv, after: seq<byte>)
    requires t.Fits()
    ensures var b := before + Encode(t) + after;
            Readable(b, |before|) && At(b, |before|) == t && Word(b, |before|) == |Encode(t)|
  {
    var b, off := before + Encode(t) + after, |before|;
    Be16RoundTrip(4 + |t.value|);
    Be16RoundTrip(t.id);
    assert b[off] == Be16(4 + |t.value|)[0] && b[off + 1] == Be16(4 + |t.value|)[1];
    assert b[off + 2] == Be16(t.id)[0] && b[off + 3] == Be16(t.id)[1];
    assert b[off + 4..off + 4 + |t.value|] == t.value;
  }

  lemma {:induction false} ReadAllEncoded(before: seq<byte>, ts: seq<Tlv>, after: seq<byte>)
    requires AllFit(ts)
    ensures var b := before + EncodeAll(ts) + after;
            var off := |before| + |EncodeAll(ts)|;
            && Tlvs(b, |before|) == ts + Tlvs(b, off)
            && End(b, |before|) == End(b, off)
    decreases |ts|
  {
    hide Encode, Word, At, Readable;
    var b := before + EncodeAll(ts) + after;
    if ts != [] {
      var rest := EncodeAll(ts[1..]) + after;
      assert b == before + Encode(ts[0]) + rest;
      ReadEncoded(before, ts[0], rest);
      assert b == (before + Encode(ts[0])) + EncodeAll(ts[1..]) + after;
      ReadAllEncoded(before + Encode(ts[0]), ts[1..], after);
      assert ts == [ts[0]] + ts[1..];
    }
  }

  /** Round trip: exactly the TLVs that were written are read, up to the end. */
  lemma RoundTrip(before: seq<byte>, ts: seq<Tlv>)
    requires AllFit(ts)
    ensures Tlvs(before + EncodeAll(ts), |before|) == ts
    ensures End(before + EncodeAll(ts), |before|) == |before| + |EncodeAll(ts)|
  {
    hide EncodeAll, Tlvs, End, Word;
    var b := before + EncodeAll(ts);
    ReadAllEncoded(before, ts, []);
    assert b + [] == b;
    TlvsUnfold(b, |b|);
    assert ts + [] == ts;
  }

  lemma {:induction false} EncodeAllAppend(a: seq<Tlv>, b: seq<Tlv>)
    ensures EncodeAll(a + b) == EncodeAll(a) + EncodeAll(b)
    decreases |a|
  {
    hide Encode, EncodeAll;
    EncodeCons(if a == [] then Tlv(0, []) else a[0], if a == [] then [] else a[1..] + b);
    if a == [] {
      assert a + b == b;
    } else {
      assert a == [a[0]] + a[1..] && a + b == [a[0]] + (a[1..] + b);
      EncodeCons(a[0], a[1..]);
      EncodeAllAppend(a[1..], b);
    }
  }

  /** iap2_tlv_iter_t over the payload of a frame. */
  class Iterator {
    const data: seq<byte>
    var offset: nat

    constructor (frame: seq<byte>)
      ensures data == (if |frame| > 6 then frame[6..] else []) && offset == 0
    {
      data := if |frame| > 6 then frame[6..] else [];
      offset := 0;
    }

    method Next() returns (t: Option<Tlv>)
      modifies this`offset
      ensures t.None? ==> offset == old(offset) && Tlvs(data, old(offset)) == []
      ensures t.Some? ==> offset > old(offset) && Tlvs(data, old(offset)) == [t.value] + Tlvs(data, offset)
    {
      if offset + 4 > |data| {
        return None;
      }
      var length, id := Word(data, offset), Word(data, offset + 2);
      if length < 4 || length > |data| - offset {
        return None;
      }
      t := Some(Tlv(id, data[offset + 4..offset + length]));
      offset := offset + length;
    }
  }

  /** The position of the first TLV with the given id. */
  function IndexOf(ts: seq<Tlv>, id: nat): (k: nat)
    ensures k <= |ts|
    ensures k < |ts| ==> ts[k].id == id
    ensures forall i :: 0 <= i < k ==> ts[i].id != id
  {
    if ts == [] || ts[0].id == id then 0 else 1 + IndexOf(ts[1..], id)
  }

  /** iap2_find_tlv_offset: offset and length of the first readable TLV with the id; length 0 if there is none. */
  method FindTlvOffset(payload: seq<byte>, id: nat) returns (off: nat, length: nat)
    ensures var ts := Tlvs(payload, 0);
            var k := IndexOf(ts, id);
            if k < |ts| then
              off == |EncodeAll(ts[..k])| && length == |Encode(ts[k])| && off + length <= |payload|
            else off == 0 && length == 0
  {
    hide Encode, EncodeAll, Tlvs, IndexOf, Readable, At;
    off, length := 0, 0;
    EncodeCons(Tlv(0, []), []);
    ghost var all, seen := Tlvs(payload, 0), [];
    while off + 4 <= |payload|
      invariant off <= |payload| && length == 0
      invariant all == seen + Tlvs(payload, off)
      invariant off == |EncodeAll(seen)| && forall i :: 0 <= i < |seen| ==> seen[i].id != id
      decreases |payload| - off
    {
      var tlen, tid := Word(payload, off), Word(payload, off + 2);
      ReadableIs(payload, off);
      TlvsUnfold(payload, off);
      if tlen < 4 || off + tlen > |payload| {
        off := 0;
        NotFound(all, id);
        return;
      }
      ghost var t := At(payload, off);
      assert all == (seen + [t]) + Tlvs(payload, off + tlen);
      if tid == id {
        length := tlen;
        FirstIs(all, id, |seen|);
        assert all[..|seen|] == seen;
        return;
      }
      EncodeAllAppend(seen, [t]);
      EncodeCons(t, []);
      assert [t] + [] == [t];
      seen := seen + [t];
      off := off + tlen;
    }
    ReadableIs(payload, off);
    TlvsUnfold(payload, off);
    NotFound(all, id);
    off := 0;
  }

  lemma ReadableIs(b: seq<byte>, off: nat)
    ensures Readable(b, off) <==> off + 4 <= |b| && 4 <= Word(b, off) <= |b| - off
    ensures Readable(b, off) ==> At(b, off).id == Word(b, off + 2)
  {
  }

  lemma NotFound(ts: seq<Tlv>, id: nat)
    requires forall i :: 0 <= i < |ts| ==> ts[i].id != id
    ensures IndexOf(ts, id) == |ts|
  {
  }

  lemma FirstIs(ts: seq<Tlv>, id: nat, k: nat)
    requires k < |ts| && ts[k].id == id && forall i :: 0 <= i < k ==> ts[i].id != id
    ensures IndexOf(ts, id) == k
  {
    assert !(IndexOf(ts, id) < k);
    assert !(k < IndexOf(ts, id));
  }
}
