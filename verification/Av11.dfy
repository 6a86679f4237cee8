/**
The AV11 framing between the forwarder in altscreen_output.c and the renderer in vc_render.c: five
little-endian 32-bit words (magic, length, timestamp low and high, flag) and then the access unit.
*/
module Av11 {
  import opened Bytes

  const MAGIC: nat := 0x3131_5641
  const HEADER_SIZE: nat := 20
  const MAX_AU: nat := 2 * 1024 * 1024

  datatype Frame = Frame(timestamp: nat, flag: nat, payload: seq<byte>)

  predicate Sendable(f: Frame) {
    f.timestamp < TWO_64 && f.flag < TWO_32 && 1 <= |f.payload| <= MAX_AU
  }

  function Header(length: nat, timestamp: nat, flag: nat): (h: seq<byte>)
    ensures |h| == HEADER_SIZE
  {
    Le32(MAGIC) + Le32(length) + Le32(timestamp % TWO_32) + Le32(timestamp / TWO_32) + Le32(flag)
  }

  function Encode(f: Frame): (b: seq<byte>)
    ensures |b| == HEADER_SIZE + |f.payload|
  {
    Header(|f.payload|, f.timestamp, f.flag) + f.payload
  }

  function EncodeAll(fs: seq<Frame>): seq<byte> {
    if fs == [] then [] else Encode(fs[0]) + EncodeAll(fs[1..])
  }

  /** The word at position w of a header. */
  function Word(header: seq<byte>, w: nat): (x: nat)
    requires |header| >= HEADER_SIZE && w < 5
    ensures x < TWO_32
  {
    FromLe32(header[4 * w..4 * w + 4])
  }

  predicate BadHeader(header: seq<byte>)
    requires |header| >= HEADER_SIZE
  {
    Word(header, 0) != MAGIC || Word(header, 1) == 0 || Word(header, 1) > MAX_AU
  }

  datatype Reception = Reception(frames: seq<Frame>, badHeader: bool)

  /** What the frame loop of serve_client makes of everything one connection ever delivers. */
  function Receive(stream: seq<byte>): Reception
    decreases |stream|
  {
    if |stream| < HEADER_SIZE then Reception([], false)
    else if BadHeader(stream) then Reception([], true)
    else
      var n := HEADER_SIZE + Word(stream, 1);
      if |stream| < n then Reception([], false)
      else
        var f := Frame(TWO_32 * Word(stream, 3) + Word(stream, 2), Word(stream, 4), stream[HEADER_SIZE..n]);
        var rest := Receive(stream[n..]);
        Reception([f] + rest.frames, rest.badHeader)
  }

  // ---- The receiver recovers what was sent ----

  lemma HeaderWords(length: nat, timestamp: nat, flag: nat, rest: seq<byte>)
    ensures var s := Header(length, timestamp, flag) + rest;
            && Word(s, 0) == MAGIC
            && Word(s, 1) == length % TWO_32
            && Word(s, 2) == timestamp % TWO_32
            && Word(s, 3) == timestamp / TWO_32 % TWO_32
            && Word(s, 4) == flag % TWO_32
  {
    var s := Header(length, timestamp, flag) + rest;
    assert s[0..4] == Le32(MAGIC);
    assert s[4..8] == Le32(length);
    assert s[8..12] == Le32(timestamp % TWO_32);
    assert s[12..16] == Le32(timestamp / TWO_32);
    assert s[16..20] == Le32(flag);
    Le32RoundTrip(MAGIC);
    Le32RoundTrip(length);
    Le32RoundTrip(timestamp % TWO_32);
    Le32RoundTrip(timestamp / TWO_32);
    Le32RoundTrip(flag);
  }

  lemma ReceiveFirst(f: Frame, rest: seq<byte>)
    requires Sendable(f)
    ensures Receive(Encode(f) + rest) == Reception([f] + Receive(rest).frames, Receive(rest).badHeader)
  {
    hide Word, Header;
    var s := Encode(f) + rest;
    var n := HEADER_SIZE + |f.payload|;
    FrameWords(f, rest);
    assert s[HEADER_SIZE..n] == f.payload && s[n..] == rest;
  }

  lemma FrameWords(f: Frame, rest: seq<byte>)
    requires Sendable(f)
    ensures var s := Encode(f) + rest;
            && Word(s, 0) == MAGIC && Word(s, 1) == |f.payload| && Word(s, 4) == f.flag
            && TWO_32 * Word(s, 3) + Word(s, 2) == f.timestamp
  {
    hide Word, Header;
    assert Encode(f) + rest == Header(|f.payload|, f.timestamp, f.flag) + (f.payload + rest);
    HeaderWords(|f.payload|, f.timestamp, f.flag, f.payload + rest);
    TimestampWords(f.timestamp);
  }

  lemma TimestampWords(timestamp: nat)
    requires timestamp < TWO_64
    ensures TWO_32 * (timestamp / TWO_32 % TWO_32) + timestamp % TWO_32 == timestamp
  {
  }

  /** A frame cut short is neither delivered nor taken for a bad header. */
  lemma ReceiveTruncated(f: Frame, k: nat)
    requires Sendable(f) && k < |Encode(f)|
    ensures Receive(Encode(f)[..k]) == Reception([], false)
  {
    hide Word, Header;
    var s := Encode(f)[..k];
    if k >= HEADER_SIZE {
      assert s == Header(|f.payload|, f.timestamp, f.flag) + f.payload[..k - HEADER_SIZE];
      HeaderWords(|f.payload|, f.timestamp, f.flag, f.payload[..k - HEADER_SIZE]);
    }
  }

  /** Whole frames followed by at most one truncated frame: exactly the whole frames come out, in order. */
  lemma {:induction false} ReceiveRecovers(fs: seq<Frame>, f: Frame, k: nat)
    requires Sendable(f) && k < |Encode(f)|
    requires forall i :: 0 <= i < |fs| ==> Sendable(fs[i])
    ensures Receive(EncodeAll(fs) + Encode(f)[..k]) == Reception(fs, false)
  {
    if fs == [] {
      assert EncodeAll(fs) + Encode(f)[..k] == Encode(f)[..k];
      ReceiveTruncated(f, k);
    } else {
      var rest := EncodeAll(fs[1..]) + Encode(f)[..k];
      assert EncodeAll(fs) + Encode(f)[..k] == Encode(fs[0]) + rest;
      ReceiveFirst(fs[0], rest);
      ReceiveRecovers(fs[1..], f, k);
    }
  }

  lemma {:induction false} EncodeAllAppend(fs: seq<Frame>, f: Frame)
    ensures EncodeAll(fs + [f]) == EncodeAll(fs) + Encode(f)
  {
    if fs == [] {
      assert fs + [f] == [f] && EncodeAll([f][1..]) == [];
    } else {
      EncodeAllAppend(fs[1..], f);
      assert (fs + [f])[1..] == fs[1..] + [f];
      assert EncodeAll(fs + [f]) == Encode(fs[0]) + EncodeAll(fs[1..] + [f]);
    }
  }
}
