/** The reading side of vc_render.c: read_full and the frame loop of serve_client. */
module VcRender {
  import opened Bytes
  import opened Av11
  import opened Forwarder
  import opened ForwarderRuns
  import opened Wrappers

  /** What one read() call does: deliver up to n bytes, be interrupted, or fail (or find quit requested). */
  datatype ReadOutcome = Delivers(n: nat) | Interrupted | Fails

  predicate NoFailure(script: seq<ReadOutcome>) {
    forall k :: 0 <= k < |script| ==> !script[k].Fails?
  }

  /** Outcome of a read() call; `Got` of 0 is the end of the stream. */
  datatype ReadResult = Got(n: nat) | Eintr | Error

  /** One accepted connection: the bytes the sender wrote on it, delivered in chunks the script chooses. */
  class Connection {
    const stream: seq<byte>
    var pos: nat
    var script: seq<ReadOutcome>

    ghost predicate Valid()
      reads this
    {
      pos <= |stream|
    }

    ghost function Unread(): seq<byte>
      requires Valid()
      reads this
    {
      stream[pos..]
    }

    constructor (stream: seq<byte>, script: seq<ReadOutcome>)
      ensures Valid() && this.stream == stream && pos == 0 && this.script == script
    {
      this.stream, pos, this.script := stream, 0, script;
    }

    /** read(fd, buf + at, n): once the script is used up every read delivers all it can. */
    method Read(buf: array<byte>, at: nat, n: nat) returns (r: ReadResult)
      requires Valid() && 0 < n && at + n <= buf.Length
      modifies this, buf
      ensures Valid() && old(pos) <= pos
      ensures r.Got? ==> r.n == pos - old(pos) <= n && (r.n == 0 <==> old(pos) == |stream|)
      ensures !r.Got? ==> pos == old(pos) && |script| < |old(script)|
      ensures buf[..at] == old(buf[..at])
      ensures buf[at..at + (pos - old(pos))] == stream[old(pos)..pos]
      ensures NoFailure(old(script)) ==> NoFailure(script) && !r.Error?
      ensures |script| <= |old(script)|
    {
      var want := n;
      if script != [] {
        var o := script[0];
        script := script[1..];
        if o.Interrupted? {
          return Eintr;
        }
        if o.Fails? {
          return Error;
        }
        want := if o.n == 0 then 1 else if o.n < n then o.n else n;
      }
      if |stream| - pos < want {
        want := |stream| - pos;
      }
      ghost var left := script;
      for i := 0 to want
        invariant script == left && pos == old(pos) && buf[..at] == old(buf[..at])
        invariant buf[at..at + i] == stream[pos..pos + i]
      {
        buf[at + i] := stream[pos + i];
      }
      pos := pos + want;
      r := Got(want);
    }

    /** read_full: all n bytes, or a failure. */
    method ReadFull(buf: array<byte>, n: nat) returns (ok: bool)
      requires Valid() && n <= buf.Length
      modifies this, buf
      ensures Valid() && NoFailure(old(script)) ==> NoFailure(script)
      ensures Valid()
      ensures ok ==> n <= |old(Unread())| && pos == old(pos) + n && buf[..n] == old(Unread())[..n]
      ensures NoFailure(old(script)) && n <= |old(Unread())| ==> ok
    {
      var p := 0;
      while p < n
        invariant Valid() && p <= n && pos == old(pos) + p
        invariant buf[..p] == stream[old(pos)..pos]
        invariant NoFailure(old(script)) ==> NoFailure(script)
        decreases n - p, |script|
      {
        var r := Read(buf, p, n - p);
        match r
        case Got(k) =>
          if k == 0 {
            return false;
          }
          assert stream[old(pos)..pos] == stream[old(pos)..old(pos) + p] + stream[old(pos) + p..pos];
          assert buf[..p + k] == buf[..p] + buf[p..p + k];
          p := p + k;
        case Eintr =>
        case Error =>
          return false;
      }
      ok := true;
    }
  }

  /** The outcome of one turn of the frame loop. */
  datatype Turn = Closed | Rejected | Received(frame: Frame)

  /** One turn of the frame loop of serve_client: a header, its check, and the access unit. */
  method ReadFrame(c: Connection, header: array<byte>, au: array<byte>) returns (turn: Turn)
    requires c.Valid() && header.Length == HEADER_SIZE && au.Length == MAX_AU && header != au
    modifies c, header, au
    ensures c.Valid() && (NoFailure(old(c.script)) ==> NoFailure(c.script))
    ensures var was := Receive(old(c.Unread()));
            match turn
            case Closed => NoFailure(old(c.script)) ==> was == Reception([], false)
            case Rejected => was == Reception([], true)
            case Received(f) =>
              c.pos > old(c.pos) &&
              was == Reception([f] + Receive(c.Unread()).frames, Receive(c.Unread()).badHeader)
  {
    hide Word;
    ghost var unread := c.Unread();
    var ok := c.ReadFull(header, HEADER_SIZE);
    if !ok {
      return Closed;
    }
    assert header[..] == unread[..HEADER_SIZE];
    SameWords(header[..], unread);
    var length := Word(header[..], 1);
    if Word(header[..], 0) != MAGIC || length == 0 || length > MAX_AU {
      return Rejected;
    }
    assert c.Unread() == unread[HEADER_SIZE..];
    ghost var h := header[..];
    ok := c.ReadFull(au, length);
    if !ok {
      return Closed;
    }
    assert header[..] == h && au[..length] == unread[HEADER_SIZE..HEADER_SIZE + length];
    assert c.Unread() == unread[HEADER_SIZE + length..];
    turn := Received(Frame(TWO_32 * Word(header[..], 3) + Word(header[..], 2), Word(header[..], 4), au[..length]));
  }

  lemma SameWords(header: seq<byte>, stream: seq<byte>)
    requires |header| == HEADER_SIZE <= |stream| && header == stream[..HEADER_SIZE]
    ensures Word(header, 0) == Word(stream, 0) && Word(header, 1) == Word(stream, 1)
    ensures Word(header, 2) == Word(stream, 2) && Word(header, 3) == Word(stream, 3)
    ensures Word(header, 4) == Word(stream, 4)
  {
    assert forall w :: 0 <= w < 5 ==> header[4 * w..4 * w + 4] == stream[4 * w..4 * w + 4];
  }

  /**
  serve_client: the frames it receives, and those of them it hands to the decoder, which are none if the decoder did
  not start. A request to quit is seen at the head of the loop after some number of turns, or not at all.
  */
  method ServeClient(c: Connection, decoder: bool, quitAfter: Option<nat>)
    returns (received: seq<Frame>, decoded: seq<Frame>, badHeader: bool)
    requires c.Valid()
    modifies c
    ensures decoded == if decoder then received else []
    ensures var sent := Receive(old(c.Unread()));
            && received <= sent.frames
            && (badHeader ==> sent.badHeader && received == sent.frames)
            && (quitAfter.Some? ==> |received| <= quitAfter.value)
            && (NoFailure(old(c.script)) && (quitAfter.None? || quitAfter.value > |sent.frames|) ==>
                  received == sent.frames && badHeader == sent.badHeader)
            && (NoFailure(old(c.script)) && quitAfter.Some? && quitAfter.value <= |sent.frames| ==>
                  received == sent.frames[..quitAfter.value])
  {
    hide Receive;
    received, decoded, badHeader := [], [], false;
    ghost var sent := Receive(c.Unread());
    var header, au := new byte[HEADER_SIZE], new byte[MAX_AU];
    while quitAfter.None? || |received| < quitAfter.value
      invariant c.Valid() && fresh(header) && fresh(au)
      invariant sent == Reception(received + Receive(c.Unread()).frames, Receive(c.Unread()).badHeader)
      invariant NoFailure(old(c.script)) ==> NoFailure(c.script)
      invariant decoded == if decoder then received else []
      invariant quitAfter.Some? ==> |received| <= quitAfter.value
      decreases |c.stream| - c.pos
    {
      var turn := ReadFrame(c, header, au);
      match turn
      case Closed =>
        return;
      case Rejected =>
        badHeader := true;
        return;
      case Received(f) =>
        received := received + [f];
        if decoder {
          decoded := decoded + [f];
        }
    }
  }

  /** Sender and receiver together: a renderer whose reads do not fail decodes all that was written whole. */
  method Render(es: seq<Event>, line: nat, script: seq<ReadOutcome>) returns (frames: seq<Frame>, badHeader: bool)
    requires SendableEvents(es) && line < |Exec(Initial(), es).lines|
    ensures !badHeader && frames <= Exec(Initial(), es).lines[line].whole
    ensures NoFailure(script) ==> frames == Exec(Initial(), es).lines[line].whole
  {
    hide Receive, Exec;
    RendererRecovers(es, line);
    var c := new Connection(Exec(Initial(), es).lines[line].bytes, script);
    assert c.stream[0..] == c.stream;
    var received;
    received, frames, badHeader := ServeClient(c, true, None);
  }
}
