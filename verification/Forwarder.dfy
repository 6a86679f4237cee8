/**
The video forwarder of altscreen_output.c as functions on values: connecting, writing one AV11 frame through a
socket that accepts what it likes, replaying cached parameter sets, and holding back predictive frames.
*/
module Forwarder {
  import opened AnnexB
  import opened Av11
  import opened Bytes
  import opened Wrappers

  const BUFFER_SIZE: nat := 384 * 1024
  const RETRY_MS: nat := 250
  const STALL_MAX: nat := 20
  const REQUEST_MS: nat := 750

  /** What one send() call does. Accepting nothing at all makes the forwarder close the connection. */
  datatype SendOutcome = Accepted(n: nat) | Interrupted | Stalled | Broken

  datatype Sent = Sent(accepted: nat, complete: bool)

  /** The send loop on the bytes that remain. A script that is used up reads as a broken connection. */
  function SendAll(remaining: nat, stalls: nat, script: seq<SendOutcome>): (r: Sent)
    ensures r.accepted <= remaining && (r.complete <==> r.accepted == remaining)
    decreases |script|
  {
    if remaining == 0 then Sent(0, true)
    else if script == [] then Sent(0, false)
    else
      match script[0]
      case Accepted(n) =>
        if n == 0 then Sent(0, false)
        else
          var k := if n < remaining then n else remaining;
          var rest := SendAll(remaining - k, stalls, script[1..]);
          Sent(k + rest.accepted, rest.complete)
      case Interrupted => SendAll(remaining, stalls, script[1..])
      case Stalled => if stalls < STALL_MAX then SendAll(remaining, stalls + 1, script[1..]) else Sent(0, false)
      case Broken => Sent(0, false)
  }

  /**
  One connection: the bytes that went out on it, the frames that were written whole, and whether parameter
  sets were cached when it was made.
  */
  datatype Line = Line(primed: bool, whole: seq<Frame>, bytes: seq<byte>)

  /** The globals of the forwarder, and all connections it ever made; the last one is open while up holds. */
  datatype State = State(up: bool, retryMs: nat, needIdr: bool, lastRequestMs: nat, cache: seq<byte>,
                         sent: nat, dropped: nat, lines: seq<Line>)
  {
    predicate Valid() {
      up ==> lines != []
    }

    function Current(): Line
      requires lines != []
    {
      lines[|lines| - 1]
    }
  }

  predicate Fits(payload: seq<byte>) {
    HEADER_SIZE + |payload| <= BUFFER_SIZE
  }

  /** What the scanner sees of a unit. */
  predicate SeesIdr(data: seq<byte>) {
    IDR in Kinds(data)
  }

  predicate SeesParameterSets(data: seq<byte>) {
    SPS in Kinds(data) || PPS in Kinds(data)
  }

  function Cache(s: State, data: seq<byte>): State {
    match CachedSlice(data)
    case None => s
    case Some(c) => s.(cache := c)
  }

  /** fwd_connect_locked; a clock that fails reads 0. */
  function Connect(s: State, now: nat, reachable: bool): State {
    if s.up || (now != 0 && now < s.retryMs) then s
    else
      var t := if now != 0 then s.(retryMs := now + RETRY_MS) else s;
      if !reachable then t
      else t.(up := true, needIdr := true, lastRequestMs := 0, lines := s.lines + [Line(s.cache != [], [], [])])
  }

  /** fwd_write_locked */
  function Write(s: State, f: Frame, script: seq<SendOutcome>): (t: State)
    requires s.Valid()
    ensures t.Valid()
  {
    if !s.up || f.payload == [] then s
    else if !Fits(f.payload) then s.(dropped := s.dropped + 1)
    else
      var out := SendAll(HEADER_SIZE + |f.payload|, 0, script);
      var line := s.Current();
      var bytes := line.bytes + Encode(f)[..out.accepted];
      if out.complete then
        s.(sent := s.sent + 1,
           lines := s.lines[|s.lines| - 1 := Line(line.primed, line.whole + [f], bytes)])
      else
        s.(up := false, dropped := s.dropped + 1,
           lines := s.lines[|s.lines| - 1 := line.(bytes := bytes)])
  }

  /** Everything about one call of fwd_send_access_unit that the forwarder does not decide. */
  datatype Unit = Unit(frame: Frame, now: nat, reachable: bool, replay: seq<SendOutcome>, later: nat,
                       script: seq<SendOutcome>)

  /** Up to and including the replay of the cached parameter sets on a connection made just now. */
  function Prepare(s: State, u: Unit): (t: State)
    requires s.Valid()
    ensures t.Valid()
  {
    var t := Connect(Cache(s, u.frame.payload), u.now, u.reachable);
    if !t.up then t.(dropped := t.dropped + 1)
    else if !s.up && !SeesParameterSets(u.frame.payload) && t.cache != [] then
      Write(t, Frame(u.frame.timestamp, 0, t.cache), u.replay)
    else t
  }

  /** A fresh keyframe is due: none was asked for yet, the clock fails, or the last request is too old. */
  predicate RequestDue(s: State, now: nat) {
    s.lastRequestMs == 0 || now == 0 || (now - s.lastRequestMs) % TWO_64 >= REQUEST_MS
  }

  /** The frame may go out: its unit has an IDR slice, brings parameter sets, or no IDR is awaited. */
  predicate Passes(s: State, data: seq<byte>) {
    !s.needIdr || SeesIdr(data) || SeesParameterSets(data)
  }

  /** The wait for an IDR, which ends here or asks for a keyframe now and then. */
  function Gate(s: State, u: Unit): (t: State)
    ensures t.up == s.up && t.lines == s.lines && t.cache == s.cache && t.sent == s.sent && t.dropped == s.dropped
  {
    if !s.needIdr then s
    else if SeesIdr(u.frame.payload) then s.(needIdr := false, lastRequestMs := 0)
    else if RequestDue(s, u.later) then s.(lastRequestMs := if u.later != 0 then u.later else 1)
    else s
  }

  /** fwd_send_access_unit */
  function SendUnit(s: State, u: Unit): (t: State)
    requires s.Valid()
    ensures t.Valid()
  {
    if u.frame.payload == [] then s
    else
      var t := Prepare(s, u);
      if !t.up then t
      else if !Passes(t, u.frame.payload) then Gate(t, u).(dropped := t.dropped + 1)
      else Write(Gate(t, u), u.frame, u.script)
  }

  /** fwd_send_access_unit asks the phone for a fresh keyframe. */
  predicate Requests(s: State, u: Unit)
    requires s.Valid()
  {
    u.frame.payload != [] &&
    var t := Prepare(s, u);
    t.up && t.needIdr && !SeesIdr(u.frame.payload) && RequestDue(t, u.later)
  }

  /** NvSSVideoClose on the stub handle. */
  function Close(s: State): State {
    s.(up := false, needIdr := false, lastRequestMs := 0)
  }

  /** fwd_reset_locked, as NvSSVideoOpen does it. */
  function Reset(s: State): State {
    State(false, 0, false, 0, [], 0, 0, s.lines)
  }

  function Initial(): (s: State)
    ensures s.Valid()
  {
    State(false, 0, false, 0, [], 0, 0, [])
  }
}
