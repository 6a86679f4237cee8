/** The outgoing half of bus.c as functions on values: numbering, the send queue, the sticky cache, the snapshot. */
module Bus {
  import opened Bytes
  import opened Wrappers

  const CAPACITY: nat := 256
  const MAX_TYPES: nat := 0x120
  const MAX_PAYLOAD: nat := 128 * 1024
  const EVT_HELLO: nat := 1
  const EVT_SYNC_BEGIN: nat := 2
  const EVT_SYNC_END: nat := 3
  const FLAG_REPLAY: nat := 4

  datatype Frame = Frame(ty: nat, flags: byte, seqNo: nat, payload: seq<byte>)

  datatype Result = Ok | Busy | Param

  predicate StickyFlag(flags: byte) {
    flags % 2 == 1
  }

  function WithReplayFlag(flags: byte): (r: byte)
    ensures r / 4 % 2 == 1 && r % 4 == flags % 4 && r / 8 == flags / 8
  {
    if flags / 4 % 2 == 1 then flags else flags + FLAG_REPLAY
  }

  datatype State = State(queue: seq<Frame>, txSeq: nat, sticky: seq<bool>, last: seq<Option<Frame>>, shutdown: bool) {
    predicate Valid() {
      |queue| <= CAPACITY && |sticky| == |last| == MAX_TYPES
    }
  }

  function Initial(): (s: State)
    ensures s.Valid()
  {
    State([], 1, seq(MAX_TYPES, i => false), seq(MAX_TYPES, i => None), false)
  }

  function SetSticky(s: State, ty: nat, on: bool): (t: State)
    requires s.Valid()
    ensures t.Valid()
  {
    if ty >= MAX_TYPES then s else s.(sticky := s.sticky[ty := on])
  }

  /** What bus_send answers. */
  function Answer(s: State, ty: nat, payload: seq<byte>): Result {
    if |payload| > MAX_PAYLOAD || ty >= MAX_TYPES then Param
    else if s.shutdown || |s.queue| >= CAPACITY then Busy
    else Ok
  }

  /** A send gets as far as the cache: a full queue refuses it only behind that. */
  predicate Reaches(s: State, ty: nat, payload: seq<byte>) {
    |payload| <= MAX_PAYLOAD && ty < MAX_TYPES && !s.shutdown
  }

  /** bus_send: a refused frame gives its number back but stays in the sticky cache. */
  function Send(s: State, ty: nat, flags: byte, payload: seq<byte>): (t: State)
    requires s.Valid()
    ensures t.Valid()
  {
    if !Reaches(s, ty, payload) then s
    else
      var f := Frame(ty, flags, s.txSeq, payload);
      var c := if StickyFlag(flags) || s.sticky[ty] then s.(last := s.last[ty := Some(f)]) else s;
      if |s.queue| < CAPACITY then c.(queue := s.queue + [f], txSeq := s.txSeq + 1) else c
  }

  /** The writer takes the oldest frame off the queue. */
  function Dequeue(s: State): (t: State)
    requires s.Valid()
    ensures t.Valid()
  {
    if s.queue == [] then s else s.(queue := s.queue[1..])
  }

  function HelloText(): seq<byte> {
    [118, 101, 114, 58, 110, 58, 49, 10, 112, 114, 111, 116, 111, 58, 115, 58, 99, 97, 114, 112, 108, 97, 121, 95,
     98, 117, 115, 10]
  }

  function HelloFrame(s: State): Frame {
    Frame(EVT_HELLO, 0, s.txSeq, HelloText())
  }

  /** The cached frames of the types from i on, marked as replays and numbered from seqNo on. */
  function Replays(last: seq<Option<Frame>>, i: nat, seqNo: nat): (fs: seq<Frame>)
    requires i <= |last|
    ensures |fs| <= |last| - i
    ensures forall k :: 0 <= k < |fs| ==> fs[k].seqNo == seqNo + k
    decreases |last| - i
  {
    if i == |last| then []
    else if last[i].None? then Replays(last, i + 1, seqNo)
    else
      var f := last[i].value;
      [f.(flags := WithReplayFlag(f.flags), seqNo := seqNo)] + Replays(last, i + 1, seqNo + 1)
  }

  /** The frames of one snapshot. */
  function SnapshotFrames(s: State): (fs: seq<Frame>)
    ensures |fs| >= 2 && forall k :: 0 <= k < |fs| ==> fs[k].seqNo == s.txSeq + k
  {
    var replays := Replays(s.last, 0, s.txSeq + 1);
    [Frame(EVT_SYNC_BEGIN, 0, s.txSeq, [])] + replays + [Frame(EVT_SYNC_END, 0, s.txSeq + 1 + |replays|, [])]
  }
}
