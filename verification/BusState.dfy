/** The bus as it runs in bus.c: a fixed ring with head, tail and count, and a table indexed by frame type. */
module BusState {
  import opened Bus
  import opened Bytes
  import opened Wrappers

  class Globals {
    const ring: array<Frame>
    var head: nat
    var tail: nat
    var count: nat
    var txSeq: nat
    const sticky: array<bool>
    const last: array<Option<Frame>>
    var shutdown: bool

    ghost predicate Valid()
      reads this
    {
      && ring.Length == CAPACITY && sticky.Length == last.Length == MAX_TYPES
      && head < CAPACITY && count <= CAPACITY && tail == Slot(head, count)
    }

    ghost function Queued(): (q: seq<Frame>)
      requires Valid()
      reads this, ring
      ensures |q| == count
    {
      seq(count, i requires 0 <= i < count reads this, ring requires Valid() => ring[Slot(head, i)])
    }

    ghost function Model(): (s: State)
      requires Valid()
      reads this, ring, sticky, last
      ensures s.Valid()
    {
      State(Queued(), txSeq, sticky[..], last[..], shutdown)
    }

    constructor ()
      ensures Valid() && fresh(ring) && fresh(sticky) && fresh(last) && Model() == Initial()
    {
      ring := new Frame[CAPACITY](i => Frame(0, 0, 0, []));
      sticky := new bool[MAX_TYPES](i => false);
      last := new Option<Frame>[MAX_TYPES](i => None);
      head, tail, count, txSeq, shutdown := 0, 0, 0, 1, false;
    }

    method SetSticky(ty: nat, on: bool)
      requires Valid()
      modifies sticky
      ensures Valid() && Model() == Bus.SetSticky(old(Model()), ty, on)
    {
      if ty < MAX_TYPES {
        sticky[ty] := on;
      }
    }

    method Enqueue(f: Frame) returns (r: Result)
      requires Valid()
      modifies this`tail, this`count, ring
      ensures Valid()
      ensures old(count) < CAPACITY ==> r == Ok && Model() == old(Model()).(queue := old(Queued()) + [f])
      ensures old(count) == CAPACITY ==> r == Busy && Model() == old(Model())
    {
      if count == CAPACITY {
        return Busy;
      }
      hide Slot;
      NextFree(head, count);
      ring[tail] := f;
      tail := (tail + 1) % CAPACITY;
      count := count + 1;
      assert Queued() == old(Queued()) + [f];
      r := Ok;
    }

    method DequeueFrame() returns (f: Option<Frame>)
      requires Valid()
      modifies this`head, this`count
      ensures Valid() && Model() == Dequeue(old(Model()))
      ensures f == if old(count) == 0 then None else Some(old(Queued())[0])
    {
      if count == 0 {
        return None;
      }
      hide Slot;
      NextHead(head, (head + 1) % CAPACITY);
      f := Some(ring[head]);
      head := (head + 1) % CAPACITY;
      count := count - 1;
      assert Queued() == old(Queued())[1..];
    }

    method Send(ty: nat, flags: byte, payload: seq<byte>) returns (r: Result)
      requires Valid()
      modifies this, ring, last
      ensures Valid() && Model() == Bus.Send(old(Model()), ty, flags, payload)
      ensures r == Answer(old(Model()), ty, payload)
    {
      if |payload| > MAX_PAYLOAD || ty >= MAX_TYPES {
        return Param;
      }
      if shutdown {
        return Busy;
      }
      var mine := txSeq;
      txSeq := txSeq + 1;
      var f := Frame(ty, flags, mine, payload);
      if StickyFlag(flags) || sticky[ty] {
        last[ty] := Some(f);
      }
      assert Queued() == old(Queued());
      r := Enqueue(f);
      if r != Ok && txSeq == mine + 1 {
        txSeq := txSeq - 1;
        assert Queued() == old(Queued());
      }
    }

    method Hello() returns (f: Frame)
      requires Valid()
      modifies this`txSeq
      ensures Valid() && f == HelloFrame(old(Model())) && Model() == old(Model()).(txSeq := old(txSeq) + 1)
    {
      f := Frame(EVT_HELLO, 0, txSeq, HelloText());
      txSeq := txSeq + 1;
      assert Queued() == old(Queued());
    }

    /** The part of send_sync_snapshot that holds the lock. */
    method Snapshot() returns (fs: seq<Frame>)
      requires Valid()
      modifies this`txSeq
      ensures Valid() && fs == SnapshotFrames(old(Model()))
      ensures Model() == old(Model()).(txSeq := old(txSeq) + |fs|)
    {
      hide Replays;
      ghost var cached := last[..];
      var begin := Frame(EVT_SYNC_BEGIN, 0, txSeq, []);
      txSeq := txSeq + 1;
      var replays: seq<Frame> := [];
      for i := 0 to MAX_TYPES
        invariant Valid() && txSeq == old(txSeq) + 1 + |replays|
        invariant Replays(cached, 0, old(txSeq) + 1) == replays + Replays(cached, i, txSeq)
      {
        ReplaysUnfold(cached, replays, i, txSeq);
        if last[i].Some? {
          var f := last[i].value;
          f := f.(flags := WithReplayFlag(f.flags), seqNo := txSeq);
          replays := replays + [f];
          txSeq := txSeq + 1;
        }
      }
      ReplaysEnd(cached, txSeq);
      assert replays + [] == replays;
      fs := [begin] + replays + [Frame(EVT_SYNC_END, 0, txSeq, [])];
      txSeq := txSeq + 1;
      assert Queued() == old(Queued());
    }

    method Shutdown()
      requires Valid()
      modifies this`shutdown
      ensures Valid() && Model() == old(Model()).(shutdown := true)
    {
      shutdown := true;
      assert Queued() == old(Queued());
    }
  }

  /** One turn of the loop that copies the cached frames. */
  lemma ReplaysUnfold(last: seq<Option<Frame>>, done: seq<Frame>, i: nat, seqNo: nat)
    requires i < |last|
    ensures last[i].None? ==> Replays(last, i, seqNo) == Replays(last, i + 1, seqNo)
    ensures last[i].Some? ==>
              var f := last[i].value.(flags := WithReplayFlag(last[i].value.flags), seqNo := seqNo);
              done + Replays(last, i, seqNo) == done + [f] + Replays(last, i + 1, seqNo + 1)
  {
  }

  lemma ReplaysEnd(last: seq<Option<Frame>>, seqNo: nat)
    ensures Replays(last, |last|, seqNo) == []
  {
  }

  /** The i-th slot of the ring behind the head. */
  function Slot(head: nat, i: nat): (r: nat)
    ensures r < CAPACITY
  {
    (head + i) % CAPACITY
  }

  /** The next slot to fill is not in use, and the tail moves on to the one behind it. */
  lemma NextFree(head: nat, count: nat)
    requires head < CAPACITY && count < CAPACITY
    ensures forall i :: 0 <= i < count ==> Slot(head, i) != Slot(head, count)
    ensures Slot(head, count + 1) == (Slot(head, count) + 1) % CAPACITY
  {
  }

  /** Moving the head on by one slot shifts all others. */
  lemma NextHead(head: nat, next: nat)
    requires head < CAPACITY && next == (head + 1) % CAPACITY
    ensures Slot(head, 0) == head
    ensures forall i: nat :: Slot(next, i) == Slot(head, i + 1)
  {
    forall i: nat ensures Slot(next, i) == Slot(head, i + 1) {
      if head + 1 == CAPACITY {
        ModCapacity(i);
      }
    }
  }

  lemma ModCapacity(i: nat)
    ensures (i + CAPACITY) % CAPACITY == i % CAPACITY
  {
  }
}
