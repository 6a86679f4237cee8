/**
The table of tracked replies as one stack for each receive id: tracking puts a reply on top, answering a message takes
the top, and dropping what was not answered empties the stack.
*/
module SendHookTable {
  import opened SendHook
  import opened Wrappers

  /** The tracked replies of a receive id, as the table has them from entry i on. */
  function Stack(table: seq<Reply>, rcvid: int): seq<Reply> {
    if table == [] then []
    else (if Answers(table[0], rcvid) then [table[0]] else []) + Stack(table[1..], rcvid)
  }

  lemma {:induction false} StackAppend(a: seq<Reply>, b: seq<Reply>, rcvid: int)
    ensures Stack(a + b, rcvid) == Stack(a, rcvid) + Stack(b, rcvid)
    decreases |a|
  {
    hide Answers;
    if a == [] {
      assert a + b == b;
    } else {
      var first := if Answers(a[0], rcvid) then [a[0]] else [];
      StackAppend(a[1..], b, rcvid);
      assert (a + b)[1..] == a[1..] + b;
      assert Stack(a + b, rcvid) == first + Stack(a[1..] + b, rcvid);
      Regroup(first, Stack(a[1..], rcvid), Stack(b, rcvid));
    }
  }

  lemma Regroup(a: seq<Reply>, b: seq<Reply>, c: seq<Reply>)
    ensures a + (b + c) == (a + b) + c
  {
  }

  lemma {:induction false} NoneBefore(a: seq<Reply>, rcvid: int)
    requires forall k :: 0 <= k < |a| ==> !Answers(a[k], rcvid)
    ensures Stack(a, rcvid) == []
  {
    if a != [] {
      NoneBefore(a[1..], rcvid);
    }
  }

  lemma StackOne(p: Reply, rcvid: int)
    ensures Stack([p], rcvid) == if Answers(p, rcvid) then [p] else []
  {
    assert [p][1..] == [];
  }

  /** A stack is the part in front of an entry, the entry, and the part behind it. */
  lemma StackAt(table: seq<Reply>, i: nat, p: Reply, rcvid: int)
    requires i < |table|
    ensures Stack(table[i := p], rcvid) ==
              Stack(table[..i], rcvid) + (if Answers(p, rcvid) then [p] else []) + Stack(table[i + 1..], rcvid)
  {
    hide Stack;
    assert table[i := p] == table[..i] + [p] + table[i + 1..];
    StackAppend(table[..i] + [p], table[i + 1..], rcvid);
    StackAppend(table[..i], [p], rcvid);
    StackOne(p, rcvid);
  }

  /** The table has an entry for one more reply of this receive id. */
  predicate HasRoom(table: seq<Reply>, rcvid: int) {
    exists k :: 0 <= k < |table| && (!table[k].active || table[k].rcvid == rcvid)
  }

  /**
  If there is room, the reply is on top afterwards, behind it all others of its receive id, but for at most the one it
  replaces; without room nothing changes. Other receive ids are not affected.
  */
  lemma TrackPushes(table: seq<Reply>, rcvid: int, ctx: int, generation: nat, other: int)
    ensures var t := Track(table, rcvid, ctx, generation);
            var p := Reply(true, rcvid, ctx, generation);
            && |t| == |table|
            && (HasRoom(table, rcvid) ==>
                  var below := Stack(table, rcvid);
                  Stack(t, rcvid) == [p] + below || (below != [] && Stack(t, rcvid) == [p] + below[1..]))
            && (!HasRoom(table, rcvid) ==> t == table)
            && (other != rcvid ==> Stack(t, other) == Stack(table, other))
  {
    hide Stack;
    var i := UsableFrom(table, rcvid, 0);
    if i < |table| {
      assert HasRoom(table, rcvid);
      var p := Reply(true, rcvid, ctx, generation);
      StackAt(table, i, p, rcvid);
      StackAt(table, i, table[i], rcvid);
      StackAt(table, i, p, other);
      StackAt(table, i, table[i], other);
      assert table[i := table[i]] == table;
      NoneBefore(table[..i], rcvid);
    }
  }

  /** An answer takes the reply on top, if there is one. */
  lemma TakePops(table: seq<Reply>, rcvid: int, other: int)
    ensures var t, below := Take(table, rcvid), Stack(table, rcvid);
            && |t| == |table|
            && Taken(table, rcvid) == (if below == [] then None else Some(below[0]))
            && Stack(t, rcvid) == (if below == [] then [] else below[1..])
            && (other != rcvid ==> Stack(t, other) == Stack(table, other))
  {
    hide Stack;
    var i := AnswerFrom(table, rcvid, 0);
    if i < |table| {
      StackAt(table, i, Retire(table[i]), rcvid);
      StackAt(table, i, table[i], rcvid);
      StackAt(table, i, Retire(table[i]), other);
      StackAt(table, i, table[i], other);
      assert table[i := table[i]] == table;
      NoneBefore(table[..i], rcvid);
    } else {
      NoneBefore(table, rcvid);
    }
  }

  /** Dropping leaves no reply of this receive id, and all others. */
  lemma {:induction false} DropEmpties(table: seq<Reply>, rcvid: int, other: int)
    ensures Stack(Drop(table, rcvid), rcvid) == [] && |Drop(table, rcvid)| == |table|
    ensures other != rcvid ==> Stack(Drop(table, rcvid), other) == Stack(table, other)
  {
    if table != [] {
      assert Drop(table, rcvid)[1..] == Drop(table[1..], rcvid);
      DropEmpties(table[1..], rcvid, other);
    }
  }

  /** An entry that is not in use holds no generation. */
  predicate Blank(table: seq<Reply>) {
    forall k :: 0 <= k < |table| && !table[k].active ==> table[k].generation == 0
  }

  lemma StaysBlank(table: seq<Reply>, rcvid: int, ctx: int, generation: nat)
    requires Blank(table)
    ensures Blank(Track(table, rcvid, ctx, generation)) && Blank(Take(table, rcvid)) && Blank(Drop(table, rcvid))
  {
  }
}
