/** What replacing line breaks does to a text: its lines are put behind each other with slashes in between. */
module Newlines {
  import opened Bytes
  import opened RouteUpdate

  /** The lines of a text; CR LF, CR and LF all end one. */
  function Lines(s: seq<byte>): (ls: seq<seq<byte>>)
    ensures ls != []
    decreases |s|
  {
    if s == [] then [[]]
    else if |s| > 1 && s[0] == 13 && s[1] == 10 then [[]] + Lines(s[2..])
    else if s[0] == 13 || s[0] == 10 then [[]] + Lines(s[1..])
    else
      var rest := Lines(s[1..]);
      [[s[0]] + rest[0]] + rest[1..]
  }

  /** The lines with " / " in between. */
  function Slashed(ls: seq<seq<byte>>): seq<byte>
    requires ls != []
  {
    if |ls| == 1 then ls[0] else ls[0] + [32, 47, 32] + Slashed(ls[1..])
  }

  lemma SlashedStart(ls: seq<seq<byte>>, b: byte)
    requires ls != []
    ensures Slashed([[b] + ls[0]] + ls[1..]) == [b] + Slashed(ls)
    ensures Slashed([[]] + ls) == [32, 47, 32] + Slashed(ls)
  {
    var longer, empty := [[b] + ls[0]] + ls[1..], [[]] + ls;
    assert longer[1..] == ls[1..] && |longer| == |ls| && longer[0] == [b] + ls[0];
    assert empty[1..] == ls && empty[0] == [] && |empty| > 1;
    calc {
      Slashed(empty);
      empty[0] + [32, 47, 32] + Slashed(ls);
      [32, 47, 32] + Slashed(ls);
    }
    if |ls| > 1 {
      Regroup([b], ls[0], [32, 47, 32], Slashed(ls[1..]));
    }
  }

  lemma Regroup(a: seq<byte>, b: seq<byte>, c: seq<byte>, d: seq<byte>)
    ensures (a + b) + c + d == a + (b + c + d)
  {
  }

  /** One character or line break at the front. */
  lemma SlashedStep(s: seq<byte>)
    requires s != []
    ensures Slashed(Lines(s)) ==
              if |s| > 1 && s[0] == 13 && s[1] == 10 then [32, 47, 32] + Slashed(Lines(s[2..]))
              else if s[0] == 13 || s[0] == 10 then [32, 47, 32] + Slashed(Lines(s[1..]))
              else [s[0]] + Slashed(Lines(s[1..]))
  {
    hide Slashed;
    SlashedStart(Lines(s[1..]), s[0]);
    if |s| > 1 {
      SlashedStart(Lines(s[2..]), s[0]);
    }
  }

  lemma NoLine()
    ensures Slashed(Lines([])) == []
  {
  }

  /** What is collected is the start of that, and all of it unless it takes more than 252 characters. */
  lemma {:induction false} JoinedIsSlashed(s: seq<byte>, used: nat)
    requires 0 !in s
    ensures Joined(s, used) <= Slashed(Lines(s))
    ensures used + |Slashed(Lines(s))| <= 252 ==> Joined(s, used) == Slashed(Lines(s))
    ensures Joined(s, used) == Slashed(Lines(s)) || used + |Joined(s, used)| >= 252
    decreases |s|
  {
    hide Slashed, Lines;
    if s == [] {
      NoLine();
    } else {
      SlashedStep(s);
      if used < 252 {
        if |s| > 1 && s[0] == 13 && s[1] == 10 {
          JoinedIsSlashed(s[2..], used + 3);
        } else if s[0] == 13 || s[0] == 10 {
          JoinedIsSlashed(s[1..], used + 3);
        } else {
          JoinedIsSlashed(s[1..], used + 1);
        }
      }
    }
  }

  /** A text without line breaks is its only line. */
  lemma {:induction false} OneLine(s: seq<byte>)
    requires 10 !in s && 13 !in s
    ensures Lines(s) == [s]
  {
    if s != [] {
      OneLine(s[1..]);
      assert s[0] in s;
      assert s == [s[0]] + s[1..];
    }
  }
}
