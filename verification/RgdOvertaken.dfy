/** A run in which the frame of a claimed route end is overtaken by a new route. */
module RgdOvertaken {
  import opened Bytes
  import opened Rgd
  import opened RgdExamples
  import opened RgdSlots
  import opened RgdThreads
  import opened Wrappers
  import R = RgdRuns
  import U = RouteUpdate

  lemma More(xs: seq<Step>, x: Step)
    requires Legal(xs) && Enabled(Exec(xs), x)
    ensures Legal(xs + [x]) && Exec(xs + [x]) == RgdThreads.Apply(Exec(xs), x)
    ensures LastTells(xs + [x]) <==> x.Finish? && Tells(Exec(xs).g, Exec(xs).work.value).Some?
    ensures Retold(xs + [x]) <==> LastTells(xs + [x]) || (!(x.Claim? && Exec(xs + [x]).ending) && Retold(xs))
    ensures LastTold(xs + [x])
              == if LastTells(xs + [x]) then Tells(Exec(xs).g, Exec(xs).work.value).value else LastTold(xs)
    ensures x.SendEnd? ==> (Overtaken(xs + [x]) <==> Retold(xs) && LastTold(xs) != 0)
  {
    hide RgdThreads.Apply, Tells, Enabled;
    assert (xs + [x])[..|xs|] == xs;
  }

  function StateUpdate(state: byte, now: nat): R.Event {
    R.UpdateMessage(StateMessage(state), now)
  }

  /** A message with a route state goes out to Java at once. */
  lemma StateIsTold(xs: seq<Step>, state: byte, now: nat)
    requires Legal(xs) && Exec(xs).work.None? && Exec(xs).g.d == CLEARED && state > 0
    ensures var ys := xs + [Receive(StateUpdate(state, now))] + [Finish];
            && Legal(ys) && Retold(ys) && Exec(ys).work.None? && Exec(ys).ending == Exec(xs).ending
            && Exec(ys).g.d == Debounce(state, 0, 0, false, state) && LastTold(ys) == Exec(ys).g.java == state
  {
    hide Exec, Legal, Retold, Overtaken, LastTells, LastTold, Finished, Decided, StateMessage, U.Parse, Tells;
    var e := StateUpdate(state, now);
    var ys := xs + [Receive(e)];
    More(xs, Receive(e));
    DecidedState(Exec(xs).g, state, now);
    var u := U.Parse(StateMessage(state));
    More(ys, Finish);
    PublishedState(Exec(ys).g, u, state);
  }

  lemma DecidedState(g: Guidance, state: byte, now: nat)
    requires g.Valid() && g.d == CLEARED && state > 0
    ensures var t := Decided(g, StateUpdate(state, now));
            var u := U.Parse(StateMessage(state));
            && t.1 == Some(PublishUpdate(u)) && NumberOf(u, STATE) == Some(state)
            && t.0.d == Debounce(state, 0, 0, false, state)
  {
    hide StateMessage, U.Parse, U.Valid, NumberOf, HardClear, Evidence;
    StateMessageSays(state);
  }

  lemma PublishedState(g: Guidance, u: seq<U.Field>, state: byte)
    requires g.Valid() && U.Valid(u) && NumberOf(u, STATE) == Some(state)
    ensures Tells(g, PublishUpdate(u)) == Some(state)
    ensures Finished(g, PublishUpdate(u)).java == state && Finished(g, PublishUpdate(u)).d == g.d
  {
    hide U.Valid, U.Merge, NumberOf, ListOf;
    R.StateIsPresent(u);
    R.MergedState(g.cache, u);
  }

  /** A reset frame behind it is held back. */
  lemma ZeroIsHeld(xs: seq<Step>, now: nat)
    requires Legal(xs) && Exec(xs).work.None? && Exec(xs).g.d == Debounce(1, 0, 0, false, 1) && now > 0
    ensures var ys := xs + [Receive(StateUpdate(0, now))];
            && Legal(ys) && Exec(ys).work.None? && Exec(ys).ending == Exec(xs).ending
            && Exec(ys).g.d == Debounce(0, now, now + GRACE_MS, false, 1) && Exec(ys).g.java == Exec(xs).g.java
  {
    hide Exec, Legal, Retold, Overtaken, LastTells, LastTold, Tells, StateMessage, U.Parse, U.Valid, NumberOf,
      Evidence, U.Zero, Reset, HardClear;
    More(xs, Receive(StateUpdate(0, now)));
    StateMessageSays(0);
  }

  /**
  The timer thread claims the end 800 ms after a reset frame; before it sends its frame a new route begins and is
  told. In the end Java takes the route for ended, and the hook does not.
  */
  lemma EndOvertakesRoute() returns (xs: seq<Step>)
    ensures Legal(xs) && Overtaken(xs) && Exec(xs).work.None? && !Exec(xs).ending
    ensures Exec(xs).g.java == 0 && Exec(xs).g.d.emitted == 1
  {
    hide Exec, Legal, Retold, Overtaken, LastTells, LastTold, Tells, StateUpdate;
    xs := [];
    assert Legal(xs) && Exec(xs) == Start() by {
      StartsLegally();
    }
    StateIsTold(xs, 1, 1);
    xs := xs + [Receive(StateUpdate(1, 1))] + [Finish];
    ZeroIsHeld(xs, 2);
    xs := xs + [Receive(StateUpdate(0, 2))];
    More(xs, Claim(2 + GRACE_MS));
    xs := xs + [Claim(2 + GRACE_MS)];
    StateIsTold(xs, 1, 3 + GRACE_MS);
    xs := xs + [Receive(StateUpdate(1, 3 + GRACE_MS))] + [Finish];
    More(xs, SendEnd);
    xs := xs + [SendEnd];
  }

  lemma StartsLegally()
    ensures Legal([]) && Exec([]) == Start()
  {
  }
}
