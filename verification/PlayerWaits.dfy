/** How long the player waits for a chunk: exactly as long as it is told to, and what ends the wait. */
module PlayerWaits {
  import opened Arith
  import opened Options
  import opened ChunkIds
  import opened Pipeline
  import opened LapSafety
  import opened PlayerRuns

  /** The chunk at the player's position can be handed over. */
  predicate IsReady(st: State)
    requires st.WellFormed()
  {
    st.player <= st.tip && st.slots[st.player % st.size].Ready()
  }

  /** Iterations the player still holds a position behind the tip whose chunk is missing. */
  function Waits(st: State): nat {
    if st.waitTime >= st.maxWait then 0 else (st.maxWait - st.waitTime + 9) / 10
  }

  function Outcomes(st: State, events: seq<Event>): seq<Outcome>
    requires st.WellFormed()
    decreases |events|
  {
    if events == [] then []
    else
      (if events[0].Play? then [FeedPlayer(st, events[0].offset, events[0].enabled, events[0].written).1] else [])
      + Outcomes(Step(st, events[0]), events[1..])
  }

  /** The chunk at the player's position is missing at every iteration of the run, and there is no soft reset. */
  ghost predicate MissingThroughout(st: State, events: seq<Event>)
    requires st.WellFormed()
    decreases |events|
  {
    events == [] ||
    (&& (events[0].Play? ==> !IsReady(st) && !NeedsSoftReset(st))
     && MissingThroughout(Step(st, events[0]), events[1..]))
  }

  function Repeat(n: nat, o: Outcome): seq<Outcome> {
    seq(n, _ => o)
  }

  /** The position and what was counted for the player are as before. */
  predicate SamePlayer(st: State, st': State) {
    st'.player == st.player && st'.played == st.played && st'.missed == st.missed
  }

  // ---------- One iteration ----------

  /** The first iteration at which something is ready hands it over. */
  lemma ReadyIsPlayed(st: State, offset: nat, enabled: bool, written: bool)
    requires st.WellFormed() && !NeedsSoftReset(st) && Bounded(st, 1)
    ensures var (st', outcome) := FeedPlayer(st, offset, enabled, written);
            && (outcome.Played? <==> IsReady(st) && (enabled ==> written))
            && (outcome == Closed <==> IsReady(st) && enabled && !written)
            && (outcome.Played? ==>
                  && st.slots[st.player % st.size].packet == Some(outcome.packet)
                  && st'.player == st.player + 1 && st'.played == st.played + 1 && st'.waitTime == 0
                  && (st.missed >= 0 || st.player % st.size % 500 != 0 ==> st'.missed == st.missed)
                  && (st.missed < 0 && st.player % st.size % 500 == 0 ==> st'.missed == 0)
                  && st'.maxWait == if st.tip == st.player then 3000 else st.maxWait)
            && (outcome == Closed ==> SamePlayer(st, st') && st'.waitTime == 0 && st'.maxWait == 3000)
  {}

  /** A missing chunk behind the tip is waited for or missed, depending on the waits left and on nothing else. */
  lemma MissingIsWaitedFor(st: State, offset: nat, enabled: bool, written: bool)
    requires st.WellFormed() && !NeedsSoftReset(st) && !IsReady(st) && st.player < st.tip && Bounded(st, 1)
    ensures var (st', outcome) := FeedPlayer(st, offset, enabled, written);
            if Waits(st) > 0 then
              && outcome == Waited && SamePlayer(st, st') && Waits(st') == Waits(st) - 1
              && st'.maxWait == st.maxWait
            else
              && outcome == Missed && st'.player == st.player + 1 && st'.played == st.played
              && st'.missed == (if st.missed < 0 then 1 else st.missed + 1)
              && Waits(st') == 5
  {}

  /** Nothing at or beyond the tip is ever missed: there the player waits, and then idles. */
  lemma NothingIsMissedAtTip(st: State, offset: nat, enabled: bool, written: bool)
    requires st.WellFormed() && !IsReady(st) && st.player >= st.tip
    ensures var (st', outcome) := FeedPlayer(st, offset, enabled, written);
            && outcome in {Waited, Idle} && SamePlayer(st, st')
            && (outcome == Waited <==> st.waitTime < (if st.player == st.tip then 3000 else st.maxWait))
  {}

  /** A soft reset forgets what was requested, starts counting anew and restores the long wait; the buffer, the
    * positions of the requester and the time waited stay. Nothing else is ever reset. */
  lemma SoftResetStartsOver(st: State, offset: nat)
    requires st.WellFormed()
    ensures var st' := SoftReset(st, offset);
            if st.player + st.size <= st.tip then
              && st'.requests == [] && st'.played == 0 && st'.missed == -1 && st'.maxWait == 3000
              && st' == st.(player := st'.player, requests := [], played := 0, missed := -1, maxWait := 3000)
            else st' == st
  {}

  // ---------- Whole runs ----------

  lemma OtherStepsKeepWaits(st: State, e: Event)
    requires BehindRequest(st) && !e.Play?
    ensures SamePlayer(st, Step(st, e)) && Waits(Step(st, e)) == Waits(st)
    ensures st.tip <= Step(st, e).tip
  {
    hide AlreadyReceived, Cleanup;
  }

  lemma {:induction false} OutcomesStep(st: State, events: seq<Event>)
    requires st.WellFormed() && events != [] && MissingThroughout(st, events)
    requires BehindRequest(st) && Bounded(st, |events|) && st.player < st.tip
    ensures var st' := Step(st, events[0]);
            && BehindRequest(st') && Bounded(st', |events| - 1) && MissingThroughout(st', events[1..])
            && st'.tip >= st.tip
            && CountPlays(events) == (if events[0].Play? then 1 else 0) + CountPlays(events[1..])
            && Outcomes(st, events) == (if events[0].Play?
                                        then [FeedPlayer(st, events[0].offset, events[0].enabled, events[0].written).1]
                                        else []) + Outcomes(st', events[1..])
            && Run(st, events) == Run(st', events[1..])
  {
    StepKeepsBehind(st, events[0]);
    StepIsBounded(st, events[0], |events| - 1);
    if !events[0].Play? {
      OtherStepsKeepWaits(st, events[0]);
    }
    hide GoBack, BehindRequest, Bounded, Cleanup, AlreadyReceived;
  }

  /** A missing chunk behind the tip is held for exactly its waits: every iteration before that waits and leaves the
    * position and the counters alone, whatever happens in between. */
  lemma {:induction false} MissingIsHeld(st: State, events: seq<Event>)
    requires BehindRequest(st) && Bounded(st, |events|) && MissingThroughout(st, events)
    requires st.player < st.tip && CountPlays(events) <= Waits(st)
    ensures Outcomes(st, events) == Repeat(CountPlays(events), Waited)
    ensures SamePlayer(st, Run(st, events)) && Waits(Run(st, events)) == Waits(st) - CountPlays(events)
    ensures st.tip <= Run(st, events).tip
    decreases |events|
  {
    if events != [] {
      var e, st' := events[0], Step(st, events[0]);
      OutcomesStep(st, events);
      if e.Play? {
        MissingIsWaitedFor(st, e.offset, e.enabled, e.written);
      } else {
        OtherStepsKeepWaits(st, e);
      }
      hide Step, FeedPlayer, MissingThroughout, Waits, BehindRequest, Bounded, Outcomes, Run;
      MissingIsHeld(st', events[1..]);
    }
  }

  lemma {:induction false} RunOutcomesAppend(st: State, a: seq<Event>, e: Event)
    requires st.WellFormed() && e.Play?
    ensures Run(st, a + [e]) == Step(Run(st, a), e)
    ensures Outcomes(st, a + [e]) == Outcomes(st, a) + [FeedPlayer(Run(st, a), e.offset, e.enabled, e.written).1]
    ensures MissingThroughout(st, a + [e]) ==>
              MissingThroughout(st, a) && !IsReady(Run(st, a)) && !NeedsSoftReset(Run(st, a))
    decreases |a|
  {
    if a == [] {
      assert a + [e] == [e] && [e][1..] == [];
      assert Outcomes(Step(st, e), []) == [];
    } else {
      assert (a + [e])[0] == a[0] && (a + [e])[1..] == a[1..] + [e];
      hide Step, FeedPlayer, IsReady, NeedsSoftReset;
      RunOutcomesAppend(Step(st, a[0]), a[1..], e);
    }
  }

  /** A chunk behind the tip that stays missing is missed at exactly the iteration after its waits. */
  lemma {:induction false} MissedExactlyAfterWaits(st: State, held: seq<Event>, e: Event)
    requires BehindRequest(st) && Bounded(st, |held| + 1) && MissingThroughout(st, held + [e]) && e.Play?
    requires st.player < st.tip && CountPlays(held) <= Waits(st)
    ensures var outcome := FeedPlayer(Run(st, held), e.offset, e.enabled, e.written).1;
            && Outcomes(st, held + [e]) == Repeat(CountPlays(held), Waited) + [outcome]
            && (outcome == Missed <==> CountPlays(held) == Waits(st))
            && (outcome == Waited <==> CountPlays(held) < Waits(st))
            && Run(st, held + [e]).player == st.player + if outcome == Missed then 1 else 0
  {
    RunOutcomesAppend(st, held, e);
    MissingIsHeld(st, held);
    RunIsBounded(st, held, 1);
    var st1 := Run(st, held);
    hide MissingThroughout, Outcomes, BehindRequest, Waits, Run, IsReady, FeedPlayer;
    MissingIsWaitedFor(st1, e.offset, e.enabled, e.written);
  }

  lemma PlayMovesOn(st: State, e: Event)
    requires BehindRequest(st) && Bounded(st, 1) && !(e.Play? && NeedsSoftReset(st)) && (e.Play? ==> e.written)
    ensures st.player <= Step(st, e).player <= st.player + 1
    ensures e.Play? && IsReady(st) ==> Step(st, e).player == st.player + 1
    ensures st.tip <= Step(st, e).tip
  {
    if !e.Play? {
      OtherStepsKeepWaits(st, e);
    }
  }

  /** Without a soft reset, a position that was left in place was missing its chunk all the while. */
  lemma {:induction false} HeldWasMissing(st: State, events: seq<Event>)
    requires BehindRequest(st) && Bounded(st, |events|) && NoSoftReset(st, events) && AlwaysWritten(events)
    ensures st.player <= Run(st, events).player
    ensures Run(st, events).player == st.player ==> MissingThroughout(st, events)
    decreases |events|
  {
    if events != [] {
      PlayMovesOn(st, events[0]);
      StepKeepsBehind(st, events[0]);
      StepIsBounded(st, events[0], |events| - 1);
      assert AlwaysWritten(events[1..]) by {
        assert forall i :: 0 <= i < |events| - 1 ==> events[1..][i] == events[i + 1];
      }
      hide Step, IsReady, NeedsSoftReset, BehindRequest, Bounded, AlwaysWritten;
      HeldWasMissing(Step(st, events[0]), events[1..]);
    }
  }

  lemma {:induction false} NoSoftResetAppend(st: State, a: seq<Event>, e: Event)
    requires st.WellFormed() && NoSoftReset(st, a + [e])
    ensures NoSoftReset(st, a) && !(e.Play? && NeedsSoftReset(Run(st, a)))
    decreases |a|
  {
    if a == [] {
      assert (a + [e])[0] == e;
    } else {
      assert (a + [e])[0] == a[0] && (a + [e])[1..] == a[1..] + [e];
      hide Step, NeedsSoftReset;
      NoSoftResetAppend(Step(st, a[0]), a[1..], e);
    }
  }

  lemma {:induction false} MissingAppend(st: State, a: seq<Event>, e: Event)
    requires st.WellFormed() && MissingThroughout(st, a)
    requires e.Play? ==> !IsReady(Run(st, a)) && !NeedsSoftReset(Run(st, a))
    ensures MissingThroughout(st, a + [e])
    decreases |a|
  {
    if a == [] {
      assert (a + [e])[0] == e && (a + [e])[1..] == [];
    } else {
      assert (a + [e])[0] == a[0] && (a + [e])[1..] == a[1..] + [e];
      hide Step, NeedsSoftReset, IsReady;
      MissingAppend(Step(st, a[0]), a[1..], e);
    }
  }

  lemma {:induction false} CountPlaysAppend(a: seq<Event>, b: seq<Event>)
    ensures CountPlays(a + b) == CountPlays(a) + CountPlays(b)
    decreases |a|
  {
    if a == [] {
      assert a + b == b;
    } else {
      assert (a + b)[0] == a[0] && (a + b)[1..] == a[1..] + b;
      CountPlaysAppend(a[1..], b);
    }
  }

  lemma {:induction false} HeldNoLonger(st: State, events: seq<Event>)
    requires BehindRequest(st) && Bounded(st, |events|) && NoSoftReset(st, events) && AlwaysWritten(events)
    requires MissingThroughout(st, events) && st.player < st.tip && Run(st, events).player == st.player
    ensures CountPlays(events) <= Waits(st)
    decreases |events|
  {
    if events != [] {
      var e, st' := events[0], Step(st, events[0]);
      OutcomesStep(st, events);
      assert AlwaysWritten(events[1..]) by {
        assert forall i :: 0 <= i < |events| - 1 ==> events[1..][i] == events[i + 1];
      }
      if e.Play? {
        MissingIsWaitedFor(st, e.offset, e.enabled, e.written);
      } else {
        OtherStepsKeepWaits(st, e);
      }
      HeldWasMissing(st', events[1..]);
      hide Step, FeedPlayer, Waits, BehindRequest, Bounded, Outcomes, AlwaysWritten, MissingThroughout;
      if st'.player == st.player {
        HeldNoLonger(st', events[1..]);
      }
    }
  }

  /** No chunk is given up early or late: when a position behind the tip is missed, it was held before for exactly
    * its waits, whatever happened meanwhile. */
  lemma {:induction false} MissedWasHeld(st: State, held: seq<Event>, e: Event)
    requires BehindRequest(st) && Bounded(st, |held| + 1) && e.Play? && st.player < st.tip
    requires NoSoftReset(st, held + [e]) && AlwaysWritten(held + [e]) && Run(st, held).player == st.player
    requires FeedPlayer(Run(st, held), e.offset, e.enabled, e.written).1 == Missed
    ensures CountPlays(held) == Waits(st) && Outcomes(st, held) == Repeat(Waits(st), Waited)
  {
    NoSoftResetAppend(st, held, e);
    assert AlwaysWritten(held) by {
      assert forall i :: 0 <= i < |held| ==> (held + [e])[i] == held[i];
    }
    assert BehindRequest(st) && Bounded(st, |held|);
    HeldWasMissing(st, held);
    HeldNoLonger(st, held);
    MissingIsHeld(st, held);
    assert !IsReady(Run(st, held));
    MissingAppend(st, held, e);
    MissedExactlyAfterWaits(st, held, e);
  }

  /** A fresh wait lasts 300 iterations, the one after a miss 5; and the waits are the patience but for the
    * iteration that ends them. */
  lemma WaitsInNumbers(st: State)
    ensures st.waitTime == 0 && st.maxWait == 3000 ==> Waits(st) == 300
    ensures st.waitTime == 0 && st.maxWait == 50 ==> Waits(st) == 5
    ensures Patience(st) == Waits(st) + 1
  {}

  // ---------- From connecting on ----------

  /** A client that has just connected will wait its full time for its first chunk, has counted nothing and
    * asks for nothing yet. */
  lemma ConnectedPlayer(size: nat, limit: int, first: nat)
    requires size > 0
    ensures var st := Connected(size, limit, first);
            && st.player == first && Waits(st) == 300 && st.maxWait == 3000
            && st.played == 0 && st.missed == -1 && st.requests == [] && st.tip == 0
  {}

  /** Until the first soft reset, the player has been led over the chunks from the first one on, each played or
    * missed. */
  lemma {:induction false} ClientPlaysFromFirst(size: nat, limit: int, first: nat, events: seq<Event>)
    requires 0 < size < 0x1_0000 && first + size + |events| <= 0x1_0000_0000 * size
    requires NoSoftReset(Connected(size, limit, first), events)
    ensures var st, log := Run(Connected(size, limit, first), events), Log(Connected(size, limit, first), events);
            && st.player == first + |log| && st.played == Count(log, true) && Misses(st) == Count(log, false)
  {
    var st := Connected(size, limit, first);
    assert BehindRequest(st) && Bounded(st, |events|);
    PlayerCounts(st, events);
  }
}
