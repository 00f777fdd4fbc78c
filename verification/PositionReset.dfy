/** What a reset of the request position by the bootstrap does to the answers of a client.
  *
  * The requester has given up its list; at the next contact the bootstrap names a new position, ahead of the
  * old one or behind it. The buffer and the tip stay as they are.
  */
module PositionResets {
  import opened Arith
  import opened Pipeline
  import opened LapSafety
  import opened Exactness
  import opened PlayerRuns

  function Rebase(st: State, next: nat): State {
    st.(request := next, player := next, requests := [])
  }

  /** A reset drops the requests and moves the requester and the player to the new position; the buffer, the tip and
    * the counters stay. */
  lemma ResetMovesBoth(st: State, next: nat)
    ensures var st' := Rebase(st, next);
            && st'.request == st'.player == next && st'.requests == []
            && st == st'.(request := st.request, player := st.player, requests := st.requests)
  {}

  /** A reset keeps the lap invariant exactly when everything stored, and the tip, lie behind the new request
    * position, and what is available less than a lap. */
  lemma RebaseKeepsLap(st: State, next: nat)
    requires Inv(st)
    ensures Inv(Rebase(st, next)) <==>
              && (st.tip < next || st.tip == 0)
              && forall s :: 0 <= s < st.size && st.slots[s].packet.Some? ==>
                   && st.slots[s].packet.value.chunk < next
                   && (st.slots[s].available ==> next < st.slots[s].packet.value.chunk + st.size)
  {
    var st' := Rebase(st, next);
    forall s | 0 <= s < st.size
      ensures SlotInLap(st', s) <==>
                (st.slots[s].packet.Some? ==>
                   && st.slots[s].packet.value.chunk < next
                   && (st.slots[s].available ==> next < st.slots[s].packet.value.chunk + st.size))
    {
      assert SlotInLap(st, s);
    }
  }

  // ---------- The condition ----------

  /** No available chunk is a lap or more behind the new position, but for the one whose slot the first
    * placement clears. */
  ghost predicate NoStaleSlot(st: State, next: nat)
    requires st.WellFormed()
  {
    forall s :: 0 <= s < st.size && st.slots[s].Ready() && s != (next + 1) % st.size ==>
      next < st.slots[s].packet.value.chunk + st.size
  }

  /** Every chunk that will be requested again although it is a lap or more behind the tip will be
    * taken for late. */
  ghost predicate OldOnesAreLate(st: State, next: nat)
    requires st.WellFormed()
  {
    forall r: nat :: next <= r && r + st.size <= st.tip ==> RemembersLater(st, r)
  }

  /** A reset to `next` leaves nothing behind that can be served for another chunk. (With a ring of one nothing
    * is ever received, and with a ring of two the second placement clears the other slot in time.) */
  ghost predicate CleanReset(st: State, next: nat)
    requires st.WellFormed()
  {
    (st.size >= 3 ==> NoStaleSlot(st, next)) && (st.size >= 2 ==> OldOnesAreLate(st, next))
  }

  // ---------- Answers ----------

  lemma ResetIsSound(st: State, next: nat)
    requires InPlace(st)
    ensures Orderly(Rebase(st, next))
    ensures Sound(Rebase(st, next)) <==> Recent(st) && CleanReset(st, next)
  {
    var st' := Rebase(st, next);
    assert forall r: nat :: RemembersLater(st, r) <==> RemembersLater(st', r);
    assert forall s: nat :: Stale(st', s) <==>
             s < st.size && st.slots[s].Ready() && st.slots[s].packet.value.chunk + st.size <= next;
  }

  /** After a clean reset the answers are exact in every calm run. */
  lemma {:induction false} CleanResetRunIsExact(st: State, next: nat, events: seq<Event>)
    requires InPlace(st) && Recent(st) && CleanReset(st, next) && CalmRun(Rebase(st, next), events)
    ensures var st' := Run(Rebase(st, next), events);
            AnswersExact(st') && Orderly(st') && Sound(st')
  {
    ResetIsSound(st, next);
    hide Sound, CleanReset, CalmRun;
    SoundRunIsExact(Rebase(st, next), events);
  }

  /** After any other reset some calm run ends with a wrong answer. */
  lemma DirtyResetGoesWrong(st: State, next: nat) returns (events: seq<Event>)
    requires InPlace(st) && Recent(st) && !CleanReset(st, next)
    requires st.tip < 0x1_0000_0000 * st.size && next + 3 < 0x1_0000_0000 * st.size
    ensures CalmRun(Rebase(st, next), events) && !AnswersExact(Run(Rebase(st, next), events))
  {
    ResetIsSound(st, next);
    hide Sound, CleanReset, CalmRun, Run;
    events := UnsoundGoesWrong(Rebase(st, next));
  }

  /** The exact condition for a reset to any position, ahead or behind, of a client in any state: answers are exact
    * from the reset on, in every run in which no lapped request is answered, if and only if they were exact
    * before it and the reset is clean. */
  lemma ResetIsSafeExactlyWhenClean(st: State, next: nat)
    requires InPlace(st) && st.tip < 0x1_0000_0000 * st.size && next + 3 < 0x1_0000_0000 * st.size
    ensures AnswersExact(st) && CleanReset(st, next) <==>
              forall events: seq<Event> :: CalmRun(Rebase(st, next), events) ==>
                AnswersExact(Run(Rebase(st, next), events))
  {
    ResetIsSound(st, next);
    ExactAnswers(st);
    hide Sound, CleanReset, CalmRun, Run, AnswersExact;
    ExactForeverWhenSound(Rebase(st, next));
  }

  /** A reset, and the run up to the next one. */
  datatype Stretch = Stretch(next: nat, events: seq<Event>)

  function RunAll(st: State, stretches: seq<Stretch>): (st': State)
    requires st.WellFormed()
    ensures st'.WellFormed() && st'.size == st.size
    decreases |stretches|
  {
    if stretches == [] then st
    else RunAll(Run(Rebase(st, stretches[0].next), stretches[0].events), stretches[1..])
  }

  ghost predicate AllClean(st: State, stretches: seq<Stretch>)
    requires st.WellFormed()
    decreases |stretches|
  {
    stretches == [] ||
    (&& CleanReset(st, stretches[0].next) && CalmRun(Rebase(st, stretches[0].next), stretches[0].events)
     && AllClean(Run(Rebase(st, stretches[0].next), stretches[0].events), stretches[1..]))
  }

  /** Any number of clean resets, ahead or behind, leaves the answers exact. */
  lemma {:induction false} CleanResetsStayExact(st: State, stretches: seq<Stretch>)
    requires InPlace(st) && Recent(st) && AllClean(st, stretches)
    ensures AnswersExact(RunAll(st, stretches))
    decreases |stretches|
  {
    if stretches == [] {
      ExactAnswers(st);
    } else {
      CleanResetRunIsExact(st, stretches[0].next, stretches[0].events);
      hide CleanReset, CalmRun, Run, InPlace, Recent;
      CleanResetsStayExact(Run(Rebase(st, stretches[0].next), stretches[0].events), stretches[1..]);
    }
  }

  /** For a reset forward the first placement restores the lap invariant, unless a slot is stale. */
  lemma FirstPlaceRestoresLap(st: State, next: nat)
    requires Inv(st) && next >= st.request && next + 1 < 0x1_0000_0000 * st.size
    ensures Inv(PlaceRequest(Rebase(st, next), true)) <==> NoStaleSlot(st, next)
  {
    var st' := PlaceRequest(Rebase(st, next), true);
    forall s | 0 <= s < st.size
      ensures SlotInLap(st', s) <==>
                (st.slots[s].Ready() && s != (next + 1) % st.size ==> next < st.slots[s].packet.value.chunk + st.size)
    {
      assert SlotInLap(st, s);
      if st.slots[s].Ready() && next + 1 == st.slots[s].packet.value.chunk + st.size {
        ModShift(st.slots[s].packet.value.chunk, 1, st.size);
      }
    }
    assert SlotInLap(st, next % st.size);
  }

  /** A reset backward to a chunk less than a lap behind the tip is always clean, and so is one that stays put. */
  lemma ShortResetIsClean(st: State, next: nat)
    requires Inv(st) && next <= st.request && st.tip < next + st.size
    ensures CleanReset(st, next)
  {
    InvIsInPlace(st);
  }

  // ---------- The player ----------

  /** After a clean reset, and with offsets shorter than the ring, the player is handed the chunk at its own position,
    * in every calm run. */
  lemma {:induction false} PlayerAfterReset(st: State, next: nat, events: seq<Event>, offset: nat, enabled: bool,
                                            written: bool)
    requires InPlace(st) && Recent(st) && CleanReset(st, next) && CalmRun(Rebase(st, next), events)
    requires st.size < 0x1_0000 && st.tip < 0x1_0000_0000 * st.size && offset < st.size
    ensures var st' := Run(Rebase(st, next), events);
            FeedPlayer(st', offset, enabled, written).1.Played? ==>
              FeedPlayer(st', offset, enabled, written).1.packet.chunk == SoftReset(st', offset).player
  {
    ResetIsSound(st, next);
    hide Sound, CleanReset, CalmRun, Run, Orderly, InPlace, Recent;
    SoundPlayerIsExact(Rebase(st, next), events, offset, enabled, written);
  }

  // ---------- What is dropped after a reset ----------

  /** In every run after a reset, an answer from an asked partner is dropped exactly when its slot remembers a later
    * chunk, or still offers the very chunk: after a reset backward a client does not get again what lies
    * behind what it remembers. */
  lemma {:induction false} AnswerAfterReset(st: State, next: nat, events: seq<Event>, packet: Packet, source: string)
    requires InPlace(st)
    ensures var st' := Run(Rebase(st, next), events);
            var i := FindRequest(st'.requests, packet.chunk);
            i < |st'.requests| && source in st'.requests[i].attempts ==>
              (ReceiveData(st', packet, source, true) == st' <==>
                 RemembersLater(st', packet.chunk) || Holds(st', packet.chunk))
  {
    RunKeepsPlaces(Rebase(st, next), events);
    var st' := Run(Rebase(st, next), events);
    NotLate(st', packet.chunk);
    var i := FindRequest(st'.requests, packet.chunk);
    if i < |st'.requests| {
      assert |st'.requests[..i] + st'.requests[i + 1..]| == |st'.requests| - 1;
    }
  }
}
