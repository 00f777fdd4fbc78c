/** What the late answer to a lapped request does, and concrete runs in which another lap's chunk is served: after
  * resets of the request position, and after such an answer. */
module LapsLost {
  import opened Options
  import opened Pipeline
  import opened LapSafety
  import opened Exactness
  import opened PositionResets

  function Held(c: nat): Slot {
    Slot(Some(Packet(c, 1, 1, 0, 0, [])), true)
  }

  /** A ring of four. */
  function Ring(request: nat, tip: nat, slots: seq<Slot>, requests: seq<Req>): State {
    State(4, 3, request, tip, 21, slots, requests, 0, MAX_WAIT, 0, -1)
  }

  const SLOTS: seq<Slot> := [Slot(None, false), Held(5), Held(6), Held(7)]

  /** A client that holds chunks 5, 6 and 7 and is about to request chunk 8. */
  const BEFORE: State := Ring(8, 7, SLOTS, [])

  const CLEARED: seq<Slot> := [Slot(None, false), Held(5), Slot(Held(6).packet, false), Slot(Held(7).packet, false)]

  lemma TwoPlaced()
    ensures PlaceRequest(PlaceRequest(Rebase(BEFORE, 21), true), true)
            == Ring(23, 7, CLEARED, [Req(21, 500, []), Req(22, 500, [])])
  {
    var s := PlaceRequest(Rebase(BEFORE, 21), true);
    assert s.request == 22 && s.requests == [Req(21, 500, [])];
    assert s.slots == SLOTS[2 := Slot(Held(6).packet, false)];
  }

  lemma BothAsked()
    ensures PassRequests(Ring(23, 7, CLEARED, [Req(21, 500, []), Req(22, 500, [])]), ASK, 0, 5)
            == Ring(23, 7, CLEARED, [Req(21, 495, ["p"]), Req(22, 495, ["p"])])
  {
    var r, r' := Req(21, 500, []), Req(22, 500, []);
    assert [r][..0] == [] && [r, r'][..1] == [r];
    assert Cleanup([r], 3, 0) == [r];
    assert Cleanup([r, r'], 3, 0) == [r, r'];
    assert Ask(r, ASK, 5) == Req(21, 495, ["p"]) && Ask(r', ASK, 5) == Req(22, 495, ["p"]);
    assert AskAll([r, r'], ASK, 5) == [Req(21, 495, ["p"]), Req(22, 495, ["p"])];
  }

  lemma SecondReceived()
    ensures var st := ReceiveData(Ring(23, 7, CLEARED, [Req(21, 495, ["p"]), Req(22, 495, ["p"])]),
                                  Packet(22, 0, 0, 0, 0, []), "p", true);
            st.WellFormed() && st.size == 4 && st.tip == 22 && st.slots[1] == Held(5)
  {
    assert FindRequest([Req(21, 495, ["p"]), Req(22, 495, ["p"])], 22) == 1;
  }

  /** Placing a request clears the slot of the *next* one, so after a reset to chunk 21 the slot of
    * chunk 21 itself is never cleared: once chunk 22 arrives, a partner that asks for 21 gets 5. */
  lemma ResetServesOldLap()
    ensures Inv(BEFORE) && Lead(BEFORE)
    ensures var placed := Step(Step(Rebase(BEFORE, 21), Place(true)), Place(true));
            var received := Step(Step(placed, Pass(ASK, 0)), Receive(Packet(22, 0, 0, 0, 0, []), "p", true));
            Serve(received, 21, true) == Data(Packet(5, 1, 1, 0, 0, []))
  {
    TwoPlaced();
    BothAsked();
    SecondReceived();
    hide PlaceRequest, PassRequests, ReceiveData;
  }

  /** An outstanding request `r` that a stale chunk `c` does not stand in the way of. */
  predicate Beside(st: State, r: Req, c: nat)
    requires st.size > 0
  {
    Pending(st, r) ==> r.chunk % st.size == c % st.size || r.chunk < c + st.size
  }

  /** What a caller can check before it accepts the answer to request `i`: the request is not lapped; or its chunk
    * is less than a lap behind the tip, the next placement clears its slot (in a ring of two, one of the next two
    * does), and no other request that may still be answered is for a chunk a lap or more ahead of it in another
    * slot. */
  ghost predicate LateAnswerIsHarmless(st: State, i: nat)
    requires st.WellFormed() && i < |st.requests|
  {
    var c := st.requests[i].chunk;
    || st.request < c + st.size
    || (&& st.tip < c + st.size
        && (st.size >= 3 ==> (st.request + 1) % st.size == c % st.size)
        && forall j :: 0 <= j < |st.requests| && j != i ==> Beside(st, st.requests[j], c))
  }

  lemma AcceptedIsOrderly(st: State, packet: Packet, i: nat)
    requires Orderly(st) && i < |st.requests| && packet.chunk == st.requests[i].chunk
    ensures Orderly(Accept(st, packet, i))
  {
    ClosedAt(st.requests, i);
  }

  /** After the answer to a lapped request its slot is the only stale one. */
  lemma OnlyOneIsStale(st: State, packet: Packet, i: nat, s: nat)
    requires Inv(st) && i < |st.requests| && packet.chunk == st.requests[i].chunk
    requires packet.chunk + st.size <= st.request
    ensures Stale(Accept(st, packet, i), s) <==> s == packet.chunk % st.size
  {
    InvIsInPlace(st);
  }

  lemma LappedIsRecent(st: State, packet: Packet, i: nat)
    requires Inv(st) && i < |st.requests| && packet.chunk == st.requests[i].chunk
    requires packet.chunk + st.size <= st.request
    ensures Recent(Accept(st, packet, i)) <==> st.tip < packet.chunk + st.size
    ensures Accept(st, packet, i).tip < st.request
  {
    InvIsInPlace(st);
    var st' := Accept(st, packet, i);
    assert st'.slots[packet.chunk % st.size].Ready();
  }

  lemma PendingAfterLapped(st: State, packet: Packet, i: nat, r: nat)
    requires Inv(st) && i < |st.requests| && packet.chunk == st.requests[i].chunk
    requires packet.chunk + st.size <= st.request && st.request < r + st.size
    ensures Harmless(Accept(st, packet, i), r) <==> r % st.size == packet.chunk % st.size || r < packet.chunk + st.size
  {
    LappedIsRecent(st, packet, i);
    var st', c := Accept(st, packet, i), packet.chunk;
    assert st'.slots[c % st.size].packet.value.chunk == c;
    forall s: nat
      ensures Stale(st', s) <==> s == c % st.size
    {
      OnlyOneIsStale(st, packet, i, s);
    }
    assert Stale(st', c % st.size);
    hide Inv, Stale;
  }

  /** After the answer to a lapped request, soundness is a matter of the tip, the next placement and the other
    * requests. */
  lemma LappedSoundness(st: State, packet: Packet, i: nat)
    requires Inv(st) && i < |st.requests| && packet.chunk == st.requests[i].chunk
    requires packet.chunk + st.size <= st.request
    ensures var st', c := Accept(st, packet, i), packet.chunk;
            Sound(st') <==>
              && st.tip < c + st.size
              && (st.size >= 3 ==> (st.request + 1) % st.size == c % st.size)
              && forall k :: 0 <= k < |st'.requests| ==> Beside(st, st'.requests[k], c)
  {
    var st', c := Accept(st, packet, i), packet.chunk;
    LappedIsRecent(st, packet, i);
    forall s: nat
      ensures Stale(st', s) <==> s == c % st.size
    {
      OnlyOneIsStale(st, packet, i, s);
    }
    assert Stale(st', c % st.size);
    forall k | 0 <= k < |st'.requests|
      ensures (Pending(st', st'.requests[k]) ==> Harmless(st', st'.requests[k].chunk))
              <==> Beside(st, st'.requests[k], c)
    {
      if Pending(st', st'.requests[k]) {
        PendingAfterLapped(st, packet, i, st'.requests[k].chunk);
      }
    }
    hide Inv, Stale, Harmless, Recent, Pending, Beside;
  }

  lemma LappedAnswerIsSound(st: State, packet: Packet, i: nat)
    requires Inv(st) && i < |st.requests| && packet.chunk == st.requests[i].chunk
    ensures Sound(Accept(st, packet, i)) <==> LateAnswerIsHarmless(st, i)
  {
    var st', c := Accept(st, packet, i), packet.chunk;
    if st.request < c + st.size {
      AcceptKeepsLap(st, packet, i);
      InvIsSound(st');
    } else {
      LappedSoundness(st, packet, i);
      OthersBeside(st, st', i, c);
      hide Inv, Sound, Beside;
    }
  }

  lemma OthersBeside(st: State, st': State, i: nat, c: nat)
    requires st.size > 0 && i < |st.requests| && st'.requests == st.requests[..i] + st.requests[i + 1..]
    ensures (forall k :: 0 <= k < |st'.requests| ==> Beside(st, st'.requests[k], c)) <==>
              forall j :: 0 <= j < |st.requests| && j != i ==> Beside(st, st.requests[j], c)
  {
    hide Beside;
    ClosedAt(st.requests, i);
    if forall k :: 0 <= k < |st'.requests| ==> Beside(st, st'.requests[k], c) {
      forall j | 0 <= j < |st.requests| && j != i
        ensures Beside(st, st.requests[j], c)
      {
        assert st'.requests[if j < i then j else j - 1] == st.requests[j];
      }
    }
  }

  /** Closing a request leaves the others. */
  lemma ClosedAt(requests: seq<Req>, i: nat)
    requires i < |requests|
    ensures var rest := requests[..i] + requests[i + 1..];
            && |rest| == |requests| - 1
            && (forall j :: 0 <= j < |requests| && j != i ==> rest[if j < i then j else j - 1] == requests[j])
            && (forall k :: 0 <= k < |rest| ==> rest[k] == requests[if k < i then k else k + 1])
  {
    var rest := requests[..i] + requests[i + 1..];
    assert forall k :: 0 <= k < i ==> rest[k] == requests[k];
    assert forall k :: i <= k < |rest| ==> rest[k] == requests[k + 1];
  }

  /** The exact condition for the answer to any outstanding request, lapped or not, whatever else is outstanding:
    * afterwards all answers stay exact, in every run in which no further lapped request is answered, if and
    * only if it is harmless. */
  lemma AnswerIsSafeExactlyWhenHarmless(st: State, packet: Packet, i: nat)
    requires Inv(st) && Orderly(st) && i < |st.requests| && packet.chunk == st.requests[i].chunk
    requires st.request + 3 < 0x1_0000_0000 * st.size
    ensures LateAnswerIsHarmless(st, i) <==>
              forall events: seq<Event> :: CalmRun(Accept(st, packet, i), events) ==>
                AnswersExact(Run(Accept(st, packet, i), events))
  {
    AcceptedIsOrderly(st, packet, i);
    LappedAnswerIsSound(st, packet, i);
    assert Accept(st, packet, i).tip < 0x1_0000_0000 * st.size;
    hide Inv, Orderly, Sound, LateAnswerIsHarmless, CalmRun, Run, AnswersExact;
    ExactForeverWhenSound(Accept(st, packet, i));
  }

  /** A lapped request whose late answer does no harm: chunk 1 was lapped in a ring of four, and the next placement
    * clears its slot. */
  const LAPPED_HARMLESS: State := State(4, 3, 8, 0, 0, seq(4, _ => Slot(None, false)), [Req(1, 495, ["p"])],
                                        0, MAX_WAIT, 0, -1)

  lemma LappedRequestMayBeHarmless()
    ensures Inv(LAPPED_HARMLESS) && Orderly(LAPPED_HARMLESS) && !Lead(LAPPED_HARMLESS)
    ensures !Inv(Accept(LAPPED_HARMLESS, Blank(1), 0)) && LateAnswerIsHarmless(LAPPED_HARMLESS, 0)
  {
    AcceptKeepsLap(LAPPED_HARMLESS, Blank(1), 0);
  }

  /** A client that asked for chunks 1 and 6 and is about to request chunk 7, two chunks past a lap after
    * the outstanding chunk 1. */
  const LAPPED: State := State(4, 3, 7, 0, 0, seq(4, _ => Slot(None, false)), [Req(1, 495, ["p"]), Req(6, 495, ["p"])],
                               0, MAX_WAIT, 0, -1)

  lemma LappedReceives()
    ensures var one := ReceiveData(LAPPED, Packet(1, 0, 0, 0, 0, []), "p", true);
            && one.WellFormed() && one.size == 4 && one.requests == [Req(6, 495, ["p"])] && one.tip == 1
            && one.slots == [Slot(None, false), Held(1), Slot(None, false), Slot(None, false)]
  {
    assert FindRequest(LAPPED.requests, 1) == 0;
  }

  /** When chunk 1 is answered late, a partner that asks for chunk 5 is given chunk 1. */
  lemma LappedRequestServesOldLap()
    ensures Inv(LAPPED) && !Lead(LAPPED)
    ensures var one := Step(LAPPED, Receive(Packet(1, 0, 0, 0, 0, []), "p", true));
            var both := Step(one, Receive(Packet(6, 0, 0, 0, 0, []), "p", true));
            Serve(both, 5, true) == Data(Packet(1, 1, 1, 0, 0, []))
  {
    LappedReceives();
    var one := ReceiveData(LAPPED, Packet(1, 0, 0, 0, 0, []), "p", true);
    assert one.slots[1] == Held(1);
    assert FindRequest(one.requests, 6) == 0;
  }

  /** After a reset back to chunk 0 the same client stores chunk 0 in its empty slot, four behind its tip of 7:
    * the reset is not clean, and a partner that asks for chunk 4 is given chunk 0. */
  lemma BackwardResetServesOldLap() returns (events: seq<Event>)
    ensures !CleanReset(BEFORE, 0) && CalmRun(Rebase(BEFORE, 0), events)
    ensures var st := Run(Rebase(BEFORE, 0), events);
            Serve(st, 4, true).Data? && Serve(st, 4, true).packet.chunk == 0
  {
    assert !RemembersLater(BEFORE, 0);
    events := FetchOne(Rebase(BEFORE, 0));
  }
}
