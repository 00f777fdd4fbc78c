/** Why slot `r mod B` holds chunk `r` and not a chunk of another lap. */
module LapSafety {
  import opened Arith
  import opened Options
  import opened ChunkIds
  import opened Pipeline

  /** A stored chunk sits in its own slot, lies behind `request` and not beyond `tip`; while it is
    * available it is less than one lap behind `request`. */
  ghost predicate SlotInLap(st: State, s: nat)
    requires st.WellFormed() && s < st.size
  {
    var slot := st.slots[s];
    slot.packet.Some? ==>
      var c := slot.packet.value.chunk;
      && c % st.size == s
      && c < st.request && c <= st.tip
      && (slot.available ==> st.request < c + st.size)
  }

  /** Outstanding requests lie behind `request`, in order, and none of their chunks is in the buffer. */
  ghost predicate RequestsOpen(st: State)
    requires st.WellFormed()
  {
    && (forall i :: 0 <= i < |st.requests| ==> st.requests[i].chunk < st.request)
    && (forall i, j :: 0 <= i < j < |st.requests| ==> st.requests[i].chunk < st.requests[j].chunk)
    && (forall i :: 0 <= i < |st.requests| ==> !Holds(st, st.requests[i].chunk))
  }

  ghost predicate Inv(st: State) {
    && st.WellFormed()
    && (forall s :: 0 <= s < st.size ==> SlotInLap(st, s))
    && RequestsOpen(st)
    && (st.tip < st.request || st.tip == 0)
  }

  /** Outstanding requests lie behind `request`. Every step keeps this, lapped requests or not, and so does a
    * reset of the request position. */
  ghost predicate BehindRequest(st: State) {
    st.WellFormed() && AllChunks(st.requests, (c: nat) => c < st.request)
  }

  /** `request` is less than one lap ahead of every outstanding request. */
  ghost predicate Lead(st: State) {
    forall i :: 0 <= i < |st.requests| ==> st.request < st.requests[i].chunk + st.size
  }

  /** Chunk `c` itself is in the buffer and available. */
  ghost predicate Holds(st: State, c: nat)
    requires st.WellFormed()
  {
    var slot := st.slots[c % st.size];
    slot.Ready() && slot.packet.value.chunk == c
  }

  ghost predicate LeadThroughout(st: State, events: seq<Event>)
    requires st.WellFormed()
    decreases |events|
  {
    Lead(st) && (events == [] || LeadThroughout(Step(st, events[0]), events[1..]))
  }

  /** The 32-bit cycle counters do not run out within `n` more steps. */
  ghost predicate Bounded(st: State, n: nat) {
    && st.size > 0 && st.request + st.size + n <= 0x1_0000_0000 * st.size
    && st.tip + st.size + n <= 0x1_0000_0000 * st.size && st.player + n < 0x1_0000_0000 * st.size
  }

  lemma ConnectedIsInLap(size: nat, limit: int, first: nat)
    requires size > 0
    ensures Inv(Connected(size, limit, first)) && Lead(Connected(size, limit, first))
  {}

  lemma PlaceKeepsLap(st: State, found: bool)
    requires Inv(st) && Bounded(st, 1)
    ensures Inv(PlaceRequest(st, found))
  {
    var st' := PlaceRequest(st, found);
    if found {
      forall s | 0 <= s < st.size
        ensures SlotInLap(st', s)
      {
        assert SlotInLap(st, s);
        var slot := st'.slots[s];
        if slot.Ready() && st'.request == slot.packet.value.chunk + st.size {
          ModShift(slot.packet.value.chunk, 1, st.size);
          assert false;
        }
      }
      assert SlotInLap(st, st.request % st.size);
    }
  }

  ghost predicate AllChunks(requests: seq<Req>, p: nat -> bool) {
    forall i :: 0 <= i < |requests| ==> p(requests[i].chunk)
  }

  ghost predicate Increasing(requests: seq<Req>) {
    forall i, j :: 0 <= i < j < |requests| ==> requests[i].chunk < requests[j].chunk
  }

  lemma {:induction false} CleanupKeepsChunks(requests: seq<Req>, limit: int, buffered: nat, p: nat -> bool)
    requires AllChunks(requests, p)
    ensures AllChunks(Cleanup(requests, limit, buffered), p)
  {
    if requests != [] {
      CleanupKeepsChunks(requests[..|requests| - 1], limit, buffered, p);
    }
  }

  lemma {:induction false} CleanupKeepsOrder(requests: seq<Req>, limit: int, buffered: nat)
    requires Increasing(requests)
    ensures Increasing(Cleanup(requests, limit, buffered))
  {
    if requests != [] {
      var last := |requests| - 1;
      CleanupKeepsOrder(requests[..last], limit, buffered);
      CleanupKeepsChunks(requests[..last], limit, buffered, (c: nat) => c < requests[last].chunk);
    }
  }

  /** Any property of the outstanding chunks survives a pass. */
  lemma PassKeepsChunks(st: State, ask: nat -> Option<string>, buffered: nat, step: int, p: nat -> bool)
    requires AllChunks(st.requests, p)
    ensures AllChunks(PassRequests(st, ask, buffered, step).requests, p)
  {
    var kept := Cleanup(st.requests, st.limit, buffered);
    CleanupKeepsChunks(st.requests, st.limit, buffered, p);
    forall i | 0 <= i < |kept|
      ensures p(AskAll(kept, ask, step)[i].chunk)
    {
      assert AskAll(kept, ask, step)[i].chunk == kept[i].chunk;
    }
  }

  lemma PassKeepsLap(st: State, ask: nat -> Option<string>, buffered: nat, step: int)
    requires Inv(st)
    ensures Inv(PassRequests(st, ask, buffered, step))
    ensures Lead(st) ==> Lead(PassRequests(st, ask, buffered, step))
  {
    var st' := PassRequests(st, ask, buffered, step);
    var open := (c: nat) => c < st.request && !Holds(st, c);
    var near := (c: nat) => st.request < c + st.size;
    PassKeepsChunks(st, ask, buffered, step, open);
    CleanupKeepsOrder(st.requests, st.limit, buffered);
    if Lead(st) {
      PassKeepsChunks(st, ask, buffered, step, near);
    }
    forall i | 0 <= i < |st'.requests|
      ensures st'.requests[i].chunk < st'.request && !Holds(st', st'.requests[i].chunk)
      ensures Lead(st) ==> st'.request < st'.requests[i].chunk + st'.size
    {
      assert open(st'.requests[i].chunk);
      assert Lead(st) ==> near(st'.requests[i].chunk);
    }
    SameSlots(st, st');
  }

  /** `SlotInLap` only looks at the slots and the two positions. */
  lemma SameSlots(st: State, st': State)
    requires Inv(st)
    requires st'.size == st.size && st'.slots == st.slots && st'.request == st.request && st'.tip == st.tip
    ensures forall s :: 0 <= s < st'.size ==> SlotInLap(st', s)
  {
    forall s | 0 <= s < st'.size
      ensures SlotInLap(st', s)
    {
      assert SlotInLap(st, s);
    }
  }

  lemma AcceptKeepsSlot(st: State, packet: Packet, i: nat, s: nat)
    requires Inv(st) && s < st.size && i < |st.requests| && packet.chunk == st.requests[i].chunk
    ensures SlotInLap(Accept(st, packet, i), s) <==> s != packet.chunk % st.size || st.request < packet.chunk + st.size
  {
    assert SlotInLap(st, s);
  }

  lemma AcceptKeepsRequests(st: State, packet: Packet, i: nat)
    requires Inv(st) && i < |st.requests| && packet.chunk == st.requests[i].chunk
    ensures RequestsOpen(Accept(st, packet, i)) && (Lead(st) ==> Lead(Accept(st, packet, i)))
  {
    var st' := Accept(st, packet, i);
    forall k | 0 <= k < |st'.requests|
      ensures st'.requests[k] == st.requests[if k < i then k else k + 1]
      ensures !Holds(st', st'.requests[k].chunk)
    {
      var k' := if k < i then k else k + 1;
      assert st'.requests[k] == st.requests[k'];
      assert !Holds(st, st.requests[k'].chunk);
      assert st.requests[k'].chunk != packet.chunk;
    }
  }

  /** An answer keeps the invariant exactly when the request position is less than a lap ahead of it. */
  lemma AcceptKeepsLap(st: State, packet: Packet, i: nat)
    requires Inv(st) && i < |st.requests| && packet.chunk == st.requests[i].chunk
    ensures Inv(Accept(st, packet, i)) <==> st.request < packet.chunk + st.size
  {
    var st' := Accept(st, packet, i);
    AcceptKeepsRequests(st, packet, i);
    forall s | 0 <= s < st.size
      ensures SlotInLap(st', s) <==> s != packet.chunk % st.size || st.request < packet.chunk + st.size
    {
      AcceptKeepsSlot(st, packet, i, s);
    }
    hide RequestsOpen, SlotInLap;
    assert SlotInLap(st', packet.chunk % st.size) <==> st.request < packet.chunk + st.size;
    assert st'.tip < st'.request || st'.tip == 0;
  }

  lemma ReceiveKeepsLap(st: State, packet: Packet, source: string, partner: bool)
    requires Inv(st) && Lead(st)
    ensures Inv(ReceiveData(st, packet, source, partner)) && Lead(ReceiveData(st, packet, source, partner))
  {
    if ReceiveData(st, packet, source, partner) != st {
      var i := FindRequest(st.requests, packet.chunk);
      AcceptKeepsRequests(st, packet, i);
      AcceptKeepsLap(st, packet, i);
    }
  }

  lemma FeedKeepsLap(st: State, offset: nat, enabled: bool, written: bool)
    requires Inv(st)
    ensures Inv(FeedPlayer(st, offset, enabled, written).0)
    ensures Lead(st) ==> Lead(FeedPlayer(st, offset, enabled, written).0)
  {
    hide GoBack, Succ;
    var st' := FeedPlayer(st, offset, enabled, written).0;
    assert st'.requests == st.requests || st'.requests == [];
    assert st'.slots == st.slots && st'.size == st.size && st'.request == st.request && st'.tip == st.tip;
    hide FeedPlayer;
    SameSlots(st, st');
    hide SlotInLap;
  }

  lemma StepKeepsLap(st: State, e: Event)
    requires Inv(st) && Lead(st) && Bounded(st, 1)
    ensures Inv(Step(st, e))
  {
    match e
    case Place(found) => PlaceKeepsLap(st, found);
    case Pass(ask, buffered) => PassKeepsLap(st, ask, buffered, STEP_IN_MS);
    case Receive(packet, source, partner) => ReceiveKeepsLap(st, packet, source, partner);
    case Play(offset, enabled, written) => FeedKeepsLap(st, offset, enabled, written);
  }

  lemma StepKeepsBehind(st: State, e: Event)
    requires BehindRequest(st) && Bounded(st, 1)
    ensures BehindRequest(Step(st, e))
  {
    hide GoBack, Cleanup;
    var st' := Step(st, e);
    if e.Pass? {
      PassKeepsChunks(st, e.ask, e.buffered, STEP_IN_MS, (c: nat) => c < st.request);
    }
    forall i | 0 <= i < |st'.requests|
      ensures st'.requests[i].chunk < st'.request
    {
      if e.Pass? {
        assert AllChunks(st'.requests, (c: nat) => c < st.request);
      }
    }
  }

  lemma StepIsBounded(st: State, e: Event, n: nat)
    requires BehindRequest(st) && Bounded(st, n + 1)
    ensures Bounded(Step(st, e), n)
  {
    if e.Play? {
      FeedIsBounded(st, e.offset, e.enabled, e.written, n);
    }
  }

  lemma FeedIsBounded(st: State, offset: nat, enabled: bool, written: bool, n: nat)
    requires BehindRequest(st) && Bounded(st, n + 1)
    ensures Bounded(FeedPlayer(st, offset, enabled, written).0, n)
  {
    GoBackBound(st.tip, offset, st.size);
    var s := SoftReset(st, offset);
    assert Bounded(s, n) && s.player < 0x1_0000_0000 * st.size;
  }

  /** Going back does not lead forward. */
  lemma GoBackBound(x: nat, k: nat, size: nat)
    requires size > 0
    ensures GoBack(x, k, size) < x + size
  {
    LapsOf(x, size);
    var b := ChunkId(x / size, x % size, size).Back(k);
    EarlierCycleBound(x / size, x % size, b);
  }

  lemma EarlierCycleBound(q: nat, r: nat, b: ChunkId)
    requires b.cycle <= q && b.position < b.size
    ensures b.Linear() < Laps(q, b.size) + r + b.size
  {
    if b.cycle < q {
      LapsGrow(b.cycle, q, b.size);
    }
  }

  lemma {:induction false} RunKeepsLap(st: State, events: seq<Event>)
    requires Inv(st) && Bounded(st, |events|) && LeadThroughout(st, events)
    ensures Inv(Run(st, events)) && Lead(Run(st, events))
    decreases |events|
  {
    if events != [] {
      StepKeepsLap(st, events[0]);
      StepIsBounded(st, events[0], |events| - 1);
      RunKeepsLap(Step(st, events[0]), events[1..]);
    }
  }

  // ---------- What the invariant buys ----------

  /** Two indices of one slot that are less than a lap apart are the same chunk. */
  lemma SameSlotSameChunk(st: State, c: nat)
    requires Inv(st) && st.slots[c % st.size].Ready()
    requires c <= st.tip && st.tip < c + st.size
    ensures Holds(st, c)
  {
    var s := c % st.size;
    assert SlotInLap(st, s);
    CongruentAndClose(st.slots[s].packet.value.chunk, c, st.size);
  }

  /** A partner is answered with data exactly when the chunk it asked for is held, and then with
    * that very chunk. */
  lemma StrangersGetNothing(st: State, q: nat, partner: bool)
    requires st.WellFormed()
    ensures Serve(st, q, partner) == NoPartnership <==> !partner
    ensures partner ==> Serve(st, q, partner).Data? || Serve(st, q, partner) == ChunkUnavailable
  {}

  lemma ServesExactChunk(st: State, q: nat, partner: bool)
    requires Inv(st)
    ensures Serve(st, q, partner).Data? <==> partner && Holds(st, q)
    ensures Serve(st, q, partner).Data? ==> Serve(st, q, partner).packet.chunk == q
    ensures Serve(st, q, partner) == ChunkUnavailable <==> partner && !Holds(st, q)
    ensures Serve(st, q, partner) == NoPartnership <==> !partner
  {
    assert SlotInLap(st, q % st.size);
    if Serve(st, q, partner).Data? {
      SameSlotSameChunk(st, q);
    }
  }

  /** The slot of an outstanding chunk holds, at most, a chunk of an earlier lap. */
  lemma StoredIsOlder(st: State, i: nat)
    requires Inv(st) && Lead(st) && i < |st.requests|
    ensures var slot, c := st.slots[st.requests[i].chunk % st.size], st.requests[i].chunk;
            slot.packet.Some? ==>
              && slot.packet.value.chunk % st.size == c % st.size && slot.packet.value.chunk <= c
              && (slot.available ==> slot.packet.value.chunk < c)
  {
    var c := st.requests[i].chunk;
    assert SlotInLap(st, c % st.size);
    assert !Holds(st, c);
    var packet := st.slots[c % st.size].packet;
    if packet.Some? && c < packet.value.chunk {
      CongruentAndClose(packet.value.chunk, c, st.size);
    }
  }

  lemma OutstandingIsNotReceived(st: State, i: nat)
    requires Inv(st) && Lead(st) && i < |st.requests|
    ensures !AlreadyReceived(st, st.requests[i].chunk)
  {
    var c, B := st.requests[i].chunk, st.size;
    StoredIsOlder(st, i);
    var slot := st.slots[c % B];
    hide Inv, Lead;
    if slot.packet.Some? {
      var older := slot.packet.value.chunk;
      SplitOrder(older, c, B);
      assert older / B <= c / B && (older / B == c / B ==> !slot.available);
    }
  }

  /** A chunk that was asked for and arrives from a partner that was asked is neither duplicate nor
    * late: it is stored, it can be served, and its request is closed. */
  lemma AnswerIsAccepted(st: State, packet: Packet, source: string, i: nat)
    requires Inv(st) && Lead(st)
    requires i < |st.requests| && st.requests[i].chunk == packet.chunk && source in st.requests[i].attempts
    ensures var st' := ReceiveData(st, packet, source, true);
            && Holds(st', packet.chunk) && st'.requests == st.requests[..i] + st.requests[i + 1..]
            && st' == st.(requests := st'.requests, slots := st'.slots, tip := Max(st.tip, packet.chunk))
            && (forall s :: 0 <= s < st.size && s != packet.chunk % st.size ==> st'.slots[s] == st.slots[s])
            && st'.slots[packet.chunk % st.size].packet.value
               == packet.(hop := (packet.hop + 1) % 256, tries := (packet.tries + |st.requests[i].attempts|) % 256)
  {
    OutstandingIsNotReceived(st, i);
    assert FindRequest(st.requests, packet.chunk) == i;
  }

  /** What nobody was asked for changes nothing, whatever the state: the sender must be a partner, and one of those
    * asked for the chunk. */
  lemma UnaskedIsIgnored(st: State, packet: Packet, source: string, partner: bool)
    requires st.WellFormed() && ReceiveData(st, packet, source, partner) != st
    ensures partner
    ensures exists i :: 0 <= i < |st.requests| && st.requests[i].chunk == packet.chunk
                        && source in st.requests[i].attempts
  {
    hide AlreadyReceived;
    assert st.requests[FindRequest(st.requests, packet.chunk)].chunk == packet.chunk;
  }

  /** And while the lead holds that is exactly what it takes. */
  lemma AcceptedExactlyWhenAwaited(st: State, packet: Packet, source: string, partner: bool)
    requires Inv(st) && Lead(st)
    ensures ReceiveData(st, packet, source, partner) != st <==>
              partner && exists i :: 0 <= i < |st.requests| && st.requests[i].chunk == packet.chunk
                                     && source in st.requests[i].attempts
  {
    if ReceiveData(st, packet, source, partner) != st {
      UnaskedIsIgnored(st, packet, source, partner);
    }
    if i :| 0 <= i < |st.requests| && st.requests[i].chunk == packet.chunk && source in st.requests[i].attempts {
      AnswerIsAccepted(st, packet, source, i);
      assert |ReceiveData(st, packet, source, true).requests| == |st.requests| - 1;
    }
  }

  lemma StepKeepsHeld(st: State, e: Event, c: nat)
    requires Inv(st) && Lead(st) && Bounded(st, 1) && Holds(st, c) && Step(st, e).request < c + st.size
    ensures Holds(Step(st, e), c)
  {
    hide GoBack, Cleanup;
    match e
    case Place(found) => ClearsNoOther(st, found, c);
    case Receive(packet, source, partner) => StoresNoOther(st, packet, source, partner, c);
    case _ =>
  }

  lemma ClearsNoOther(st: State, found: bool, c: nat)
    requires Inv(st) && Bounded(st, 1) && Holds(st, c) && PlaceRequest(st, found).request < c + st.size
    ensures Holds(PlaceRequest(st, found), c)
  {
    assert SlotInLap(st, c % st.size);
    if found && (st.request + 1) % st.size == c % st.size {
      CongruentAndClose(st.request + 1, c, st.size);
    }
  }

  lemma StoresNoOther(st: State, packet: Packet, source: string, partner: bool, c: nat)
    requires Inv(st) && Lead(st) && Holds(st, c)
    ensures Holds(ReceiveData(st, packet, source, partner), c)
  {
    assert SlotInLap(st, c % st.size);
    var i := FindRequest(st.requests, packet.chunk);
    assert i < |st.requests| ==> !Holds(st, st.requests[i].chunk) && st.requests[i].chunk == packet.chunk;
    if ReceiveData(st, packet, source, partner) != st {
      assert packet.chunk != c;
      hide Inv, Lead;
      StoresElsewhere(st, packet, i, c);
    }
  }

  /** A chunk less than a lap away from a held one does not share its slot. */
  lemma StoresElsewhere(st: State, packet: Packet, i: nat, c: nat)
    requires st.WellFormed() && Holds(st, c) && i < |st.requests| && packet.chunk != c
    requires packet.chunk < st.request < c + st.size && c < st.request < packet.chunk + st.size
    ensures Holds(Accept(st, packet, i), c)
  {
    if packet.chunk % st.size == c % st.size {
      CongruentAndClose(packet.chunk, c, st.size);
    }
  }

  lemma {:induction false} RunIsBounded(st: State, events: seq<Event>, n: nat)
    requires BehindRequest(st) && Bounded(st, |events| + n)
    ensures BehindRequest(Run(st, events)) && Bounded(Run(st, events), n)
    decreases |events|
  {
    if events != [] {
      StepKeepsBehind(st, events[0]);
      StepIsBounded(st, events[0], |events| - 1 + n);
      RunIsBounded(Step(st, events[0]), events[1..], n);
    }
  }

  lemma StepMovesRequestOn(st: State, e: Event)
    requires st.WellFormed() && Bounded(st, 1)
    ensures Step(st, e).request >= st.request
  {
    hide GoBack, Cleanup;
  }

  lemma {:induction false} RunMovesRequestOn(st: State, events: seq<Event>)
    requires BehindRequest(st) && Bounded(st, |events|)
    ensures Run(st, events).request >= st.request
    decreases |events|
  {
    if events != [] {
      StepMovesRequestOn(st, events[0]);
      StepKeepsBehind(st, events[0]);
      StepIsBounded(st, events[0], |events| - 1);
      RunMovesRequestOn(Step(st, events[0]), events[1..]);
    }
  }

  /** A chunk that is held stays held exactly until the request position is a lap ahead of it. */
  lemma {:induction false} HeldUntilLapped(st: State, events: seq<Event>, c: nat)
    requires Inv(st) && Bounded(st, |events|) && LeadThroughout(st, events) && Holds(st, c)
    ensures Holds(Run(st, events), c) <==> Run(st, events).request < c + st.size
    decreases |events|
  {
    if events == [] {
      assert SlotInLap(st, c % st.size);
    } else {
      var st1 := Step(st, events[0]);
      StepKeepsLap(st, events[0]);
      StepIsBounded(st, events[0], |events| - 1);
      if st1.request < c + st.size {
        StepKeepsHeld(st, events[0], c);
        HeldUntilLapped(st1, events[1..], c);
      } else {
        RunMovesRequestOn(st1, events[1..]);
        RunKeepsLap(st1, events[1..]);
        assert SlotInLap(Run(st, events), c % st.size);
      }
    }
  }

  /** The chain from a connecting client to what its partners get. */
  lemma {:induction false} ClientRunServesExactChunks(size: nat, limit: int, first: nat, events: seq<Event>, q: nat,
                                                      partner: bool)
    requires size > 0 && first + size + |events| <= 0x1_0000_0000 * size
    requires LeadThroughout(Connected(size, limit, first), events)
    ensures var st := Run(Connected(size, limit, first), events);
            && (Serve(st, q, partner).Data? <==> partner && Holds(st, q))
            && (Serve(st, q, partner).Data? ==> Serve(st, q, partner).packet.chunk == q)
            && (Serve(st, q, partner) == ChunkUnavailable <==> partner && !Holds(st, q))
            && (Serve(st, q, partner) == NoPartnership <==> !partner)
  {
    ConnectedIsInLap(size, limit, first);
    RunKeepsLap(Connected(size, limit, first), events);
    ServesExactChunk(Run(Connected(size, limit, first), events), q, partner);
  }
}
