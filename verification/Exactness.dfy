/** When the answers of a client are the requested chunks, and when they will stay so.
  *
  * The lap invariant is one way to be safe. This module gives the exact condition, for any state a client can
  * get into: after resets of its request position, with lapped requests, with stale slots.
  */
module Exactness {
  import opened Arith
  import opened Options
  import opened ChunkIds
  import opened Pipeline
  import opened LapSafety

  /** Every stored chunk sits in its own slot and not beyond the tip. No step ever breaks this. */
  ghost predicate InPlace(st: State) {
    st.WellFormed() &&
    forall s :: 0 <= s < st.size && st.slots[s].packet.Some? ==>
      st.slots[s].packet.value.chunk % st.size == s && st.slots[s].packet.value.chunk <= st.tip
  }

  lemma StepKeepsPlaces(st: State, e: Event)
    requires InPlace(st)
    ensures InPlace(Step(st, e))
  {
    hide GoBack, Succ, Cleanup;
  }

  lemma {:induction false} RunKeepsPlaces(st: State, events: seq<Event>)
    requires InPlace(st)
    ensures InPlace(Run(st, events))
    decreases |events|
  {
    if events != [] {
      StepKeepsPlaces(st, events[0]);
      RunKeepsPlaces(Step(st, events[0]), events[1..]);
    }
  }

  /** Every available chunk is less than a lap behind the tip. */
  ghost predicate Recent(st: State)
    requires st.WellFormed()
  {
    forall s :: 0 <= s < st.size && st.slots[s].Ready() ==> st.tip < st.slots[s].packet.value.chunk + st.size
  }

  lemma InvIsInPlace(st: State)
    requires Inv(st)
    ensures InPlace(st) && Recent(st)
    ensures forall s :: 0 <= s < st.size && st.slots[s].Ready() ==>
              st.request < st.slots[s].packet.value.chunk + st.size
  {
    forall s | 0 <= s < st.size && st.slots[s].packet.Some?
      ensures var c := st.slots[s].packet.value.chunk;
              && c % st.size == s && c <= st.tip
              && (st.slots[s].available ==> st.request < c + st.size && st.tip < c + st.size)
    {
      assert SlotInLap(st, s);
    }
  }

  /** Whatever a partner asks for, data in the answer is the chunk asked for. */
  ghost predicate AnswersExact(st: State)
    requires st.WellFormed()
  {
    forall q: nat :: Serve(st, q, true).Data? ==> Serve(st, q, true).packet.chunk == q
  }

  /** The index at which a partner is given the chunk of a slot that is a lap or more behind the tip. */
  lemma StaleIsServed(st: State, s: nat) returns (q: nat)
    requires InPlace(st) && s < st.size && st.slots[s].Ready()
    requires st.slots[s].packet.value.chunk + st.size <= st.tip
    ensures Serve(st, q, true) == Data(st.slots[s].packet.value) && st.slots[s].packet.value.chunk < q
  {
    var c := st.slots[s].packet.value.chunk;
    var laps, rest := (st.tip - c) / st.size, (st.tip - c) % st.size;
    q := st.tip - rest;
    assert q == c + laps * st.size;
    ModShift(c, laps, st.size);
  }

  /** Answers are exact exactly when every available chunk is less than a lap behind the tip. */
  lemma ExactAnswers(st: State)
    requires InPlace(st)
    ensures AnswersExact(st) <==> Recent(st)
  {
    if Recent(st) {
      forall q: nat | Serve(st, q, true).Data?
        ensures Serve(st, q, true).packet.chunk == q
      {
        CongruentAndClose(st.slots[q % st.size].packet.value.chunk, q, st.size);
      }
    } else {
      var s :| 0 <= s < st.size && st.slots[s].Ready() && st.tip >= st.slots[s].packet.value.chunk + st.size;
      var q := StaleIsServed(st, s);
      assert Serve(st, q, true).packet.chunk != q;
    }
  }

  // ---------- Runs, and what can still happen ----------

  /** The slot of chunk `r` remembers a later chunk, so that an answer for `r` is taken for late. */
  predicate RemembersLater(st: State, r: nat)
    requires st.WellFormed()
  {
    st.slots[r % st.size].packet.Some? && st.slots[r % st.size].packet.value.chunk > r
  }

  /** An answer counts as a duplicate or late exactly when its slot remembers a later chunk or offers it already. */
  lemma NotLate(st: State, r: nat)
    requires InPlace(st)
    ensures AlreadyReceived(st, r) <==> RemembersLater(st, r) || Holds(st, r)
  {
    var slot, B := st.slots[r % st.size], st.size;
    if slot.packet.Some? {
      assert slot.packet.value.chunk % B == r % B;
      hide InPlace;
      SplitOrder(r, slot.packet.value.chunk, B);
    } else {
      hide InPlace;
      assert r / B >= 0;
    }
  }

  /** No lapped request is answered, and the cycle counter of the request position does not run out. */
  predicate CalmStep(st: State, e: Event)
    requires st.WellFormed()
  {
    && st.request + 1 < 0x1_0000_0000 * st.size
    && (e.Receive? && Answered(st, e.packet, e.source, e.partner) ==> st.request < e.packet.chunk + st.size)
  }

  /** The data message is accepted as the answer to an outstanding request. */
  predicate Answered(st: State, packet: Packet, source: string, partner: bool)
    requires st.WellFormed()
  {
    var i := FindRequest(st.requests, packet.chunk);
    partner && !AlreadyReceived(st, packet.chunk) && i < |st.requests| && source in st.requests[i].attempts
  }

  ghost predicate CalmRun(st: State, events: seq<Event>)
    requires st.WellFormed()
    decreases |events|
  {
    events == [] || (CalmStep(st, events[0]) && CalmRun(Step(st, events[0]), events[1..]))
  }

  /** What every run from connecting on keeps, resets and lapped requests included. */
  ghost predicate Orderly(st: State) {
    && InPlace(st) && Increasing(st.requests)
    && forall i :: 0 <= i < |st.requests| ==> st.requests[i].chunk < st.request && st.requests[i].ttl <= REQUEST_TTL
  }

  /** A request that was asked, is about to be, or will be when it times out. */
  predicate Answerable(r: Req, limit: int) {
    r.attempts != [] || r.ttl == REQUEST_TTL || limit > 0
  }

  /** A request that can still be answered in a calm run. */
  predicate Pending(st: State, r: Req) {
    Answerable(r, st.limit) && st.request < r.chunk + st.size
  }

  /** An available chunk a lap or more behind the request position. */
  predicate Stale(st: State, s: nat)
    requires st.WellFormed()
  {
    s < st.size && st.slots[s].Ready() && st.slots[s].packet.value.chunk + st.size <= st.request
  }

  /** An answer for chunk `r` does no harm: it is taken for late if it is a lap behind the tip, and it raises the
    * tip a lap past no stale chunk but the one it replaces. */
  ghost predicate Harmless(st: State, r: nat)
    requires st.WellFormed()
  {
    && (r + st.size <= st.tip ==> RemembersLater(st, r))
    && forall s: nat :: Stale(st, s) && s != r % st.size ==> r < st.slots[s].packet.value.chunk + st.size
  }

  /** The answers are exact, what may still be answered is harmless, what will be requested again will be taken
    * for late if it is a lap behind the tip, and the next placement clears the only stale slot. (A ring of
    * one never receives anything, and a ring of two clears its other slot in time.) */
  ghost predicate Sound(st: State)
    requires st.WellFormed()
  {
    && Recent(st)
    && (st.size >= 2 ==> forall r: nat :: st.request <= r && r + st.size <= st.tip ==> RemembersLater(st, r))
    && (forall i :: 0 <= i < |st.requests| && Pending(st, st.requests[i]) ==> Harmless(st, st.requests[i].chunk))
    && (st.size >= 3 ==> forall s: nat :: Stale(st, s) ==> s == (st.request + 1) % st.size)
  }

  // ---------- Every step keeps order ----------

  lemma {:induction false} CleanupKeepsTtl(requests: seq<Req>, limit: int, buffered: nat)
    requires forall i :: 0 <= i < |requests| ==> requests[i].ttl <= REQUEST_TTL
    ensures forall i :: 0 <= i < |Cleanup(requests, limit, buffered)| ==>
              Cleanup(requests, limit, buffered)[i].ttl <= REQUEST_TTL
  {
    if requests != [] {
      CleanupKeepsTtl(requests[..|requests| - 1], limit, buffered);
    }
  }

  lemma PassKeepsOrderly(st: State, ask: nat -> Option<string>, buffered: nat)
    requires Orderly(st)
    ensures Orderly(PassRequests(st, ask, buffered, STEP_IN_MS))
  {
    var st' := PassRequests(st, ask, buffered, STEP_IN_MS);
    var known := (c: nat) => c < st.request;
    CleanupKeepsTtl(st.requests, st.limit, buffered);
    CleanupKeepsOrder(st.requests, st.limit, buffered);
    PassKeepsChunks(st, ask, buffered, STEP_IN_MS, known);
    hide Cleanup;
    forall i | 0 <= i < |st'.requests|
      ensures st'.requests[i].chunk < st'.request && st'.requests[i].ttl <= REQUEST_TTL
    {
      assert known(st'.requests[i].chunk);
    }
  }

  /** One request fewer. */
  lemma ClosingKeepsOrder(requests: seq<Req>, i: nat)
    requires Increasing(requests) && i < |requests|
    ensures var rest := requests[..i] + requests[i + 1..];
            && Increasing(rest)
            && forall r :: r in rest ==> r in requests
  {
    var rest := requests[..i] + requests[i + 1..];
    assert forall k :: 0 <= k < i ==> rest[k] == requests[k];
    assert forall k :: i <= k < |rest| ==> rest[k] == requests[k + 1];
  }

  /** Data leaves the requests or closes one of them. */
  lemma ReceiveKeepsOrder(st: State, packet: Packet, source: string, partner: bool)
    requires st.WellFormed() && Increasing(st.requests)
    ensures var st' := ReceiveData(st, packet, source, partner);
            && Increasing(st'.requests) && st'.request == st.request
            && forall r :: r in st'.requests ==> r in st.requests
  {
    hide Increasing, AlreadyReceived, FindRequest;
    var i := FindRequest(st.requests, packet.chunk);
    if i < |st.requests| {
      ClosingKeepsOrder(st.requests, i);
    }
  }

  /** The player leaves the requests or drops them all. */
  lemma PlayKeepsOrder(st: State, offset: nat, enabled: bool, written: bool)
    requires st.WellFormed() && Increasing(st.requests)
    ensures var st' := FeedPlayer(st, offset, enabled, written).0;
            Increasing(st'.requests) && st'.request == st.request && st'.requests in [[], st.requests]
  {
    hide GoBack, Succ;
  }

  lemma PlaceKeepsOrderly(st: State, found: bool)
    requires Orderly(st) && st.request + 1 < 0x1_0000_0000 * st.size
    ensures Orderly(PlaceRequest(st, found))
  {
    StepKeepsPlaces(st, Place(found));
    hide InPlace;
  }

  lemma StepKeepsOrderly(st: State, e: Event)
    requires Orderly(st) && (e.Place? ==> st.request + 1 < 0x1_0000_0000 * st.size)
    ensures Orderly(Step(st, e))
  {
    match e
    case Place(found) => PlaceKeepsOrderly(st, found);
    case Pass(ask, buffered) => PassKeepsOrderly(st, ask, buffered);
    case Receive(packet, source, partner) =>
      StepKeepsPlaces(st, e);
      ReceiveKeepsOrder(st, packet, source, partner);
      hide InPlace, Increasing, ReceiveData;
    case Play(offset, enabled, written) =>
      StepKeepsPlaces(st, e);
      PlayKeepsOrder(st, offset, enabled, written);
      hide InPlace, Increasing, FeedPlayer;
  }

  lemma {:induction false} RunKeepsOrderly(st: State, events: seq<Event>)
    requires Orderly(st) && st.request + |events| < 0x1_0000_0000 * st.size
    ensures Orderly(Run(st, events))
    decreases |events|
  {
    if events != [] {
      StepKeepsOrderly(st, events[0]);
      StepMovesRequest(st, events[0]);
      hide Orderly, Step;
      RunKeepsOrderly(Step(st, events[0]), events[1..]);
    }
  }

  lemma StepMovesRequest(st: State, e: Event)
    requires st.WellFormed() && st.request + 1 < 0x1_0000_0000 * st.size
    ensures Step(st, e).request <= st.request + 1
  {
    hide GoBack, Cleanup, AlreadyReceived;
  }

  /** A client gets into order when it connects, and stays in it whatever happens. */
  lemma {:induction false} ClientRunIsOrderly(size: nat, limit: int, first: nat, events: seq<Event>)
    requires size > 0 && first + |events| < 0x1_0000_0000 * size
    ensures Orderly(Run(Connected(size, limit, first), events))
  {
    assert Orderly(Connected(size, limit, first));
    RunKeepsOrderly(Connected(size, limit, first), events);
  }

  // ---------- Every calm step keeps soundness ----------

  lemma PlaceKeepsStale(st: State, s: nat)
    requires Orderly(st) && Sound(st) && st.request + 1 < 0x1_0000_0000 * st.size && Stale(PlaceRequest(st, true), s)
    ensures st.size == 2 && s == st.request % 2
  {
    var B, c := st.size, st.slots[s].packet.value.chunk;
    ModStep(st.request, B);
    assert s != (st.request + 1) % B;
    if c + B == st.request + 1 {
      ModShift(c, 1, B);
    } else {
      assert Stale(st, s);
    }
  }

  lemma PlacedIsHarmless(st: State, r: nat)
    requires Orderly(st) && Sound(st) && st.request + 1 < 0x1_0000_0000 * st.size
    requires r <= st.request && st.request + 1 < r + st.size && (r < st.request ==> Harmless(st, r))
    ensures Harmless(PlaceRequest(st, true), r)
  {
    var st' := PlaceRequest(st, true);
    assert RemembersLater(st, r) ==> RemembersLater(st', r);
    forall s: nat | Stale(st', s)
      ensures s == r % st.size
    {
      PlaceKeepsStale(st, s);
    }
  }

  lemma PlaceKeepsSound(st: State)
    requires Orderly(st) && Sound(st) && st.request + 1 < 0x1_0000_0000 * st.size
    ensures Sound(PlaceRequest(st, true))
  {
    var st' := PlaceRequest(st, true);
    assert forall r: nat :: RemembersLater(st, r) ==> RemembersLater(st', r);
    forall s: nat | Stale(st', s)
      ensures st.size == 2
    {
      PlaceKeepsStale(st, s);
    }
    forall i | 0 <= i < |st'.requests| && Pending(st', st'.requests[i])
      ensures Harmless(st', st'.requests[i].chunk)
    {
      assert i < |st.requests| ==> Pending(st, st.requests[i]);
      PlacedIsHarmless(st, st'.requests[i].chunk);
    }
    hide Harmless, InPlace;
  }

  /** The new tip is less than a lap past what is available. */
  lemma AcceptedIsRecent(st: State, packet: Packet, i: nat)
    requires Orderly(st) && Recent(st) && i < |st.requests| && st.requests[i].chunk == packet.chunk
    requires Harmless(st, packet.chunk) && !RemembersLater(st, packet.chunk) && st.request < packet.chunk + st.size
    ensures Recent(Accept(st, packet, i))
    ensures forall s: nat :: Stale(Accept(st, packet, i), s) ==> Stale(st, s) && s != packet.chunk % st.size
  {
    var st', r := Accept(st, packet, i), packet.chunk;
    forall s | 0 <= s < st.size && st'.slots[s].Ready()
      ensures st'.tip < st'.slots[s].packet.value.chunk + st.size
      ensures Stale(st', s) ==> Stale(st, s) && s != r % st.size
    {
      if s != r % st.size && !Stale(st, s) {
        assert st.request < st.slots[s].packet.value.chunk + st.size;
      }
    }
  }

  /** What remains pending, or will be requested again, is as harmless as before. */
  lemma AcceptKeepsHarmless(st: State, packet: Packet, i: nat, x: nat)
    requires Orderly(st) && Recent(st) && i < |st.requests| && st.requests[i].chunk == packet.chunk
    requires Harmless(st, packet.chunk) && !RemembersLater(st, packet.chunk) && st.request < packet.chunk + st.size
    requires st.request < x + st.size && (x + st.size <= st.tip ==> RemembersLater(st, x))
    ensures x + st.size <= Accept(st, packet, i).tip ==> RemembersLater(Accept(st, packet, i), x)
  {
    var st', r := Accept(st, packet, i), packet.chunk;
    if x + st.size <= st'.tip {
      assert x + st.size <= st.tip;
      if x % st.size == r % st.size {
        assert st.slots[r % st.size].packet.value.chunk <= r;
      }
    }
  }

  lemma AcceptKeepsSound(st: State, packet: Packet, i: nat)
    requires Orderly(st) && Sound(st) && i < |st.requests| && st.requests[i].chunk == packet.chunk
    requires Pending(st, st.requests[i]) && !AlreadyReceived(st, packet.chunk)
    ensures Sound(Accept(st, packet, i))
  {
    var st' := Accept(st, packet, i);
    NotLate(st, packet.chunk);
    AcceptedIsRecent(st, packet, i);
    assert st'.tip < st'.request + st'.size;
    forall j | 0 <= j < |st'.requests| && Pending(st', st'.requests[j])
      ensures Harmless(st', st'.requests[j].chunk)
    {
      var j' := if j < i then j else j + 1;
      assert st'.requests[j] == st.requests[j'];
      assert Pending(st, st.requests[j']);
      AcceptKeepsHarmless(st, packet, i, st.requests[j'].chunk);
      hide Recent, InPlace;
    }
  }

  /** A pass makes no request answerable that was not. */
  lemma PassKeepsAnswerable(r: Req, limit: int, buffered: nat, ask: nat -> Option<string>, x: Req)
    requires r.ttl <= REQUEST_TTL && Refresh(r, limit, buffered) == [x]
    ensures x.chunk == r.chunk && (Answerable(Ask(x, ask, STEP_IN_MS), limit) ==> Answerable(r, limit))
  {}

  /** Every answerable request of the list is for a chunk in `ok`. */
  ghost predicate AllOk(requests: seq<Req>, limit: int, ok: nat -> bool) {
    forall i :: 0 <= i < |requests| && Answerable(requests[i], limit) ==> ok(requests[i].chunk)
  }

  ghost predicate OkWhenAsked(x: Req, ask: nat -> Option<string>, limit: int, ok: nat -> bool) {
    Answerable(Ask(x, ask, STEP_IN_MS), limit) ==> ok(x.chunk)
  }

  lemma {:induction false} CleanupKeepsOk(requests: seq<Req>, limit: int, buffered: nat, ask: nat -> Option<string>,
                                          ok: nat -> bool)
    requires AllOk(requests, limit, ok) && forall i :: 0 <= i < |requests| ==> requests[i].ttl <= REQUEST_TTL
    ensures forall i :: 0 <= i < |Cleanup(requests, limit, buffered)| ==>
              OkWhenAsked(Cleanup(requests, limit, buffered)[i], ask, limit, ok)
  {
    if requests != [] {
      var last := |requests| - 1;
      CleanupKeepsOk(requests[..last], limit, buffered, ask, ok);
      var kept := Refresh(requests[last], limit, buffered);
      if kept != [] {
        assert kept == [kept[0]];
        PassKeepsAnswerable(requests[last], limit, buffered, ask, kept[0]);
      }
    }
  }

  lemma PassKeepsSound(st: State, ask: nat -> Option<string>, buffered: nat)
    requires Orderly(st) && Sound(st)
    ensures Sound(PassRequests(st, ask, buffered, STEP_IN_MS))
  {
    var st' := PassRequests(st, ask, buffered, STEP_IN_MS);
    var ok := (c: nat) => st.request < c + st.size ==> Harmless(st, c);
    assert AllOk(st.requests, st.limit, ok) by {
      forall i | 0 <= i < |st.requests| && Answerable(st.requests[i], st.limit)
        ensures ok(st.requests[i].chunk)
      {
        assert Pending(st, st.requests[i]) || st.request >= st.requests[i].chunk + st.size;
      }
    }
    CleanupKeepsOk(st.requests, st.limit, buffered, ask, ok);
    SameBufferIsSound(st, st', ok);
  }

  /** Soundness only looks at the buffer, the tip, the request position, and what is pending. */
  lemma SameBufferIsSound(st: State, st': State, ok: nat -> bool)
    requires st.WellFormed() && Sound(st) && st'.size == st.size && st'.slots == st.slots && st'.tip == st.tip
    requires st'.request == st.request && st'.limit == st.limit && AllOk(st'.requests, st.limit, ok)
    requires forall c: nat :: ok(c) && st.request < c + st.size ==> Harmless(st, c)
    ensures Sound(st')
  {
    assert forall r: nat :: RemembersLater(st, r) <==> RemembersLater(st', r);
    assert forall s: nat :: Stale(st, s) <==> Stale(st', s);
    assert forall c: nat :: Harmless(st, c) ==> Harmless(st', c);
    hide Harmless;
  }

  lemma PlayKeepsSound(st: State, offset: nat, enabled: bool, written: bool)
    requires Orderly(st) && Sound(st)
    ensures Sound(FeedPlayer(st, offset, enabled, written).0)
  {
    var st' := FeedPlayer(st, offset, enabled, written).0;
    assert st.WellFormed();
    var ok := (c: nat) => st.request < c + st.size ==> Harmless(st, c);
    hide GoBack, Succ;
    assert st'.requests == st.requests || st'.requests == [];
    assert forall i :: 0 <= i < |st.requests| && Answerable(st.requests[i], st.limit) ==>
                         ok(st.requests[i].chunk) || !Pending(st, st.requests[i]);
    hide FeedPlayer;
    SameBufferIsSound(st, st', ok);
  }

  lemma StepKeepsSound(st: State, e: Event)
    requires Orderly(st) && Sound(st) && CalmStep(st, e)
    ensures Sound(Step(st, e))
  {
    match e
    case Place(found) =>
      if found {
        PlaceKeepsSound(st);
      }
    case Pass(ask, buffered) => PassKeepsSound(st, ask, buffered);
    case Receive(packet, source, partner) =>
      if Answered(st, packet, source, partner) {
        var i := FindRequest(st.requests, packet.chunk);
        assert Pending(st, st.requests[i]);
        AcceptKeepsSound(st, packet, i);
      }
    case Play(offset, enabled, written) => PlayKeepsSound(st, offset, enabled, written);
  }

  /** From a sound state every calm run keeps the answers exact, and ends in a sound state. */
  lemma {:induction false} SoundRunIsExact(st: State, events: seq<Event>)
    requires Orderly(st) && Sound(st) && CalmRun(st, events)
    ensures Orderly(Run(st, events)) && Sound(Run(st, events)) && AnswersExact(Run(st, events))
    decreases |events|
  {
    if events == [] {
      ExactAnswers(st);
    } else {
      StepKeepsOrderly(st, events[0]);
      StepKeepsSound(st, events[0]);
      hide Orderly, Sound, CalmStep, Step;
      SoundRunIsExact(Step(st, events[0]), events[1..]);
    }
  }

  /** The tip's cycle counter does not run out either: accepted chunks lie behind the request position. */
  lemma {:induction false} CalmTipIsCountable(st: State, events: seq<Event>)
    requires Orderly(st) && st.tip < 0x1_0000_0000 * st.size && CalmRun(st, events)
    ensures Run(st, events).tip < 0x1_0000_0000 * st.size
    decreases |events|
  {
    if events != [] {
      StepKeepsOrderly(st, events[0]);
      TipStep(st, events[0]);
      hide Orderly, CalmStep, Step;
      CalmTipIsCountable(Step(st, events[0]), events[1..]);
    }
  }

  lemma TipStep(st: State, e: Event)
    requires Orderly(st) && st.tip < 0x1_0000_0000 * st.size && CalmStep(st, e)
    ensures Step(st, e).tip < 0x1_0000_0000 * st.size
  {
    hide GoBack, Cleanup, InPlace;
  }

  // ---------- Steps to anywhere ----------

  const ASK: nat -> Option<string> := (c: nat) => Some("p")

  function Blank(c: nat): Packet {
    Packet(c, 0, 0, 0, 0, [])
  }

  lemma {:induction false} CalmAppend(st: State, a: seq<Event>, b: seq<Event>)
    requires st.WellFormed() && CalmRun(st, a) && CalmRun(Run(st, a), b)
    ensures CalmRun(st, a + b) && Run(st, a + b) == Run(Run(st, a), b)
    decreases |a|
  {
    if a == [] {
      assert a + b == b;
    } else {
      assert (a + b)[0] == a[0] && (a + b)[1..] == a[1..] + b;
      CalmAppend(Step(st, a[0]), a[1..], b);
    }
  }

  lemma OneStep(st: State, e: Event)
    requires st.WellFormed() && CalmStep(st, e)
    ensures CalmRun(st, [e]) && Run(st, [e]) == Step(st, e)
  {
    assert [e][1..] == [];
  }

  /** Passes in which every partner has every chunk. */
  function Passes(n: nat): (events: seq<Event>)
    ensures |events| == n
  {
    if n == 0 then [] else [Pass(ASK, 0)] + Passes(n - 1)
  }

  function Passed(st: State): State {
    PassRequests(st, ASK, 0, STEP_IN_MS)
  }

  lemma OnePass(st: State, n: nat)
    requires st.WellFormed() && n > 0 && st.request + 1 < 0x1_0000_0000 * st.size && CalmRun(Passed(st), Passes(n - 1))
    ensures CalmRun(st, Passes(n)) && Run(st, Passes(n)) == Run(Passed(st), Passes(n - 1))
  {
    assert Passes(n)[0] == Pass(ASK, 0) && Passes(n)[1..] == Passes(n - 1);
  }

  /** The passes a request has left at most: what remains of this try, and of the tries after it. */
  function PassesLeft(r: Req, limit: int): nat {
    102 * Max(0, limit - |r.attempts|) + Max(0, (r.ttl + STEP_IN_MS - 1) / STEP_IN_MS)
  }

  lemma PassShortens(r: Req, limit: int, x: Req)
    requires Refresh(r, limit, 0) == [x] && r.ttl <= REQUEST_TTL
    ensures PassesLeft(Ask(x, ASK, STEP_IN_MS), limit) < PassesLeft(r, limit)
  {
    assert Ask(x, ASK, STEP_IN_MS).ttl == x.ttl - 5;
    if r.ttl > 0 {
      assert x == r;
    } else {
      assert GivesUp(r, limit, 0) <==> |r.attempts| >= limit by {
        GivesUpAtLimit(r, limit, 0);
      }
    }
  }

  ghost predicate AllLeft(requests: seq<Req>, limit: int, n: int) {
    forall i :: 0 <= i < |requests| ==> PassesLeft(requests[i], limit) <= n && requests[i].ttl <= REQUEST_TTL
  }

  ghost predicate LeftWhenAsked(x: Req, limit: int, n: int) {
    PassesLeft(Ask(x, ASK, STEP_IN_MS), limit) <= n
  }

  lemma {:induction false} CleanupShortens(requests: seq<Req>, limit: int, n: int)
    requires AllLeft(requests, limit, n)
    ensures forall i :: 0 <= i < |Cleanup(requests, limit, 0)| ==>
              LeftWhenAsked(Cleanup(requests, limit, 0)[i], limit, n - 1)
  {
    if requests != [] {
      var last := |requests| - 1;
      CleanupShortens(requests[..last], limit, n);
      var kept := Refresh(requests[last], limit, 0);
      if kept != [] {
        assert kept == [kept[0]];
        PassShortens(requests[last], limit, kept[0]);
      }
      hide PassesLeft;
    }
  }

  lemma PassedLeft(st: State, n: int)
    requires Orderly(st) && AllLeft(st.requests, st.limit, n)
    ensures AllLeft(Passed(st).requests, st.limit, n - 1)
  {
    CleanupShortens(st.requests, st.limit, n);
    PassKeepsOrderly(st, ASK, 0);
    hide PassesLeft, Cleanup;
    forall i | 0 <= i < |Passed(st).requests|
      ensures PassesLeft(Passed(st).requests[i], st.limit) <= n - 1
    {
      assert LeftWhenAsked(Cleanup(st.requests, st.limit, 0)[i], st.limit, n - 1);
    }
  }

  lemma {:induction false} SomeLeft(requests: seq<Req>, limit: int) returns (n: nat)
    requires forall i :: 0 <= i < |requests| ==> requests[i].ttl <= REQUEST_TTL
    ensures AllLeft(requests, limit, n)
  {
    n := 0;
    if requests != [] {
      var m := SomeLeft(requests[1..], limit);
      n := Max(m, PassesLeft(requests[0], limit));
      assert AllLeft(requests[1..], limit, m);
      forall i | 0 <= i < |requests|
        ensures PassesLeft(requests[i], limit) <= n
      {
        if i > 0 {
          assert requests[1..][i - 1] == requests[i];
        }
      }
    }
  }

  lemma {:induction false} PassesDrop(st: State, n: nat)
    requires Orderly(st) && st.request + 1 < 0x1_0000_0000 * st.size && AllLeft(st.requests, st.limit, n - 1)
    ensures CalmRun(st, Passes(n)) && Run(st, Passes(n)) == st.(requests := [])
    decreases n
  {
    if n == 0 {
      assert st.requests == [];
    } else {
      PassKeepsOrderly(st, ASK, 0);
      PassedLeft(st, n - 1);
      PassesDrop(Passed(st), n - 1);
      hide Cleanup, PassesLeft;
      OnePass(st, n);
    }
  }

  /** Enough passes drop every request, and change nothing else. */
  lemma DropAll(st: State) returns (events: seq<Event>)
    requires Orderly(st) && st.request + 1 < 0x1_0000_0000 * st.size
    ensures CalmRun(st, events) && Run(st, events) == st.(requests := [])
  {
    var n := SomeLeft(st.requests, st.limit);
    PassesDrop(st, n + 1);
    events := Passes(n + 1);
  }

  /** Requesting one chunk and giving up on it: the request position moves on by one, and all that happens to the
    * buffer is that one slot is cleared. */
  lemma SkipOne(st: State) returns (events: seq<Event>)
    requires Orderly(st) && st.requests == [] && st.request + 2 < 0x1_0000_0000 * st.size
    ensures CalmRun(st, events)
    ensures var pos := (st.request + 1) % st.size;
            Run(st, events)
            == st.(request := st.request + 1, slots := st.slots[pos := st.slots[pos].(available := false)])
  {
    var placed := PlaceRequest(st, true);
    OneStep(st, Place(true));
    StepKeepsOrderly(st, Place(true));
    var drop := DropAll(placed);
    hide CalmRun, Run;
    CalmAppend(st, [Place(true)], drop);
    events := [Place(true)] + drop;
  }

  /** The same until the request position has reached `r`. */
  lemma {:induction false} SkipTo(st: State, r: nat) returns (events: seq<Event>)
    requires Orderly(st) && st.requests == [] && st.request <= r && r + 1 < 0x1_0000_0000 * st.size
    ensures CalmRun(st, events)
    ensures var st' := Run(st, events);
            && Orderly(st') && st'.request == r && st'.requests == [] && st'.tip == st.tip && st'.limit == st.limit
            && (forall s :: 0 <= s < st.size ==>
                  && st'.slots[s].packet == st.slots[s].packet
                  && (st'.slots[s].available ==> st.slots[s].available))
    decreases r - st.request
  {
    events := [];
    if st.request < r {
      var first := SkipOne(st);
      var st1 := Run(st, first);
      RunKeepsPlaces(st, first);
      hide CalmRun, Run;
      var rest := SkipTo(st1, r);
      CalmAppend(st, first, rest);
      events := first + rest;
    }
  }

  /** A request that was asked can be answered. */
  lemma AnswerOne(st: State, i: nat) returns (e: Event)
    requires Orderly(st) && i < |st.requests| && st.requests[i].attempts != []
    requires st.request + 1 < 0x1_0000_0000 * st.size && st.request < st.requests[i].chunk + st.size
    requires !AlreadyReceived(st, st.requests[i].chunk)
    ensures CalmStep(st, e) && Step(st, e) == Accept(st, Blank(st.requests[i].chunk), i)
  {
    var r := st.requests[i];
    e := Receive(Blank(r.chunk), r.attempts[0], true);
    assert FindRequest(st.requests, r.chunk) == i;
  }

  /** The request that `r` becomes by a pass stays in the list. */
  lemma {:induction false} CleanupKeepsMember(requests: seq<Req>, limit: int, i: nat, x: Req) returns (k: nat)
    requires i < |requests| && Refresh(requests[i], limit, 0) == [x]
    ensures k < |Cleanup(requests, limit, 0)| && Cleanup(requests, limit, 0)[k] == x
  {
    var last := |requests| - 1;
    if i < last {
      k := CleanupKeepsMember(requests[..last], limit, i, x);
    } else {
      k := |Cleanup(requests[..last], limit, 0)|;
    }
  }

  /** Passes until an answerable request has been asked. */
  lemma {:induction false} PassesAsk(st: State, i: nat) returns (events: seq<Event>, k: nat)
    requires Orderly(st) && i < |st.requests| && Answerable(st.requests[i], st.limit)
    requires st.request + 1 < 0x1_0000_0000 * st.size
    ensures CalmRun(st, events)
    ensures var st' := Run(st, events);
            && Orderly(st') && st' == st.(requests := st'.requests) && k < |st'.requests|
            && st'.requests[k].chunk == st.requests[i].chunk && st'.requests[k].attempts != []
    decreases Max(0, st.requests[i].ttl)
  {
    var r := st.requests[i];
    if r.attempts != [] {
      events, k := [], i;
    } else {
      var x := if r.ttl > 0 then r else r.(ttl := REQUEST_TTL);
      GivesUpAtLimit(r, st.limit, 0);
      assert Refresh(r, st.limit, 0) == [x];
      k := CleanupKeepsMember(st.requests, st.limit, i, x);
      PassKeepsOrderly(st, ASK, 0);
      assert Passed(st).requests[k] == Ask(x, ASK, STEP_IN_MS);
      OneStep(st, Pass(ASK, 0));
      events := [Pass(ASK, 0)];
      if x.ttl != REQUEST_TTL {
        hide CalmRun, Run, Cleanup;
        var rest, k' := PassesAsk(Passed(st), k);
        CalmAppend(st, [Pass(ASK, 0)], rest);
        events, k := [Pass(ASK, 0)] + rest, k';
      }
    }
  }

  /** A pending request that is not taken for late can be answered by a calm run, before which only the request list
    * changes. */
  lemma AnswerPending(st: State, i: nat) returns (events: seq<Event>)
    requires Orderly(st) && i < |st.requests| && Pending(st, st.requests[i])
    requires st.request + 1 < 0x1_0000_0000 * st.size && !AlreadyReceived(st, st.requests[i].chunk)
    ensures CalmRun(st, events)
    ensures var st', r := Run(st, events), st.requests[i].chunk;
            && InPlace(st') && st'.size == st.size && st'.tip == Max(st.tip, r)
            && st'.slots[r % st.size].Ready() && st'.slots[r % st.size].packet.value.chunk == r
            && (forall s: nat :: s < st.size && s != r % st.size ==> st'.slots[s] == st.slots[s])
  {
    var ask, k := PassesAsk(st, i);
    var st1, r := Run(st, ask), st.requests[i].chunk;
    assert !AlreadyReceived(st1, r);
    hide AlreadyReceived;
    var e := AnswerOne(st1, k);
    OneStep(st1, e);
    StepKeepsPlaces(st1, e);
    hide CalmRun, Run, CalmStep, Step;
    CalmAppend(st, ask, [e]);
    events := ask + [e];
  }

  /** Requesting one chunk and getting it. */
  lemma FetchOne(st: State) returns (events: seq<Event>)
    requires Orderly(st) && st.size >= 2 && st.requests == [] && st.request + 2 < 0x1_0000_0000 * st.size
    requires !AlreadyReceived(st, st.request)
    ensures CalmRun(st, events)
    ensures var st', r := Run(st, events), st.request;
            && InPlace(st') && st'.size == st.size && st'.tip == Max(st.tip, r)
            && st'.slots[r % st.size].Ready() && st'.slots[r % st.size].packet.value.chunk == r
            && (forall s: nat :: s < st.size && s != r % st.size && s != (r + 1) % st.size ==>
                  st'.slots[s] == st.slots[s])
  {
    var placed, r := PlaceRequest(st, true), st.request;
    OneStep(st, Place(true));
    StepKeepsOrderly(st, Place(true));
    ModStep(r, st.size);
    assert placed.slots[r % st.size] == st.slots[r % st.size];
    assert !AlreadyReceived(placed, r);
    hide AlreadyReceived, CalmRun, Run;
    var answer := AnswerPending(placed, 0);
    CalmAppend(st, [Place(true)], answer);
    events := [Place(true)] + answer;
  }

  // ---------- What is not sound goes wrong ----------

  lemma NotRecentIsWrong(st: State, s: nat)
    requires InPlace(st) && s < st.size && st.slots[s].Ready() && st.slots[s].packet.value.chunk + st.size <= st.tip
    ensures !AnswersExact(st)
  {
    ExactAnswers(st);
  }

  /** A pending request that is not harmless. */
  lemma PendingGoesWrong(st: State, i: nat) returns (events: seq<Event>)
    requires Orderly(st) && Recent(st) && st.request + 1 < 0x1_0000_0000 * st.size
    requires i < |st.requests| && Pending(st, st.requests[i]) && !Harmless(st, st.requests[i].chunk)
    ensures CalmRun(st, events) && !AnswersExact(Run(st, events))
  {
    var r := st.requests[i].chunk;
    NotLate(st, r);
    assert !AlreadyReceived(st, r);
    hide AlreadyReceived;
    events := AnswerPending(st, i);
    var st' := Run(st, events);
    if r + st.size <= st.tip && !RemembersLater(st, r) {
      NotRecentIsWrong(st', r % st.size);
    } else {
      var s: nat :| Stale(st, s) && s != r % st.size && r >= st.slots[s].packet.value.chunk + st.size;
      assert st'.slots[s] == st.slots[s];
      NotRecentIsWrong(st', s);
    }
  }

  /** A chunk that will be requested again although it is a lap behind the tip, into a slot that remembers no
    * later one. */
  lemma OldChunkGoesWrong(st: State, r: nat) returns (events: seq<Event>)
    requires Orderly(st) && Recent(st) && st.size >= 2 && st.tip < 0x1_0000_0000 * st.size
    requires st.request <= r && r + st.size <= st.tip && !RemembersLater(st, r)
    ensures CalmRun(st, events) && !AnswersExact(Run(st, events))
  {
    var drop := DropAll(st);
    var st0 := Run(st, drop);
    var skip := SkipTo(st0, r);
    var st1 := Run(st0, skip);
    NotLate(st1, r);
    assert st1.slots[r % st.size].packet == st.slots[r % st.size].packet;
    assert !AlreadyReceived(st1, r);
    hide AlreadyReceived;
    var fetch := FetchOne(st1);
    NotRecentIsWrong(Run(st1, fetch), r % st.size);
    hide CalmRun, Run, AnswersExact;
    CalmAppend(st, drop, skip);
    CalmAppend(st, drop + skip, fetch);
    events := drop + skip + fetch;
  }

  lemma ThreeSlots(r: nat, size: nat)
    requires size >= 3
    ensures r % size != (r + 1) % size && r % size != (r + 2) % size && (r + 1) % size != (r + 2) % size
  {
    ModStep(r, size);
    ModStep(r + 1, size);
  }

  /** A stale slot that neither the next request nor its placement touches. */
  lemma FarStaleGoesWrong(st: State, s: nat) returns (events: seq<Event>)
    requires Orderly(st) && st.size >= 2 && st.requests == [] && st.request + 2 < 0x1_0000_0000 * st.size
    requires Stale(st, s) && s != st.request % st.size && s != (st.request + 1) % st.size && st.tip < st.request
    ensures CalmRun(st, events) && !AnswersExact(Run(st, events))
  {
    NotLate(st, st.request);
    hide AlreadyReceived;
    events := FetchOne(st);
    assert Run(st, events).slots[s] == st.slots[s];
    NotRecentIsWrong(Run(st, events), s);
  }

  /** One chunk further on, a stale slot at the request position is out of the way. */
  lemma SkippedStale(st: State, s: nat)
    requires Orderly(st) && Recent(st) && st.size >= 3 && st.request + 1 < 0x1_0000_0000 * st.size
    requires Stale(st, s) && s == st.request % st.size && st.requests == []
    ensures var next := st.request + 1;
            var pos := next % st.size;
            var st2 := st.(request := next, slots := st.slots[pos := st.slots[pos].(available := false)]);
            && st2.WellFormed() && Orderly(st2) && Stale(st2, s)
            && s != next % st.size && s != (next + 1) % st.size && st2.tip < next
  {
    PlaceKeepsOrderly(st, true);
    ThreeSlots(st.request, st.size);
  }

  /** A stale slot at the request position. */
  lemma NearStaleGoesWrong(st: State, s: nat) returns (events: seq<Event>)
    requires Orderly(st) && Recent(st) && st.size >= 3 && st.request + 3 < 0x1_0000_0000 * st.size
    requires Stale(st, s) && s == st.request % st.size && st.requests == []
    ensures CalmRun(st, events) && !AnswersExact(Run(st, events))
  {
    assert st.WellFormed();
    hide Orderly, Recent, Stale, CalmRun, Run, AnswersExact;
    SkippedStale(st, s);
    var skip := SkipOne(st);
    var st2 := Run(st, skip);
    assert Orderly(st2) && Stale(st2, s) && st2.tip < st2.request && st2.requests == [];
    assert s != st2.request % st2.size && s != (st2.request + 1) % st2.size;
    var rest := FarStaleGoesWrong(st2, s);
    CalmAppend(st, skip, rest);
    events := skip + rest;
  }

  /** Dropping the requests leaves the stale slots. */
  lemma DroppedStale(st: State, s: nat)
    requires Orderly(st) && Recent(st) && Stale(st, s)
    ensures var st1 := st.(requests := []);
            Orderly(st1) && Recent(st1) && Stale(st1, s) && st1.tip < st1.request
  {}

  /** Any stale slot but the one the next placement clears. */
  lemma StaleGoesWrong(st: State, s: nat) returns (events: seq<Event>)
    requires Orderly(st) && Recent(st) && st.size >= 3 && st.request + 3 < 0x1_0000_0000 * st.size
    requires Stale(st, s) && s != (st.request + 1) % st.size
    ensures CalmRun(st, events) && !AnswersExact(Run(st, events))
  {
    assert st.WellFormed();
    hide Orderly, Recent, Stale, CalmRun, Run, AnswersExact;
    DroppedStale(st, s);
    var drop := DropAll(st);
    var st1, rest := Run(st, drop), [];
    if s == st.request % st.size {
      rest := NearStaleGoesWrong(st1, s);
    } else {
      rest := FarStaleGoesWrong(st1, s);
    }
    CalmAppend(st, drop, rest);
    events := drop + rest;
  }

  lemma UnsoundGoesWrong(st: State) returns (events: seq<Event>)
    requires Orderly(st) && !Sound(st)
    requires st.request + 3 < 0x1_0000_0000 * st.size && st.tip < 0x1_0000_0000 * st.size
    ensures CalmRun(st, events) && !AnswersExact(Run(st, events))
  {
    if !Recent(st) {
      ExactAnswers(st);
      events := [];
    } else if i :| 0 <= i < |st.requests| && Pending(st, st.requests[i]) && !Harmless(st, st.requests[i].chunk) {
      events := PendingGoesWrong(st, i);
    } else if s: nat :| st.size >= 3 && Stale(st, s) && s != (st.request + 1) % st.size {
      events := StaleGoesWrong(st, s);
    } else {
      var r: nat :| st.request <= r && r + st.size <= st.tip && !RemembersLater(st, r);
      events := OldChunkGoesWrong(st, r);
    }
  }

  /** The exact condition, for every state a client can get into: all answers are the requested chunks, now and in
    * every later run in which no lapped request is answered, if and only if the state is sound. */
  lemma ExactForeverWhenSound(st: State)
    requires Orderly(st) && st.request + 3 < 0x1_0000_0000 * st.size && st.tip < 0x1_0000_0000 * st.size
    ensures Sound(st) <==>
              forall events: seq<Event> :: CalmRun(st, events) ==> AnswersExact(Run(st, events))
  {
    if Sound(st) {
      forall events: seq<Event> | CalmRun(st, events)
        ensures AnswersExact(Run(st, events))
      {
        SoundRunIsExact(st, events);
      }
    } else {
      var events := UnsoundGoesWrong(st);
    }
  }

  /** The lap invariant is sound, with no requirement on its requests: lapped ones do no harm until they are
    * answered. */
  lemma InvIsSound(st: State)
    requires Inv(st)
    ensures Sound(st)
  {
    InvIsInPlace(st);
    assert forall s: nat :: s < st.size ==> !Stale(st, s);
  }
}
