/** How long a request can stay outstanding: the lap assumption of `LapSafety` is earned by the
  * timeout schedule of the request loop. */
module RequestLifetime {
  import opened Arith
  import opened Options
  import opened Pipeline
  import opened LapSafety

  const PASSES_PER_TRY: nat := 100

  function MaxTries(limit: int): (m: nat)
    ensures m >= 1
  {
    Max(1, limit)
  }

  /** The number of passes a request has been through, when every try found a partner. */
  function Age(r: Req): int {
    if r.ttl == REQUEST_TTL then PASSES_PER_TRY * |r.attempts|
    else PASSES_PER_TRY * (|r.attempts| - 1) + (REQUEST_TTL - r.ttl) / STEP_IN_MS
  }

  predicate OnSchedule(r: Req, limit: int) {
    || (r.ttl == REQUEST_TTL && |r.attempts| < MaxTries(limit))
    || (0 <= r.ttl < REQUEST_TTL && r.ttl % STEP_IN_MS == 0 && 1 <= |r.attempts| <= MaxTries(limit))
  }

  lemma AgeIsBounded(r: Req, limit: int)
    requires OnSchedule(r, limit)
    ensures 0 <= Age(r) <= PASSES_PER_TRY * MaxTries(limit)
  {}

  /** One pass makes a surviving request exactly one pass older. */
  lemma PassAgesRequest(r: Req, limit: int, buffered: nat, ask: nat -> Option<string>, x: Req)
    requires OnSchedule(r, limit) && Refresh(r, limit, buffered) == [x]
    requires x.ttl == REQUEST_TTL ==> ask(x.chunk).Some?
    ensures var y := Ask(x, ask, STEP_IN_MS);
            y.chunk == r.chunk && OnSchedule(y, limit) && Age(y) == Age(r) + 1
  {}

  /** Every (re)started request of this pass finds a partner to ask. */
  ghost predicate Answered(st: State, e: Event) {
    e.Pass? ==>
      var kept := Cleanup(st.requests, st.limit, e.buffered);
      forall i :: 0 <= i < |kept| && kept[i].ttl == REQUEST_TTL ==> e.ask(kept[i].chunk).Some?
  }

  ghost predicate AnsweredThroughout(st: State, events: seq<Event>)
    requires st.WellFormed()
    decreases |events|
  {
    events == [] || (Answered(st, events[0]) && AnsweredThroughout(Step(st, events[0]), events[1..]))
  }

  /** The request loop: at most one request is placed before each pass; `placed` says that one was
    * placed since the last pass. */
  predicate Alternating(events: seq<Event>, placed: bool)
    decreases |events|
  {
    if events == [] then true
    else match events[0]
      case Place(_) => !placed && Alternating(events[1..], true)
      case Pass(_, _) => Alternating(events[1..], false)
      case _ => Alternating(events[1..], placed)
  }

  /** On schedule, and `request` has moved past it at most once per pass (plus `slack`). */
  predicate Timely(r: Req, request: nat, limit: int, slack: int) {
    OnSchedule(r, limit) && r.chunk < request && request - r.chunk <= Age(r) + slack
  }

  predicate AllTimely(requests: seq<Req>, request: nat, limit: int, slack: int) {
    forall i :: 0 <= i < |requests| ==> Timely(requests[i], request, limit, slack)
  }

  predicate Scheduled(st: State, placed: bool) {
    AllTimely(st.requests, st.request, st.limit, if placed then 1 else 0)
  }

  /** If chunk `c` is among these requests, it has been so for at least `n` passes. */
  predicate NotYounger(requests: seq<Req>, c: nat, n: int) {
    forall i :: 0 <= i < |requests| && requests[i].chunk == c ==> Age(requests[i]) >= n
  }

  /** Chunk `c` was requested before; if it is still outstanding, it has been so for `n` passes. */
  predicate OlderThan(st: State, c: nat, n: int) {
    c < st.request && NotYounger(st.requests, c, n)
  }

  lemma ScheduledIsLead(st: State, placed: bool)
    requires Scheduled(st, placed) && PASSES_PER_TRY * MaxTries(st.limit) + 1 < st.size
    ensures Lead(st)
  {
    forall i | 0 <= i < |st.requests|
      ensures st.request < st.requests[i].chunk + st.size
    {
      AgeIsBounded(st.requests[i], st.limit);
    }
  }

  ghost predicate AllAge(kept: seq<Req>, ask: nat -> Option<string>, request: nat, limit: int, c: nat, n: int) {
    forall i :: 0 <= i < |kept| ==> Ages(kept[i], ask, request, limit, c, n)
  }

  /** What a kept request `x` becomes when it asks: one pass older, on schedule. */
  ghost predicate Ages(x: Req, ask: nat -> Option<string>, request: nat, limit: int, c: nat, n: int) {
    (x.ttl == REQUEST_TTL ==> ask(x.chunk).Some?) ==>
      var y := Ask(x, ask, STEP_IN_MS);
      Timely(y, request, limit, 0) && (y.chunk == c ==> Age(y) >= n + 1)
  }

  lemma {:induction false} CleanupAges(requests: seq<Req>, limit: int, buffered: nat, ask: nat -> Option<string>,
                                       request: nat, c: nat, n: int)
    requires AllTimely(requests, request, limit, 1) && NotYounger(requests, c, n)
    ensures AllAge(Cleanup(requests, limit, buffered), ask, request, limit, c, n)
  {
    if requests != [] {
      var last := |requests| - 1;
      var r := requests[last];
      CleanupAges(requests[..last], limit, buffered, ask, request, c, n);
      assert Timely(r, request, limit, 1);
      var kept := Refresh(r, limit, buffered);
      if kept != [] {
        assert kept == [kept[0]];
      }
      if kept != [] && (kept[0].ttl == REQUEST_TTL ==> ask(kept[0].chunk).Some?) {
        PassAgesRequest(r, limit, buffered, ask, kept[0]);
      }
    }
  }

  /** Ages across a pass. */
  lemma PassAges(st: State, ask: nat -> Option<string>, buffered: nat, c: nat, n: int)
    requires Scheduled(st, true) && Answered(st, Pass(ask, buffered))
    requires OlderThan(st, c, n)
    ensures Scheduled(PassRequests(st, ask, buffered, STEP_IN_MS), false)
    ensures OlderThan(PassRequests(st, ask, buffered, STEP_IN_MS), c, n + 1)
  {
    var kept := Cleanup(st.requests, st.limit, buffered);
    CleanupAges(st.requests, st.limit, buffered, ask, st.request, c, n);
    var asked := AskAll(kept, ask, STEP_IN_MS);
    forall i | 0 <= i < |asked|
      ensures Timely(asked[i], st.request, st.limit, 0) && (asked[i].chunk == c ==> Age(asked[i]) >= n + 1)
    {
      assert Ages(kept[i], ask, st.request, st.limit, c, n);
    }
  }

  function PlacedAfter(e: Event, placed: bool): bool {
    match e
    case Place(_) => true
    case Pass(_, _) => false
    case _ => placed
  }

  function CountPasses(events: seq<Event>): nat
    decreases |events|
  {
    if events == [] then 0 else (if events[0].Pass? then 1 else 0) + CountPasses(events[1..])
  }

  /** The cycle counter of the request position does not run out within `n` more placements. */
  predicate Countable(st: State, n: nat) {
    st.request + n < 0x1_0000_0000 * st.size
  }

  function CountPlacements(events: seq<Event>): nat
    decreases |events|
  {
    if events == [] then 0 else (if events[0].Place? then 1 else 0) + CountPlacements(events[1..])
  }

  lemma {:induction false} PlacementsAreEvents(events: seq<Event>)
    ensures CountPlacements(events) <= |events|
    decreases |events|
  {
    if events != [] {
      PlacementsAreEvents(events[1..]);
    }
  }

  lemma {:induction false} StepIsCountable(st: State, events: seq<Event>)
    requires st.WellFormed() && events != [] && Countable(st, CountPlacements(events))
    ensures Countable(Step(st, events[0]), CountPlacements(events[1..]))
  {
    hide GoBack;
  }

  lemma PlaceKeepsSchedule(st: State, found: bool, c: nat, n: int)
    requires st.WellFormed() && Scheduled(st, false) && Countable(st, 1) && OlderThan(st, c, n)
    ensures Scheduled(PlaceRequest(st, found), true) && OlderThan(PlaceRequest(st, found), c, n)
  {
    var st' := PlaceRequest(st, found);
    forall i | 0 <= i < |st'.requests|
      ensures Timely(st'.requests[i], st'.request, st.limit, 1)
    {
      if i < |st.requests| {
        assert Timely(st.requests[i], st.request, st.limit, 0);
      }
    }
  }

  /** Dropping requests keeps the others on schedule. */
  lemma FewerRequestsKeepSchedule(st: State, st': State, placed: bool, c: nat, n: int)
    requires Scheduled(st, placed) && OlderThan(st, c, n)
    requires st'.request == st.request && st'.limit == st.limit
    requires st'.requests == st.requests || st'.requests == []
             || exists k :: 0 <= k < |st.requests| && st'.requests == st.requests[..k] + st.requests[k + 1..]
    ensures Scheduled(st', placed) && OlderThan(st', c, n)
  {}

  lemma StepKeepsSchedule(st: State, e: Event, placed: bool, c: nat, n: int)
    requires st.WellFormed() && Scheduled(st, placed) && Answered(st, e) && (e.Place? ==> Countable(st, 1))
    requires e.Place? ==> !placed
    requires OlderThan(st, c, n)
    ensures Scheduled(Step(st, e), PlacedAfter(e, placed))
    ensures OlderThan(Step(st, e), c, n + if e.Pass? then 1 else 0)
  {
    match e
    case Pass(ask, buffered) => PassAges(st, ask, buffered, c, n);
    case Place(found) => PlaceKeepsSchedule(st, found, c, n);
    case Receive(packet, source, partner) =>
      assert FindRequest(st.requests, packet.chunk) <= |st.requests|;
      FewerRequestsKeepSchedule(st, Step(st, e), placed, c, n);
    case Play(_, _, _) => FewerRequestsKeepSchedule(st, Step(st, e), placed, c, n);
  }

  /** A run that starts on schedule stays on schedule, whatever the size of the ring, and chunk `c` ages with
    * each pass for as long as it is outstanding. */
  lemma {:induction false} ScheduleHolds(st: State, events: seq<Event>, placed: bool, c: nat, n: int)
    requires st.WellFormed() && Scheduled(st, placed) && OlderThan(st, c, n)
    requires Countable(st, CountPlacements(events)) && Alternating(events, placed) && AnsweredThroughout(st, events)
    ensures OlderThan(Run(st, events), c, n + CountPasses(events))
    ensures exists last :: Scheduled(Run(st, events), last)
    decreases |events|
  {
    if events == [] {
      assert Scheduled(Run(st, events), placed);
    } else {
      var e := events[0];
      StepKeepsSchedule(st, e, placed, c, n);
      StepIsCountable(st, events);
      ScheduleHolds(Step(st, e), events[1..], PlacedAfter(e, placed), c, n + if e.Pass? then 1 else 0);
    }
  }

  /** `StepKeepsSchedule` without a chunk to follow. */
  lemma EveryStepKeepsSchedule(st: State, e: Event, placed: bool)
    requires st.WellFormed() && Scheduled(st, placed) && Answered(st, e) && (e.Place? ==> Countable(st, 1))
    requires e.Place? ==> !placed
    ensures Scheduled(Step(st, e), PlacedAfter(e, placed))
  {
    if st.request > 0 {
      forall i | 0 <= i < |st.requests|
        ensures Age(st.requests[i]) >= 0
      {
        AgeIsBounded(st.requests[i], st.limit);
      }
      StepKeepsSchedule(st, e, placed, 0, 0);
    } else {
      assert |st.requests| > 0 ==> st.requests[0].chunk < 0;
    }
  }

  /** So `request` never laps an outstanding one, if the ring outlasts a request. */
  lemma {:induction false} ScheduleGivesLead(st: State, events: seq<Event>, placed: bool)
    requires st.WellFormed() && Scheduled(st, placed)
    requires Countable(st, CountPlacements(events)) && Alternating(events, placed) && AnsweredThroughout(st, events)
    requires PASSES_PER_TRY * MaxTries(st.limit) + 1 < st.size
    ensures LeadThroughout(st, events)
    decreases |events|
  {
    ScheduledIsLead(st, placed);
    if events != [] {
      var e := events[0];
      EveryStepKeepsSchedule(st, e, placed);
      StepIsCountable(st, events);
      ScheduleGivesLead(Step(st, e), events[1..], PlacedAfter(e, placed));
    }
  }

  /** The lap assumption is earned: when every try finds a partner and the ring is longer than the
    * life of a request, `request` never gets a lap ahead of an outstanding request. With the default
    * ring of 1600 chunks this covers every limit up to 15 attempts. */
  lemma {:induction false} LapIsEarned(size: nat, limit: int, first: nat, events: seq<Event>)
    requires PASSES_PER_TRY * MaxTries(limit) + 1 < size
    requires first + size + |events| <= 0x1_0000_0000 * size
    requires Alternating(events, false) && AnsweredThroughout(Connected(size, limit, first), events)
    ensures LeadThroughout(Connected(size, limit, first), events)
    ensures Inv(Run(Connected(size, limit, first), events))
  {
    var st := Connected(size, limit, first);
    ConnectedIsInLap(size, limit, first);
    PlacementsAreEvents(events);
    ScheduleGivesLead(st, events, false);
    RunKeepsLap(st, events);
  }

  /** A request is gone after `100 * max(1, limit) + 1` passes at the latest, whatever the size of the ring. */
  lemma {:induction false} RequestIsGone(st: State, events: seq<Event>, placed: bool, c: nat)
    requires st.WellFormed() && Scheduled(st, placed) && c < st.request
    requires Countable(st, CountPlacements(events)) && Alternating(events, placed) && AnsweredThroughout(st, events)
    requires CountPasses(events) >= PASSES_PER_TRY * MaxTries(st.limit) + 1
    ensures forall i :: 0 <= i < |Run(st, events).requests| ==> Run(st, events).requests[i].chunk != c
  {
    forall i | 0 <= i < |st.requests|
      ensures Age(st.requests[i]) >= 0
    {
      AgeIsBounded(st.requests[i], st.limit);
    }
    ScheduleHolds(st, events, placed, c, 0);
    var st' := Run(st, events);
    var last :| Scheduled(st', last);
    forall i | 0 <= i < |st'.requests|
      ensures st'.requests[i].chunk != c
    {
      AgeIsBounded(st'.requests[i], st'.limit);
    }
  }

  // ---------- The bound is sharp ----------

  const SOMEONE: nat -> Option<string> := (c: nat) => Some("p")

  /** `n` rounds of the request loop in which each request finds its partner. */
  function Rounds(n: nat): (events: seq<Event>)
    ensures |events| == 2 * n
  {
    if n == 0 then [] else Rounds(n - 1) + [Place(true), Pass(SOMEONE, 0)]
  }

  /** The first request stays the first for as long as it is not dropped. */
  lemma {:induction false} CleanupKeepsFirst(requests: seq<Req>, limit: int, x: Req)
    requires requests != [] && Refresh(requests[0], limit, 0) == [x]
    ensures Cleanup(requests, limit, 0) != [] && Cleanup(requests, limit, 0)[0] == x
  {
    var last := |requests| - 1;
    if last > 0 {
      CleanupKeepsFirst(requests[..last], limit, x);
    } else {
      assert requests[..last] == [];
    }
  }

  /** A request younger than its life is not dropped by a pass. */
  lemma YoungIsKept(r: Req, limit: int) returns (x: Req)
    requires OnSchedule(r, limit) && Age(r) < PASSES_PER_TRY * MaxTries(limit)
    ensures Refresh(r, limit, 0) == [x]
  {
    GivesUpAtLimit(r, limit, 0);
    x := if r.ttl > 0 then r else r.(ttl := REQUEST_TTL);
  }

  /** The state after `n` rounds: the first request is `n` passes old, and the position `n` chunks further. */
  ghost predicate AfterRounds(st: State, first: nat, n: nat) {
    && st.WellFormed() && st.request == first + n
    && (n > 0 ==> st.requests != [] && st.requests[0].chunk == first && OnSchedule(st.requests[0], st.limit)
                  && Age(st.requests[0]) == n)
    && (n == 0 ==> st.requests == [])
  }

  lemma OneRound(st: State, first: nat, n: nat)
    requires AfterRounds(st, first, n) && n < PASSES_PER_TRY * MaxTries(st.limit)
    requires first + n + 1 < 0x1_0000_0000 * st.size
    ensures AfterRounds(Step(Step(st, Place(true)), Pass(SOMEONE, 0)), first, n + 1)
  {
    var placed := Step(st, Place(true));
    var r := placed.requests[0];
    assert r.chunk == first && OnSchedule(r, st.limit) && Age(r) == n;
    var x := YoungIsKept(r, st.limit);
    CleanupKeepsFirst(placed.requests, st.limit, x);
    PassAgesRequest(r, st.limit, 0, SOMEONE, x);
    var passed := Step(placed, Pass(SOMEONE, 0));
    assert passed.requests[0] == Ask(x, SOMEONE, STEP_IN_MS);
  }

  lemma {:induction false} RunSnoc2(st: State, a: seq<Event>, e: Event, f: Event)
    requires st.WellFormed()
    ensures Run(st, a + [e, f]) == Step(Step(Run(st, a), e), f)
  {
    hide Step;
    RunSnoc(st, a, e);
    RunSnoc(st, a + [e], f);
    assert a + [e] + [f] == a + [e, f];
  }

  lemma {:induction false} RoundsAge(size: nat, limit: int, first: nat, n: nat)
    requires size > 0 && n <= PASSES_PER_TRY * MaxTries(limit) && first + n < 0x1_0000_0000 * size
    ensures AfterRounds(Run(Connected(size, limit, first), Rounds(n)), first, n)
  {
    var st := Connected(size, limit, first);
    if n > 0 {
      RoundsAge(size, limit, first, n - 1);
      RunSnoc2(st, Rounds(n - 1), Place(true), Pass(SOMEONE, 0));
      hide AfterRounds, Step, Run;
      OneRound(Run(st, Rounds(n - 1)), first, n - 1);
    }
  }

  /** Rounds, and one placement more, are punctual. */
  lemma {:induction false} RoundsArePunctual(st: State, n: nat, rest: seq<Event>)
    requires st.WellFormed() && (rest == [] || rest == [Place(true)])
    ensures Alternating(Rounds(n) + rest, false) && AnsweredThroughout(st, Rounds(n) + rest)
  {
    AlternatingRounds(n, rest);
    AlwaysAnswered(st, Rounds(n) + rest);
  }

  lemma {:induction false} AlternatingRounds(n: nat, rest: seq<Event>)
    requires Alternating(rest, false)
    ensures Alternating(Rounds(n) + rest, false)
    ensures (forall i :: 0 <= i < |rest| && rest[i].Pass? ==> rest[i].ask == SOMEONE) ==>
              forall i :: 0 <= i < |Rounds(n) + rest| && (Rounds(n) + rest)[i].Pass? ==>
                (Rounds(n) + rest)[i].ask == SOMEONE
  {
    if n == 0 {
      assert Rounds(n) + rest == rest;
    } else {
      var more := [Place(true), Pass(SOMEONE, 0)] + rest;
      assert more[1..][1..] == rest;
      assert Rounds(n) + rest == Rounds(n - 1) + more;
      AlternatingRounds(n - 1, more);
    }
  }

  lemma {:induction false} AlwaysAnswered(st: State, events: seq<Event>)
    requires st.WellFormed()
    requires forall i :: 0 <= i < |events| && events[i].Pass? ==> events[i].ask == SOMEONE
    ensures AnsweredThroughout(st, events)
    decreases |events|
  {
    if events != [] {
      hide Step, Cleanup;
      AlwaysAnswered(Step(st, events[0]), events[1..]);
    }
  }

  lemma {:induction false} LeadLostAtEnd(st: State, events: seq<Event>)
    requires st.WellFormed() && !Lead(Run(st, events))
    ensures !LeadThroughout(st, events)
    decreases |events|
  {
    if events != [] {
      hide Step, Lead;
      LeadLostAtEnd(Step(st, events[0]), events[1..]);
    }
  }

  lemma {:induction false} RunSnoc(st: State, a: seq<Event>, e: Event)
    requires st.WellFormed()
    ensures Run(st, a + [e]) == Step(Run(st, a), e)
    decreases |a|
  {
    if a == [] {
      assert a + [e] == [e] && [e][1..] == [];
    } else {
      assert (a + [e])[0] == a[0] && (a + [e])[1..] == a[1..] + [e];
      RunSnoc(Step(st, a[0]), a[1..], e);
    }
  }

  /** With a ring that does not outlast a request, some punctual run laps one: `size - 1` rounds, and one placement. */
  lemma LapIsLost(size: nat, limit: int, first: nat) returns (events: seq<Event>)
    requires 0 < size <= PASSES_PER_TRY * MaxTries(limit) + 1
    requires first + 3 * size <= 0x1_0000_0000 * size
    ensures first + size + |events| <= 0x1_0000_0000 * size
    ensures Alternating(events, false) && AnsweredThroughout(Connected(size, limit, first), events)
    ensures !LeadThroughout(Connected(size, limit, first), events)
  {
    var st, n := Connected(size, limit, first), size - 1;
    events := Rounds(n) + [Place(true)];
    RoundsArePunctual(st, n, [Place(true)]);
    RoundsAge(size, limit, first, n);
    RunSnoc(st, Rounds(n), Place(true));
    var st1 := Run(st, Rounds(n));
    assert Step(st1, Place(true)).request == first + size;
    assert Step(st1, Place(true)).requests[0].chunk == first;
    hide Run, Connected, Rounds;
    LeadLostAtEnd(st, events);
  }

  /** So the bound of `LapIsEarned` is exact. */
  lemma LapIsEarnedExactly(size: nat, limit: int, first: nat)
    requires size > 0 && first + 3 * size <= 0x1_0000_0000 * size
    ensures PASSES_PER_TRY * MaxTries(limit) + 1 < size <==>
              forall events: seq<Event> ::
                && first + size + |events| <= 0x1_0000_0000 * size
                && Alternating(events, false) && AnsweredThroughout(Connected(size, limit, first), events) ==>
                  LeadThroughout(Connected(size, limit, first), events)
  {
    if PASSES_PER_TRY * MaxTries(limit) + 1 < size {
      forall events: seq<Event> | first + size + |events| <= 0x1_0000_0000 * size
                                  && Alternating(events, false)
                                  && AnsweredThroughout(Connected(size, limit, first), events)
        ensures LeadThroughout(Connected(size, limit, first), events)
      {
        LapIsEarned(size, limit, first, events);
      }
    } else {
      var events := LapIsLost(size, limit, first);
    }
  }

  // ---------- Without any assumption on the partners ----------

  predicate FewTries(r: Req, limit: int) {
    r.ttl <= REQUEST_TTL && |r.attempts| <= MaxTries(limit) && (r.ttl == REQUEST_TTL ==> |r.attempts| < MaxTries(limit))
  }

  predicate AllFewTries(requests: seq<Req>, limit: int) {
    forall i :: 0 <= i < |requests| ==> FewTries(requests[i], limit)
  }

  lemma {:induction false} CleanupKeepsFewTries(requests: seq<Req>, limit: int, buffered: nat)
    requires AllFewTries(requests, limit)
    ensures AllFewTries(Cleanup(requests, limit, buffered), limit)
  {
    if requests != [] {
      CleanupKeepsFewTries(requests[..|requests| - 1], limit, buffered);
    }
  }

  /** Whatever the partners do, no request makes more than `max(1, limit)` attempts. */
  lemma {:induction false} NoRequestTriesTooOften(st: State, events: seq<Event>)
    requires st.WellFormed() && AllFewTries(st.requests, st.limit)
    ensures AllFewTries(Run(st, events).requests, st.limit)
    decreases |events|
  {
    if events != [] {
      var e := events[0];
      if e.Pass? {
        CleanupKeepsFewTries(st.requests, st.limit, e.buffered);
      }
      NoRequestTriesTooOften(Step(st, e), events[1..]);
    }
  }
}
