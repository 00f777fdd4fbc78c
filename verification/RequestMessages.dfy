/** What the request messages of a client say, and that their answers are the awaited ones. */
module RequestMessages {
  import opened Arith
  import opened Options
  import opened Pipeline
  import opened LapSafety

  /** A request message: the chunk asked for, the sender's playback position, and whom it goes to. */
  datatype SentRequest = SentRequest(chunk: nat, playback: nat, to: string)

  function SentFor(r: Req, ask: nat -> Option<string>, playback: nat): seq<SentRequest> {
    if r.ttl == REQUEST_TTL && ask(r.chunk).Some? then [SentRequest(r.chunk, playback, ask(r.chunk).value)] else []
  }

  /** The messages of a pass: one for each (re)started request that finds a partner, in order. */
  function SentForAll(requests: seq<Req>, ask: nat -> Option<string>, playback: nat): seq<SentRequest> {
    if requests == [] then []
    else
      var last := |requests| - 1;
      SentForAll(requests[..last], ask, playback) + SentFor(requests[last], ask, playback)
  }

  lemma NoneSent(requests: seq<Req>, ask: nat -> Option<string>, playback: nat)
    ensures SentForAll(requests[..0], ask, playback) == []
  {}

  lemma SentForOneMore(requests: seq<Req>, done: nat, ask: nat -> Option<string>, playback: nat)
    requires done < |requests|
    ensures SentForAll(requests[..done + 1], ask, playback)
            == SentForAll(requests[..done], ask, playback) + SentFor(requests[done], ask, playback)
  {
    assert requests[..done + 1][..done] == requests[..done];
  }

  /** The message asks the partner that was tried last for the request's chunk. */
  predicate MessageFor(m: SentRequest, r: Req, playback: nat) {
    r.attempts != [] && m.to == r.attempts[|r.attempts| - 1] && m.chunk == r.chunk && m.playback == playback
  }

  ghost predicate InOrder(ix: seq<nat>) {
    forall k, l :: 0 <= k < l < |ix| ==> ix[k] < ix[l]
  }

  /** The messages are for the requests at these places. */
  ghost predicate MessagesFor(ix: seq<nat>, sent: seq<SentRequest>, after: seq<Req>, playback: nat) {
    |ix| == |sent| && forall k :: 0 <= k < |ix| ==> ix[k] < |after| && MessageFor(sent[k], after[ix[k]], playback)
  }

  /** These are the places of the requests that were tried once more. */
  ghost predicate TriedAt(ix: seq<nat>, kept: seq<Req>, after: seq<Req>)
    requires |after| == |kept|
  {
    && (forall k :: 0 <= k < |ix| ==> ix[k] < |kept|)
    && forall i :: 0 <= i < |kept| ==> (i in ix <==> |after[i].attempts| == |kept[i].attempts| + 1)
  }

  /** The messages are, in order, one for each request that was tried once more. */
  ghost predicate IsOutbox(sent: seq<SentRequest>, kept: seq<Req>, after: seq<Req>, playback: nat) {
    |after| == |kept| && exists ix: seq<nat> ::
      InOrder(ix) && MessagesFor(ix, sent, after, playback) && TriedAt(ix, kept, after)
  }

  lemma {:induction false} SentIsOutbox(kept: seq<Req>, ask: nat -> Option<string>, step: int, playback: nat)
    returns (ix: seq<nat>)
    ensures InOrder(ix) && TriedAt(ix, kept, AskAll(kept, ask, step))
    ensures MessagesFor(ix, SentForAll(kept, ask, playback), AskAll(kept, ask, step), playback)
  {
    if kept == [] {
      ix := [];
    } else {
      var last := |kept| - 1;
      var front := SentIsOutbox(kept[..last], ask, step, playback);
      var sent, more := SentForAll(kept[..last], ask, playback), SentFor(kept[last], ask, playback);
      var after := AskAll(kept, ask, step);
      assert AskAll(kept[..last], ask, step) == after[..last];
      assert after[last] == Ask(kept[last], ask, step);
      assert SentForAll(kept, ask, playback) == sent + more;
      MessagesGrow(front, sent, after, playback);
      if more == [] {
        ix := front;
        TriedSkip(front, kept, after);
        assert sent + more == sent;
      } else {
        ix := front + [last];
        TriedNext(front, kept, after);
        MessagesNext(front, sent, after, playback, more[0]);
        assert more == [more[0]];
      }
    }
  }

  lemma MessagesGrow(ix: seq<nat>, sent: seq<SentRequest>, after: seq<Req>, playback: nat)
    requires after != [] && MessagesFor(ix, sent, after[..|after| - 1], playback)
    ensures MessagesFor(ix, sent, after, playback)
  {
    hide MessageFor;
  }

  lemma MessagesNext(ix: seq<nat>, sent: seq<SentRequest>, after: seq<Req>, playback: nat, m: SentRequest)
    requires after != [] && MessagesFor(ix, sent, after, playback) && MessageFor(m, after[|after| - 1], playback)
    ensures MessagesFor(ix + [|after| - 1], sent + [m], after, playback)
  {
    hide MessageFor;
  }

  lemma TriedSkip(ix: seq<nat>, kept: seq<Req>, after: seq<Req>)
    requires kept != [] && |after| == |kept| && TriedAt(ix, kept[..|kept| - 1], after[..|kept| - 1])
    requires |after[|kept| - 1].attempts| != |kept[|kept| - 1].attempts| + 1
    ensures TriedAt(ix, kept, after)
  {
    assert |kept| - 1 !in ix;
  }

  lemma TriedNext(ix: seq<nat>, kept: seq<Req>, after: seq<Req>)
    requires kept != [] && |after| == |kept| && TriedAt(ix, kept[..|kept| - 1], after[..|kept| - 1]) && InOrder(ix)
    requires |after[|kept| - 1].attempts| == |kept[|kept| - 1].attempts| + 1
    ensures TriedAt(ix + [|kept| - 1], kept, after) && InOrder(ix + [|kept| - 1])
  {
    assert forall i: nat :: i in ix + [|kept| - 1] <==> i in ix || i == |kept| - 1;
  }

  lemma SentMakesOutbox(kept: seq<Req>, ask: nat -> Option<string>, step: int, playback: nat)
    ensures IsOutbox(SentForAll(kept, ask, playback), kept, AskAll(kept, ask, step), playback)
  {
    var ix := SentIsOutbox(kept, ask, step, playback);
  }

  // ---------- What a pass does to each request ----------

  /** What becomes of a request that stays: a timed-out one starts again, a (re)started one is tried once more if some
    * partner has its chunk, and each ages by the step. */
  predicate Continues(r: Req, r': Req, ask: nat -> Option<string>, step: int) {
    && r'.chunk == r.chunk
    && r'.ttl == (if r.ttl > 0 then r.ttl else 500) - step
    && r'.attempts == r.attempts + if (r.ttl <= 0 || r.ttl == 500) && ask(r.chunk).Some? then [ask(r.chunk).value]
                                   else []
  }

  /** The requests at these places go on as these. */
  ghost predicate ContinueAs(ix: seq<nat>, before: seq<Req>, after: seq<Req>, ask: nat -> Option<string>, step: int) {
    |ix| == |after| && forall k :: 0 <= k < |ix| ==> ix[k] < |before| && Continues(before[ix[k]], after[k], ask, step)
  }

  /** These are the places of the requests with time left, or tries. */
  ghost predicate StaysAt(ix: seq<nat>, before: seq<Req>, limit: int) {
    && (forall k :: 0 <= k < |ix| ==> ix[k] < |before|)
    && forall i :: 0 <= i < |before| ==> (i in ix <==> before[i].ttl > 0 || |before[i].attempts| < limit)
  }

  /** The whole effect of a pass on the requests. */
  lemma {:induction false} PassOutcome(requests: seq<Req>, limit: int, ask: nat -> Option<string>, buffered: nat,
                                       step: int) returns (ix: seq<nat>)
    ensures InOrder(ix) && StaysAt(ix, requests, limit)
    ensures ContinueAs(ix, requests, AskAll(Cleanup(requests, limit, buffered), ask, step), ask, step)
  {
    if requests == [] {
      ix := [];
    } else {
      var last := |requests| - 1;
      var front := PassOutcome(requests[..last], limit, ask, buffered, step);
      var kept, more := Cleanup(requests[..last], limit, buffered), Refresh(requests[last], limit, buffered);
      AskMore(kept, more, ask, step);
      ContinueGrow(front, requests, AskAll(kept, ask, step), ask, step);
      if more == [] {
        ix := front;
        StaysSkip(front, requests, limit);
        assert AskAll(kept, ask, step) + AskAll(more, ask, step) == AskAll(kept, ask, step);
      } else {
        ix := front + [last];
        StaysNext(front, requests, limit);
        var r := Ask(more[0], ask, step);
        assert AskAll(more, ask, step) == [r];
        ContinueNext(front, requests, AskAll(kept, ask, step), ask, step, r);
      }
    }
  }

  lemma ContinueGrow(ix: seq<nat>, before: seq<Req>, after: seq<Req>, ask: nat -> Option<string>, step: int)
    requires before != [] && ContinueAs(ix, before[..|before| - 1], after, ask, step)
    ensures ContinueAs(ix, before, after, ask, step)
  {
    hide Continues;
  }

  lemma ContinueNext(ix: seq<nat>, before: seq<Req>, after: seq<Req>, ask: nat -> Option<string>, step: int, r: Req)
    requires before != [] && ContinueAs(ix, before, after, ask, step)
    requires Continues(before[|before| - 1], r, ask, step)
    ensures ContinueAs(ix + [|before| - 1], before, after + [r], ask, step)
  {
    hide Continues;
  }

  lemma StaysSkip(ix: seq<nat>, before: seq<Req>, limit: int)
    requires before != [] && StaysAt(ix, before[..|before| - 1], limit)
    requires before[|before| - 1].ttl <= 0 && |before[|before| - 1].attempts| >= limit
    ensures StaysAt(ix, before, limit)
  {
    assert |before| - 1 !in ix;
  }

  lemma StaysNext(ix: seq<nat>, before: seq<Req>, limit: int)
    requires before != [] && StaysAt(ix, before[..|before| - 1], limit) && InOrder(ix)
    requires before[|before| - 1].ttl > 0 || |before[|before| - 1].attempts| < limit
    ensures StaysAt(ix + [|before| - 1], before, limit) && InOrder(ix + [|before| - 1])
  {
    assert forall i: nat :: i in ix + [|before| - 1] <==> i in ix || i == |before| - 1;
  }

  lemma AskMore(kept: seq<Req>, more: seq<Req>, ask: nat -> Option<string>, step: int)
    ensures AskAll(kept + more, ask, step) == AskAll(kept, ask, step) + AskAll(more, ask, step)
  {
    hide Ask;
  }

  // ---------- Messages and their answers ----------

  /** Each message of a pass belongs to a request that now waits for its addressee. */
  lemma SentIsAwaited(sent: seq<SentRequest>, kept: seq<Req>, after: seq<Req>, playback: nat, m: SentRequest)
    returns (i: nat)
    requires IsOutbox(sent, kept, after, playback) && m in sent
    ensures i < |after| && after[i].chunk == m.chunk && m.to in after[i].attempts && m.playback == playback
  {
    var ix: seq<nat> :| InOrder(ix) && MessagesFor(ix, sent, after, playback) && TriedAt(ix, kept, after);
    var k :| 0 <= k < |sent| && sent[k] == m;
    i := ix[k];
    assert MessageFor(sent[k], after[ix[k]], playback);
  }

  /** While the request for `c` is outstanding, partner `who` is one of those it was sent to. */
  ghost predicate AwaitedFrom(st: State, c: nat, who: string) {
    c < st.request && AskedOf(st.requests, c, who)
  }

  ghost predicate AskedOf(requests: seq<Req>, c: nat, who: string) {
    forall i :: 0 <= i < |requests| && requests[i].chunk == c ==> who in requests[i].attempts
  }

  lemma PassKeepsAwaited(requests: seq<Req>, limit: int, ask: nat -> Option<string>, buffered: nat, step: int, c: nat,
                         who: string)
    requires AskedOf(requests, c, who)
    ensures AskedOf(AskAll(Cleanup(requests, limit, buffered), ask, step), c, who)
  {
    var ix := PassOutcome(requests, limit, ask, buffered, step);
    hide AskAll, Cleanup;
    var after := AskAll(Cleanup(requests, limit, buffered), ask, step);
    forall k | 0 <= k < |after| && after[k].chunk == c
      ensures who in after[k].attempts
    {
      assert Continues(requests[ix[k]], after[k], ask, step);
      assert requests[ix[k]].chunk == c;
    }
  }

  lemma PassStepKeepsAwaited(st: State, ask: nat -> Option<string>, buffered: nat, c: nat, who: string)
    requires st.WellFormed() && AwaitedFrom(st, c, who)
    ensures AwaitedFrom(Step(st, Pass(ask, buffered)), c, who)
  {
    PassKeepsAwaited(st.requests, st.limit, ask, buffered, STEP_IN_MS, c, who);
  }

  lemma StepKeepsAwaited(st: State, e: Event, c: nat, who: string)
    requires BehindRequest(st) && Bounded(st, 1) && AwaitedFrom(st, c, who)
    ensures AwaitedFrom(Step(st, e), c, who)
  {
    StepMovesRequestOn(st, e);
    match e
    case Place(found) => hide BehindRequest;
    case Pass(ask, buffered) => PassStepKeepsAwaited(st, ask, buffered, c, who);
    case _ =>
      NoNewRequests(st, e);
      hide BehindRequest, Step;
      forall i | 0 <= i < |Step(st, e).requests| && Step(st, e).requests[i].chunk == c
        ensures who in Step(st, e).requests[i].attempts
      {
        assert Step(st, e).requests[i] in st.requests;
      }
  }

  lemma NoNewRequests(st: State, e: Event)
    requires st.WellFormed() && (e.Receive? || e.Play?)
    ensures forall r :: r in Step(st, e).requests ==> r in st.requests
  {
    hide AlreadyReceived, GoBack;
    if e.Receive? {
      var i := FindRequest(st.requests, e.packet.chunk);
      if i < |st.requests| {
        assert forall r :: r in st.requests[..i] + st.requests[i + 1..] ==> r in st.requests;
      }
    }
  }

  lemma {:induction false} RunKeepsAwaited(st: State, events: seq<Event>, c: nat, who: string)
    requires BehindRequest(st) && Bounded(st, |events|) && AwaitedFrom(st, c, who)
    ensures AwaitedFrom(Run(st, events), c, who)
    decreases |events|
  {
    if events != [] {
      StepKeepsAwaited(st, events[0], c, who);
      StepKeepsBehind(st, events[0]);
      StepIsBounded(st, events[0], |events| - 1);
      hide AwaitedFrom, Step, BehindRequest, Bounded;
      RunKeepsAwaited(Step(st, events[0]), events[1..], c, who);
    }
  }

  /** A request and its answer. A message is sent in a pass; meanwhile anything may happen, as long as no outstanding
    * request is lapped; a node that keeps the lap invariant answers with data. If the request is still outstanding,
    * the answer closes it and is stored, one hop and the tries further, as the very chunk that was asked for; if not,
    * it changes nothing. */
  lemma {:induction false} RequestRoundTrip(st: State, ask: nat -> Option<string>, buffered: nat,
                                            sent: seq<SentRequest>, m: SentRequest, meanwhile: seq<Event>,
                                            server: State, answer: Packet)
    requires Inv(st) && Lead(st) && Bounded(st, |meanwhile| + 1)
    requires IsOutbox(sent, Cleanup(st.requests, st.limit, buffered), Step(st, Pass(ask, buffered)).requests, st.player)
    requires m in sent && LeadThroughout(Step(st, Pass(ask, buffered)), meanwhile)
    requires Inv(server) && Serve(server, m.chunk, true) == Data(answer)
    ensures var st1 := Run(Step(st, Pass(ask, buffered)), meanwhile);
            var st2 := ReceiveData(st1, answer, m.to, true);
            if exists i :: 0 <= i < |st1.requests| && st1.requests[i].chunk == m.chunk then
              && Holds(st2, m.chunk) && (forall r :: r in st2.requests ==> r.chunk != m.chunk && r in st1.requests)
              && st2.slots[m.chunk % st1.size].packet.value.hop == (answer.hop + 1) % 256
              && st2.slots[m.chunk % st1.size].packet.value.body == answer.body
            else st2 == st1
  {
    var st0 := Step(st, Pass(ask, buffered));
    StepKeepsLap(st, Pass(ask, buffered));
    PassIsAwaited(st, ask, buffered, sent, m);
    RunKeepsLap(st0, meanwhile);
    RunKeepsAwaited(st0, meanwhile, m.chunk, m.to);
    ServesExactChunk(server, m.chunk, true);
    var st1 := Run(st0, meanwhile);
    hide Step, Run, Serve, IsOutbox, LeadThroughout;
    AwaitedIsStored(st1, answer, m.to);
  }

  lemma PassIsAwaited(st: State, ask: nat -> Option<string>, buffered: nat, sent: seq<SentRequest>, m: SentRequest)
    requires Inv(st) && Bounded(st, 1) && m in sent
    requires IsOutbox(sent, Cleanup(st.requests, st.limit, buffered), Step(st, Pass(ask, buffered)).requests, st.player)
    ensures var st0 := Step(st, Pass(ask, buffered));
            AwaitedFrom(st0, m.chunk, m.to) && BehindRequest(st0)
  {
    var st0 := Step(st, Pass(ask, buffered));
    var i := SentIsAwaited(sent, Cleanup(st.requests, st.limit, buffered), st0.requests, st.player, m);
    PassKeepsLap(st, ask, buffered, STEP_IN_MS);
    hide Cleanup, IsOutbox;
  }

  lemma AwaitedIsStored(st: State, answer: Packet, who: string)
    requires Inv(st) && Lead(st) && AwaitedFrom(st, answer.chunk, who)
    ensures var st' := ReceiveData(st, answer, who, true);
            if exists i :: 0 <= i < |st.requests| && st.requests[i].chunk == answer.chunk then
              && Holds(st', answer.chunk)
              && (forall r :: r in st'.requests ==> r.chunk != answer.chunk && r in st.requests)
              && st'.slots[answer.chunk % st.size].packet.value.hop == (answer.hop + 1) % 256
              && st'.slots[answer.chunk % st.size].packet.value.body == answer.body
            else st' == st
  {
    if i :| 0 <= i < |st.requests| && st.requests[i].chunk == answer.chunk {
      AnswerIsAccepted(st, answer, who, i);
      OthersAskOthers(st, i);
      hide ReceiveData, Inv, Lead;
    }
  }

  lemma OthersAskOthers(st: State, i: nat)
    requires Inv(st) && i < |st.requests|
    ensures forall r :: r in st.requests[..i] + st.requests[i + 1..] ==>
              r.chunk != st.requests[i].chunk && r in st.requests
  {}

  // ---------- What is requested ----------

  /** What a step adds to the requests. */
  function Queued(st: State, e: Event): seq<Req>
    requires st.WellFormed()
  {
    var requests := Step(st, e).requests;
    if |requests| > |st.requests| then requests[|st.requests|..] else []
  }

  function AllQueued(st: State, events: seq<Event>): seq<Req>
    requires st.WellFormed()
    decreases |events|
  {
    if events == [] then [] else Queued(st, events[0]) + AllQueued(Step(st, events[0]), events[1..])
  }

  /** Fresh requests for the chunks `from..to`, in order. */
  function Fresh(from: nat, to: nat): seq<Req>
    requires from <= to
  {
    seq(to - from, (i: nat) => Req(from + i, 500, []))
  }

  lemma {:induction false} CleanupDropsOnly(requests: seq<Req>, limit: int, buffered: nat)
    ensures |Cleanup(requests, limit, buffered)| <= |requests|
  {
    if requests != [] {
      CleanupDropsOnly(requests[..|requests| - 1], limit, buffered);
    }
  }

  lemma StepQueues(st: State, e: Event)
    requires BehindRequest(st) && Bounded(st, 1)
    ensures st.request <= Step(st, e).request && Queued(st, e) == Fresh(st.request, Step(st, e).request)
  {
    match e
    case Place(found) =>
      if found {
        assert Step(st, e).requests[|st.requests|..] == [Req(st.request, 500, [])];
      }
    case Pass(ask, buffered) =>
      CleanupDropsOnly(st.requests, st.limit, buffered);
    case _ => NothingQueued(st, e);
  }

  lemma NothingQueued(st: State, e: Event)
    requires st.WellFormed() && (e.Receive? || e.Play?)
    ensures |Step(st, e).requests| <= |st.requests| && Step(st, e).request == st.request
  {
    hide AlreadyReceived, GoBack;
  }

  /** Over every run, whatever is answered, lost or lapped: the chunks between the request positions are requested,
    * each once and in order, and no others are. */
  lemma {:induction false} EachChunkIsRequestedOnce(st: State, events: seq<Event>)
    requires BehindRequest(st) && Bounded(st, |events|)
    ensures st.request <= Run(st, events).request
    ensures AllQueued(st, events) == Fresh(st.request, Run(st, events).request)
    decreases |events|
  {
    if events != [] {
      StepQueues(st, events[0]);
      StepKeepsBehind(st, events[0]);
      StepIsBounded(st, events[0], |events| - 1);
      hide Step, Queued, BehindRequest, Bounded, Fresh;
      EachChunkIsRequestedOnce(Step(st, events[0]), events[1..]);
      FreshJoin(st.request, Step(st, events[0]).request, Run(st, events).request);
    }
  }

  lemma FreshJoin(a: nat, b: nat, c: nat)
    requires a <= b <= c
    ensures Fresh(a, b) + Fresh(b, c) == Fresh(a, c)
  {}

  /** A placement that finds no partner changes nothing; one that does makes exactly the chunks of the next slot
    * unavailable, and forgets none. */
  lemma PlacementClearsNextSlot(st: State, found: bool, c: nat)
    requires st.WellFormed() && Bounded(st, 1)
    ensures !found ==> PlaceRequest(st, found) == st
    ensures var st' := PlaceRequest(st, found);
            && (Holds(st', c) <==> Holds(st, c) && !(found && c % st.size == (st.request + 1) % st.size))
            && st'.slots[c % st.size].packet == st.slots[c % st.size].packet
            && (found ==> st' == st.(request := st.request + 1, requests := st'.requests, slots := st'.slots))
  {}

  /** So a client requests the chunks from the first one on, each once and in order. */
  lemma {:induction false} ClientRequestsFromFirst(size: nat, limit: int, first: nat, events: seq<Event>)
    requires size > 0 && first + size + |events| <= 0x1_0000_0000 * size
    ensures var st := Run(Connected(size, limit, first), events);
            first <= st.request && AllQueued(Connected(size, limit, first), events) == Fresh(first, st.request)
  {
    var st := Connected(size, limit, first);
    assert BehindRequest(st) && Bounded(st, |events|);
    EachChunkIsRequestedOnce(st, events);
  }
}
