/** A whole swarm: sources, clients and the messages between them.
  *
  * Data messages are never taken off the wire, so a run may delay, reorder, repeat or lose them at will.
  */
module Swarms {
  import opened ChunkIds
  import opened Pipeline
  import opened LapSafety
  import opened Exactness
  import opened RequestLifetime
  import opened PlayerRuns

  /** All nodes use rings of one size: a chunk id on the wire names the same chunk everywhere. */
  datatype Swarm = Swarm(size: nat, nodes: seq<State>, wire: seq<Packet>) {
    ghost predicate WellFormed() {
      forall i :: 0 <= i < |nodes| ==> nodes[i].WellFormed() && nodes[i].size == size
    }
  }

  datatype SwarmEvent =
    | Local(i: nat, e: Event)
    | Produce(i: nat, packet: Packet, interArrival: nat)
    | Answer(i: nat, q: nat, partner: bool)
    | Arrive(i: nat, k: nat, source: string, partner: bool)

  /** The stream: the body that was sampled for each chunk. */
  type Stream = nat -> seq<nat>

  /** Chunks arrive only from the wire, and are produced only from the stream. */
  predicate Enabled(w: Swarm, ev: SwarmEvent, stream: Stream) {
    && ev.i < |w.nodes|
    && match ev
       case Local(i, e) => !e.Receive?
       case Produce(i, packet, _) => packet.chunk == w.nodes[i].tip && packet.body == stream(packet.chunk)
       case Answer(_, _, _) => true
       case Arrive(_, k, _, _) => k < |w.wire|
  }

  function Happens(w: Swarm, ev: SwarmEvent, stream: Stream): (w': Swarm)
    requires w.WellFormed() && Enabled(w, ev, stream)
    ensures w'.WellFormed() && |w'.nodes| == |w.nodes| && w'.size == w.size
  {
    match ev
    case Local(i, e) => w.(nodes := w.nodes[i := Step(w.nodes[i], e)])
    case Produce(i, packet, interArrival) => w.(nodes := w.nodes[i := Generate(w.nodes[i], packet, interArrival)])
    case Answer(i, q, partner) =>
      (match Serve(w.nodes[i], q, partner)
       case Data(packet) => w.(wire := w.wire + [packet])
       case _ => w)
    case Arrive(i, k, source, partner) =>
      w.(nodes := w.nodes[i := Step(w.nodes[i], Receive(w.wire[k], source, partner))])
  }

  ghost predicate EnabledThroughout(w: Swarm, evs: seq<SwarmEvent>, stream: Stream)
    requires w.WellFormed()
    decreases |evs|
  {
    evs == [] || (Enabled(w, evs[0], stream) && EnabledThroughout(Happens(w, evs[0], stream), evs[1..], stream))
  }

  function After(w: Swarm, evs: seq<SwarmEvent>, stream: Stream): (w': Swarm)
    requires w.WellFormed() && EnabledThroughout(w, evs, stream)
    ensures w'.WellFormed() && |w'.nodes| == |w.nodes| && w'.size == w.size
    decreases |evs|
  {
    if evs == [] then w else After(Happens(w, evs[0], stream), evs[1..], stream)
  }

  // ---------- No body is ever attached to another chunk's index ----------

  predicate Genuine(packet: Packet, stream: Stream) {
    packet.body == stream(packet.chunk)
  }

  ghost predicate GenuineNode(st: State, stream: Stream) {
    forall s :: 0 <= s < |st.slots| && st.slots[s].packet.Some? ==> Genuine(st.slots[s].packet.value, stream)
  }

  ghost predicate GenuineSwarm(w: Swarm, stream: Stream) {
    && w.WellFormed()
    && (forall i :: 0 <= i < |w.nodes| ==> GenuineNode(w.nodes[i], stream))
    && (forall k :: 0 <= k < |w.wire| ==> Genuine(w.wire[k], stream))
  }

  lemma ReceiveStaysGenuine(st: State, packet: Packet, source: string, partner: bool, stream: Stream)
    requires st.WellFormed() && GenuineNode(st, stream) && Genuine(packet, stream)
    ensures GenuineNode(ReceiveData(st, packet, source, partner), stream)
  {}

  lemma LocalStaysGenuine(st: State, e: Event, stream: Stream)
    requires st.WellFormed() && GenuineNode(st, stream) && !e.Receive?
    ensures GenuineNode(Step(st, e), stream)
  {
    hide Succ, GoBack, AskAll, Cleanup;
  }

  lemma ProduceStaysGenuine(st: State, packet: Packet, interArrival: nat, stream: Stream)
    requires st.WellFormed() && GenuineNode(st, stream) && packet.chunk == st.tip && Genuine(packet, stream)
    ensures GenuineNode(Generate(st, packet, interArrival), stream)
  {}

  lemma EventStaysGenuine(w: Swarm, ev: SwarmEvent, stream: Stream)
    requires GenuineSwarm(w, stream) && Enabled(w, ev, stream)
    ensures GenuineSwarm(Happens(w, ev, stream), stream)
  {
    hide GenuineNode, Step, Generate;
    match ev
    case Local(i, e) => LocalStaysGenuine(w.nodes[i], e, stream);
    case Produce(i, packet, interArrival) => ProduceStaysGenuine(w.nodes[i], packet, interArrival, stream);
    case Answer(i, q, partner) => AnswerIsGenuine(w.nodes[i], q, partner, stream);
    case Arrive(i, k, source, partner) =>
      ReceiveStaysGenuine(w.nodes[i], w.wire[k], source, partner, stream);
      ReceiveIsStep(w.nodes[i], w.wire[k], source, partner);
  }

  lemma ReceiveIsStep(st: State, packet: Packet, source: string, partner: bool)
    requires st.WellFormed()
    ensures Step(st, Receive(packet, source, partner)) == ReceiveData(st, packet, source, partner)
  {}

  lemma AnswerIsGenuine(st: State, q: nat, partner: bool, stream: Stream)
    requires st.WellFormed() && GenuineNode(st, stream)
    ensures Serve(st, q, partner).Data? ==> Genuine(Serve(st, q, partner).packet, stream)
  {}

  /** In every run of every swarm, each stored and each sent chunk carries the body sampled for it. */
  lemma {:induction false} SwarmStaysGenuine(w: Swarm, evs: seq<SwarmEvent>, stream: Stream)
    requires GenuineSwarm(w, stream) && EnabledThroughout(w, evs, stream)
    ensures GenuineSwarm(After(w, evs, stream), stream)
    decreases |evs|
  {
    if evs != [] {
      EventStaysGenuine(w, evs[0], stream);
      SwarmStaysGenuine(Happens(w, evs[0], stream), evs[1..], stream);
    }
  }

  // ---------- What one node sees of a run ----------

  function SeenBy(w: Swarm, ev: SwarmEvent, n: nat): seq<Event> {
    match ev
    case Local(i, e) => if i == n then [e] else []
    case Arrive(i, k, source, partner) =>
      if i == n && k < |w.wire| then [Receive(w.wire[k], source, partner)] else []
    case _ => []
  }

  function Projected(w: Swarm, evs: seq<SwarmEvent>, stream: Stream, n: nat): seq<Event>
    requires w.WellFormed() && EnabledThroughout(w, evs, stream)
    decreases |evs|
  {
    if evs == [] then []
    else SeenBy(w, evs[0], n) + Projected(Happens(w, evs[0], stream), evs[1..], stream, n)
  }

  predicate NeverProduces(evs: seq<SwarmEvent>, n: nat) {
    forall k :: 0 <= k < |evs| && evs[k].Produce? ==> evs[k].i != n
  }

  /** A node that is not a source goes through a run of the client machine. */
  lemma {:induction false} ProjectionIsRun(w: Swarm, evs: seq<SwarmEvent>, stream: Stream, n: nat)
    requires w.WellFormed() && EnabledThroughout(w, evs, stream) && n < |w.nodes| && NeverProduces(evs, n)
    ensures After(w, evs, stream).nodes[n] == Run(w.nodes[n], Projected(w, evs, stream, n))
    decreases |evs|
  {
    if evs != [] {
      var w', rest := Happens(w, evs[0], stream), evs[1..];
      assert NeverProduces(rest, n) by {
        assert forall k :: 0 <= k < |rest| ==> rest[k] == evs[k + 1];
      }
      ProjectionIsRun(w', rest, stream, n);
      EventIsSeen(w, evs[0], stream, n);
      var later := Projected(w', rest, stream, n);
      var seen := SeenBy(w, evs[0], n);
      hide Happens, Step, SeenBy;
      if seen == [] {
        assert seen + later == later;
      } else {
        assert (seen + later)[0] == seen[0] && (seen + later)[1..] == later;
        assert Run(w.nodes[n], seen + later) == Run(Step(w.nodes[n], seen[0]), later);
      }
    }
  }

  lemma EventIsSeen(w: Swarm, ev: SwarmEvent, stream: Stream, n: nat)
    requires w.WellFormed() && Enabled(w, ev, stream) && n < |w.nodes| && (ev.Produce? ==> ev.i != n)
    ensures |SeenBy(w, ev, n)| <= 1
    ensures Happens(w, ev, stream).nodes[n]
            == if SeenBy(w, ev, n) == [] then w.nodes[n] else Step(w.nodes[n], SeenBy(w, ev, n)[0])
  {
    hide Step, Generate, Serve;
  }

  // ---------- What the player gets ----------

  /** The swarm theorem. Take any run of a swarm in which client `n` starts as just connected and all else
    * is genuine, and in which the client's own request position never laps an outstanding request. Whatever
    * the other nodes do and however messages are delayed, repeated or lost: the client's player is next
    * handed the very bytes sampled for the chunk at its position, and a partner that asks the client for a
    * chunk gets the very bytes sampled for that chunk. */
  lemma {:induction false} PlayerGetsTheStream(w: Swarm, evs: seq<SwarmEvent>, stream: Stream, n: nat, limit: int,
                                               first: nat, play: Event, q: nat)
    requires GenuineSwarm(w, stream) && EnabledThroughout(w, evs, stream)
    requires n < |w.nodes| && NeverProduces(evs, n) && 0 < w.size < 0x1_0000
    requires w.nodes[n] == Connected(w.size, limit, first)
    requires LeadThroughout(w.nodes[n], Projected(w, evs, stream, n))
    requires first + w.size + |Projected(w, evs, stream, n)| + 1 <= 0x1_0000_0000 * w.size
    requires play.Play? && play.offset < w.size
    ensures var st := After(w, evs, stream).nodes[n];
            var outcome := FeedPlayer(st, play.offset, play.enabled, play.written).1;
            && (outcome.Played? ==> var p := SoftReset(st, play.offset).player;
                                    outcome.packet.chunk == p && outcome.packet.body == stream(p))
            && (Serve(st, q, true).Data? <==> Holds(st, q))
            && (Serve(st, q, true).Data? ==>
                  Serve(st, q, true).packet.chunk == q && Serve(st, q, true).packet.body == stream(q))
  {
    var st0, events := w.nodes[n], Projected(w, evs, stream, n);
    ConnectedIsInLap(st0.size, limit, first);
    ProjectionIsRun(w, evs, stream, n);
    SwarmStaysGenuine(w, evs, stream);
    var st := After(w, evs, stream).nodes[n];
    assert GenuineNode(st, stream);
    hide Connected;
    RunKeepsLap(st0, events);
    RunIsBounded(st0, events, 1);
    hide Run, Projected, LeadThroughout, After, EnabledThroughout;
    InvIsInPlace(st);
    ShortOffsetHandsExactChunk(st, play.offset, play.enabled, play.written);
    ServesExactChunk(st, q, true);
    AnswerIsGenuine(st, q, true, stream);
    FeedIsGenuine(st, play, stream);
  }

  lemma FeedIsGenuine(st: State, play: Event, stream: Stream)
    requires st.WellFormed() && GenuineNode(st, stream) && play.Play?
    ensures var outcome := FeedPlayer(st, play.offset, play.enabled, play.written).1;
            outcome.Played? ==> Genuine(outcome.packet, stream)
  {
    hide Succ, GoBack;
  }

  /** The same with the lap assumption earned: it is enough that the client's request loop alternates, that
    * each of its tries finds a partner, and that the ring outlasts a request. */
  lemma {:induction false} PunctualClientGetsTheStream(w: Swarm, evs: seq<SwarmEvent>, stream: Stream, n: nat,
                                                       limit: int, first: nat, play: Event, q: nat)
    requires GenuineSwarm(w, stream) && EnabledThroughout(w, evs, stream)
    requires n < |w.nodes| && NeverProduces(evs, n) && 0 < w.size < 0x1_0000
    requires w.nodes[n] == Connected(w.size, limit, first)
    requires PASSES_PER_TRY * MaxTries(limit) + 1 < w.size
    requires Alternating(Projected(w, evs, stream, n), false)
    requires AnsweredThroughout(w.nodes[n], Projected(w, evs, stream, n))
    requires first + w.size + |Projected(w, evs, stream, n)| + 1 <= 0x1_0000_0000 * w.size
    requires play.Play? && play.offset < w.size
    ensures var st := After(w, evs, stream).nodes[n];
            var outcome := FeedPlayer(st, play.offset, play.enabled, play.written).1;
            && (outcome.Played? ==> var p := SoftReset(st, play.offset).player;
                                    outcome.packet.chunk == p && outcome.packet.body == stream(p))
            && (Serve(st, q, true).Data? <==> Holds(st, q))
            && (Serve(st, q, true).Data? ==>
                  Serve(st, q, true).packet.chunk == q && Serve(st, q, true).packet.body == stream(q))
  {
    LapIsEarned(w.size, limit, first, Projected(w, evs, stream, n));
    PlayerGetsTheStream(w, evs, stream, n, limit, first, play, q);
  }
}
