/** What a partner's announcement is worth: from the sender's buffer over the wire to the receiver's search. */
module Announcements {
  import opened ChunkIds
  import opened Pipeline
  import opened LapSafety
  import opened SourceRuns
  import opened Requests
  import opened Bitmaps

  /** The availability bits, as `GetMap` returns them. */
  function Map(st: State): Bits {
    seq(|st.slots|, s requires 0 <= s < |st.slots| => st.slots[s].available)
  }

  /** What the receiver keeps of a ping: the tip and the bits of the bytes it was sent. */
  ghost predicate Announced(p: Partner, st: State)
    requires st.WellFormed()
  {
    && p.Valid(st.size)
    && p.head.Linear() == st.tip
    && p.chunkMap == Unpack(Packed(Map(st))[..st.size / 8])
  }

  /** Only stored chunks are available. Every step of a client or source keeps this. */
  ghost predicate AvailableIsStored(st: State) {
    st.WellFormed() && forall s :: 0 <= s < st.size && st.slots[s].available ==> st.slots[s].packet.Some?
  }

  lemma ConnectedIsStored(size: nat, limit: int, first: nat)
    requires size > 0
    ensures AvailableIsStored(Connected(size, limit, first))
  {}

  lemma StepKeepsStored(st: State, e: Event)
    requires AvailableIsStored(st)
    ensures AvailableIsStored(Step(st, e))
  {
    hide GoBack, Succ, Cleanup;
  }

  lemma GenerateKeepsStored(st: State, packet: Packet, interArrival: nat)
    requires AvailableIsStored(st) && packet.chunk == st.tip
    ensures AvailableIsStored(Generate(st, packet, interArrival))
  {
    hide Succ;
  }

  /** A map that arrives with the right number of bits is the map that was sent. */
  lemma MapArrives(p: Partner, st: State)
    requires st.WellFormed() && Announced(p, st)
    ensures p.chunkMap == Map(st)
  {
    var bits := Map(st);
    assert |bits| % 8 == 0;
    assert bits[..|bits| / 8 * 8] == bits;
    assert Packed(bits) == Pack(bits) + [];
    assert Packed(bits)[..|bits| / 8] == Pack(bits);
    UnpackPack(bits);
  }

  /** A client that keeps the lap invariant announces what it holds: whoever picks it as a candidate on its
    * current announcement is answered with the very chunk. */
  lemma ClientAnnouncementIsKept(st: State, p: Partner, chunk: ChunkId)
    requires Inv(st) && AvailableIsStored(st) && Announced(p, st) && chunk.Valid() && chunk.size == st.size
    requires CanServe(p, chunk)
    ensures Holds(st, chunk.Linear())
    ensures Serve(st, chunk.Linear(), true).Data? && Serve(st, chunk.Linear(), true).packet.chunk == chunk.Linear()
  {
    MapArrives(p, st);
    chunk.LinearParts();
    WindowIsOneLap(p.head, chunk);
    assert st.slots[chunk.position].available;
    SameSlotSameChunk(st, chunk.Linear());
    ServesExactChunk(st, chunk.Linear(), true);
  }

  /** So does a source, but for the tip itself: at a full ring a candidate for the tip exists, and it would be answered
    * with the chunk one lap older. */
  lemma SourceAnnouncementIsKept(st: State, p: Partner, chunk: ChunkId)
    requires SourceInv(st) && st.size >= 2 && AvailableIsStored(st) && Announced(p, st)
    requires chunk.Valid() && chunk.size == st.size && CanServe(p, chunk)
    ensures Serve(st, chunk.Linear(), true).Data?
    ensures Serve(st, chunk.Linear(), true).packet.chunk == chunk.Linear() <==> chunk.Linear() != st.tip
  {
    MapArrives(p, st);
    chunk.LinearParts();
    WindowIsOneLap(p.head, chunk);
    assert st.slots[chunk.position].available;
    SourceServes(st, chunk.Linear());
  }

  // ---------- Over whole runs ----------

  lemma {:induction false} RunKeepsStored(st: State, events: seq<Event>)
    requires AvailableIsStored(st)
    ensures AvailableIsStored(Run(st, events))
    decreases |events|
  {
    if events != [] {
      StepKeepsStored(st, events[0]);
      RunKeepsStored(Step(st, events[0]), events[1..]);
    }
  }

  lemma {:induction false} GenerateAllKeepsStored(st: State, chunks: seq<Generated>)
    requires AvailableIsStored(st) && st.tip + |chunks| < 0x1_0000_0000 * st.size
    requires forall i :: 0 <= i < |chunks| ==> chunks[i].packet.chunk == st.tip + i
    ensures AvailableIsStored(GenerateAll(st, chunks))
    decreases |chunks|
  {
    if chunks != [] {
      GenerateKeepsStored(st, chunks[0].packet, chunks[0].interArrival);
      GenerateAllKeepsStored(Generate(st, chunks[0].packet, chunks[0].interArrival), chunks[1..]);
    }
  }

  /** From connecting on: what a client announces in any run without lapped requests it holds, and it goes on holding
    * it exactly until its request position is a lap ahead, however late the announcement is acted upon. */
  lemma {:induction false} ClientRunAnnouncementIsKept(size: nat, limit: int, first: nat, before: seq<Event>,
                                                       after: seq<Event>, p: Partner, chunk: ChunkId)
    requires 0 < size && first + size + |before| + |after| <= 0x1_0000_0000 * size
    requires LeadThroughout(Connected(size, limit, first), before)
    requires LeadThroughout(Run(Connected(size, limit, first), before), after)
    requires Announced(p, Run(Connected(size, limit, first), before))
    requires chunk.Valid() && chunk.size == size && CanServe(p, chunk)
    ensures var st := Run(Run(Connected(size, limit, first), before), after);
            && (Serve(st, chunk.Linear(), true).Data? <==> st.request < chunk.Linear() + size)
            && (Serve(st, chunk.Linear(), true).Data? ==>
                  Serve(st, chunk.Linear(), true).packet.chunk == chunk.Linear())
  {
    var st0 := Connected(size, limit, first);
    ConnectedIsInLap(size, limit, first);
    ConnectedIsStored(size, limit, first);
    RunKeepsLap(st0, before);
    RunKeepsStored(st0, before);
    RunIsBounded(st0, before, |after|);
    var st1 := Run(st0, before);
    ClientAnnouncementIsKept(st1, p, chunk);
    hide Connected, Announced, CanServe, Run, LeadThroughout;
    HeldUntilLapped(st1, after, chunk.Linear());
    RunKeepsLap(st1, after);
    ServesExactChunk(Run(st1, after), chunk.Linear(), true);
  }

  /** What a source announces in any run it serves, exactly but for its tip. */
  lemma {:induction false} SourceRunAnnouncementIsKept(size: nat, limit: int, chunks: seq<Generated>, p: Partner,
                                                       chunk: ChunkId)
    requires size >= 2 && |chunks| < 0x1_0000_0000 * size
    requires forall i :: 0 <= i < |chunks| ==> chunks[i].packet.chunk == i
    requires Announced(p, GenerateAll(Connected(size, limit, 0), chunks))
    requires chunk.Valid() && chunk.size == size && CanServe(p, chunk)
    ensures var r := Serve(GenerateAll(Connected(size, limit, 0), chunks), chunk.Linear(), true);
            r.Data? && (r.packet.chunk == chunk.Linear() <==> chunk.Linear() != |chunks|)
  {
    var st0 := Connected(size, limit, 0);
    assert SourceInv(st0);
    SourceRunKeepsLatest(st0, chunks);
    ConnectedIsStored(size, limit, 0);
    GenerateAllKeepsStored(st0, chunks);
    SourceAnnouncementIsKept(GenerateAll(st0, chunks), p, chunk);
  }
}
