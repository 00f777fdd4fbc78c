/** The source side of the pipeline: what is available after `n` generated chunks. */
module SourceRuns {
  import opened Arith
  import opened Options
  import opened Pipeline

  datatype Generated = Generated(packet: Packet, interArrival: nat)

  function GenerateAll(st: State, chunks: seq<Generated>): State
    requires st.WellFormed()
    requires forall i :: 0 <= i < |chunks| ==> chunks[i].packet.chunk == st.tip + i
    requires st.tip + |chunks| < 0x1_0000_0000 * st.size
    ensures GenerateAll(st, chunks).WellFormed() && GenerateAll(st, chunks).size == st.size
    decreases |chunks|
  {
    if chunks == [] then st
    else GenerateAll(Generate(st, chunks[0].packet, chunks[0].interArrival), chunks[1..])
  }

  /** The chunk slot `s` holds after `n` generated chunks: the latest one of its residue. */
  ghost predicate SlotIsLatest(st: State, s: nat)
    requires st.WellFormed() && s < st.size
  {
    var slot, n := st.slots[s], st.tip;
    if slot.packet.Some? then
      var c := slot.packet.value.chunk;
      c % st.size == s && c < n <= c + st.size && slot.available == (c + 1 < n)
    else n <= s
  }

  ghost predicate SourceInv(st: State) {
    st.WellFormed() && forall s :: 0 <= s < st.size ==> SlotIsLatest(st, s)
  }

  lemma {:induction false} GenerateKeepsLatest(st: State, packet: Packet, interArrival: nat)
    requires SourceInv(st) && st.size >= 2 && packet.chunk == st.tip && st.tip + 1 < 0x1_0000_0000 * st.size
    ensures SourceInv(Generate(st, packet, interArrival))
  {
    var n, B := st.tip, st.size;
    var st' := Generate(st, packet, interArrival);
    forall s | 0 <= s < B
      ensures SlotIsLatest(st', s)
    {
      GenerateKeepsSlot(st, packet, interArrival, s);
    }
  }

  lemma LatestOrder(c: nat, n: nat, B: nat)
    requires B >= 2 && c < n <= c + B
    ensures c % B == n % B <==> c + B == n
    ensures c % B == Before(n % B, B) <==> c + 1 == n
  {
    ModShift(c, 1, B);
    ModStep(c, B);
    if c % B == n % B {
      CongruentAndClose(c + B, n, B);
    }
    if (c + 1) % B == n % B {
      CongruentAndClose(c + 1, n, B);
    }
  }

  function Before(pos: nat, B: nat): (r: nat)
    requires pos < B
    ensures r < B
  {
    if pos == 0 then B - 1 else pos - 1
  }

  lemma FirstLap(n: nat, B: nat)
    requires n < B
    ensures n % B == n
  {}

  lemma {:induction false} GenerateKeepsSlot(st: State, packet: Packet, interArrival: nat, s: nat)
    requires SourceInv(st) && st.size >= 2 && packet.chunk == st.tip && st.tip + 1 < 0x1_0000_0000 * st.size
    requires s < st.size
    ensures SlotIsLatest(Generate(st, packet, interArrival), s)
  {
    var n, B := st.tip, st.size;
    assert SlotIsLatest(st, s);
    var slot, slot' := st.slots[s], Generate(st, packet, interArrival).slots[s];
    if s == n % B {
      assert slot' == Slot(Some(packet), false);
    } else if slot.packet.Some? {
      var c := slot.packet.value.chunk;
      LatestOrder(c, n, B);
      assert slot' == if s == Before(n % B, B) then Complete(slot, interArrival) else slot;
    } else {
      FirstLap(n, B);
    }
  }

  /** The source keeps the last ring of chunks, each in its own slot; all of them but the newest are
    * available. */
  lemma {:induction false} SourceRunKeepsLatest(st: State, chunks: seq<Generated>)
    requires SourceInv(st) && st.size >= 2
    requires forall i :: 0 <= i < |chunks| ==> chunks[i].packet.chunk == st.tip + i
    requires st.tip + |chunks| < 0x1_0000_0000 * st.size
    ensures SourceInv(GenerateAll(st, chunks)) && GenerateAll(st, chunks).tip == st.tip + |chunks|
    decreases |chunks|
  {
    if chunks != [] {
      GenerateKeepsLatest(st, chunks[0].packet, chunks[0].interArrival);
      SourceRunKeepsLatest(Generate(st, chunks[0].packet, chunks[0].interArrival), chunks[1..]);
    }
  }

  /** Chunk `q` of a stream of `n` chunks is available at the source exactly when it is one of the last
    * `size` chunks but not the newest. */
  lemma {:induction false} SourceHolds(st: State, q: nat)
    requires SourceInv(st) && st.size >= 2
    ensures var slot := st.slots[q % st.size];
            (slot.Ready() && slot.packet.value.chunk == q) <==> q + 1 < st.tip <= q + st.size
  {
    var slot := st.slots[q % st.size];
    assert SlotIsLatest(st, q % st.size);
    hide SourceInv;
    if slot.packet.Some? {
      LatestOfResidue(slot.packet.value.chunk, q, st.tip, st.size);
    } else {
      ResidueIsSmaller(q, st.size);
    }
  }

  lemma LatestOfResidue(c: nat, q: nat, n: nat, B: nat)
    requires B > 0 && c % B == q % B && c < n <= c + B
    ensures c == q <==> q < n <= q + B
  {
    if q < n <= q + B {
      CongruentAndClose(c, q, B);
    }
  }

  lemma ResidueIsSmaller(q: nat, B: nat)
    requires B > 0
    ensures q % B <= q
  {
    LapsOf(q, B);
  }

  /** A partner gets data for chunk `q` exactly when `q` is available -- or, at a full ring, when it
    * asks for the tip, which is not generated yet: then it gets the chunk one lap older. */
  lemma {:induction false} SourceServes(st: State, q: nat)
    requires SourceInv(st) && st.size >= 2
    ensures var r := Serve(st, q, true);
            && (r.Data? <==> (q < st.tip - 1 && st.tip - q < st.size) || (q == st.tip && st.tip >= st.size))
            && (r.Data? && r.packet.chunk != q <==> q == st.tip && st.tip >= st.size)
            && (r.Data? && r.packet.chunk != q ==> r.packet.chunk == q - st.size)
            && (r == ChunkUnavailable <==>
                  !((q < st.tip - 1 && st.tip - q < st.size) || (q == st.tip && st.tip >= st.size)))
            && Serve(st, q, false) == NoPartnership
  {
    SourceHolds(st, q);
    var slot := st.slots[q % st.size];
    assert SlotIsLatest(st, q % st.size);
    if Serve(st, q, true).Data? {
      var c := slot.packet.value.chunk;
      if q < st.tip {
        CongruentAndClose(c, q, st.size);
      } else {
        ModShift(c, 1, st.size);
        CongruentAndClose(c + st.size, q, st.size);
      }
    } else if q == st.tip && st.tip >= st.size {
      TipSlotIsFull(st);
    }
  }

  lemma {:induction false} TipSlotIsFull(st: State)
    requires SourceInv(st) && st.size >= 2 && st.tip >= st.size
    ensures st.slots[st.tip % st.size].Ready()
  {
    var s := st.tip % st.size;
    assert SlotIsLatest(st, s);
    if st.slots[s].packet.Some? && st.slots[s].packet.value.chunk + 1 == st.tip {
      ModStep(st.slots[s].packet.value.chunk, st.size);
    }
  }

  // ---------- What the chunks say ----------

  /** Chunk `c` as it was sampled, lasting until the next one arrived -- if there is a next one, and it took time. */
  function Sampled(chunks: seq<Generated>, c: nat): Packet
    requires c < |chunks|
  {
    var packet := chunks[c].packet;
    if c + 1 < |chunks| && chunks[c + 1].interArrival > 0 then packet.(duration := chunks[c + 1].interArrival)
    else packet
  }

  /** Every stored chunk is as it was sampled. */
  ghost predicate AsSampled(st: State, chunks: seq<Generated>) {
    && st.WellFormed()
    && forall s :: 0 <= s < st.size && st.slots[s].packet.Some? ==>
         && st.slots[s].packet.value.chunk < |chunks|
         && st.slots[s].packet.value == Sampled(chunks, st.slots[s].packet.value.chunk)
  }

  lemma {:induction false} GenerateKeepsSampled(st: State, done: seq<Generated>, g: Generated)
    requires SourceInv(st) && st.size >= 2 && st.tip == |done| && st.tip + 1 < 0x1_0000_0000 * st.size
    requires AsSampled(st, done) && g.packet.chunk == st.tip
    ensures AsSampled(Generate(st, g.packet, g.interArrival), done + [g])
  {
    var n, B, st' := st.tip, st.size, Generate(st, g.packet, g.interArrival);
    var all := done + [g];
    forall s | 0 <= s < B && st'.slots[s].packet.Some?
      ensures st'.slots[s].packet.value.chunk < |all|
      ensures st'.slots[s].packet.value == Sampled(all, st'.slots[s].packet.value.chunk)
    {
      var slot := st.slots[s];
      assert SlotIsLatest(st, s);
      if s != n % B {
        assert slot.packet.Some?;
        LatestOrder(slot.packet.value.chunk, n, B);
        assert slot.packet.value == Sampled(done, slot.packet.value.chunk);
      }
    }
  }

  lemma {:induction false} GenerateAllKeepsSampled(st: State, done: seq<Generated>, chunks: seq<Generated>)
    requires SourceInv(st) && st.size >= 2 && st.tip == |done| && st.tip + |chunks| < 0x1_0000_0000 * st.size
    requires AsSampled(st, done) && forall i :: 0 <= i < |chunks| ==> chunks[i].packet.chunk == st.tip + i
    ensures AsSampled(GenerateAll(st, chunks), done + chunks)
    decreases |chunks|
  {
    if chunks == [] {
      assert done + chunks == done;
    } else {
      SampledStep(st, done, chunks);
      hide *;
      var st1 := Generate(st, chunks[0].packet, chunks[0].interArrival);
      GenerateAllKeepsSampled(st1, done + [chunks[0]], chunks[1..]);
      assert done + [chunks[0]] + chunks[1..] == done + chunks;
    }
  }

  lemma {:induction false} SampledStep(st: State, done: seq<Generated>, chunks: seq<Generated>)
    requires SourceInv(st) && st.size >= 2 && st.tip == |done| && st.tip + |chunks| < 0x1_0000_0000 * st.size
    requires AsSampled(st, done) && forall i :: 0 <= i < |chunks| ==> chunks[i].packet.chunk == st.tip + i
    requires chunks != []
    ensures st.WellFormed() && chunks[0].packet.chunk == st.tip
    ensures var st1 := Generate(st, chunks[0].packet, chunks[0].interArrival);
            && st1.WellFormed() && st1.size == st.size && st1.tip == st.tip + 1
            && SourceInv(st1) && AsSampled(st1, done + [chunks[0]])
            && (forall i :: 0 <= i < |chunks| - 1 ==> chunks[1..][i].packet.chunk == st1.tip + i)
            && GenerateAll(st, chunks) == GenerateAll(st1, chunks[1..])
  {
    GenerateKeepsLatest(st, chunks[0].packet, chunks[0].interArrival);
    GenerateKeepsSampled(st, done, chunks[0]);
    hide AsSampled, SourceInv, Complete;
  }

  lemma {:induction false} SourceRunServes(size: nat, limit: int, chunks: seq<Generated>, q: nat)
    requires size >= 2 && |chunks| < 0x1_0000_0000 * size
    requires forall i :: 0 <= i < |chunks| ==> chunks[i].packet.chunk == i
    ensures var n, r := |chunks|, Serve(GenerateAll(Connected(size, limit, 0), chunks), q, true);
            && (q < n ==> (r.Data? <==> q + 1 < n < q + size) && (r.Data? ==> r.packet.chunk == q))
            && (q == n && n >= size ==> r.Data? && r.packet.chunk == n - size)
            && (r.Data? ==> r.packet.chunk < n && r.packet == Sampled(chunks, r.packet.chunk))
            && (r == ChunkUnavailable <==> !(q + 1 < n < q + size || (q == n && n >= size)))
            && Serve(GenerateAll(Connected(size, limit, 0), chunks), q, false) == NoPartnership
  {
    var st := Connected(size, limit, 0);
    assert SourceInv(st);
    SourceRunKeepsLatest(st, chunks);
    SourceServes(GenerateAll(st, chunks), q);
    GenerateAllKeepsSampled(st, [], chunks);
    assert [] + chunks == chunks;
    assert AsSampled(GenerateAll(st, chunks), chunks);
    assert GenerateAll(st, chunks).tip == |chunks|;
    hide SourceInv, GenerateAll, Sampled;
  }
}
