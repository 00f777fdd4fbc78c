/** What the player is fed over whole runs: exactly the chunks it asks for, in order, none twice. */
module PlayerRuns {
  import opened Arith
  import opened Options
  import opened ChunkIds
  import opened Pipeline
  import opened LapSafety
  import opened Exactness

  // ---------- The soft reset ----------

  lemma GoBackWithinRing(x: nat, k: nat, size: nat)
    requires 0 < size < 0x1_0000 && k <= x && k / size + 1 < 0x1_0000 && x < 0x1_0000_0000 * size
    ensures GoBack(x, k, size) == x - k
  {
    var a := ChunkId(x / size, x % size, size);
    QuotientBound(x, size, 0x1_0000_0000);
    LapsOf(x, size);
    BackExact(a, k);
  }

  /** A soft reset that goes back no further than the stream's start puts the player back within
    * one lap of the tip exactly when the offset is shorter than the ring. */
  lemma SoftResetWindow(st: State, offset: nat)
    requires st.WellFormed() && st.size < 0x1_0000 && st.tip < 0x1_0000_0000 * st.size
    requires NeedsSoftReset(st) && offset <= st.tip && offset / st.size + 1 < 0x1_0000
    ensures SoftReset(st, offset).player == st.tip - offset
    ensures NeedsSoftReset(SoftReset(st, offset)) <==> offset >= st.size
  {
    GoBackWithinRing(st.tip, offset, st.size);
  }

  /** With a short offset the soft reset moves the player forward, into the last lap. */
  lemma SoftResetForward(st: State, offset: nat)
    requires st.WellFormed() && st.size < 0x1_0000 && st.tip < 0x1_0000_0000 * st.size && offset < st.size
    ensures var s := SoftReset(st, offset);
            && s.player == (if NeedsSoftReset(st) then st.tip - offset else st.player)
            && s.player >= st.player && (s.tip > s.player ==> s.tip - s.player < s.size)
  {
    if NeedsSoftReset(st) {
      QuotientBound(offset, st.size, 1);
      GoBackWithinRing(st.tip, offset, st.size);
    }
  }

  /** What an iteration hands to the player is the chunk at the player's position exactly when the position
    * is less than one lap behind the tip: always without a soft reset, and after one depending on where the
    * computed position lies. For an offset that does not go back past the start of the stream (nor past what
    * 16 bits count), exactly when the offset is shorter than the ring. */
  lemma HandsExactChunk(st: State, offset: nat, enabled: bool, written: bool)
    requires InPlace(st) && Recent(st) && st.size < 0x1_0000 && st.tip < 0x1_0000_0000 * st.size
    requires FeedPlayer(st, offset, enabled, written).1.Played?
    ensures var exact := FeedPlayer(st, offset, enabled, written).1.packet.chunk == SoftReset(st, offset).player;
            && (exact <==> (NeedsSoftReset(st) ==> st.tip - GoBack(st.tip, offset, st.size) < st.size))
            && (offset <= st.tip && offset / st.size + 1 < 0x1_0000 ==>
                  (exact <==> (NeedsSoftReset(st) ==> offset < st.size)))
  {
    var s := SoftReset(st, offset);
    var c := s.slots[s.player % s.size].packet.value.chunk;
    if s.tip - s.player < s.size {
      CongruentAndClose(c, s.player, s.size);
    }
    if NeedsSoftReset(st) && offset <= st.tip && offset / st.size + 1 < 0x1_0000 {
      SoftResetWindow(st, offset);
    }
  }

  /** The case of the configured offsets, which are shorter than the ring. */
  lemma ShortOffsetHandsExactChunk(st: State, offset: nat, enabled: bool, written: bool)
    requires InPlace(st) && Recent(st) && st.size < 0x1_0000 && st.tip < 0x1_0000_0000 * st.size && offset < st.size
    ensures FeedPlayer(st, offset, enabled, written).1.Played? ==>
              FeedPlayer(st, offset, enabled, written).1.packet.chunk == SoftReset(st, offset).player
  {
    if FeedPlayer(st, offset, enabled, written).1.Played? {
      HandsExactChunk(st, offset, enabled, written);
      QuotientBound(offset, st.size, 1);
    }
  }

  /** From a sound state on, and so after every clean reset, it always is. */
  lemma {:induction false} SoundPlayerIsExact(st: State, events: seq<Event>, offset: nat, enabled: bool, written: bool)
    requires Orderly(st) && Sound(st) && CalmRun(st, events)
    requires st.size < 0x1_0000 && st.tip < 0x1_0000_0000 * st.size && offset < st.size
    ensures var st' := Run(st, events);
            FeedPlayer(st', offset, enabled, written).1.Played? ==>
              FeedPlayer(st', offset, enabled, written).1.packet.chunk == SoftReset(st', offset).player
  {
    SoundRunIsExact(st, events);
    CalmTipIsCountable(st, events);
    hide CalmRun, Run;
    ShortOffsetHandsExactChunk(Run(st, events), offset, enabled, written);
  }

  function Chunk(c: nat): Packet {
    Packet(c, 1, 1, 0, 0, [])
  }

  /** A ring of four holding chunks 7, 8 and 9, with the player left behind at chunk 2. */
  const BEHIND: State := State(4, 3, 10, 9, 2,
                               [Slot(Some(Chunk(8)), true), Slot(Some(Chunk(9)), true),
                                Slot(None, false), Slot(Some(Chunk(7)), true)],
                               [], 0, MAX_WAIT, 0, -1)

  /** With an offset of a lap or more the player can be handed another lap's chunk as its own: here it
    * is at chunk 4 and gets chunk 8. */
  lemma LongOffsetHandsWrongChunk()
    ensures Inv(BEHIND) && Lead(BEHIND) && SoftReset(BEHIND, 5).player == 4
    ensures FeedPlayer(BEHIND, 5, false, true).1 == Played(Chunk(8))
  {
    BehindResets();
    hide SoftReset, ChunkId.Back, GoBack;
    assert BEHIND.slots[0].Ready();
  }

  lemma BehindResets()
    ensures SoftReset(BEHIND, 5) == BEHIND.(player := 4)
  {
    assert ChunkId(2, 1, 4).Back(5) == ChunkId(1, 0, 4);
    assert Laps(1, 4) == 4;
  }

  // ---------- Runs ----------

  /** One advance of the player position. */
  datatype Advance = Fed(packet: Packet) | Skipped

  function Advances(st: State, e: Event): seq<Advance>
    requires st.WellFormed()
  {
    if !e.Play? then []
    else match FeedPlayer(st, e.offset, e.enabled, e.written).1
      case Played(packet) => [Fed(packet)]
      case Missed => [Skipped]
      case _ => []
  }

  /** Everything the player position moved over in a run, in order. */
  function Log(st: State, events: seq<Event>): seq<Advance>
    requires st.WellFormed()
    decreases |events|
  {
    if events == [] then [] else Advances(st, events[0]) + Log(Step(st, events[0]), events[1..])
  }

  predicate ShortOffsets(events: seq<Event>, size: nat) {
    forall i :: 0 <= i < |events| && events[i].Play? ==> events[i].offset < size
  }

  predicate NoSoftReset(st: State, events: seq<Event>)
    requires st.WellFormed()
    decreases |events|
  {
    events == [] || (!(events[0].Play? && NeedsSoftReset(st)) && NoSoftReset(Step(st, events[0]), events[1..]))
  }

  /** All that counting and progress need of a run: nothing about partners or laps, only that the 32-bit cycle
    * counters do not run out. */
  ghost predicate Track(st: State, events: seq<Event>) {
    BehindRequest(st) && st.size < 0x1_0000 && Bounded(st, |events|)
  }

  /** What exact delivery needs besides: no outstanding request is lapped. */
  ghost predicate LapRun(st: State, events: seq<Event>) {
    Inv(st) && st.size < 0x1_0000 && Bounded(st, |events|) && LeadThroughout(st, events)
  }

  lemma {:induction false} TrackStep(st: State, events: seq<Event>)
    requires Track(st, events) && events != []
    ensures Track(Step(st, events[0]), events[1..])
  {
    StepKeepsBehind(st, events[0]);
    StepIsBounded(st, events[0], |events| - 1);
  }

  lemma {:induction false} LapRunStep(st: State, events: seq<Event>)
    requires LapRun(st, events) && events != []
    ensures LapRun(Step(st, events[0]), events[1..])
  {
    StepKeepsLap(st, events[0]);
    StepIsBounded(st, events[0], |events| - 1);
  }

  lemma {:induction false} ShortOffsetsStep(events: seq<Event>, size: nat)
    requires ShortOffsets(events, size) && events != []
    ensures ShortOffsets(events[1..], size)
  {
    forall i | 0 <= i < |events| - 1 && events[1..][i].Play?
      ensures events[1..][i].offset < size
    {
      assert events[1..][i] == events[i + 1];
    }
  }

  function Count(log: seq<Advance>, fed: bool): nat {
    if log == [] then 0 else (if log[0].Fed? == fed then 1 else 0) + Count(log[1..], fed)
  }

  /** `chunksMissed` starts at -1 for "nothing counted yet". */
  function Misses(st: State): int {
    Max(st.missed, 0)
  }

  lemma FeedStep(st: State, e: Event)
    requires st.WellFormed() && Bounded(st, 1) && !(e.Play? && NeedsSoftReset(st))
    ensures var st', a := Step(st, e), Advances(st, e);
            && st'.player == st.player + |a|
            && st'.played == st.played + Count(a, true)
            && Misses(st') == Misses(st) + Count(a, false)
  {
    assert forall a: Advance :: [a][1..] == [];
  }

  lemma {:induction false} CountAppend(a: seq<Advance>, b: seq<Advance>, fed: bool)
    ensures Count(a + b, fed) == Count(a, fed) + Count(b, fed)
  {
    if a == [] {
      assert a + b == b;
    } else {
      CountAppend(a[1..], b, fed);
      assert (a + b)[1..] == a[1..] + b;
    }
  }

  /** Between soft resets the player position moves over the chunks one by one, and the counters agree with
    * it: every chunk passed is either played or missed. This needs no assumption on the partners. */
  lemma {:induction false} PlayerCounts(st: State, events: seq<Event>)
    requires Track(st, events) && NoSoftReset(st, events)
    ensures var st', log := Run(st, events), Log(st, events);
            && st'.player == st.player + |log|
            && st'.played == st.played + Count(log, true)
            && Misses(st') == Misses(st) + Count(log, false)
    decreases |events|
  {
    if events != [] {
      var a, st' := Advances(st, events[0]), Step(st, events[0]);
      FeedStep(st, events[0]);
      TrackStep(st, events);
      PlayerCounts(st', events[1..]);
      var rest := Log(st', events[1..]);
      CountAppend(a, rest, true);
      CountAppend(a, rest, false);
    }
  }

  /** And while no outstanding request is lapped, the `i`-th advance is chunk `player + i` itself. */
  lemma {:induction false} PlayerConservation(st: State, events: seq<Event>)
    requires LapRun(st, events) && NoSoftReset(st, events)
    ensures var st', log := Run(st, events), Log(st, events);
            && st'.player == st.player + |log|
            && (forall i :: 0 <= i < |log| && log[i].Fed? ==> log[i].packet.chunk == st.player + i)
            && st'.played == st.played + Count(log, true)
            && Misses(st') == Misses(st) + Count(log, false)
    decreases |events|
  {
    PlayerCounts(st, events);
    if events != [] {
      var e := events[0];
      FeedStep(st, e);
      InvIsInPlace(st);
      if e.Play? && FeedPlayer(st, e.offset, e.enabled, e.written).1.Played? {
        HandsExactChunk(st, e.offset, e.enabled, e.written);
      }
      LapRunStep(st, events);
      PlayerConservation(Step(st, e), events[1..]);
    }
  }

  function FedChunks(log: seq<Advance>): seq<nat> {
    if log == [] then []
    else (if log[0].Fed? then [log[0].packet.chunk] else []) + FedChunks(log[1..])
  }

  lemma {:induction false} FedChunksAppend(a: seq<Advance>, b: seq<Advance>)
    requires |a| <= 1
    ensures FedChunks(a + b) == FedChunks(a) + FedChunks(b)
  {
    if a == [] {
      assert a + b == b;
    } else {
      assert (a + b)[1..] == b && a[1..] == [];
      assert FedChunks(a) == if a[0].Fed? then [a[0].packet.chunk] else [];
    }
  }

  /** `fed` strictly increases within `[low, high)`. */
  ghost predicate IncreasingWithin(fed: seq<nat>, low: nat, high: nat) {
    && (forall i :: 0 <= i < |fed| ==> low <= fed[i] < high)
    && (forall i, j :: 0 <= i < j < |fed| ==> fed[i] < fed[j])
  }

  /** One step of the player position: it does not fall back, nor pass the chunk after the tip. */
  lemma MoveStep(st: State, e: Event)
    requires BehindRequest(st) && st.size < 0x1_0000 && Bounded(st, 1) && (e.Play? ==> e.offset < st.size)
    ensures var st', a := Step(st, e), Advances(st, e);
            st.player <= st'.player <= Max(st.player, st'.tip + 1) && st.tip <= st'.tip && |a| <= 1
  {
    if e.Play? {
      SoftResetForward(st, e.offset);
    }
  }

  /** What one step fed. */
  lemma PlayStep(st: State, e: Event)
    requires Inv(st) && st.size < 0x1_0000 && Bounded(st, 1) && (e.Play? ==> e.offset < st.size)
    ensures IncreasingWithin(FedChunks(Advances(st, e)), st.player, Step(st, e).player)
  {
    MoveStep(st, e);
    var st', a := Step(st, e), Advances(st, e);
    if e.Play? {
      SoftResetForward(st, e.offset);
      InvIsInPlace(st);
      ShortOffsetHandsExactChunk(st, e.offset, e.enabled, e.written);
      FedOnce(a, st.player, st'.player);
    }
  }

  lemma FedOnce(a: seq<Advance>, low: nat, high: nat)
    requires |a| <= 1 && (a != [] && a[0].Fed? ==> low <= a[0].packet.chunk < high)
    ensures IncreasingWithin(FedChunks(a), low, high)
  {
    if a != [] {
      assert a[1..] == [];
      assert FedChunks(a) == if a[0].Fed? then [a[0].packet.chunk] else [];
    }
  }

  lemma IncreasingJoin(a: seq<nat>, b: seq<nat>, low: nat, mid: nat, high: nat)
    requires IncreasingWithin(a, low, mid) && IncreasingWithin(b, mid, high) && low <= mid <= high
    ensures IncreasingWithin(a + b, low, high)
  {}

  lemma MaxChain(a: nat, b: nat, c: nat, t: nat, t': nat)
    requires a <= b <= Max(a, t + 1) && b <= c <= Max(b, t' + 1) && t <= t'
    ensures a <= c <= Max(a, t' + 1)
  {}

  lemma {:induction false} PositionStep(st: State, events: seq<Event>)
    requires Track(st, events) && ShortOffsets(events, st.size) && events != []
    ensures var st' := Step(st, events[0]);
            && Track(st', events[1..]) && ShortOffsets(events[1..], st'.size)
            && Run(st, events) == Run(st', events[1..])
            && st.player <= st'.player <= Max(st.player, st'.tip + 1) && st.tip <= st'.tip
  {
    hide Step, Advances;
    MoveStep(st, events[0]);
    TrackStep(st, events);
    ShortOffsetsStep(events, st.size);
  }

  /** Over any run with short offsets, soft resets included, the position does not fall back and never passes
    * the chunk after the tip. */
  lemma {:induction false} PositionMovesOn(st: State, events: seq<Event>)
    requires Track(st, events) && ShortOffsets(events, st.size)
    ensures st.player <= Run(st, events).player <= Max(st.player, Run(st, events).tip + 1)
    ensures st.tip <= Run(st, events).tip
    decreases |events|
  {
    if events != [] {
      assert st.WellFormed();
      hide *;
      PositionStep(st, events);
      var st1 := Step(st, events[0]);
      PositionMovesOn(st1, events[1..]);
      MaxChain(st.player, st1.player, Run(st, events).player, st1.tip, Run(st, events).tip);
    }
  }

  /** And while no outstanding request is lapped, the fed chunks strictly increase: nothing is played twice
    * or out of order. */
  lemma {:induction false} FedChunksIncrease(st: State, events: seq<Event>)
    requires LapRun(st, events) && ShortOffsets(events, st.size)
    ensures IncreasingWithin(FedChunks(Log(st, events)), st.player, Run(st, events).player)
    decreases |events|
  {
    hide Step, Advances;
    if events != [] {
      var st1, a := Step(st, events[0]), Advances(st, events[0]);
      MoveStep(st, events[0]);
      PlayStep(st, events[0]);
      LapRunStep(st, events);
      ShortOffsetsStep(events, st.size);
      PositionMovesOn(st1, events[1..]);
      FedChunksIncrease(st1, events[1..]);
      var rest := Log(st1, events[1..]);
      FedChunksAppend(a, rest);
      IncreasingJoin(FedChunks(a), FedChunks(rest), st.player, st1.player, Run(st, events).player);
    }
  }

  // ---------- Progress ----------

  /** Player iterations a position behind the tip can still be held at. */
  function Patience(st: State): nat {
    if st.waitTime >= st.maxWait then 1 else (st.maxWait - st.waitTime + PLAYER_SLEEP - 1) / PLAYER_SLEEP + 1
  }

  function CountPlays(events: seq<Event>): nat
    decreases |events|
  {
    if events == [] then 0 else (if events[0].Play? then 1 else 0) + CountPlays(events[1..])
  }

  /** An iteration that leaves a position behind the tip in place uses up patience. */
  lemma HeldIterationWaits(st: State, e: Event)
    requires BehindRequest(st) && st.size < 0x1_0000 && Bounded(st, 1) && st.player < st.tip
    requires e.Play? && e.offset < st.size && e.written && st.maxWait <= MAX_WAIT
    ensures Step(st, e).player == st.player ==> Patience(Step(st, e)) <= Patience(st) - 1
    ensures Step(st, e).maxWait <= MAX_WAIT
  {
    SoftResetForward(st, e.offset);
  }

  predicate AlwaysWritten(events: seq<Event>) {
    forall i :: 0 <= i < |events| && events[i].Play? ==> events[i].written
  }

  /** A position behind the tip is left -- played, missed or reset -- within its patience, whatever
    * happens in between and whether or not a partner ever answers. */
  lemma {:induction false} HeldPositionMoves(st: State, events: seq<Event>)
    requires Track(st, events) && ShortOffsets(events, st.size) && AlwaysWritten(events)
    requires st.player < st.tip && st.maxWait <= MAX_WAIT && CountPlays(events) >= Patience(st)
    ensures Run(st, events).player > st.player
    decreases |events|
  {
    var e := events[0];
    var st' := Step(st, e);
    MoveStep(st, e);
    TrackStep(st, events);
    ShortOffsetsStep(events, st.size);
    PositionMovesOn(st', events[1..]);
    if st'.player == st.player {
      if e.Play? {
        HeldIterationWaits(st, e);
      } else {
        assert Patience(st') == Patience(st);
      }
      hide Step, Patience;
      HeldPositionMoves(st', events[1..]);
    }
  }

  /** At most 301 player iterations at one position behind the tip. */
  lemma {:induction false} PlayerMovesWithin301(st: State, events: seq<Event>)
    requires Track(st, events) && ShortOffsets(events, st.size) && AlwaysWritten(events)
    requires st.player < st.tip && st.maxWait <= MAX_WAIT && CountPlays(events) >= 301
    ensures Run(st, events).player > st.player
  {
    HeldPositionMoves(st, events);
  }
}
