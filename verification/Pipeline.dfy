/** The chunk pipeline of a client as a state machine over linear chunk indices.
  *
  * Every concurrent method of the client is one atomic step of this machine; `Client` (Client.dfy)
  * is proved to take exactly these steps.
  */
module Pipeline {
  import opened Arith
  import opened Options
  import opened ChunkIds

  const REQUEST_TTL: int := 500
  const STEP_IN_MS: int := 5
  const MAX_WAIT: nat := 3000
  const MAX_WAIT_AFTER_MISS: nat := 50
  const PLAYER_SLEEP: nat := 10

  /** A data message, as far as the pipeline looks at it. */
  datatype Packet = Packet(chunk: nat, hop: nat, tries: nat, generated: nat, duration: nat, body: seq<nat>)

  datatype Slot = Slot(packet: Option<Packet>, available: bool) {
    predicate Ready() {
      packet.Some? && available
    }

    /** The cycle `MediaBuffer` remembers for this slot; its arrays start at zero. */
    function Cycle(size: nat): nat
      requires size > 0
    {
      if packet.Some? then packet.value.chunk / size else 0
    }
  }

  /** An outstanding request: the partners asked so far, oldest first. */
  datatype Req = Req(chunk: nat, ttl: int, attempts: seq<string>)

  datatype State = State(
    size: nat, limit: int,
    request: nat, tip: nat, player: nat,
    slots: seq<Slot>, requests: seq<Req>,
    waitTime: nat, maxWait: nat, played: nat, missed: int)
  {
    ghost predicate WellFormed() {
      0 < size && |slots| == size
    }
  }

  datatype Reply = Data(packet: Packet) | ChunkUnavailable | NoPartnership

  /** What one iteration of the player loop did. */
  datatype Outcome = Played(packet: Packet) | Missed | Waited | Idle | Closed

  datatype Event =
    | Place(found: bool)
    | Pass(ask: nat -> Option<string>, buffered: nat)
    | Receive(packet: Packet, source: string, partner: bool)
    | Play(offset: nat, enabled: bool, written: bool)

  // ---------- Requesting ----------

  /** Queue a request for the next chunk, step on, and free the slot the next request will use. */
  function PlaceRequest(st: State, found: bool): State
    requires st.WellFormed()
  {
    if !found then st
    else
      var next := Succ(st.request, st.size);
      var pos := next % st.size;
      st.(requests := st.requests + [Req(st.request, REQUEST_TTL, [])],
          request := next,
          slots := st.slots[pos := st.slots[pos].(available := false)])
  }

  predicate GivesUp(r: Req, limit: int, buffered: nat) {
    (limit == -1 && buffered < 2000 && |r.attempts| > 1) || |r.attempts| >= limit
  }

  /** The special case for a limit of -1 changes nothing: such a limit is reached at once anyway. */
  lemma GivesUpAtLimit(r: Req, limit: int, buffered: nat)
    ensures GivesUp(r, limit, buffered) <==> |r.attempts| >= limit
    ensures limit == -1 ==> GivesUp(r, limit, 5000)
  {}

  function Refresh(r: Req, limit: int, buffered: nat): seq<Req> {
    if r.ttl > 0 then [r]
    else if GivesUp(r, limit, buffered) then []
    else [r.(ttl := REQUEST_TTL)]
  }

  /** Drop the requests that timed out too often and restart the others. */
  function Cleanup(requests: seq<Req>, limit: int, buffered: nat): seq<Req> {
    if requests == [] then []
    else
      var last := |requests| - 1;
      Cleanup(requests[..last], limit, buffered) + Refresh(requests[last], limit, buffered)
  }

  /** A request that was just (re)started asks a partner, if one has the chunk; every request ages. */
  function Ask(r: Req, ask: nat -> Option<string>, step: int): Req {
    var asked := if r.ttl == REQUEST_TTL && ask(r.chunk).Some?
                 then r.(attempts := r.attempts + [ask(r.chunk).value]) else r;
    asked.(ttl := r.ttl - step)
  }

  function AskAll(requests: seq<Req>, ask: nat -> Option<string>, step: int): (r: seq<Req>)
    ensures |r| == |requests|
    ensures forall i :: 0 <= i < |r| ==> r[i] == Ask(requests[i], ask, step)
  {
    seq(|requests|, i requires 0 <= i < |requests| => Ask(requests[i], ask, step))
  }

  function PassRequests(st: State, ask: nat -> Option<string>, buffered: nat, step: int): State {
    st.(requests := AskAll(Cleanup(st.requests, st.limit, buffered), ask, step))
  }

  // ---------- Receiving and serving ----------

  /** The first request for `chunk`, or the length of the list. */
  function FindRequest(requests: seq<Req>, chunk: nat): (i: nat)
    ensures i <= |requests|
    ensures i < |requests| ==> requests[i].chunk == chunk
    ensures forall j :: 0 <= j < i ==> requests[j].chunk != chunk
  {
    if requests == [] || requests[0].chunk == chunk then 0
    else 1 + FindRequest(requests[1..], chunk)
  }

  predicate AlreadyReceived(st: State, chunk: nat)
    requires st.WellFormed()
  {
    var slot := st.slots[chunk % st.size];
    (slot.Ready() && chunk / st.size == slot.Cycle(st.size)) || chunk / st.size < slot.Cycle(st.size)
  }

  /** Request `i` is answered: it is closed and its chunk, one hop further, is stored. */
  function Accept(st: State, packet: Packet, i: nat): State
    requires st.WellFormed() && i < |st.requests|
  {
    var stored := packet.(hop := (packet.hop + 1) % 256,
                          tries := (packet.tries + |st.requests[i].attempts|) % 256);
    st.(requests := st.requests[..i] + st.requests[i + 1..],
        slots := st.slots[packet.chunk % st.size := Slot(Some(stored), true)],
        tip := Max(st.tip, packet.chunk))
  }

  function ReceiveData(st: State, packet: Packet, source: string, partner: bool): State
    requires st.WellFormed()
  {
    var i := FindRequest(st.requests, packet.chunk);
    if !partner || AlreadyReceived(st, packet.chunk) || i == |st.requests| || source !in st.requests[i].attempts
    then st
    else Accept(st, packet, i)
  }

  /** The answer to a request for chunk `q`. */
  function Serve(st: State, q: nat, partner: bool): Reply
    requires st.WellFormed()
  {
    var slot := st.slots[q % st.size];
    if !partner then NoPartnership
    else if slot.Ready() && st.tip >= q && st.tip - q < st.size then Data(slot.packet.value)
    else ChunkUnavailable
  }

  // ---------- Playing ----------

  predicate NeedsSoftReset(st: State) {
    st.tip > st.player && st.tip - st.player >= st.size
  }

  /** `x - k` as the client computes it. */
  function GoBack(x: nat, k: nat, size: nat): nat
    requires size > 0
  {
    ChunkId(x / size, x % size, size).Back(k).Linear()
  }

  function SoftReset(st: State, offset: nat): State
    requires st.WellFormed()
  {
    if !NeedsSoftReset(st) then st
    else st.(player := GoBack(st.tip, offset, st.size), missed := -1, played := 0, maxWait := MAX_WAIT, requests := [])
  }

  /** One iteration of the player loop: the soft reset, then the rest. */
  function FeedPlayer(st: State, offset: nat, enabled: bool, written: bool): (State, Outcome)
    requires st.WellFormed()
  {
    PlayOrWait(SoftReset(st, offset), enabled, written)
  }

  function PlayOrWait(st: State, enabled: bool, written: bool): (State, Outcome)
    requires st.WellFormed()
  {
    var s := if st.tip == st.player then st.(maxWait := MAX_WAIT) else st;
    var pos := s.player % s.size;
    if s.tip >= s.player && s.slots[pos].Ready() then
      if enabled && !written then (s.(waitTime := 0, maxWait := MAX_WAIT), Closed)
      else (s.(played := s.played + 1,
               missed := if pos % 500 == 0 && s.missed < 0 then 0 else s.missed,
               player := Succ(s.player, s.size),
               waitTime := 0),
            Played(s.slots[pos].packet.value))
    else if s.waitTime < s.maxWait then (s.(waitTime := s.waitTime + PLAYER_SLEEP), Waited)
    else if s.player < s.tip then
      (s.(player := Succ(s.player, s.size),
          missed := (if s.missed < 0 then 0 else s.missed) + 1,
          maxWait := MAX_WAIT_AFTER_MISS,
          waitTime := 0),
       Missed)
    else (s, Idle)
  }

  // ---------- The source ----------

  /** The source stores chunk `tip` unavailable, completes its predecessor and steps on. */
  function Generate(st: State, packet: Packet, interArrival: nat): State
    requires st.WellFormed() && packet.chunk == st.tip
  {
    var pos := st.tip % st.size;
    var slots := st.slots[pos := Slot(Some(packet), false)];
    var last := if pos == 0 then st.size - 1 else pos - 1;
    st.(slots := if slots[last].packet.Some? then slots[last := Complete(slots[last], interArrival)] else slots,
        tip := Succ(st.tip, st.size))
  }

  function Complete(slot: Slot, interArrival: nat): Slot
    requires slot.packet.Some?
  {
    Slot(Some(if interArrival != 0 then slot.packet.value.(duration := interArrival) else slot.packet.value), true)
  }

  // ---------- Runs ----------

  function Step(st: State, e: Event): (st': State)
    requires st.WellFormed()
    ensures st'.WellFormed() && st'.size == st.size && st'.limit == st.limit
  {
    match e
    case Place(found) => PlaceRequest(st, found)
    case Pass(ask, buffered) => PassRequests(st, ask, buffered, STEP_IN_MS)
    case Receive(packet, source, partner) => ReceiveData(st, packet, source, partner)
    case Play(offset, enabled, written) => FeedPlayer(st, offset, enabled, written).0
  }

  function Run(st: State, events: seq<Event>): (st': State)
    requires st.WellFormed()
    ensures st'.WellFormed() && st'.size == st.size && st'.limit == st.limit
    decreases |events|
  {
    if events == [] then st else Run(Step(st, events[0]), events[1..])
  }

  /** A client that has just connected: nothing received, and chunk `first` the first to request. */
  function Connected(size: nat, limit: int, first: nat): State
    requires size > 0
  {
    State(size, limit, first, 0, first, seq(size, _ => Slot(None, false)), [], 0, MAX_WAIT, 0, -1)
  }
}
