/** The client object: its methods take exactly the steps of the `Pipeline` machine. */
module Clients {
  import opened Arith
  import opened Options
  import opened ChunkIds
  import opened Pipeline
  import opened RequestMessages
  import opened MediaBuffers
  import opened Requests

  datatype MessageReply = DataReply(message: DataMessage) | ErrorChunkUnavailable | ErrorNoPartnership

  function Views(requests: seq<Request>): (v: seq<Req>)
    reads requests
    ensures |v| == |requests|
    ensures forall i :: 0 <= i < |v| ==>
              v[i] == Req(requests[i].chunkUID.Linear(), requests[i].ttl, requests[i].attempts)
  {
    seq(|requests|, i requires 0 <= i < |requests| reads requests =>
      Req(requests[i].chunkUID.Linear(), requests[i].ttl, requests[i].attempts))
  }

  /** The chunk of the stream with linear index `x`. */
  function At(x: nat, size: nat): ChunkId
    requires size > 0
  {
    ChunkId(x / size, x % size, size)
  }

  lemma AtLinear(c: ChunkId)
    requires c.Valid()
    ensures At(c.Linear(), c.size) == c
  {
    c.LinearParts();
  }

  /** Whom the request loop asks for chunk `x`, given the partners and the strategy's pick. */
  function Asked(x: nat, size: nat, partners: seq<Partner>, pick: nat -> nat): Option<string>
    requires 0 < size < 0x1_0000
    requires forall i :: 0 <= i < |partners| ==> partners[i].Valid(size)
  {
    if x / size < 0x1_0000_0000 then Choose(Candidates(At(x, size), partners), pick(x)) else None
  }

  /** The partner asked for a chunk, as a function of the chunk. */
  ghost function AskOne(partners: seq<Partner>, size: nat, pick: nat -> nat): nat -> Option<string>
    requires 0 < size < 0x1_0000
    requires forall i :: 0 <= i < |partners| ==> partners[i].Valid(size)
  {
    (x: nat) => Asked(x, size, partners, pick)
  }

  ghost predicate Distinct(requests: seq<Request>) {
    forall i, j :: 0 <= i < j < |requests| ==> requests[i] != requests[j]
  }

  lemma CleanupStep(views: seq<Req>, done: nat, limit: int, buffered: nat)
    requires done < |views|
    ensures Cleanup(views[..done + 1], limit, buffered)
            == Cleanup(views[..done], limit, buffered) + Refresh(views[done], limit, buffered)
  {
    assert views[..done + 1][..done] == views[..done];
  }

  /** What becomes of one request: a timed-out one is restarted, and given up if it was tried often enough. */
  method GiveUpOrRestart(request: Request, ghost size: nat, maxRequestAttempt: int, playerBufferDuration: nat)
    returns (eraseIt: bool)
    requires request.Valid(size)
    modifies request
    ensures request.Valid(size)
    ensures Refresh(old(request.View()), maxRequestAttempt, playerBufferDuration)
            == if eraseIt then [] else [request.View()]
  {
    eraseIt := false;
    if request.ttl <= 0 {
      if (maxRequestAttempt == -1 && playerBufferDuration < 2000 && |request.attempts| > 1)
         || |request.attempts| >= maxRequestAttempt {
        eraseIt := true;
      }
      request.SetTTL(REQUEST_TTL);
    }
  }

  /** First half of `FazPedidos`: drops the requests that gave up, restarts the timed-out others. */
  method CleanUpRequests(requests: seq<Request>, ghost all: set<Request>, ghost size: nat,
                         maxRequestAttempt: int, playerBufferDuration: nat)
    returns (list: seq<Request>)
    requires Distinct(requests) && forall i :: 0 <= i < |requests| ==> requests[i] in all && requests[i].Valid(size)
    modifies all
    ensures Distinct(list) && forall i :: 0 <= i < |list| ==> list[i] in all && list[i].Valid(size)
    ensures Views(list) == Cleanup(old(Views(requests)), maxRequestAttempt, playerBufferDuration)
  {
    list := [];
    ghost var views := Views(requests);
    ghost var kept, seen := [], {};
    for it := 0 to |requests|
      invariant |kept| == |list| && kept == Cleanup(views[..it], maxRequestAttempt, playerBufferDuration)
      invariant Distinct(list)
      invariant forall i :: 0 <= i < |list| ==> list[i] in seen && list[i] in all && list[i].Valid(size)
      invariant forall k :: it <= k < |requests| ==> requests[k] !in seen
      invariant forall i :: 0 <= i < |list| ==> list[i].View() == kept[i]
      invariant forall k :: it <= k < |requests| ==> requests[k].View() == views[k]
    {
      var request := requests[it];
      hide Cleanup, Refresh;
      var eraseIt := GiveUpOrRestart(request, size, maxRequestAttempt, playerBufferDuration);
      CleanupStep(views, it, maxRequestAttempt, playerBufferDuration);
      seen := seen + {request};
      if !eraseIt {
        kept := kept + [request.View()];
        list := list + [request];
      }
    }
    assert views[..|requests|] == views;
  }

  /** Second half of `FazPedidos`: each (re)started request asks one of its candidates; all age. */
  method SendRequests(requests: seq<Request>, ghost size: nat, stepInMs: int, peerActiveIn: seq<Partner>,
                      pick: nat -> nat, playback: nat) returns (sent: seq<SentRequest>)
    requires Distinct(requests) && 0 < size < 0x1_0000
    requires forall i :: 0 <= i < |requests| ==> requests[i].Valid(size)
    requires forall i :: 0 <= i < |peerActiveIn| ==> peerActiveIn[i].Valid(size)
    modifies requests
    ensures Views(requests) == AskAll(old(Views(requests)), AskOne(peerActiveIn, size, pick), stepInMs)
    ensures sent == SentForAll(old(Views(requests)), AskOne(peerActiveIn, size, pick), playback)
  {
    ghost var views := Views(requests);
    ghost var ask := AskOne(peerActiveIn, size, pick);
    sent := [];
    NoneSent(views, ask, playback);
    hide Ask, AskOne, SentForAll, SentFor, AskAll, Request.Valid, Request.View;
    for it := 0 to |requests|
      invariant forall k :: 0 <= k < it ==> requests[k].View() == Ask(views[k], ask, stepInMs)
      invariant forall k :: it <= k < |requests| ==> requests[k].View() == views[k]
      invariant sent == SentForAll(views[..it], ask, playback)
    {
      assert requests[it].View() == views[it];
      SentForOneMore(views, it, ask, playback);
      ghost var before := Views(requests);
      var message := SendRequest(requests[it], size, stepInMs, peerActiveIn, pick, playback);
      assert forall k :: 0 <= k < |requests| && k != it ==> requests[k].View() == before[k];
      sent := sent + message;
    }
    assert views[..|requests|] == views;
  }

  method SendRequest(request: Request, ghost size: nat, stepInMs: int, peerActiveIn: seq<Partner>, pick: nat -> nat,
                     playback: nat) returns (sent: seq<SentRequest>)
    requires 0 < size < 0x1_0000 && request.Valid(size)
    requires forall i :: 0 <= i < |peerActiveIn| ==> peerActiveIn[i].Valid(size)
    modifies request
    ensures request.View() == Ask(old(request.View()), AskOne(peerActiveIn, size, pick), stepInMs)
    ensures sent == SentFor(old(request.View()), AskOne(peerActiveIn, size, pick), playback)
  {
    sent := [];
    AtLinear(request.chunkUID);
    if request.ttl == REQUEST_TTL {
      request.SearchPeers(peerActiveIn);
      var chosenPeer := request.GetPeer(pick(request.chunkUID.Linear()));
      if chosenPeer.Some? {
        request.CreateAttempt(chosenPeer.value);
        sent := [SentRequest(request.chunkUID.Linear(), playback, chosenPeer.value)];
      }
    }
    request.DecTTL(stepInMs);
  }

  /** A whole pass over the outstanding requests. */
  method PassOver(requests: seq<Request>, size: nat, maxRequestAttempt: int, playerBufferDuration: nat, stepInMs: int,
                  peerActiveIn: seq<Partner>, pick: nat -> nat, playback: nat)
    returns (list: seq<Request>, sent: seq<SentRequest>)
    requires Distinct(requests) && 0 < size < 0x1_0000
    requires forall i :: 0 <= i < |requests| ==> requests[i].Valid(size)
    requires forall i :: 0 <= i < |peerActiveIn| ==> peerActiveIn[i].Valid(size)
    modifies requests
    ensures Distinct(list) && forall i :: 0 <= i < |list| ==> list[i] in requests && list[i].Valid(size)
    ensures Views(list) == AskAll(Cleanup(old(Views(requests)), maxRequestAttempt, playerBufferDuration),
                                  AskOne(peerActiveIn, size, pick), stepInMs)
    ensures sent == SentForAll(Cleanup(old(Views(requests)), maxRequestAttempt, playerBufferDuration),
                               AskOne(peerActiveIn, size, pick), playback)
  {
    hide Cleanup, AskAll, SentForAll;
    ghost var all := set r | r in requests;
    list := CleanUpRequests(requests, all, size, maxRequestAttempt, playerBufferDuration);
    sent := SendRequests(list, size, stepInMs, peerActiveIn, pick, playback);
  }

  /** `Generate` in the order in which the code does it. */
  lemma GenerateInSteps(st: State, packet: Packet, interArrival: nat, pos: nat, last: nat)
    requires st.WellFormed() && packet.chunk == st.tip
    requires pos == st.tip % st.size && last == if pos == 0 then st.size - 1 else pos - 1
    ensures last < st.size
    ensures var stored := st.(slots := st.slots[pos := Slot(Some(packet), false)]);
            var slots := if stored.slots[last].packet.Some?
                         then stored.slots[last := Complete(stored.slots[last], interArrival)] else stored.slots;
            Generate(st, packet, interArrival) == st.(slots := slots, tip := Succ(st.tip, st.size))
  {
    hide Succ, Complete;
  }

  /** `Accept` in the order in which the code does it. */
  lemma AcceptInSteps(st: State, packet: Packet, i: nat, stored: Packet, pos: nat)
    requires st.WellFormed() && i < |st.requests| && pos == packet.chunk % st.size
    requires stored == packet.(hop := (packet.hop + 1) % 256,
                               tries := (packet.tries + |st.requests[i].attempts|) % 256)
    ensures pos < st.size
    ensures Accept(st, packet, i)
            == st.(requests := st.requests[..i] + st.requests[i + 1..],
                   slots := st.slots[pos := Slot(Some(stored), true)], tip := Max(st.tip, packet.chunk))
  {}

  class Client {
    const BUFFER_SIZE: nat
    const mediaBuffer: MediaBuffer
    const requestPosition: ChunkUniqueID
    const latestReceivedPosition: ChunkUniqueID
    const playerDeliveryPosition: ChunkUniqueID
    var maxRequestAttempt: int
    var requestList: seq<Request>
    var chunksPlayed: nat
    var chunksMissed: int
    // The locals of the player loop, which live across its iterations.
    var waitTime: nat
    var maxWaitTime: nat

    ghost function Footprint(): set<object>
      reads this
    {
      {this, requestPosition, latestReceivedPosition, playerDeliveryPosition}
      + mediaBuffer.Repr() + set r | r in requestList
    }

    ghost predicate Valid()
      reads this, Footprint()
    {
      && 0 < BUFFER_SIZE < 0x1_0000
      && mediaBuffer.Valid() && mediaBuffer.maxBufferSize == BUFFER_SIZE
      && requestPosition.Valid() && requestPosition.bufferSize == BUFFER_SIZE
      && latestReceivedPosition.Valid() && latestReceivedPosition.bufferSize == BUFFER_SIZE
      && playerDeliveryPosition.Valid() && playerDeliveryPosition.bufferSize == BUFFER_SIZE
      && requestPosition != latestReceivedPosition
      && requestPosition != playerDeliveryPosition
      && latestReceivedPosition != playerDeliveryPosition
      && ValidRequests(requestList)
    }

    ghost predicate ValidRequests(requests: seq<Request>) {
      && (forall i :: 0 <= i < |requests| ==> requests[i].Valid(BUFFER_SIZE))
      && (forall i, j :: 0 <= i < j < |requests| ==> requests[i] != requests[j])
    }

    ghost predicate ValidPartners(partners: seq<Partner>) {
      forall i :: 0 <= i < |partners| ==> partners[i].Valid(BUFFER_SIZE)
    }

    ghost function View(): (st: State)
      requires Valid()
      reads this, Footprint()
      ensures st.WellFormed()
    {
      State(BUFFER_SIZE, maxRequestAttempt,
            requestPosition.Linear(), latestReceivedPosition.Linear(), playerDeliveryPosition.Linear(),
            mediaBuffer.View(), Views(requestList), waitTime, maxWaitTime, chunksPlayed, chunksMissed)
    }

    constructor (bufferSize: nat, maxRequestAttempt: int, first: ChunkId)
      requires 0 < bufferSize < 0x1_0000 && first.Valid() && first.size == bufferSize
      ensures Valid() && fresh(Footprint())
      ensures View() == Connected(bufferSize, maxRequestAttempt, first.Linear())
    {
      hide MediaBuffer.Valid, MediaBuffer.View;
      BUFFER_SIZE := bufferSize;
      this.maxRequestAttempt := maxRequestAttempt;
      mediaBuffer := new MediaBuffer(bufferSize);
      requestPosition := new ChunkUniqueID(first.cycle, first.position, bufferSize);
      latestReceivedPosition := new ChunkUniqueID(0, 0, bufferSize);
      playerDeliveryPosition := new ChunkUniqueID(first.cycle, first.position, bufferSize);
      requestList := [];
      chunksPlayed := 0;
      chunksMissed := -1;
      waitTime := 0;
      maxWaitTime := MAX_WAIT;
      new;
      assert fresh(mediaBuffer.Repr());
      hide Valid, View, Connected, MediaBuffer.Repr;
      assert Footprint()
             == {this, requestPosition, latestReceivedPosition, playerDeliveryPosition} + mediaBuffer.Repr();
      StartsConnected(first);
    }

    lemma StartsConnected(first: ChunkId)
      requires 0 < BUFFER_SIZE < 0x1_0000 && first.Valid() && first.size == BUFFER_SIZE
      requires mediaBuffer.Valid() && mediaBuffer.maxBufferSize == BUFFER_SIZE
      requires mediaBuffer.View() == seq(BUFFER_SIZE, _ => Slot(None, false))
      requires requestPosition.Value() == first == playerDeliveryPosition.Value()
      requires latestReceivedPosition.Value() == ChunkId(0, 0, BUFFER_SIZE)
      requires requestPosition != latestReceivedPosition && requestPosition != playerDeliveryPosition
      requires latestReceivedPosition != playerDeliveryPosition
      requires requestList == [] && waitTime == 0 && maxWaitTime == MAX_WAIT
      requires chunksPlayed == 0 && chunksMissed == -1
      ensures Valid() && View() == Connected(BUFFER_SIZE, maxRequestAttempt, first.Linear())
    {
      hide MediaBuffer.Valid, MediaBuffer.View;
    }

    method AdvanceRequestPosition()
      requires requestPosition.Valid() && requestPosition.bufferSize == BUFFER_SIZE
      modifies requestPosition
      ensures requestPosition.Valid() && requestPosition.bufferSize == BUFFER_SIZE
      ensures requestPosition.Linear() == Succ(old(requestPosition.Linear()), BUFFER_SIZE)
      ensures requestPosition.position == requestPosition.Linear() % BUFFER_SIZE
    {
      requestPosition.IncID();
      requestPosition.Value().LinearParts();
    }

    method EnqueueRequest(request: Request)
      requires Valid() && request !in requestList && request.Valid(BUFFER_SIZE)
      requires request.View() == Req(requestPosition.Linear(), REQUEST_TTL, [])
      modifies this`requestList, requestPosition, mediaBuffer.available
      ensures Valid() && requestList == old(requestList) + [request]
      ensures View() == PlaceRequest(old(View()), true)
    {
      ghost var before := View();
      requestList := requestList + [request];
      AdvanceRequestPosition();
      mediaBuffer.UnsetAvailable(requestPosition.position);
      assert Views(requestList) == before.requests + [Req(before.request, REQUEST_TTL, [])];
    }

    method CriaRequest(peerActiveIn: seq<Partner>) returns (newRequest: Request)
      requires Valid() && ValidPartners(peerActiveIn)
      ensures Valid() && View() == old(View())
      ensures fresh(newRequest) && newRequest.Valid(BUFFER_SIZE)
      ensures newRequest.View() == Req(requestPosition.Linear(), REQUEST_TTL, [])
      ensures newRequest.peers == Candidates(requestPosition.Value(), peerActiveIn)
    {
      hide MediaBuffer.Valid, MediaBuffer.View;
      newRequest := new Request(requestPosition.Value());
      newRequest.SearchPeers(peerActiveIn);
    }

    /** `MontarListaPedidos` calls this once per loop iteration, before `FazPedidos`. */
    method ColocarNaListaDePedidos(peerActiveIn: seq<Partner>) returns (found: bool)
      requires Valid() && ValidPartners(peerActiveIn)
      modifies this`requestList, requestPosition, mediaBuffer.available
      ensures Valid() && fresh(Footprint() - old(Footprint()))
      ensures found == (Candidates(old(requestPosition.Value()), peerActiveIn) != [])
      ensures View() == PlaceRequest(old(View()), found)
    {
      var request := CriaRequest(peerActiveIn);
      found := |request.peers| > 0;
      if found {
        EnqueueRequest(request);
      }
    }

    /** Returns the request messages, in the order in which they are handed to the UDP queue. */
    method FazPedidos(stepInMs: int, peerActiveIn: seq<Partner>, playerBufferDuration: nat, pick: nat -> nat)
      returns (sent: seq<SentRequest>)
      requires Valid() && ValidPartners(peerActiveIn)
      modifies this`requestList, requestList
      ensures Valid()
      ensures View() == PassRequests(old(View()), AskOne(peerActiveIn, BUFFER_SIZE, pick), playerBufferDuration,
                                     stepInMs)
      ensures sent == SentForAll(Cleanup(old(View()).requests, maxRequestAttempt, playerBufferDuration),
                                 AskOne(peerActiveIn, BUFFER_SIZE, pick), old(View()).player)
      ensures IsOutbox(sent, Cleanup(old(View()).requests, maxRequestAttempt, playerBufferDuration), View().requests,
                       old(View()).player)
    {
      hide IsOutbox;
      hide MediaBuffer.Valid, MediaBuffer.View, Cleanup, AskAll, ChunkId.Linear, Views, SentForAll, AskOne;
      hide ChunkUniqueID.Valid, Request.Valid, Request.View;
      ghost var before := View();
      var list, messages := PassOver(requestList, BUFFER_SIZE, maxRequestAttempt, playerBufferDuration, stepInMs,
                                     peerActiveIn, pick, playerDeliveryPosition.Value().Linear());
      requestList, sent := list, messages;
      assert mediaBuffer.Valid();
      assert ValidRequests(requestList);
      assert Valid();
      assert View().slots == before.slots;
      assert View() == before.(requests := Views(requestList));
      SentMakesOutbox(Cleanup(before.requests, maxRequestAttempt, playerBufferDuration),
                      AskOne(peerActiveIn, BUFFER_SIZE, pick), stepInMs, before.player);
    }

    // ---------- Receiving and serving ----------

    method FindCorrespondentRequest(receivedChunk: ChunkId) returns (i: nat)
      requires Valid() && receivedChunk.Valid() && receivedChunk.size == BUFFER_SIZE
      ensures Valid() && View() == old(View())
      ensures i == FindRequest(View().requests, receivedChunk.Linear())
    {
      hide MediaBuffer.Valid, MediaBuffer.View;
      i := 0;
      while i < |requestList|
        invariant i <= |requestList|
        invariant forall j :: 0 <= j < i ==> Views(requestList)[j].chunk != receivedChunk.Linear()
      {
        ComparisonsAreLinear(requestList[i].chunkUID, receivedChunk);
        if requestList[i].chunkUID.Equals(receivedChunk) {
          break;
        }
        i := i + 1;
      }
    }

    method WasAsked(i: nat, sourceAddress: string) returns (found: bool)
      requires Valid() && i < |requestList|
      ensures Valid() && View() == old(View())
      ensures found <==> sourceAddress in View().requests[i].attempts
    {
      found := false;
      var attempts := requestList[i].attempts;
      for k := 0 to |attempts|
        invariant !found && sourceAddress !in attempts[..k]
      {
        if attempts[k] == sourceAddress {
          return true;
        }
      }
    }

    /** A copy of a chunk that is available, or of an older chunk than the slot has seen. */
    method IsDuplicateOrLate(receivedChunk: ChunkId) returns (r: bool)
      requires Valid() && receivedChunk.Valid() && receivedChunk.size == BUFFER_SIZE
      ensures Valid() && View() == old(View())
      ensures r == AlreadyReceived(View(), receivedChunk.Linear())
    {
      receivedChunk.LinearParts();
      var available := mediaBuffer.Available(receivedChunk.position);
      var id := mediaBuffer.GetID(receivedChunk.position);
      r := (available && receivedChunk.cycle == id) || receivedChunk.cycle < id;
    }

    method HandleDataMessage(message: DataMessage, sourceAddress: string, isIn: bool)
      returns (messageReply: Option<MessageReply>)
      requires Valid() && message.position < BUFFER_SIZE && message.cycle < 0x1_0000_0000
      modifies this`requestList, latestReceivedPosition, mediaBuffer.Repr()
      ensures Valid()
      ensures View() == ReceiveData(old(View()), message.ToPacket(BUFFER_SIZE), sourceAddress, isIn)
      ensures messageReply == if isIn then None else Some(ErrorNoPartnership)
    {
      ViewShape();
      hide Valid, View, AlreadyReceived, FindRequest, Accept;
      var receivedChunk := ChunkId(message.cycle, message.position, BUFFER_SIZE);
      receivedChunk.LinearParts();
      messageReply := if isIn then None else Some(ErrorNoPartnership);
      if isIn {
        var duplicate := IsDuplicateOrLate(receivedChunk);
        if !duplicate {
          var i := FindCorrespondentRequest(receivedChunk);
          ViewShape();
          if i < |requestList| {
            var asked := WasAsked(i, sourceAddress);
            if asked {
              ViewShape();
              StoreChunk(message, receivedChunk, i);
            }
          }
        }
      }
    }

    /** What `View` says about the plain fields. */
    lemma ViewShape()
      requires Valid()
      ensures 0 < BUFFER_SIZE < 0x1_0000 && View().size == BUFFER_SIZE
      ensures View().requests == Views(requestList)
      ensures View().waitTime == waitTime && View().maxWait == maxWaitTime
    {}

    method InsertChunk(message: DataMessage, available: bool)
      requires Valid() && message.position < BUFFER_SIZE
      modifies mediaBuffer.Repr()
      ensures Valid()
      ensures View() == old(View()).(slots := old(View()).slots[message.position :=
                                                Slot(Some(message.ToPacket(BUFFER_SIZE)), available)])
    {
      hide MediaBuffer.Valid, MediaBuffer.View;
      mediaBuffer.Insert(message, available);
    }

    method AdvanceTip()
      requires Valid()
      modifies latestReceivedPosition
      ensures Valid() && View() == old(View()).(tip := Succ(old(View()).tip, BUFFER_SIZE))
    {
      hide MediaBuffer.Valid, MediaBuffer.View;
      latestReceivedPosition.IncID();
    }

    method AdvancePlayer()
      requires Valid()
      modifies playerDeliveryPosition
      ensures Valid() && View() == old(View()).(player := Succ(old(View()).player, BUFFER_SIZE))
    {
      hide MediaBuffer.Valid, MediaBuffer.View;
      playerDeliveryPosition.IncID();
    }

    /** The accepting branch: close request `i`, update the header and store the chunk. */
    method StoreChunk(message: DataMessage, receivedChunk: ChunkId, i: nat)
      requires Valid() && receivedChunk.Valid() && i < |requestList|
      requires receivedChunk == ChunkId(message.cycle, message.position, BUFFER_SIZE)
      modifies this`requestList, latestReceivedPosition, mediaBuffer.Repr()
      ensures Valid()
      ensures View() == Accept(old(View()), message.ToPacket(BUFFER_SIZE), i)
    {
      PacketFacts(message, receivedChunk, i);
      var tries := (message.tries + |requestList[i].attempts|) % 256;
      var hop := (message.hop + 1) % 256;
      var updated := message.(tries := tries, hop := hop);
      AcceptInSteps(View(), message.ToPacket(BUFFER_SIZE), i, updated.ToPacket(BUFFER_SIZE), message.position);
      hide *;
      RemoveRequest(i);
      InsertChunk(updated, true);
      RaiseTip(receivedChunk);
    }

    lemma PacketFacts(message: DataMessage, receivedChunk: ChunkId, i: nat)
      requires Valid() && receivedChunk.Valid() && i < |requestList|
      requires receivedChunk == ChunkId(message.cycle, message.position, BUFFER_SIZE)
      ensures View().size == BUFFER_SIZE && |View().requests| == |requestList|
      ensures View().requests[i].attempts == requestList[i].attempts
      ensures message.position < BUFFER_SIZE
      ensures var packet := message.ToPacket(BUFFER_SIZE);
              && packet.chunk == receivedChunk.Linear() && packet.chunk % BUFFER_SIZE == message.position
              && packet.hop == message.hop && packet.tries == message.tries
              && forall hop, tries :: message.(tries := tries, hop := hop).ToPacket(BUFFER_SIZE)
                                      == packet.(hop := hop, tries := tries)
    {
      receivedChunk.LinearParts();
    }

    method RemoveRequest(i: nat)
      requires Valid() && i < |requestList|
      modifies this`requestList
      ensures Valid()
      ensures View() == old(View()).(requests := old(View()).requests[..i] + old(View()).requests[i + 1..])
    {
      hide MediaBuffer.Valid, MediaBuffer.View;
      requestList := requestList[..i] + requestList[i + 1..];
      assert Views(requestList) == old(Views(requestList))[..i] + old(Views(requestList))[i + 1..];
    }

    method RaiseTip(receivedChunk: ChunkId)
      requires Valid() && receivedChunk.Valid() && receivedChunk.size == BUFFER_SIZE
      modifies latestReceivedPosition
      ensures Valid() && View() == old(View()).(tip := Max(old(View()).tip, receivedChunk.Linear()))
    {
      hide MediaBuffer.Valid, MediaBuffer.View, ChunkId.Linear;
      ComparisonsAreLinear(receivedChunk, latestReceivedPosition.Value());
      if receivedChunk.Greater(latestReceivedPosition.Value()) {
        latestReceivedPosition.Assign(receivedChunk);
      }
    }

    method HandleRequestMessage(requestedChunk: ChunkId, isOut: bool) returns (messageReply: MessageReply)
      requires Valid() && requestedChunk.Valid() && requestedChunk.size == BUFFER_SIZE
      ensures match messageReply
              case DataReply(message) =>
                Serve(View(), requestedChunk.Linear(), isOut) == Data(message.ToPacket(BUFFER_SIZE))
              case ErrorChunkUnavailable => Serve(View(), requestedChunk.Linear(), isOut) == ChunkUnavailable
              case ErrorNoPartnership => Serve(View(), requestedChunk.Linear(), isOut) == NoPartnership
    {
      if !isOut {
        return ErrorNoPartnership;
      }
      requestedChunk.LinearParts();
      WindowIsOneLap(latestReceivedPosition.Value(), requestedChunk);
      var available := mediaBuffer.Available(requestedChunk.position);
      if available && latestReceivedPosition.Value().GreaterEq(requestedChunk) {
        var difference := Minus(latestReceivedPosition.Value(), requestedChunk);
        if difference.cycle == 0 {
          var message := mediaBuffer.Get(requestedChunk.position);
          return DataReply(message.value);
        }
      }
      messageReply := ErrorChunkUnavailable;
    }

    // ---------- Playing ----------

    method SoftResetPlayer(initialOffset: nat)
      requires Valid()
      modifies this`requestList, this`chunksMissed, this`chunksPlayed, this`maxWaitTime, playerDeliveryPosition
      ensures Valid() && View() == SoftReset(old(View()), initialOffset)
    {
      hide MediaBuffer.Valid, MediaBuffer.View, ChunkId.Back, ChunkId.Minus, ChunkId.Linear;
      var tip, player := latestReceivedPosition.Value(), playerDeliveryPosition.Value();
      ComparisonsAreLinear(tip, player);
      WindowIsOneLap(tip, player);
      if tip.Greater(player) {
        var difference := Minus(tip, player);
        if difference.cycle > 0 {
          Restart(initialOffset);
        }
      }
    }

    /** Back to the tip, less the offset. */
    method Restart(initialOffset: nat)
      requires Valid()
      modifies this`requestList, this`chunksMissed, this`chunksPlayed, this`maxWaitTime, playerDeliveryPosition
      ensures Valid()
      ensures View() == old(View()).(player := At(old(View()).tip, BUFFER_SIZE).Back(initialOffset).Linear(),
                                     requests := [], missed := -1, played := 0, maxWait := MAX_WAIT)
    {
      hide MediaBuffer.Valid, MediaBuffer.View, ChunkId.Back, ChunkId.Minus, ChunkId.Linear;
      var tip := latestReceivedPosition.Value();
      AtLinear(tip);
      playerDeliveryPosition.Set(tip.cycle, tip.position);
      var back := MinusInt(playerDeliveryPosition.Value(), initialOffset);
      playerDeliveryPosition.Assign(back);
      chunksMissed := -1;
      chunksPlayed := 0;
      maxWaitTime := MAX_WAIT;
      requestList := [];
      assert Valid();
      assert Views(requestList) == [];
    }

    /** One iteration of the player loop. A failed write ends `FeedPlayer`; the loop around it starts
      * it afresh, with its locals reset. */
    method FeedPlayerIteration(initialOffset: nat, playerEnabled: bool, written: bool)
      returns (handed: Option<DataMessage>, quit: bool)
      requires Valid()
      modifies this, playerDeliveryPosition
      ensures Valid() && View() == FeedPlayer(old(View()), initialOffset, playerEnabled, written).0
      ensures var outcome := FeedPlayer(old(View()), initialOffset, playerEnabled, written).1;
              && (outcome.Played? <==> handed.Some?) && (outcome.Closed? <==> quit)
              && (handed.Some? ==> outcome.packet == handed.value.ToPacket(BUFFER_SIZE))
    {
      SoftResetPlayer(initialOffset);
      handed, quit := PlayOrWait(playerEnabled, written);
    }

    method PlayOrWait(playerEnabled: bool, written: bool) returns (handed: Option<DataMessage>, quit: bool)
      requires Valid()
      modifies this`chunksMissed, this`chunksPlayed, this`waitTime, this`maxWaitTime, playerDeliveryPosition
      ensures Valid() && View() == Pipeline.PlayOrWait(old(View()), playerEnabled, written).0
      ensures var outcome := Pipeline.PlayOrWait(old(View()), playerEnabled, written).1;
              && (outcome.Played? <==> handed.Some?) && (outcome.Closed? <==> quit)
              && (handed.Some? ==> outcome.packet == handed.value.ToPacket(BUFFER_SIZE))
    {
      hide Valid, View, Succ;
      handed, quit := None, false;
      var posMedia, atTip, behind, playable := PlayerStatus();
      ViewShape();
      if atTip {
        SetWaits(waitTime, MAX_WAIT);
      }
      ViewShape();
      if playable {
        if playerEnabled && !written {
          SetWaits(0, MAX_WAIT);
          quit := true;
        } else {
          handed := MessageAt(posMedia);
          CountPlayed(posMedia);
        }
      } else if waitTime < maxWaitTime {
        SetWaits(waitTime + PLAYER_SLEEP, maxWaitTime);
      } else if behind {
        CountMissed();
      }
    }

    method SetWaits(newWaitTime: nat, newMaxWaitTime: nat)
      requires Valid()
      modifies this`waitTime, this`maxWaitTime
      ensures Valid() && View() == old(View()).(waitTime := newWaitTime, maxWait := newMaxWaitTime)
    {
      hide MediaBuffer.Valid, MediaBuffer.View;
      waitTime, maxWaitTime := newWaitTime, newMaxWaitTime;
    }

    /** The player's position against the tip, and whether its chunk can be played. */
    method PlayerStatus() returns (posMedia: nat, atTip: bool, behind: bool, playable: bool)
      requires Valid()
      ensures Valid() && View() == old(View())
      ensures posMedia == View().player % BUFFER_SIZE < BUFFER_SIZE
      ensures atTip <==> View().tip == View().player
      ensures behind <==> View().player < View().tip
      ensures playable <==> View().tip >= View().player && View().slots[posMedia].Ready()
    {
      var tip, player := latestReceivedPosition.Value(), playerDeliveryPosition.Value();
      ComparisonsAreLinear(tip, player);
      player.LinearParts();
      posMedia := player.position;
      atTip := tip.Equals(player);
      behind := player.Less(tip);
      playable := mediaBuffer.Available(posMedia);
      playable := tip.GreaterEq(player) && playable;
    }

    method MessageAt(pos: nat) returns (message: Option<DataMessage>)
      requires Valid() && pos < BUFFER_SIZE
      ensures Valid() && View() == old(View())
      ensures View().slots[pos].packet == if message.None? then None else Some(message.value.ToPacket(BUFFER_SIZE))
    {
      message := mediaBuffer.Get(pos);
    }

    method CountPlayed(posMedia: nat)
      requires Valid()
      modifies this`chunksMissed, this`chunksPlayed, this`waitTime, playerDeliveryPosition
      ensures Valid()
      ensures var st := old(View());
              View() == st.(played := st.played + 1, player := Succ(st.player, BUFFER_SIZE), waitTime := 0,
                            missed := if posMedia % 500 == 0 && st.missed < 0 then 0 else st.missed)
    {
      hide MediaBuffer.Valid, MediaBuffer.View;
      if posMedia % 500 == 0 {
        if chunksMissed < 0 {
          chunksMissed := 0;
        }
      }
      chunksPlayed := chunksPlayed + 1;
      AdvancePlayer();
      waitTime := 0;
    }

    method CountMissed()
      requires Valid()
      modifies this`chunksMissed, this`waitTime, this`maxWaitTime, playerDeliveryPosition
      ensures Valid()
      ensures var st := old(View());
              View() == st.(player := Succ(st.player, BUFFER_SIZE), waitTime := 0, maxWait := MAX_WAIT_AFTER_MISS,
                            missed := (if st.missed < 0 then 0 else st.missed) + 1)
    {
      hide MediaBuffer.Valid, MediaBuffer.View;
      AdvancePlayer();
      if chunksMissed < 0 {
        chunksMissed := 0;
      }
      chunksMissed := chunksMissed + 1;
      maxWaitTime := MAX_WAIT_AFTER_MISS;
      waitTime := 0;
    }

    // ---------- The source ----------

    /** One iteration of `GerarDados`, for one packet of the media stream. */
    method GerarDadosIteration(body: seq<nat>, now: nat, sampleInterArrivalTime: nat)
      requires Valid()
      modifies latestReceivedPosition, mediaBuffer.Repr()
      ensures Valid()
      ensures View() == Generate(old(View()), Packet(old(View()).tip, 0, 0, now, 0, body), sampleInterArrivalTime)
    {
      var latest := latestReceivedPosition.Value();
      latest.LinearParts();
      assert View().tip == latest.Linear() && View().size == BUFFER_SIZE == latest.size && latest.Valid();
      var chunk := DataMessage(0, 0, latest.cycle, latest.position, now, 0, body);
      var lastChunkPosition := latest.position - 1;
      if lastChunkPosition < 0 {
        lastChunkPosition := lastChunkPosition + latest.size;
      }
      GenerateInSteps(View(), chunk.ToPacket(BUFFER_SIZE), sampleInterArrivalTime, latest.position, lastChunkPosition);
      hide *;
      InsertChunk(chunk, false);
      CompletePredecessor(lastChunkPosition, sampleInterArrivalTime);
      AdvanceTip();
    }

    method CompletePredecessor(last: nat, sampleInterArrivalTime: nat)
      requires Valid() && last < BUFFER_SIZE
      modifies mediaBuffer.Repr()
      ensures Valid()
      ensures View() == old(View()).(slots :=
                          if old(View()).slots[last].packet.Some?
                          then old(View()).slots[last := Complete(old(View()).slots[last], sampleInterArrivalTime)]
                          else old(View()).slots)
    {
      var message := MessageAt(last);
      if message.Some? {
        if sampleInterArrivalTime != 0 {
          SetDurationAt(last, sampleInterArrivalTime);
        }
        SetAvailableAt(last);
      }
    }

    method SetDurationAt(pos: nat, duration: nat)
      requires Valid() && pos < BUFFER_SIZE && View().slots[pos].packet.Some?
      modifies mediaBuffer.Repr()
      ensures Valid()
      ensures var slot := old(View()).slots[pos];
              View() == old(View()).(slots := old(View()).slots[pos :=
                          slot.(packet := Some(slot.packet.value.(duration := duration)))])
    {
      hide MediaBuffer.Valid, MediaBuffer.View;
      mediaBuffer.SetDuration(pos, duration);
    }

    method SetAvailableAt(pos: nat)
      requires Valid() && pos < BUFFER_SIZE
      modifies mediaBuffer.Repr()
      ensures Valid()
      ensures View() == old(View()).(slots := old(View()).slots[pos := old(View()).slots[pos].(available := true)])
    {
      hide MediaBuffer.Valid, MediaBuffer.View;
      mediaBuffer.SetAvailable(pos);
    }
  }
}
