/** A chunk request and the search for partners that can answer it. */
module Requests {
  import opened Options
  import opened ChunkIds
  import opened Pipeline

  /** A partner this client downloads from: its announced chunk map and tip, and whether the
    * free-rider throttle currently excludes it. */
  datatype Partner = Partner(id: string, chunkMap: seq<bool>, head: ChunkId, throttled: bool) {
    ghost predicate Valid(size: nat) {
      |chunkMap| == size && head.Valid() && head.size == size
    }
  }

  /** The partner announces the chunk, and its tip is at most one lap ahead of it. */
  predicate CanServe(p: Partner, chunk: ChunkId)
    requires chunk.position < |p.chunkMap| && chunk.position < chunk.size == p.head.size
    requires p.head.position < p.head.size
  {
    p.chunkMap[chunk.position] && WithinOneCycle(p.head, chunk) && !p.throttled
  }

  function Candidates(chunk: ChunkId, partners: seq<Partner>): seq<string>
    requires chunk.Valid() && forall i :: 0 <= i < |partners| ==> partners[i].Valid(chunk.size)
  {
    if partners == [] then []
    else
      var last := |partners| - 1;
      assert partners[last].Valid(chunk.size);
      Candidates(chunk, partners[..last]) + if CanServe(partners[last], chunk) then [partners[last].id] else []
  }

  /** A chosen candidate really is a partner whose window `(tip - size, tip]` covers the chunk and
    * whose map bit for it is set. */
  lemma {:induction false} CandidateHasChunkInWindow(chunk: ChunkId, partners: seq<Partner>, name: string)
    requires chunk.Valid() && forall i :: 0 <= i < |partners| ==> partners[i].Valid(chunk.size)
    ensures name in Candidates(chunk, partners) <==>
              exists i :: 0 <= i < |partners| && partners[i].id == name && !partners[i].throttled
                          && partners[i].chunkMap[chunk.position]
                          && chunk.Linear() <= partners[i].head.Linear() < chunk.Linear() + chunk.size
  {
    if partners != [] {
      var last := |partners| - 1;
      CandidateHasChunkInWindow(chunk, partners[..last], name);
      WindowIsOneLap(partners[last].head, chunk);
      assert forall i :: 0 <= i < last ==> partners[..last][i] == partners[i];
      if exists i :: 0 <= i < |partners| && partners[i].id == name && !partners[i].throttled
                          && partners[i].chunkMap[chunk.position]
                          && chunk.Linear() <= partners[i].head.Linear() < chunk.Linear() + chunk.size {
        var i :| 0 <= i < |partners| && partners[i].id == name && !partners[i].throttled
                          && partners[i].chunkMap[chunk.position]
                          && chunk.Linear() <= partners[i].head.Linear() < chunk.Linear() + chunk.size;
        if i < last {
          assert partners[..last][i].id == name;
        }
      }
    }
  }

  /** The partner the scheduling strategy settles on: some candidate, if there is one. */
  function Choose(candidates: seq<string>, pick: nat): Option<string> {
    if candidates == [] then None else Some(candidates[pick % |candidates|])
  }

  class Request {
    const chunkUID: ChunkId
    var ttl: int
    var attempts: seq<string>
    var peers: seq<string>

    ghost predicate Valid(size: nat) {
      chunkUID.Valid() && chunkUID.size == size
    }

    ghost function View(): Req
      reads this
    {
      Req(chunkUID.Linear(), ttl, attempts)
    }

    constructor (chunkUID: ChunkId)
      ensures this.chunkUID == chunkUID && View() == Req(chunkUID.Linear(), REQUEST_TTL, [])
    {
      this.chunkUID := chunkUID;
      this.ttl := REQUEST_TTL;
      this.attempts := [];
      this.peers := [];
    }

    method SearchPeers(peerActive: seq<Partner>)
      requires chunkUID.Valid() && forall i :: 0 <= i < |peerActive| ==> peerActive[i].Valid(chunkUID.size)
      modifies this`peers
      ensures peers == Candidates(chunkUID, peerActive)
    {
      peers := [];
      for j := 0 to |peerActive|
        invariant peers == Candidates(chunkUID, peerActive[..j])
      {
        var peer := peerActive[j];
        assert peerActive[..j + 1][..j] == peerActive[..j];
        if peer.chunkMap[chunkUID.position] {
          var theirChunk := peer.head;
          if theirChunk.GreaterEq(chunkUID) {
            var difference := Minus(theirChunk, chunkUID);
            if difference.cycle == 0 && !peer.throttled {
              peers := peers + [peer.id];
            }
          }
        }
      }
      assert peerActive[..|peerActive|] == peerActive;
    }

    method GetPeer(pick: nat) returns (chosen: Option<string>)
      ensures chosen == Choose(peers, pick)
    {
      chosen := Choose(peers, pick);
    }

    method CreateAttempt(chosenPeer: string)
      modifies this`attempts
      ensures attempts == old(attempts) + [chosenPeer]
    {
      attempts := attempts + [chosenPeer];
    }

    method SetTTL(ttl: int)
      modifies this`ttl
      ensures this.ttl == ttl
    {
      this.ttl := ttl;
    }

    method DecTTL(diffTtl: int)
      modifies this`ttl
      ensures ttl == old(ttl) - diffTtl
    {
      ttl := ttl - diffTtl;
    }
  }
}
