/** The closest-deadline-first scheduler: control messages first, then chunk requests by their
  * distance to the requester's playback position. */
module ClosestDeadline {
  import opened Arith
  import opened Options
  import opened ChunkIds

  datatype Message = Control(id: nat) | ChunkRequest(id: nat, chunk: ChunkId, playbackTip: ChunkId) {
    ghost predicate Valid(size: nat) {
      ChunkRequest? ==> chunk.Valid() && playbackTip.Valid() && chunk.size == playbackTip.size == size
    }

    /** The multimap key: how far the chunk is ahead of the playback position, as `operator-` has it. */
    function Key(): ChunkId
      requires ChunkRequest? && chunk.position < chunk.size && playbackTip.position < playbackTip.size == chunk.size
    {
      chunk.Minus(playbackTip)
    }
  }

  type Requests = seq<Message>

  ghost predicate AllRequests(q: Requests, size: nat) {
    forall i :: 0 <= i < |q| ==> q[i].ChunkRequest? && q[i].Valid(size)
  }

  ghost function Distance(m: Message): nat
    requires m.ChunkRequest? && m.Valid(m.chunk.size)
  {
    m.Key().Linear()
  }

  /** `multimap::insert`: after every entry whose key is not greater. */
  function Insert(q: Requests, m: Message, ghost size: nat): (r: Requests)
    requires AllRequests(q, size) && m.ChunkRequest? && m.Valid(size)
    ensures AllRequests(r, size) && |r| == |q| + 1
  {
    if q == [] || m.Key().Less(q[0].Key()) then [m] + q else [q[0]] + Insert(q[1..], m, size)
  }

  // ---------- The abstract scheduler: messages in arrival order ----------

  /** The pending requests in arrival order, sorted stably by distance. */
  ghost function StableSort(arrived: Requests, size: nat): (r: Requests)
    requires AllRequests(arrived, size)
    ensures AllRequests(r, size) && |r| == |arrived|
  {
    if arrived == [] then []
    else
      var last := |arrived| - 1;
      Insert(StableSort(arrived[..last], size), arrived[last], size)
  }

  /** `i` is the request with the least distance, the earliest arrived among equals. */
  ghost predicate IsNextRequest(arrived: Requests, i: nat, size: nat)
    requires AllRequests(arrived, size)
  {
    && i < |arrived|
    && (forall j :: 0 <= j < i ==> Distance(arrived[i]) < Distance(arrived[j]))
    && (forall j :: i < j < |arrived| ==> Distance(arrived[i]) <= Distance(arrived[j]))
  }

  lemma KeyOrder(a: Message, b: Message, size: nat)
    requires a.ChunkRequest? && b.ChunkRequest? && a.Valid(size) && b.Valid(size)
    ensures a.Key().Less(b.Key()) <==> Distance(a) < Distance(b)
  {
    a.Key().LinearOrder(b.Key());
  }

  ghost function Without(q: Requests, i: nat): Requests
    requires i < |q|
  {
    q[..i] + q[i + 1..]
  }

  lemma SortSnoc(before: Requests, x: Message, size: nat)
    requires AllRequests(before, size) && x.ChunkRequest? && x.Valid(size)
    ensures StableSort(before + [x], size) == Insert(StableSort(before, size), x, size)
  {
    assert (before + [x])[..|before|] == before;
  }

  lemma NextStays(before: Requests, x: Message, k: nat, size: nat)
    requires AllRequests(before, size) && x.ChunkRequest? && x.Valid(size)
    requires IsNextRequest(before, k, size) && Distance(before[k]) <= Distance(x)
    ensures IsNextRequest(before + [x], k, size)
  {
    hide Distance;
  }

  lemma InsertBehindFront(s: Requests, x: Message, size: nat)
    requires AllRequests(s, size) && s != [] && x.ChunkRequest? && x.Valid(size) && !x.Key().Less(s[0].Key())
    ensures Insert(s, x, size)[0] == s[0] && Insert(s, x, size)[1..] == Insert(s[1..], x, size)
  {}

  lemma WithoutSnoc(before: Requests, x: Message, k: nat)
    requires k < |before|
    ensures Without(before + [x], k) == Without(before, k) + [x]
  {}

  /** Extending the arrivals by a request that is not closer than the front `f` keeps the front, and
    * sorts the request into the rest. */
  lemma FrontStays(sorted: Requests, rest: Requests, before: Requests, x: Message, size: nat)
    requires AllRequests(before, size) && x.ChunkRequest? && x.Valid(size) && AllRequests(rest, size)
    requires sorted == StableSort(before, size) && sorted != [] && Distance(sorted[0]) <= Distance(x)
    requires StableSort(rest, size) == sorted[1..]
    ensures StableSort(before + [x], size)[0] == sorted[0]
    ensures StableSort(rest + [x], size) == StableSort(before + [x], size)[1..]
  {
    KeyOrder(x, sorted[0], size);
    InsertBehindFront(sorted, x, size);
    hide Distance, StableSort, Insert, Message.Key, ChunkId.Less;
    SortSnoc(before, x, size);
    SortSnoc(rest, x, size);
  }

  /** A request closer than the front becomes the front. */
  lemma FrontChanges(before: Requests, x: Message, k: nat, size: nat)
    requires AllRequests(before, size) && x.ChunkRequest? && x.Valid(size)
    requires IsNextRequest(before, k, size) && Distance(x) < Distance(before[k])
    requires StableSort(before, size)[0] == before[k]
    ensures IsNextRequest(before + [x], |before|, size)
    ensures StableSort(before + [x], size)[0] == x
    ensures StableSort(Without(before + [x], |before|), size) == StableSort(before + [x], size)[1..]
  {
    KeyOrder(x, before[k], size);
    hide Distance;
    SortSnoc(before, x, size);
    assert Without(before + [x], |before|) == before;
  }

  /** Request `i` is the next by deadline, and it is the front of the sorted queue, whose rest is the
    * sorted rest of the arrivals. */
  ghost predicate IsFront(arrived: Requests, i: nat, size: nat) {
    && AllRequests(arrived, size) && i < |arrived|
    && IsNextRequest(arrived, i, size)
    && StableSort(arrived, size)[0] == arrived[i]
    && StableSort(Without(arrived, i), size) == StableSort(arrived, size)[1..]
  }

  /** One more arrival, from what is known of the arrivals before it. */
  lemma FrontExtends(before: Requests, x: Message, k: nat, size: nat) returns (i: nat)
    requires IsFront(before, k, size) && x.ChunkRequest? && x.Valid(size)
    ensures IsFront(before + [x], i, size)
  {
    WithoutKeepsRequests(before, k, size);
    hide Distance, IsNextRequest, StableSort, Without;
    if Distance(x) < Distance(before[k]) {
      FrontChanges(before, x, k, size);
      i := |before|;
    } else {
      NextStays(before, x, k, size);
      WithoutSnoc(before, x, k);
      FrontStays(StableSort(before, size), Without(before, k), before, x, size);
      i := k;
    }
  }

  lemma WithoutKeepsRequests(before: Requests, k: nat, size: nat)
    requires AllRequests(before, size) && k < |before|
    ensures AllRequests(Without(before, k), size)
  {}

  /** The front of the sorted queue is always the next request by deadline. */
  lemma {:induction false} FrontIsNextRequest(arrived: Requests, size: nat) returns (i: nat)
    requires AllRequests(arrived, size) && arrived != []
    ensures IsFront(arrived, i, size)
  {
    var x, before := arrived[|arrived| - 1], arrived[..|arrived| - 1];
    assert arrived == before + [x];
    if before == [] {
      i := 0;
      assert Without(arrived, 0) == [];
    } else {
      hide IsFront;
      i := FrontIsNextRequest(before, size);
      i := FrontExtends(before, x, i, size);
    }
  }

  /** For requests at or past the requester's playback position the key is the true distance. */
  lemma DistanceIsLead(m: Message, size: nat)
    requires m.ChunkRequest? && m.Valid(size)
    ensures Distance(m) == m.chunk.Linear() - m.playbackTip.Linear() <==> m.chunk.Linear() >= m.playbackTip.Linear()
  {
    MinusExact(m.chunk, m.playbackTip);
  }

  /** A request that is one chunk late is ranked behind one that is 1598 chunks early. */
  lemma LateRequestIsDeferred()
    ensures var late := ChunkRequest(0, ChunkId(2, 9, 1600), ChunkId(2, 10, 1600));
            var early := ChunkRequest(1, ChunkId(3, 8, 1600), ChunkId(2, 10, 1600));
            late.Valid(1600) && early.Valid(1600) && Distance(early) == 1598 < Distance(late)
  {
    var late := ChunkRequest(0, ChunkId(2, 9, 1600), ChunkId(2, 10, 1600));
    var early := ChunkRequest(1, ChunkId(3, 8, 1600), ChunkId(2, 10, 1600));
    MinusExact(late.chunk, late.playbackTip);
    MinusExact(early.chunk, early.playbackTip);
    LapsIsProduct(2, 1600);
    LapsIsProduct(3, 1600);
  }

  // ---------- The scheduler object ----------

  class CDFMessageScheduler {
    ghost const size: nat
    var requestQueue: Requests
    var fifoQueue: seq<Message>
    /** The pending requests in the order they were pushed. */
    ghost var arrived: Requests

    ghost predicate Valid()
      reads this
    {
      AllRequests(arrived, size) && requestQueue == StableSort(arrived, size)
    }

    constructor (ghost size: nat)
      ensures Valid() && arrived == [] && fifoQueue == [] && this.size == size
    {
      this.size := size;
      requestQueue := [];
      fifoQueue := [];
      arrived := [];
    }

    method Push(aMessage: Message)
      requires Valid() && aMessage.Valid(size)
      modifies this
      ensures Valid()
      ensures arrived == old(arrived) + if aMessage.ChunkRequest? then [aMessage] else []
      ensures fifoQueue == old(fifoQueue) + if aMessage.ChunkRequest? then [] else [aMessage]
    {
      if aMessage.ChunkRequest? {
        SortSnoc(arrived, aMessage, size);
        hide StableSort, Insert, Message.Valid;
        requestQueue := Insert(requestQueue, aMessage, size);
        arrived := arrived + [aMessage];
      } else {
        fifoQueue := fifoQueue + [aMessage];
      }
    }

    /** The oldest control message; else the request closest to its deadline, the oldest among equals. */
    method Pop() returns (aMessage: Option<Message>, ghost i: nat)
      requires Valid()
      modifies this
      ensures Valid()
      ensures aMessage.None? <==> old(fifoQueue) == [] && old(arrived) == []
      ensures old(fifoQueue) != [] ==>
                aMessage == Some(old(fifoQueue)[0]) && fifoQueue == old(fifoQueue)[1..] && arrived == old(arrived)
      ensures old(fifoQueue) == [] && old(arrived) != [] ==>
                && IsNextRequest(old(arrived), i, size) && aMessage == Some(old(arrived)[i])
                && arrived == Without(old(arrived), i) && fifoQueue == []
    {
      i := 0;
      if fifoQueue != [] {
        aMessage := Some(fifoQueue[0]);
        fifoQueue := fifoQueue[1..];
      } else if requestQueue != [] {
        i := FrontIsNextRequest(arrived, size);
        aMessage := Some(requestQueue[0]);
        requestQueue := requestQueue[1..];
        arrived := Without(arrived, i);
      } else {
        aMessage := None;
      }
    }

    method GetSize() returns (r: nat)
      requires Valid()
      ensures r == |fifoQueue| + |arrived|
    {
      r := |fifoQueue| + |requestQueue|;
    }
  }
}
