/** The active and cooldown lists of a peer manager, as a state machine. */
module Partners {
  import opened StringOrder
  import opened Ranking

  const TTL_START: int := 10
  const PEER_ACTIVE_COOLDOWN: nat := 5

  datatype PeerData = PeerData(ttlIn: int, ttlOut: int, ttlOutFree: int, sent: nat, sizeOut: int, sizeOutFree: int)

  /** Which of the three active lists a pointer designates. */
  datatype Which = In | Out | OutFree

  datatype List = List(active: set<string>, cooldown: map<string, nat>, max: nat)

  datatype State = State(peers: map<string, PeerData>, inList: List, outList: List, outFree: List, removeWorse: bool) {
    function Get(l: Which): List {
      match l
      case In => inList
      case Out => outList
      case OutFree => outFree
    }

    function Set(l: Which, list: List): State {
      match l
      case In => this.(inList := list)
      case Out => this.(outList := list)
      case OutFree => this.(outFree := list)
    }

    function AllActive(): set<string> {
      inList.active + outList.active + outFree.active
    }
  }

  function Ttl(d: PeerData, l: Which): int {
    match l
    case In => d.ttlIn
    case Out => d.ttlOut
    case OutFree => d.ttlOutFree
  }

  function WithTtl(d: PeerData, l: Which, v: int): PeerData {
    match l
    case In => d.(ttlIn := v)
    case Out => d.(ttlOut := v)
    case OutFree => d.(ttlOutFree := v)
  }

  ghost predicate ListInv(list: List, known: set<string>) {
    && |list.active| <= list.max
    && list.active !! list.cooldown.Keys
    && list.active <= known
    && forall p :: p in list.cooldown ==> 1 <= list.cooldown[p] <= PEER_ACTIVE_COOLDOWN
  }

  /** Each active list is within its maximum and disjoint from its cooldown map, active peers are known
    * peers, and cooldown values lie in 1..5. */
  ghost predicate Inv(st: State) {
    ListInv(st.inList, st.peers.Keys) && ListInv(st.outList, st.peers.Keys) && ListInv(st.outFree, st.peers.Keys)
  }

  // ---------- Connecting ----------

  /** The size a full list compares peers by. The code chooses it by comparing the *contents* of the
    * list with those of the Out-FREE list. */
  function Bandwidth(st: State, l: Which, p: string): int
    requires p in st.peers
  {
    if st.Get(l).active == st.outFree.active then st.peers[p].sizeOutFree else st.peers[p].sizeOut
  }

  ghost predicate IsWorst(st: State, l: Which, w: string)
    requires st.Get(l).active <= st.peers.Keys
  {
    var active := st.Get(l).active;
    && w in active
    && forall p :: p in active ==>
         Bandwidth(st, l, w) < Bandwidth(st, l, p)
         || (Bandwidth(st, l, w) == Bandwidth(st, l, p) && (p == w || Less(w, p)))
  }

  /** The scan for the smallest member, over the members still to be visited. */
  function WorstOf(st: State, l: Which, rest: set<string>, smaller: string): (w: string)
    requires rest <= st.peers.Keys && smaller in st.peers
    ensures w == smaller || w in rest
    decreases rest
  {
    if rest == {} then smaller
    else
      var count := Begin(rest);
      WorstOf(st, l, rest - {count}, if Bandwidth(st, l, count) < Bandwidth(st, l, smaller) then count else smaller)
  }

  /** A full outgoing list trades its worst member for a better newcomer, once. */
  function ConnectSpecial(st: State, peer: string, l: Which): (State, bool)
    requires peer in st.peers && st.Get(l).active <= st.peers.Keys
  {
    var list := st.Get(l);
    if list.active == {} then (st, false)
    else
      var worst := WorstOf(st, l, list.active, Begin(list.active));
      if Bandwidth(st, l, worst) < Bandwidth(st, l, peer)
      then (st.Set(l, list.(active := list.active - {worst} + {peer})).(removeWorse := false), true)
      else (st, false)
  }

  /** After an insertion the list's time to live is restarted. Which one is decided by comparing the
    * *contents* of the list with those of the In list. */
  function RestartTtl(st: State, peer: string, l: Which): State
    requires peer in st.peers
  {
    var ttl := if st.Get(l).active == st.inList.active then In else if l == OutFree then OutFree else Out;
    st.(peers := st.peers[peer := WithTtl(st.peers[peer], ttl, TTL_START)])
  }

  /** The insertion itself: into a free place, or by the swap rule. */
  function Insert(st: State, peer: string, l: Which): (State, bool)
    requires peer in st.peers && st.Get(l).active <= st.peers.Keys
  {
    var list := st.Get(l);
    if |list.active| < list.max then (st.Set(l, list.(active := list.active + {peer})), peer !in list.active)
    else if l != In && st.removeWorse then ConnectSpecial(st, peer, l)
    else (st, false)
  }

  function Connect(st: State, peer: string, l: Which): (State, bool)
    requires peer in st.peers && st.Get(l).active <= st.peers.Keys
  {
    if peer in st.Get(l).cooldown then (st, false)
    else
      var (st', inserted) := Insert(st, peer, l);
      (if inserted then RestartTtl(st', peer, l) else st', inserted)
  }

  function Disconnect(st: State, peer: string, l: Which): State {
    var list := st.Get(l);
    st.Set(l, list.(active := list.active - {peer}, cooldown := list.cooldown[peer := PEER_ACTIVE_COOLDOWN]))
  }

  lemma {:induction false} WorstOfIsWorst(st: State, l: Which, rest: set<string>, smaller: string)
    requires st.Get(l).active <= st.peers.Keys && rest <= st.Get(l).active && smaller in st.Get(l).active
    requires forall p :: p in st.Get(l).active - rest ==>
               Bandwidth(st, l, smaller) < Bandwidth(st, l, p)
               || (Bandwidth(st, l, smaller) == Bandwidth(st, l, p) && (p == smaller || Less(smaller, p)))
    requires forall p, q :: p in st.Get(l).active - rest && q in rest ==> Less(p, q)
    requires smaller in rest ==> smaller == Begin(rest)
    ensures IsWorst(st, l, WorstOf(st, l, rest, smaller))
    decreases rest
  {
    if rest != {} {
      LessIsStrictOrder();
      hide Less, Bandwidth;
      var count := Begin(rest);
      var smaller' := if Bandwidth(st, l, count) < Bandwidth(st, l, smaller) then count else smaller;
      WorstOfIsWorst(st, l, rest - {count}, smaller');
    }
  }

  /** A swap removes the member with the least bandwidth, the first in key order among equals, and only
    * for a newcomer with strictly more. */
  lemma SwapRemovesWorst(st: State, peer: string, l: Which)
    requires Inv(st) && peer in st.peers && st.Get(l).active != {}
    ensures exists w :: IsWorst(st, l, w)
                        && (ConnectSpecial(st, peer, l).1 <==> Bandwidth(st, l, w) < Bandwidth(st, l, peer))
                        && (ConnectSpecial(st, peer, l).1 ==>
                              ConnectSpecial(st, peer, l).0.Get(l).active == st.Get(l).active - {w} + {peer})
  {
    WorstOfIsWorst(st, l, st.Get(l).active, Begin(st.Get(l).active));
  }

  /** The members an insertion of `peer` would leave: into a free place, or in place of the worst member. */
  function MembersWith(st: State, peer: string, l: Which): set<string>
    requires st.Get(l).active <= st.peers.Keys
  {
    var a := st.Get(l).active;
    if |a| < st.Get(l).max || a == {} then a + {peer} else a - {WorstOf(st, l, a, Begin(a))} + {peer}
  }

  /** A peer that is connected to an outgoing list has that list's time to live restarted exactly when the
    * list would not end up with the same members as the In list. Else it is the In time that is restarted. */
  lemma ConnectRestartsOwnTtl(st: State, peer: string, l: Which)
    requires Inv(st) && peer in st.peers && l != In && Connect(st, peer, l).1
    requires Ttl(st.peers[peer], l) != TTL_START
    ensures var st' := Connect(st, peer, l).0;
            && (Ttl(st'.peers[peer], l) == TTL_START <==> MembersWith(st, peer, l) != st.inList.active)
            && (MembersWith(st, peer, l) == st.inList.active ==>
                  st'.peers[peer] == st.peers[peer].(ttlIn := TTL_START))
  {
    hide WorstOf, Bandwidth;
    var inserted := Insert(st, peer, l);
    assert inserted.0.Get(l).active == MembersWith(st, peer, l) && inserted.0.inList == st.inList;
  }

  /** A peer that is the only member of In is connected to an empty Out: its Out time is not restarted. */
  lemma OutConnectRestartsIn()
    ensures var st := State(map["p" := PeerData(3, 3, 3, 0, 0, 0)], List({"p"}, map[], 5), List({}, map[], 5),
                            List({}, map[], 5), false);
            && Inv(st) && st.Get(Out).active <= st.peers.Keys && Connect(st, "p", Out).1
            && Connect(st, "p", Out).0.peers == map["p" := PeerData(TTL_START, 3, 3, 0, 0, 0)]
  {
    var st := State(map["p" := PeerData(3, 3, 3, 0, 0, 0)], List({"p"}, map[], 5), List({}, map[], 5),
                    List({}, map[], 5), false);
    assert Insert(st, "p", Out) == (st.(outList := List({"p"}, map[], 5)), true);
  }

  // ---------- Resizing ----------

  /** The `(name, sent)` pairs of a set of peers, in key order. */
  function Pairs(st: State, names: set<string>): (v: seq<PairStrInt>)
    requires names <= st.peers.Keys
    ensures |v| == |names|
    ensures forall p :: p in v ==> p.first in names && p.second == st.peers[p.first].sent
    ensures forall n :: n in names ==> PairStrInt(n, st.peers[n].sent) in v
    decreases names
  {
    if names == {} then []
    else
      var n := Begin(names);
      [PairStrInt(n, st.peers[n].sent)] + Pairs(st, names - {n})
  }

  /** `SetNewMMaxActivePeersOut`, with the peers ranked in the order `ranked`. */
  function Resize(st: State, k: int, l: Which, ranked: seq<PairStrInt>): State
    requires st.Get(l).active <= st.peers.Keys
  {
    var list := st.Get(l);
    if k < 0 || l == In then st
    else if k >= list.max then st.Set(l, list.(max := k))
    else st.Set(l, list.(max := k, active := TopNames(ranked, k)))
  }

  /** Trimming to `k` keeps the top `k`, whatever order `std::sort` leaves equals in. */
  lemma TrimIsTopK(st: State, k: int, l: Which, ranked: seq<PairStrInt>)
    requires Inv(st) && l != In && IsRanking(ranked, Pairs(st, st.Get(l).active))
    ensures var (before, after) := (st.Get(l), Resize(st, k, l, ranked).Get(l));
            && Resize(st, k, l, ranked) == st.Set(l, after)
            && after.cooldown == before.cooldown && after.active <= before.active
            && (k < 0 ==> after == before)
            && (k >= before.max ==> after == before.(max := k))
            && (0 <= k < before.max ==>
                  after.max == k && |after.active| == if k < |before.active| then k else |before.active|)
            && (forall kept, dropped :: kept in after.active && dropped in before.active - after.active ==>
                  st.peers[kept].sent >= st.peers[dropped].sent)
  {
    var before := st.Get(l);
    hide IsRanking, Pairs;
    if 0 <= k < before.max {
      TrimmedNames(st, before.active, ranked, k);
      hide TopNames;
      forall kept, dropped | kept in TopNames(ranked, k) && dropped in before.active - TopNames(ranked, k)
        ensures st.peers[kept].sent >= st.peers[dropped].sent
      {
        KeptSentMore(st, before.active, ranked, k, kept, dropped);
      }
    }
  }

  lemma TrimmedNames(st: State, names: set<string>, ranked: seq<PairStrInt>, k: nat)
    requires names <= st.peers.Keys && IsRanking(ranked, Pairs(st, names))
    ensures TopNames(ranked, k) <= names
    ensures |TopNames(ranked, k)| == if k < |names| then k else |names|
  {
    RankingNames(st, names, ranked);
    var m := if k < |ranked| then k else |ranked|;
    TopNamesSize(ranked, m);
    assert TopNames(ranked, k) == TopNames(ranked, m);
    TopNamesGrow(ranked, m, |ranked|);
  }

  lemma KeptSentMore(st: State, names: set<string>, ranked: seq<PairStrInt>, k: nat, kept: string, dropped: string)
    requires names <= st.peers.Keys && IsRanking(ranked, Pairs(st, names))
    requires kept in TopNames(ranked, k) && dropped in names && dropped !in TopNames(ranked, k)
    ensures kept in names
    ensures st.peers[kept].sent >= st.peers[dropped].sent
  {
    RankingNames(st, names, ranked);
    var i :| 0 <= i < |ranked| && i < k && ranked[i].first == kept;
    assert dropped in TopNames(ranked, |ranked|);
    var j :| 0 <= j < |ranked| && ranked[j].first == dropped;
    RankedEntry(st, names, ranked, i);
    RankedEntry(st, names, ranked, j);
  }

  lemma RankedEntry(st: State, names: set<string>, ranked: seq<PairStrInt>, i: nat)
    requires names <= st.peers.Keys && IsRanking(ranked, Pairs(st, names)) && i < |ranked|
    ensures ranked[i].first in names && ranked[i].second == st.peers[ranked[i].first].sent
  {
    assert ranked[i] in multiset(ranked);
    assert ranked[i] in Pairs(st, names);
  }

  /** A ranking names exactly the ranked peers. */
  lemma RankingNames(st: State, names: set<string>, ranked: seq<PairStrInt>)
    requires names <= st.peers.Keys && IsRanking(ranked, Pairs(st, names))
    ensures TopNames(ranked, |ranked|) == names && |ranked| == |names|
  {
    assert |multiset(ranked)| == |multiset(Pairs(st, names))|;
    var v := Pairs(st, names);
    forall n | n in names
      ensures n in TopNames(ranked, |ranked|)
    {
      assert PairStrInt(n, st.peers[n].sent) in multiset(v);
      assert PairStrInt(n, st.peers[n].sent) in ranked;
    }
    forall n | n in TopNames(ranked, |ranked|)
      ensures n in names
    {
      var i :| 0 <= i < |ranked| && ranked[i].first == n;
      RankedEntry(st, names, ranked, i);
    }
  }

  // ---------- The periodic pass ----------

  /** The peers of list `l` whose time to live runs out in this pass. */
  function Expired(st: State, l: Which): set<string>
    requires st.Get(l).active <= st.peers.Keys
  {
    set p | p in st.Get(l).active && Ttl(st.peers[p], l) - 1 <= 0
  }

  function Aged(d: PeerData, isIn: bool, isOut: bool, isOutFree: bool): PeerData {
    PeerData(if isIn then d.ttlIn - 1 else d.ttlIn,
             if isOut then d.ttlOut - 1 else d.ttlOut,
             if isOutFree then d.ttlOutFree - 1 else d.ttlOutFree,
             d.sent, d.sizeOut, d.sizeOutFree)
  }

  function Ticked(st: State, p: string): PeerData
    requires p in st.peers
  {
    Aged(st.peers[p], p in st.inList.active, p in st.outList.active, p in st.outFree.active)
  }

  /** The `unsigned int` decrement. */
  function Dec32(v: nat): nat {
    (v - 1) % 0x1_0000_0000
  }

  function Cooled(cooldown: map<string, nat>): map<string, nat> {
    map p | p in cooldown && Dec32(cooldown[p]) != 0 :: Dec32(cooldown[p])
  }

  function Marks(gone: set<string>): map<string, nat> {
    map p | p in gone :: PEER_ACTIVE_COOLDOWN
  }

  /** The list after the peers in `gone` have been disconnected. */
  function Leave(list: List, gone: set<string>): List {
    list.(active := list.active - gone, cooldown := list.cooldown + Marks(gone))
  }

  lemma LeaveNone(list: List)
    ensures Leave(list, {}) == list
  {
    assert Marks({}) == map[];
    assert list.cooldown + map[] == list.cooldown;
  }

  lemma LeaveOne(list: List, gone: set<string>, p: string)
    ensures var l := Leave(list, gone);
            l.(active := l.active - {p}, cooldown := l.cooldown[p := PEER_ACTIVE_COOLDOWN]) == Leave(list, gone + {p})
  {
    assert list.active - gone - {p} == list.active - (gone + {p});
    assert (list.cooldown + Marks(gone))[p := PEER_ACTIVE_COOLDOWN] == list.cooldown + Marks(gone + {p});
  }

  function Expire(list: List, gone: set<string>): List {
    var left := Leave(list, gone);
    left.(cooldown := Cooled(left.cooldown))
  }

  ghost predicate ActiveKnown(st: State) {
    st.AllActive() <= st.peers.Keys
  }

  /** Every peer after the pass has aged it in each of its lists. */
  function TickAll(st: State): map<string, PeerData> {
    map p | p in st.peers :: Ticked(st, p)
  }

  /** The active peers none of whose memberships survives this pass. */
  function Leaving(st: State): set<string>
    requires ActiveKnown(st)
  {
    st.AllActive() - ((st.inList.active - Expired(st, In)) + (st.outList.active - Expired(st, Out))
                      + (st.outFree.active - Expired(st, OutFree)))
  }

  /** `CheckPeerList`: every active peer ages in each of its lists; expired memberships end; a peer that
    * ends up in no list is forgotten; cooldowns run down. */
  function Check(st: State): State
    requires ActiveKnown(st)
  {
    State(TickAll(st) - Leaving(st), Expire(st.inList, Expired(st, In)), Expire(st.outList, Expired(st, Out)),
          Expire(st.outFree, Expired(st, OutFree)), st.removeWorse)
  }

  /** The decision table of `CheckPeerList`: a membership ends exactly when it expires -- and its cooldown
    * then has four passes to go -- and an active peer is removed exactly when no membership is left. */
  lemma DecisionTable(st: State, p: string, l: Which)
    requires Inv(st) && p in st.AllActive() && ActiveKnown(st)
    ensures p in Check(st).Get(l).active <==> p in st.Get(l).active && Ttl(st.peers[p], l) - 1 > 0
    ensures p in st.Get(l).active && p !in Check(st).Get(l).active ==>
              p in Check(st).Get(l).cooldown && Check(st).Get(l).cooldown[p] == 4
    ensures p in Check(st).peers <==> p in Check(st).AllActive()
  {}

  /** The comment's case 4 (in In, not in Out, In expired: remove) does not hold for a peer that is
    * also in Out-FREE: it stays known. */
  lemma CaseFourNeedsNoOutFree(st: State, p: string)
    requires Inv(st) && ActiveKnown(st)
    requires p in st.inList.active && p !in st.outList.active && Ttl(st.peers[p], In) - 1 <= 0
    ensures p !in Check(st).peers <==> !(p in st.outFree.active && Ttl(st.peers[p], OutFree) - 1 > 0)
  {
    DecisionTable(st, p, OutFree);
  }

  /** Case 4 with an Out-FREE membership that goes on: the table says remove, the peer stays known. */
  lemma CaseFourKeepsOutFree()
    ensures var st := State(map["p" := PeerData(1, 3, 3, 0, 0, 0)], List({"p"}, map[], 5), List({}, map[], 5),
                            List({"p"}, map[], 5), false);
            && Inv(st) && ActiveKnown(st) && "p" in Check(st).peers
            && "p" !in Check(st).inList.active && "p" !in Check(st).outList.active
  {
    var st := State(map["p" := PeerData(1, 3, 3, 0, 0, 0)], List({"p"}, map[], 5), List({}, map[], 5),
                    List({"p"}, map[], 5), false);
    CaseFourNeedsNoOutFree(st, "p");
    DecisionTable(st, "p", In);
    DecisionTable(st, "p", Out);
  }

  // ---------- Runs ----------

  datatype Event =
    | Meet(peer: string, sizeOut: int, sizeOutFree: int)
    | Try(peer: string, which: Which)
    | Drop(peer: string, which: Which)
    | NewMax(max: int, which: Which, ranked: seq<PairStrInt>)
    | Ping(peer: string, which: Which, ttl: int)
    | Sent(peer: string)
    | SwapRule(on: bool)
    | Pass

  function MeetPeer(st: State, peer: string, sizeOut: int, sizeOutFree: int): State {
    if peer !in st.peers
    then st.(peers := st.peers[peer := PeerData(TTL_START, TTL_START, TTL_START, 0, sizeOut, sizeOutFree)])
    else
      var d := st.peers[peer];
      st.(peers := st.peers[peer := d.(sizeOut := if sizeOut >= 0 then sizeOut else d.sizeOut,
                                       sizeOutFree := sizeOutFree)])
  }

  /** What the callers guarantee: only known peers are connected, and trims use a ranking. */
  ghost predicate Enabled(st: State, e: Event) {
    && (e.Try? ==> e.peer in st.peers)
    && (e.NewMax? ==> st.Get(e.which).active <= st.peers.Keys
                      && IsRanking(e.ranked, Pairs(st, st.Get(e.which).active)))
  }

  function Step(st: State, e: Event): State
    requires Inv(st) && Enabled(st, e)
  {
    KnownOfInv(st);
    match e
    case Meet(peer, sizeOut, sizeOutFree) => MeetPeer(st, peer, sizeOut, sizeOutFree)
    case Try(peer, which) => Connect(st, peer, which).0
    case Drop(peer, which) => Disconnect(st, peer, which)
    case NewMax(max, which, ranked) => Resize(st, max, which, ranked)
    case Ping(peer, which, ttl) =>
      if peer in st.Get(which).active then st.(peers := st.peers[peer := WithTtl(st.peers[peer], which, ttl)]) else st
    case Sent(peer) =>
      if peer in st.peers then st.(peers := st.peers[peer := st.peers[peer].(sent := st.peers[peer].sent + 1)]) else st
    case SwapRule(on) => st.(removeWorse := on)
    case Pass => Check(st)
  }

  lemma KnownOfInv(st: State)
    requires Inv(st)
    ensures ActiveKnown(st) && forall l: Which :: st.Get(l).active <= st.peers.Keys
  {}

  lemma SwapKeepsListInv(list: List, worst: string, peer: string, known: set<string>)
    requires ListInv(list, known) && worst in list.active && peer in known && peer !in list.cooldown
    ensures ListInv(list.(active := list.active - {worst} + {peer}), known)
  {
    assert |list.active - {worst}| == |list.active| - 1;
  }

  lemma JoinKeepsListInv(list: List, peer: string, known: set<string>)
    requires ListInv(list, known) && |list.active| < list.max && peer in known && peer !in list.cooldown
    ensures ListInv(list.(active := list.active + {peer}), known)
  {
    assert |list.active + {peer}| <= |list.active| + 1;
  }

  lemma SmallerCard(a: set<string>, b: set<string>)
    requires a <= b
    ensures |a| <= |b|
  {
    assert b == a + (b - a);
  }

  /** Replacing a list by one that satisfies its invariant. */
  lemma SetKeepsInv(st: State, l: Which, list: List)
    requires Inv(st) && ListInv(list, st.peers.Keys)
    ensures Inv(st.Set(l, list)) && Inv(st.Set(l, list).(removeWorse := false))
  {
    hide ListInv;
  }

  lemma SwapKeepsInv(st: State, peer: string, l: Which)
    requires Inv(st) && peer in st.peers && peer !in st.Get(l).cooldown
    ensures Inv(ConnectSpecial(st, peer, l).0) && ConnectSpecial(st, peer, l).0.peers == st.peers
  {
    hide Bandwidth;
    var list := st.Get(l);
    if list.active != {} {
      var worst := WorstOf(st, l, list.active, Begin(list.active));
      SwapKeepsListInv(list, worst, peer, st.peers.Keys);
      hide WorstOf, ListInv;
      SetKeepsInv(st, l, list.(active := list.active - {worst} + {peer}));
    }
  }

  lemma InsertKeepsInv(st: State, peer: string, l: Which)
    requires Inv(st) && peer in st.peers && peer !in st.Get(l).cooldown
    ensures Inv(Insert(st, peer, l).0) && peer in Insert(st, peer, l).0.peers
  {
    SwapKeepsInv(st, peer, l);
    var list := st.Get(l);
    if |list.active| < list.max {
      JoinKeepsListInv(list, peer, st.peers.Keys);
    }
    hide ConnectSpecial, ListInv;
    if |list.active| < list.max {
      SetKeepsInv(st, l, list.(active := list.active + {peer}));
    }
  }

  lemma RestartKeepsInv(st: State, peer: string, l: Which)
    requires Inv(st) && peer in st.peers
    ensures Inv(RestartTtl(st, peer, l))
  {
    hide ListInv;
    assert RestartTtl(st, peer, l).peers.Keys == st.peers.Keys;
  }

  lemma ConnectKeepsInv(st: State, peer: string, l: Which)
    requires Inv(st) && peer in st.peers
    ensures Inv(Connect(st, peer, l).0)
  {
    if peer !in st.Get(l).cooldown {
      InsertKeepsInv(st, peer, l);
      RestartKeepsInv(Insert(st, peer, l).0, peer, l);
      hide Inv, Insert, RestartTtl;
    }
  }

  lemma ExpireKeepsListInv(list: List, gone: set<string>, known: set<string>, known': set<string>)
    requires ListInv(list, known) && gone <= list.active && list.active - gone <= known'
    ensures ListInv(Expire(list, gone), known')
  {
    SmallerCard(list.active - gone, list.active);
  }

  lemma CheckKeepsInv(st: State)
    requires Inv(st) && ActiveKnown(st)
    ensures Inv(Check(st))
  {
    var known, known' := st.peers.Keys, Check(st).peers.Keys;
    ExpireKeepsListInv(st.inList, Expired(st, In), known, known');
    ExpireKeepsListInv(st.outList, Expired(st, Out), known, known');
    ExpireKeepsListInv(st.outFree, Expired(st, OutFree), known, known');
    hide ListInv, Expire;
  }

  lemma DropKeepsInv(st: State, peer: string, l: Which)
    requires Inv(st)
    ensures Inv(Disconnect(st, peer, l))
  {
    var list := st.Get(l);
    SmallerCard(list.active - {peer}, list.active);
    SetKeepsInv(st, l, list.(active := list.active - {peer}, cooldown := list.cooldown[peer := PEER_ACTIVE_COOLDOWN]));
  }

  /** The In list is never resized, and resizing a list touches no other. */
  lemma ResizeTouchesOneList(st: State, k: int, l: Which, ranked: seq<PairStrInt>)
    requires Inv(st) && IsRanking(ranked, Pairs(st, st.Get(l).active))
    ensures Resize(st, k, l, ranked) == st.Set(l, Resize(st, k, l, ranked).Get(l))
    ensures l == In ==> Resize(st, k, l, ranked) == st
  {}

  lemma ResizeKeepsInv(st: State, k: int, l: Which, ranked: seq<PairStrInt>)
    requires Inv(st) && IsRanking(ranked, Pairs(st, st.Get(l).active))
    ensures Inv(Resize(st, k, l, ranked))
  {
    if l != In {
      TrimIsTopK(st, k, l, ranked);
      ResizeTouchesOneList(st, k, l, ranked);
      hide IsRanking, Pairs, TopNames, Resize;
      SetKeepsInv(st, l, Resize(st, k, l, ranked).Get(l));
    }
  }

  /** Changing what is known about peers, or knowing more of them, does not touch the lists. */
  lemma PeersKeepInv(st: State, peers: map<string, PeerData>)
    requires Inv(st) && st.peers.Keys <= peers.Keys
    ensures Inv(st.(peers := peers))
  {}

  /** Every operation keeps the invariant. */
  lemma StepKeepsInv(st: State, e: Event)
    requires Inv(st) && Enabled(st, e)
    ensures Inv(Step(st, e))
  {
    KnownOfInv(st);
    hide Inv, Connect, Disconnect, Resize, Check, IsRanking, Pairs;
    match e
    case Try(peer, which) => ConnectKeepsInv(st, peer, which);
    case Drop(peer, which) => DropKeepsInv(st, peer, which);
    case NewMax(max, which, ranked) => ResizeKeepsInv(st, max, which, ranked);
    case Pass => CheckKeepsInv(st);
    case _ => NewsKeepsInv(st, e);
  }

  lemma NewsKeepsInv(st: State, e: Event)
    requires Inv(st) && Enabled(st, e) && (e.Meet? || e.Ping? || e.Sent? || e.SwapRule?)
    ensures Inv(Step(st, e))
  {
    KnownOfInv(st);
    if e.SwapRule? {
      return;
    }
    hide Inv, WithTtl, IsRanking, Pairs;
    PeersKeepInv(st, Step(st, e).peers);
  }

  ghost predicate EnabledThroughout(st: State, events: seq<Event>)
    requires Inv(st)
    decreases |events|
  {
    events == [] ||
    (Enabled(st, events[0]) &&
     (StepKeepsInv(st, events[0]); EnabledThroughout(Step(st, events[0]), events[1..])))
  }

  function Run(st: State, events: seq<Event>): (st': State)
    requires Inv(st) && EnabledThroughout(st, events)
    ensures Inv(st')
    decreases |events|
  {
    if events == [] then st
    else
      StepKeepsInv(st, events[0]);
      Run(Step(st, events[0]), events[1..])
  }

  function CountPasses(events: seq<Event>): nat {
    if events == [] then 0 else (if events[0].Pass? then 1 else 0) + CountPasses(events[1..])
  }

  /** The event leaves peer `p`'s membership of list `l` alone: it is not about `p` in a way that could
    * restart its time to live there, and it does not trim the list. */
  predicate LeavesAlone(e: Event, p: string, l: Which) {
    match e
    case Try(peer, _) => peer != p
    case Drop(peer, which) => !(peer == p && which == l)
    case NewMax(_, which, _) => which != l
    case Ping(peer, which, _) => !(peer == p && which == l)
    case _ => true
  }

  predicate Silent(events: seq<Event>, p: string, l: Which) {
    forall i :: 0 <= i < |events| ==> LeavesAlone(events[i], p, l)
  }

  /** Where a peer that fell silent with time to live `n` stands after `passes` passes. */
  ghost predicate Fading(st: State, p: string, l: Which, n: int) {
    var list := st.Get(l);
    if n > 0 then p in list.active && p in st.peers && Ttl(st.peers[p], l) == n
    else
      && p !in list.active
      && (if n > -4 then p in list.cooldown && list.cooldown[p] == 4 + n else p !in list.cooldown)
  }

  /** `Fading` looks at `p` in list `l` only. */
  ghost predicate SameFor(st: State, st': State, p: string, l: Which) {
    var list, list' := st.Get(l), st'.Get(l);
    && (p in list'.active <==> p in list.active)
    && (p in list'.cooldown <==> p in list.cooldown)
    && (p in list.cooldown ==> list'.cooldown[p] == list.cooldown[p])
    && (p in list.active && p in st.peers ==> p in st'.peers && Ttl(st'.peers[p], l) == Ttl(st.peers[p], l))
  }

  /** Connecting `peer` to list `l` swaps `p` out: the list is full, the rule is on, and `p` is the worst member and
    * worse than `peer`. */
  predicate SwapsOut(st: State, peer: string, p: string, l: Which)
    requires peer in st.peers && st.Get(l).active <= st.peers.Keys
  {
    var a := st.Get(l).active;
    && l != In && st.removeWorse && peer !in st.Get(l).cooldown && |a| >= st.Get(l).max && a != {}
    && p == WorstOf(st, l, a, Begin(a)) && Bandwidth(st, l, p) < Bandwidth(st, l, peer)
  }

  lemma InsertLeavesOthers(st: State, peer: string, p: string, l: Which, l': Which)
    requires Inv(st) && peer in st.peers && peer != p && peer !in st.Get(l').cooldown
    requires l' == l ==> !SwapsOut(st, peer, p, l)
    ensures st.Get(l').active <= st.peers.Keys
    ensures peer in Insert(st, peer, l').0.peers && SameFor(st, Insert(st, peer, l').0, p, l)
  {
    KnownOfInv(st);
    hide WorstOf, Bandwidth, Inv, Begin;
    var st' := Insert(st, peer, l').0;
    assert st'.peers == st.peers;
    if l == l' {
      assert p in st'.Get(l).active <==> p in st.Get(l).active;
      assert st'.Get(l).cooldown == st.Get(l).cooldown;
    } else {
      assert st'.Get(l) == st.Get(l);
    }
  }

  lemma ConnectLeavesOthers(st: State, peer: string, p: string, l: Which, l': Which)
    requires Inv(st) && peer in st.peers && peer != p && (l' == l ==> !SwapsOut(st, peer, p, l))
    ensures SameFor(st, Connect(st, peer, l').0, p, l)
  {
    KnownOfInv(st);
    if peer !in st.Get(l').cooldown {
      InsertLeavesOthers(st, peer, p, l, l');
      RestartLeavesOthers(Insert(st, peer, l').0, peer, p, l, l');
      hide Insert, RestartTtl, Inv;
    }
  }

  lemma RestartLeavesOthers(st: State, peer: string, p: string, l: Which, l': Which)
    requires peer in st.peers && peer != p
    ensures SameFor(st, RestartTtl(st, peer, l'), p, l)
  {}

  /** A peer that is swapped out is neither in the list nor in its cooldown. */
  lemma SwappedOutIsGone(st: State, peer: string, p: string, l: Which)
    requires Inv(st) && peer in st.peers && peer != p && SwapsOut(st, peer, p, l)
    ensures var list := Connect(st, peer, l).0.Get(l);
            p !in list.active && p !in list.cooldown
    ensures p in st.Get(l).active
  {
    KnownOfInv(st);
    hide WorstOf, Bandwidth, Begin;
    var a := st.Get(l).active;
    WorstIsMember(st, l);
    assert Insert(st, peer, l).0.Get(l) == st.Get(l).(active := a - {p} + {peer});
  }

  lemma WorstIsMember(st: State, l: Which)
    requires Inv(st) && st.Get(l).active != {}
    ensures var a := st.Get(l).active;
            a <= st.peers.Keys && WorstOf(st, l, a, Begin(a)) in a
  {}

  predicate IsSwapOf(st: State, e: Event, p: string, l: Which)
    requires Enabled(st, e) && st.Get(l).active <= st.peers.Keys
  {
    e.Try? && e.which == l && SwapsOut(st, e.peer, p, l)
  }

  /** No event of the run swaps `p` out. */
  ghost predicate NeverSwappedOut(st: State, events: seq<Event>, p: string, l: Which)
    requires Inv(st) && EnabledThroughout(st, events)
    decreases |events|
  {
    events == [] ||
    (KnownOfInv(st); StepKeepsInv(st, events[0]);
     && !IsSwapOf(st, events[0], p, l)
     && NeverSwappedOut(Step(st, events[0]), events[1..], p, l))
  }

  lemma CheckFades(st: State, p: string, l: Which, n: int)
    requires Inv(st) && ActiveKnown(st) && Fading(st, p, l, n)
    ensures Fading(Check(st), p, l, n - 1)
  {
    if n > 0 {
      DecisionTable(st, p, l);
    } else {
      ExpireCoolsOthers(st.Get(l), Expired(st, l), p);
      hide Expire, Expired;
    }
  }

  /** The cooldown of a peer that is not just leaving runs down by one. */
  lemma ExpireCoolsOthers(list: List, gone: set<string>, p: string)
    requires p !in gone && p !in list.active
    ensures p !in Expire(list, gone).active
    ensures p in list.cooldown && 1 <= list.cooldown[p] <= PEER_ACTIVE_COOLDOWN ==>
              && (p in Expire(list, gone).cooldown <==> list.cooldown[p] != 1)
              && (list.cooldown[p] != 1 ==> Expire(list, gone).cooldown[p] == list.cooldown[p] - 1)
    ensures p !in list.cooldown ==> p !in Expire(list, gone).cooldown
  {}

  lemma ListEventsLeave(st: State, e: Event, p: string, l: Which)
    requires Inv(st) && Enabled(st, e) && LeavesAlone(e, p, l) && (e.Drop? || e.NewMax?)
    ensures SameFor(st, Step(st, e), p, l)
  {
    hide ListInv, IsRanking, Pairs, TopNames;
  }

  lemma PeerEventsLeave(st: State, e: Event, p: string, l: Which)
    requires Inv(st) && Enabled(st, e) && LeavesAlone(e, p, l) && (e.Meet? || e.Ping? || e.Sent? || e.SwapRule?)
    ensures SameFor(st, Step(st, e), p, l)
  {
    hide ListInv;
  }

  /** An event of others leaves `p` in list `l` as it was, unless it swaps `p` out. */
  lemma OthersLeave(st: State, e: Event, p: string, l: Which)
    requires Inv(st) && Enabled(st, e) && LeavesAlone(e, p, l) && !e.Pass?
    requires st.Get(l).active <= st.peers.Keys
    requires !IsSwapOf(st, e, p, l)
    ensures SameFor(st, Step(st, e), p, l)
  {
    KnownOfInv(st);
    if e.Try? {
      ConnectLeavesOthers(st, e.peer, p, l, e.which);
    } else if e.Drop? || e.NewMax? {
      ListEventsLeave(st, e, p, l);
    } else {
      PeerEventsLeave(st, e, p, l);
    }
  }

  lemma StepFades(st: State, e: Event, p: string, l: Which, n: int)
    requires Inv(st) && Enabled(st, e) && LeavesAlone(e, p, l) && Fading(st, p, l, n)
    requires st.Get(l).active <= st.peers.Keys
    requires !IsSwapOf(st, e, p, l)
    ensures Fading(Step(st, e), p, l, if e.Pass? then n - 1 else n)
  {
    KnownOfInv(st);
    if e.Pass? {
      CheckFades(st, p, l, n);
    } else {
      OthersLeave(st, e, p, l);
      hide Fading, Inv, SameFor, Connect, SwapsOut, Step;
      SameForFades(st, Step(st, e), p, l, n);
    }
  }

  lemma SameForFades(st: State, st': State, p: string, l: Which, n: int)
    requires SameFor(st, st', p, l) && Fading(st, p, l, n)
    ensures Fading(st', p, l, n)
  {}

  /** A peer outside the list and its cooldown. */
  ghost predicate Outside(st: State, p: string, l: Which) {
    p !in st.Get(l).active && p !in st.Get(l).cooldown
  }

  lemma StepKeepsOutside(st: State, e: Event, p: string, l: Which)
    requires Inv(st) && Enabled(st, e) && LeavesAlone(e, p, l) && Outside(st, p, l)
    ensures Outside(Step(st, e), p, l)
  {
    KnownOfInv(st);
    if e.Pass? {
      ExpireCoolsOthers(st.Get(l), Expired(st, l), p);
      hide Expire, Expired;
    } else {
      if IsSwapOf(st, e, p, l) {
        SwappedOutIsGone(st, e.peer, p, l);
        assert false;
      }
      OthersLeave(st, e, p, l);
      hide Step, Inv;
    }
  }

  lemma {:induction false} RunKeepsOutside(st: State, events: seq<Event>, p: string, l: Which)
    requires Inv(st) && EnabledThroughout(st, events) && Silent(events, p, l) && Outside(st, p, l)
    ensures Outside(Run(st, events), p, l)
    decreases |events|
  {
    if events != [] {
      SilentStep(st, events, p, l);
      hide *;
      StepKeepsOutside(st, events[0], p, l);
      RunKeepsOutside(Step(st, events[0]), events[1..], p, l);
    }
  }

  /** The first event of a silent run, and the rest. */
  lemma {:induction false} SilentStep(st: State, events: seq<Event>, p: string, l: Which)
    requires Inv(st) && EnabledThroughout(st, events) && Silent(events, p, l) && events != []
    ensures Enabled(st, events[0]) && Inv(Step(st, events[0])) && EnabledThroughout(Step(st, events[0]), events[1..])
    ensures LeavesAlone(events[0], p, l) && Silent(events[1..], p, l)
    ensures Run(st, events) == Run(Step(st, events[0]), events[1..])
    ensures CountPasses(events) == (if events[0].Pass? then 1 else 0) + CountPasses(events[1..])
    ensures st.Get(l).active <= st.peers.Keys
    ensures NeverSwappedOut(st, events, p, l) <==>
              !IsSwapOf(st, events[0], p, l) && NeverSwappedOut(Step(st, events[0]), events[1..], p, l)
  {
    StepKeepsInv(st, events[0]);
    KnownOfInv(st);
    hide Step, SwapsOut, Inv;
  }

  lemma SwapLeavesOutside(st: State, e: Event, p: string, l: Which)
    requires Inv(st) && Enabled(st, e) && LeavesAlone(e, p, l) && st.Get(l).active <= st.peers.Keys
    requires IsSwapOf(st, e, p, l)
    ensures Outside(Step(st, e), p, l)
  {
    SwappedOutIsGone(st, e.peer, p, l);
    hide Connect, SwapsOut, Inv;
  }

  lemma {:induction false} SwappedPeerIsOutside(st: State, events: seq<Event>, p: string, l: Which, n: int)
    requires Inv(st) && EnabledThroughout(st, events) && Silent(events, p, l) && Fading(st, p, l, n)
    requires !NeverSwappedOut(st, events, p, l)
    ensures Outside(Run(st, events), p, l)
    decreases |events|
  {
    assert events != [];
    hide *;
    SilentStep(st, events, p, l);
    var e := events[0];
    if IsSwapOf(st, e, p, l) {
      SwapLeavesOutside(st, e, p, l);
      RunKeepsOutside(Step(st, e), events[1..], p, l);
    } else {
      StepFades(st, e, p, l, n);
      SwappedPeerIsOutside(Step(st, e), events[1..], p, l, if e.Pass? then n - 1 else n);
    }
  }

  /** A peer silent since time to live `n`, that is not swapped out, leaves the list at exactly the `n`-th pass, and
    * cannot rejoin it before four more passes have ended -- whatever else happens to other peers meanwhile. */
  lemma {:induction false} SilentPeerFades(st: State, events: seq<Event>, p: string, l: Which, n: int)
    requires Inv(st) && EnabledThroughout(st, events) && Silent(events, p, l) && Fading(st, p, l, n)
    requires NeverSwappedOut(st, events, p, l)
    ensures Fading(Run(st, events), p, l, n - CountPasses(events))
    decreases |events|
  {
    if events != [] {
      hide *;
      SilentStep(st, events, p, l);
      StepFades(st, events[0], p, l, n);
      var left := if events[0].Pass? then n - 1 else n;
      SilentPeerFades(Step(st, events[0]), events[1..], p, l, left);
      assert left - CountPasses(events[1..]) == n - CountPasses(events);
    } else {
      assert n - CountPasses(events) == n && Run(st, events) == st;
    }
  }

  /** A connection of `p` to list `l` is refused and changes nothing. */
  ghost predicate Refused(st: State, p: string, l: Which) {
    p in st.peers ==> st.Get(l).active <= st.peers.Keys && Connect(st, p, l) == (st, false)
  }

  /** What a caller sees of a peer with `n` passes to live, swapped out or not. */
  ghost predicate Standing(st: State, p: string, l: Which, n: int, stays: bool) {
    && (p in st.Get(l).active <==> n > 0 && stays)
    && (p in st.Get(l).cooldown <==> -4 < n <= 0 && stays)
    && (p in st.Get(l).cooldown ==> Refused(st, p, l))
  }

  lemma StandingMeans(st: State, p: string, l: Which, n: int, stays: bool)
    requires Inv(st) && (if stays then Fading(st, p, l, n) else Outside(st, p, l))
    ensures Standing(st, p, l, n, stays)
  {
    KnownOfInv(st);
    assert ListInv(st.Get(l), st.peers.Keys);
  }

  /** The same in terms of what a caller sees, with the exact condition: before its `n`-th pass a silent peer is in
    * the list exactly if it was not swapped out; from then on it is not, and it is in the cooldown -- and
    * refused -- for four passes exactly if it was not swapped out. */
  lemma {:induction false} SilentPeerIsRefused(st: State, events: seq<Event>, p: string, l: Which, n: int)
    requires Inv(st) && EnabledThroughout(st, events) && Silent(events, p, l)
    requires Fading(st, p, l, n)
    ensures Standing(Run(st, events), p, l, n - CountPasses(events), NeverSwappedOut(st, events, p, l))
  {
    hide *;
    if NeverSwappedOut(st, events, p, l) {
      SilentPeerFades(st, events, p, l, n);
    } else {
      SwappedPeerIsOutside(st, events, p, l, n);
    }
    StandingMeans(Run(st, events), p, l, n - CountPasses(events), NeverSwappedOut(st, events, p, l));
  }

  /** On the In list, and while the rule is off, nothing is swapped out. */
  lemma {:induction false} NoSwapsWithoutRule(st: State, events: seq<Event>, p: string, l: Which)
    requires Inv(st) && EnabledThroughout(st, events)
    requires l == In || (!st.removeWorse && forall i :: 0 <= i < |events| && events[i].SwapRule? ==> !events[i].on)
    ensures NeverSwappedOut(st, events, p, l)
    decreases |events|
  {
    if events != [] {
      KnownOfInv(st);
      StepKeepsInv(st, events[0]);
      if l != In {
        RuleStaysOff(st, events[0]);
      }
      hide Step, Inv;
      NoSwapsWithoutRule(Step(st, events[0]), events[1..], p, l);
    }
  }

  lemma RuleStaysOff(st: State, e: Event)
    requires Inv(st) && Enabled(st, e) && !st.removeWorse && (e.SwapRule? ==> !e.on)
    ensures !Step(st, e).removeWorse
  {
    KnownOfInv(st);
    hide WorstOf, Pairs, TopNames, Connect, Inv, Expire, Expired;
    if e.Try? {
      RuleStaysOffInConnect(st, e.peer, e.which);
    }
  }

  lemma RuleStaysOffInConnect(st: State, peer: string, l: Which)
    requires peer in st.peers && st.Get(l).active <= st.peers.Keys && !st.removeWorse
    ensures !Connect(st, peer, l).0.removeWorse
  {
    hide ConnectSpecial;
  }

  /** A peer alone in a full Out list is swapped out by a better one as soon as the rule is on again: long before its
    * time to live ends, and without a cooldown. */
  lemma SwappedOutBeforeItsTime()
    ensures var st := State(map["p" := PeerData(3, 3, 3, 0, 1, 0), "q" := PeerData(3, 3, 3, 0, 2, 0)],
                            List({}, map[], 1), List({"p"}, map[], 1), List({}, map[], 1), false);
            && Inv(st) && Inv(Step(st, SwapRule(true))) && Enabled(Step(st, SwapRule(true)), Try("q", Out))
            && Outside(Step(Step(st, SwapRule(true)), Try("q", Out)), "p", Out)
  {
    var st := State(map["p" := PeerData(3, 3, 3, 0, 1, 0), "q" := PeerData(3, 3, 3, 0, 2, 0)],
                    List({}, map[], 1), List({"p"}, map[], 1), List({}, map[], 1), false);
    var armed := Step(st, SwapRule(true));
    assert Begin({"p"}) == "p";
    assert {"p"} - {"p"} == {};
    assert WorstOf(armed, Out, {"p"}, "p") == "p";
    assert armed.Get(Out).active == {"p"} != {} == armed.outFree.active;
    SwappedOutIsGone(armed, "q", "p", Out);
  }

  // ---------- With the swap rule ----------

  /** A silent peer that is in the list has `n` passes to live there; with none left it is not in the list. */
  ghost predicate RunningDown(st: State, p: string, l: Which, n: int) {
    p in st.Get(l).active ==> n > 0 && p in st.peers && Ttl(st.peers[p], l) == n
  }

  lemma ConnectRunsDown(st: State, peer: string, p: string, l: Which, l': Which, n: int)
    requires Inv(st) && peer in st.peers && peer != p && RunningDown(st, p, l, n)
    ensures RunningDown(Connect(st, peer, l').0, p, l, n)
  {
    KnownOfInv(st);
    hide WorstOf, Bandwidth, ListInv;
    var st' := Insert(st, peer, l').0;
    assert st'.peers == st.peers && st'.Get(l).active <= st.Get(l).active + {peer};
  }

  lemma StepRunsDown(st: State, e: Event, p: string, l: Which, n: int)
    requires Inv(st) && Enabled(st, e) && LeavesAlone(e, p, l) && RunningDown(st, p, l, n)
    ensures RunningDown(Step(st, e), p, l, if e.Pass? then n - 1 else n)
  {
    KnownOfInv(st);
    if e.Pass? {
      if p in st.Get(l).active {
        DecisionTable(st, p, l);
      }
    } else if e.Try? {
      ConnectRunsDown(st, e.peer, p, l, e.which, n);
    } else if e.Drop? || e.NewMax? {
      ListEventsLeave(st, e, p, l);
    } else {
      PeerEventsLeave(st, e, p, l);
    }
  }

  /** On every list, with or without the swap rule: a peer silent since time to live `n` is gone after `n` passes
    * at the latest, and does not come back. Only a swap can remove it sooner. */
  lemma {:induction false} SilentPeerIsGone(st: State, events: seq<Event>, p: string, l: Which, n: int)
    requires Inv(st) && EnabledThroughout(st, events) && Silent(events, p, l) && RunningDown(st, p, l, n)
    ensures RunningDown(Run(st, events), p, l, n - CountPasses(events))
    decreases |events|
  {
    if events != [] {
      hide *;
      SilentStep(st, events, p, l);
      StepRunsDown(st, events[0], p, l, n);
      var left := if events[0].Pass? then n - 1 else n;
      SilentPeerIsGone(Step(st, events[0]), events[1..], p, l, left);
      assert left - CountPasses(events[1..]) == n - CountPasses(events);
    } else {
      assert n - CountPasses(events) == n && Run(st, events) == st;
    }
  }
}
