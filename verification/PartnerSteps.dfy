/** What each operation on the partner lists does to the lists, the cooldowns and the peers. */
module PartnerSteps {
  import opened StringOrder
  import opened Ranking
  import opened Partners

  // ---------- Connecting ----------

  /** The size a peer announced for Out, or for Out-FREE. */
  function Announced(d: PeerData, free: bool): int {
    if free then d.sizeOutFree else d.sizeOut
  }

  /** `w` is the member that announced least, the first in key order among equals. */
  ghost predicate IsLeast(st: State, members: set<string>, free: bool, w: string)
    requires members <= st.peers.Keys
  {
    && w in members
    && forall p :: p in members && p != w ==>
         || Announced(st.peers[w], free) < Announced(st.peers[p], free)
         || (Announced(st.peers[w], free) == Announced(st.peers[p], free) && Less(w, p))
  }

  /** The Out-FREE list compares by what peers announced for Out-FREE. The Out list compares by what they
    * announced for Out, unless it happens to have the same members as Out-FREE. */
  predicate ComparesFree(st: State, l: Which) {
    l == OutFree || st.Get(l).active == st.outFree.active
  }

  lemma WorstIsLeast(st: State, l: Which, w: string)
    requires Inv(st)
    ensures st.Get(l).active <= st.peers.Keys
    ensures IsWorst(st, l, w) <==> IsLeast(st, st.Get(l).active, ComparesFree(st, l), w)
    ensures forall p :: p in st.peers ==> Bandwidth(st, l, p) == Announced(st.peers[p], ComparesFree(st, l))
  {
    hide Less;
  }

  lemma OnlyOneIsLeast(st: State, members: set<string>, free: bool, w: string, w': string)
    requires members <= st.peers.Keys && IsLeast(st, members, free, w) && IsLeast(st, members, free, w')
    ensures w == w'
  {
    LessIsStrictOrder();
    hide Less;
  }

  /** A connection of a known peer leaves everything alone but the members of its list, this peer's time to live
    * and, if it swaps, the swap rule. */
  lemma ConnectTouchesLittle(st: State, peer: string, l: Which)
    requires Inv(st) && peer in st.peers && st.Get(l).active <= st.peers.Keys
    ensures var (st', inserted) := Connect(st, peer, l);
            && st' == st.Set(l, st.Get(l).(active := st'.Get(l).active))
                        .(peers := st.peers[peer := st'.peers[peer]], removeWorse := st'.removeWorse)
            && (!inserted ==> st' == st)
            && (st'.removeWorse ==> st.removeWorse)
  {
    hide Bandwidth, WorstOf, WithTtl;
    assert st.peers[peer := st.peers[peer]] == st.peers;
    assert peer in st.Get(l).active ==> st.Get(l).active + {peer} == st.Get(l).active;
  }

  /** A peer in its cooldown is refused; a list with a free place takes any other peer, and says whether it is new;
    * a full list takes it exactly if it is outgoing, the swap rule is on, and the peer announced more than the
    * least member, which it replaces. */
  lemma ConnectAdmits(st: State, peer: string, l: Which)
    requires Inv(st) && peer in st.peers && st.Get(l).active <= st.peers.Keys
    ensures var (st', inserted) := Connect(st, peer, l);
            var members, members' := st.Get(l).active, st'.Get(l).active;
            if peer in st.Get(l).cooldown then st' == st && !inserted
            else if |members| < st.Get(l).max then
              members' == members + {peer} && inserted == (peer !in members) && st'.removeWorse == st.removeWorse
            else
              && (inserted <==> l != In && st.removeWorse
                                && exists w :: IsLeast(st, members, ComparesFree(st, l), w)
                                     && Announced(st.peers[w], ComparesFree(st, l))
                                        < Announced(st.peers[peer], ComparesFree(st, l)))
              && (!inserted ==> st' == st)
              && (inserted ==> !st'.removeWorse && exists w ::
                                 IsLeast(st, members, ComparesFree(st, l), w) && members' == members - {w} + {peer})
  {
    var members := st.Get(l).active;
    if peer !in st.Get(l).cooldown && |members| >= st.Get(l).max && l != In && st.removeWorse && members != {} {
      FullListSwaps(st, peer, l);
    }
    hide Bandwidth, WorstOf, WithTtl, Less;
  }

  lemma SwapInSteps(st: State, peer: string, l: Which, worst: string)
    requires peer in st.peers && st.Get(l).active <= st.peers.Keys && peer !in st.Get(l).cooldown
    requires |st.Get(l).active| >= st.Get(l).max && l != In && st.removeWorse && st.Get(l).active != {}
    requires worst == WorstOf(st, l, st.Get(l).active, Begin(st.Get(l).active))
    ensures var (st', inserted) := Connect(st, peer, l);
            && (inserted <==> Bandwidth(st, l, worst) < Bandwidth(st, l, peer))
            && (inserted ==> !st'.removeWorse && st'.Get(l).active == st.Get(l).active - {worst} + {peer})
            && (!inserted ==> st' == st)
  {
    hide Bandwidth, WorstOf, WithTtl, Begin;
  }

  lemma FullListSwaps(st: State, peer: string, l: Which)
    requires Inv(st) && peer in st.peers && st.Get(l).active <= st.peers.Keys && peer !in st.Get(l).cooldown
    requires |st.Get(l).active| >= st.Get(l).max && l != In && st.removeWorse && st.Get(l).active != {}
    ensures var (st', inserted) := Connect(st, peer, l);
            var members, free := st.Get(l).active, ComparesFree(st, l);
            && (inserted <==> exists w :: IsLeast(st, members, free, w)
                                          && Announced(st.peers[w], free) < Announced(st.peers[peer], free))
            && (inserted ==> !st'.removeWorse && exists w ::
                               IsLeast(st, members, free, w) && st'.Get(l).active == members - {w} + {peer})
            && (!inserted ==> st' == st)
  {
    var members, free := st.Get(l).active, ComparesFree(st, l);
    var worst := WorstOf(st, l, members, Begin(members));
    WorstOfIsWorst(st, l, members, Begin(members));
    WorstIsLeast(st, l, worst);
    SwapInSteps(st, peer, l, worst);
    hide Bandwidth, WorstOf, Connect, Less, Inv;
    forall w | IsLeast(st, members, free, w)
      ensures w == worst
    {
      OnlyOneIsLeast(st, members, free, w, worst);
    }
    hide IsLeast;
  }

  /** Which time to live a new member gets back: that of the list, unless its members are then those of In. */
  lemma ConnectRestartsTtl(st: State, peer: string, l: Which)
    requires Inv(st) && peer in st.peers && st.Get(l).active <= st.peers.Keys && Connect(st, peer, l).1
    ensures var st' := Connect(st, peer, l).0;
            st'.peers[peer] == if st'.Get(l).active == st'.inList.active then st.peers[peer].(ttlIn := 10)
                               else if l == OutFree then st.peers[peer].(ttlOutFree := 10)
                               else st.peers[peer].(ttlOut := 10)
  {
    hide Bandwidth, WorstOf;
  }

  /** A full Out-FREE list of one swaps its member for a peer that announced more for Out-FREE, though less for Out. */
  lemma FreeListComparesFree()
    ensures var st := State(map["p" := PeerData(3, 3, 3, 0, 9, 1), "q" := PeerData(3, 3, 3, 0, 0, 2)],
                            List({}, map[], 1), List({}, map[], 1), List({"p"}, map[], 1), true);
            Inv(st) && st.Get(OutFree).active <= st.peers.Keys
            && Connect(st, "q", OutFree).1 && Connect(st, "q", OutFree).0.outFree.active == {"q"}
  {
    var st := State(map["p" := PeerData(3, 3, 3, 0, 9, 1), "q" := PeerData(3, 3, 3, 0, 0, 2)],
                    List({}, map[], 1), List({}, map[], 1), List({"p"}, map[], 1), true);
    ConnectAdmits(st, "q", OutFree);
    assert IsLeast(st, {"p"}, true, "p");
    assert {"p"} - {"p"} + {"q"} == {"q"};
  }

  // ---------- Meeting, dropping, resizing ----------

  /** News of a peer: a new one starts with full times to live and nothing sent; of a known one only the announced
    * sizes change, that for Out not for the worse than "not announced". */
  lemma MeetingUpdatesOnePeer(st: State, peer: string, sizeOut: int, sizeOutFree: int)
    ensures var st' := MeetPeer(st, peer, sizeOut, sizeOutFree);
            && st' == st.(peers := st'.peers) && st'.peers.Keys == st.peers.Keys + {peer}
            && (forall p :: p in st.peers && p != peer ==> st'.peers[p] == st.peers[p])
            && (peer !in st.peers ==> st'.peers[peer] == PeerData(10, 10, 10, 0, sizeOut, sizeOutFree))
            && (peer in st.peers ==>
                  && st'.peers[peer].sizeOutFree == sizeOutFree
                  && st'.peers[peer].sizeOut == (if sizeOut < 0 then st.peers[peer].sizeOut else sizeOut)
                  && (forall l :: Ttl(st'.peers[peer], l) == Ttl(st.peers[peer], l))
                  && st'.peers[peer].sent == st.peers[peer].sent)
  {}

  /** Where a peer that was dropped stands after `passes` passes: refused for five of them. */
  ghost predicate Dropped(st: State, p: string, l: Which, passes: nat) {
    && p !in st.Get(l).active
    && (p in st.Get(l).cooldown <==> passes < 5)
    && (passes < 5 ==> st.Get(l).cooldown[p] == 5 - passes)
  }

  lemma DropCoolsDown(st: State, p: string, l: Which)
    requires Inv(st)
    ensures var st' := Disconnect(st, p, l);
            && Dropped(st', p, l, 0)
            && st' == st.Set(l, List(st.Get(l).active - {p}, st'.Get(l).cooldown, st.Get(l).max))
            && (forall q :: q != p ==> (q in st'.Get(l).cooldown <==> q in st.Get(l).cooldown)
                                       && (q in st.Get(l).cooldown ==>
                                             st'.Get(l).cooldown[q] == st.Get(l).cooldown[q]))
  {}

  lemma StepKeepsDropped(st: State, e: Event, p: string, l: Which, passes: nat)
    requires Inv(st) && Enabled(st, e) && LeavesAlone(e, p, l) && Dropped(st, p, l, passes)
    ensures Dropped(Step(st, e), p, l, if e.Pass? then passes + 1 else passes)
  {
    KnownOfInv(st);
    if e.Pass? {
      PassEffect(st, p, l);
    } else {
      OthersLeave(st, e, p, l);
      hide Inv, Connect, SwapsOut, Step;
    }
  }

  lemma {:induction false} RunKeepsDropped(st: State, events: seq<Event>, p: string, l: Which, passes: nat)
    requires Inv(st) && EnabledThroughout(st, events) && Silent(events, p, l) && Dropped(st, p, l, passes)
    ensures Dropped(Run(st, events), p, l, passes + CountPasses(events))
    decreases |events|
  {
    if events != [] {
      hide *;
      SilentStep(st, events, p, l);
      StepKeepsDropped(st, events[0], p, l, passes);
      var now := if events[0].Pass? then passes + 1 else passes;
      RunKeepsDropped(Step(st, events[0]), events[1..], p, l, now);
      assert now + CountPasses(events[1..]) == passes + CountPasses(events);
    } else {
      assert passes + CountPasses(events) == passes && Run(st, events) == st;
    }
  }

  /** A peer that is disconnected is refused through the fifth pass after it and not longer, whatever happens to
    * others meanwhile. */
  lemma {:induction false} DroppedPeerIsRefused(st: State, events: seq<Event>, p: string, l: Which)
    requires Inv(st) && Inv(Disconnect(st, p, l)) && EnabledThroughout(Disconnect(st, p, l), events)
    requires Silent(events, p, l)
    ensures var st' := Run(Disconnect(st, p, l), events);
            && p !in st'.Get(l).active
            && (p in st'.Get(l).cooldown <==> CountPasses(events) < 5)
            && (CountPasses(events) < 5 && p in st'.peers ==>
                  st'.Get(l).active <= st'.peers.Keys && Connect(st', p, l) == (st', false))
  {
    DropCoolsDown(st, p, l);
    RunKeepsDropped(Disconnect(st, p, l), events, p, l, 0);
    var st' := Run(Disconnect(st, p, l), events);
    KnownOfInv(st');
    hide Run, Disconnect, EnabledThroughout, Silent, Inv;
  }

  // ---------- The periodic pass ----------

  /** What a pass does to a peer in a list: a member with one pass to live is disconnected, and its cooldown has run
    * down once already; other cooldowns run down by one. */
  lemma PassEffect(st: State, p: string, l: Which)
    requires Inv(st) && ActiveKnown(st)
    ensures var list, list' := st.Get(l), Check(st).Get(l);
            && (p in list'.active <==> p in list.active && Ttl(st.peers[p], l) > 1)
            && (p in list'.cooldown <==>
                  (p in list.active && Ttl(st.peers[p], l) <= 1) || (p in list.cooldown && list.cooldown[p] > 1))
            && (p in list'.cooldown ==> list'.cooldown[p] == if p in list.active then 4 else list.cooldown[p] - 1)
            && list'.max == list.max
  {
    assert ListInv(st.Get(l), st.peers.Keys);
    assert Check(st).Get(l) == Expire(st.Get(l), Expired(st, l));
    ExpireEffect(st.Get(l), Expired(st, l), st.peers.Keys, p);
    hide Inv, Check, Expire;
  }

  lemma ExpireEffect(list: List, gone: set<string>, known: set<string>, p: string)
    requires ListInv(list, known) && gone <= list.active
    ensures var list' := Expire(list, gone);
            && (p in list'.active <==> p in list.active && p !in gone)
            && (p in list'.cooldown <==> p in gone || (p in list.cooldown && list.cooldown[p] > 1))
            && (p in list'.cooldown ==> list'.cooldown[p] == if p in gone then 4 else list.cooldown[p] - 1)
            && list'.max == list.max
  {}

  /** What a pass does to a known peer: it is forgotten exactly if it was in a list and now is in none; otherwise its
    * time to live has run down by one in each list it was in, and nothing else about it has changed. */
  lemma PassAgesPeer(st: State, p: string)
    requires Inv(st) && ActiveKnown(st) && p in st.peers
    ensures var st' := Check(st);
            && (p !in st'.peers <==> p in st.AllActive() && p !in st'.AllActive())
            && st'.peers.Keys <= st.peers.Keys && st'.removeWorse == st.removeWorse
            && (p in st'.peers ==>
                  && (forall l: Which :: Ttl(st'.peers[p], l)
                                         == Ttl(st.peers[p], l) - if p in st.Get(l).active then 1 else 0)
                  && st'.peers[p].sent == st.peers[p].sent && st'.peers[p].sizeOut == st.peers[p].sizeOut
                  && st'.peers[p].sizeOutFree == st.peers[p].sizeOutFree)
  {
    if p in st.AllActive() {
      DecisionTable(st, p, In);
    }
    hide Inv, Expire, Cooled;
  }
}
