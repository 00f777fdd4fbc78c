/** The peer manager object: its methods take exactly the steps of the `Partners` machine. */
module PeerManagers {
  import opened StringOrder
  import opened Ranking
  import opened Partners

  class PeerManager {
    var maxActivePeersIn: nat
    var maxActivePeersOut: nat
    var maxActivePeersOutFREE: nat
    var peerList: map<string, PeerData>
    var peerActiveIn: set<string>
    var peerActiveOut: set<string>
    var peerActiveOutFREE: set<string>
    var peerActiveCooldownIn: map<string, nat>
    var peerActiveCooldownOut: map<string, nat>
    var peerActiveCooldownOutFREE: map<string, nat>
    var removeWorsePartner: bool

    function View(): State
      reads this
    {
      State(peerList,
            List(peerActiveIn, peerActiveCooldownIn, maxActivePeersIn),
            List(peerActiveOut, peerActiveCooldownOut, maxActivePeersOut),
            List(peerActiveOutFREE, peerActiveCooldownOutFREE, maxActivePeersOutFREE),
            removeWorsePartner)
    }

    ghost predicate Valid()
      reads this
    {
      Inv(View())
    }

    constructor (maxIn: nat, maxOut: nat, maxOutFREE: nat, removeWorse: bool)
      ensures Valid()
      ensures View()
              == State(map[], List({}, map[], maxIn), List({}, map[], maxOut), List({}, map[], maxOutFREE), removeWorse)
    {
      maxActivePeersIn, maxActivePeersOut, maxActivePeersOutFREE := maxIn, maxOut, maxOutFREE;
      peerList := map[];
      peerActiveIn, peerActiveOut, peerActiveOutFREE := {}, {}, {};
      peerActiveCooldownIn, peerActiveCooldownOut, peerActiveCooldownOutFREE := map[], map[], map[];
      removeWorsePartner := removeWorse;
    }

    /** Assigns through the pointer `peerActive`. */
    method SetActive(peerActive: Which, active: set<string>)
      modifies this`peerActiveIn, this`peerActiveOut, this`peerActiveOutFREE
      ensures View() == old(View()).Set(peerActive, old(View()).Get(peerActive).(active := active))
    {
      match peerActive
      case In => peerActiveIn := active;
      case Out => peerActiveOut := active;
      case OutFree => peerActiveOutFREE := active;
    }

    method AddPeer(peer: string, sizePeerListOut: int, sizePeerListOut_FREE: int) returns (added: bool)
      requires Valid()
      modifies this`peerList
      ensures Valid() && View() == MeetPeer(old(View()), peer, sizePeerListOut, sizePeerListOut_FREE)
      ensures added <==> peer !in old(peerList)
    {
      StepKeepsInv(View(), Meet(peer, sizePeerListOut, sizePeerListOut_FREE));
      hide Inv;
      added := peer !in peerList;
      if added {
        peerList := peerList[peer := PeerData(TTL_START, TTL_START, TTL_START, 0, sizePeerListOut,
                                              sizePeerListOut_FREE)];
      } else {
        if sizePeerListOut >= 0 {
          peerList := peerList[peer := peerList[peer].(sizeOut := sizePeerListOut)];
        }
        peerList := peerList[peer := peerList[peer].(sizeOutFree := sizePeerListOut_FREE)];
      }
    }

    method ConnectPeer(peer: string, peerActive: Which) returns (inserted: bool)
      requires Valid() && peer in peerList
      modifies this
      ensures Valid() && (View(), inserted) == Connect(old(View()), peer, peerActive)
    {
      ConnectKeepsInv(View(), peer, peerActive);
      KnownOfInv(View());
      hide Inv;
      inserted := false;
      var list := View().Get(peerActive);
      if peer !in list.cooldown {
        if |list.active| < list.max {
          inserted := peer !in list.active;
          SetActive(peerActive, list.active + {peer});
        } else if peerActive != In && removeWorsePartner {
          inserted := ConnectSpecial(peer, peerActive);
        }
        if inserted {
          RestartTimeToLive(peer, peerActive);
        }
      }
    }

    method RestartTimeToLive(peer: string, peerActive: Which)
      requires peer in peerList
      modifies this`peerList
      ensures View() == RestartTtl(old(View()), peer, peerActive)
    {
      if View().Get(peerActive).active == peerActiveIn {
        peerList := peerList[peer := peerList[peer].(ttlIn := TTL_START)];
      } else if peerActive == OutFree {
        peerList := peerList[peer := peerList[peer].(ttlOutFree := TTL_START)];
      } else {
        peerList := peerList[peer := peerList[peer].(ttlOut := TTL_START)];
      }
    }

    method ConnectSpecial(peer: string, peerActive: Which) returns (inserted: bool)
      requires peer in peerList && View().Get(peerActive).active <= peerList.Keys
      modifies this`peerActiveIn, this`peerActiveOut, this`peerActiveOutFREE, this`removeWorsePartner
      ensures (View(), inserted) == Partners.ConnectSpecial(old(View()), peer, peerActive)
    {
      var active := View().Get(peerActive).active;
      if active == {} {
        return false;
      }
      var smaller := Begin(active);
      var rest := active;
      while rest != {}
        invariant rest <= active && smaller in active
        invariant WorstOf(View(), peerActive, rest, smaller)
                  == WorstOf(View(), peerActive, active, Begin(active))
        decreases rest
      {
        var count := Begin(rest);
        if Bandwidth(View(), peerActive, count) < Bandwidth(View(), peerActive, smaller) {
          smaller := count;
        }
        rest := rest - {count};
      }
      inserted := Bandwidth(View(), peerActive, smaller) < Bandwidth(View(), peerActive, peer);
      if inserted {
        SetActive(peerActive, active - {smaller} + {peer});
        removeWorsePartner := false;
      }
    }

    method DisconnectPeer(peer: string, peerActive: Which)
      modifies this`peerActiveIn, this`peerActiveOut, this`peerActiveOutFREE,
               this`peerActiveCooldownIn, this`peerActiveCooldownOut, this`peerActiveCooldownOutFREE
      ensures View() == Disconnect(old(View()), peer, peerActive)
      ensures old(Valid()) ==> Valid()
    {
      if Valid() {
        DropKeepsInv(View(), peer, peerActive);
      }
      SetActive(peerActive, View().Get(peerActive).active - {peer});
      match peerActive
      case In => peerActiveCooldownIn := peerActiveCooldownIn[peer := PEER_ACTIVE_COOLDOWN];
      case Out => peerActiveCooldownOut := peerActiveCooldownOut[peer := PEER_ACTIVE_COOLDOWN];
      case OutFree => peerActiveCooldownOutFREE := peerActiveCooldownOutFREE[peer := PEER_ACTIVE_COOLDOWN];
    }

    /** Trims an outgoing list; `ranked` is the order the sort left the peers in. */
    method SetNewMMaxActivePeersOut(newMaxActivePeers: int, peerActive: Which) returns (ghost ranked: seq<PairStrInt>)
      requires Valid()
      modifies this`maxActivePeersOut, this`maxActivePeersOutFREE,
               this`peerActiveIn, this`peerActiveOut, this`peerActiveOutFREE
      ensures old(View()).Get(peerActive).active <= old(View()).peers.Keys
      ensures IsRanking(ranked, Pairs(old(View()), old(View()).Get(peerActive).active))
      ensures Valid() && View() == Resize(old(View()), newMaxActivePeers, peerActive, ranked)
    {
      KnownOfInv(View());
      var active := View().Get(peerActive).active;
      ranked := Sorted(Pairs(View(), active));
      ResizeKeepsInv(View(), newMaxActivePeers, peerActive, ranked);
      hide Inv, IsRanking, Sorted, Pairs, TopNames;
      if newMaxActivePeers < 0 || peerActive == In {
        return;
      }
      var shrinks := newMaxActivePeers < View().Get(peerActive).max;
      var survivors := active;
      if shrinks {
        var auxOutList := Sorted(Pairs(View(), active));
        survivors := FirstNames(auxOutList, newMaxActivePeers);
      }
      SetMax(peerActive, newMaxActivePeers);
      SetActive(peerActive, survivors);
    }

    method SetMax(peerActive: Which, max: nat)
      requires peerActive != In
      modifies this`maxActivePeersOut, this`maxActivePeersOutFREE
      ensures View() == old(View()).Set(peerActive, old(View()).Get(peerActive).(max := max))
    {
      if peerActive == Out {
        maxActivePeersOut := max;
      } else {
        maxActivePeersOutFREE := max;
      }
    }

    static method FirstNames(auxOutList: seq<PairStrInt>, k: nat) returns (names: set<string>)
      ensures names == TopNames(auxOutList, k)
    {
      names := {};
      for i := 0 to k
        invariant names == TopNames(auxOutList, i)
      {
        if i < |auxOutList| {
          names := names + {auxOutList[i].first};
        }
      }
    }

    /** The timer switches the swap rule on again; a swap switches it off. */
    method SetRemoveWorsePartner(removeWorsePartner: bool)
      requires Valid()
      modifies this`removeWorsePartner
      ensures Valid() && View() == Step(old(View()), SwapRule(removeWorsePartner))
    {
      hide Inv;
      StepKeepsInv(View(), SwapRule(removeWorsePartner));
      this.removeWorsePartner := removeWorsePartner;
    }

    /** One run-down of a cooldown map. */
    static method CheckpeerActiveCooldown(peerActiveCooldown: map<string, nat>) returns (cooled: map<string, nat>)
      ensures cooled == Cooled(peerActiveCooldown)
    {
      cooled := peerActiveCooldown;
      var deletedPeer := {};
      var rest := peerActiveCooldown.Keys;
      while rest != {}
        invariant rest <= peerActiveCooldown.Keys && cooled.Keys == peerActiveCooldown.Keys
        invariant forall p :: p in cooled ==>
                    cooled[p] == if p in rest then peerActiveCooldown[p] else Dec32(peerActiveCooldown[p])
        invariant forall p :: p in deletedPeer <==> p in cooled && p !in rest && cooled[p] == 0
        decreases rest
      {
        var i := Begin(rest);
        cooled := cooled[i := Dec32(cooled[i])];
        if cooled[i] == 0 {
          deletedPeer := deletedPeer + {i};
        }
        rest := rest - {i};
      }
      cooled := cooled - deletedPeer;
    }

    /** The aging loop: ages every active peer in each of its lists and collects what expires. */
    method AgePeers() returns (desconectaIn: set<string>, desconectaOut: set<string>, desconectaOutFREE: set<string>,
                               deletaPeer: set<string>)
      requires ActiveKnown(View())
      modifies this`peerList
      ensures desconectaIn == Expired(old(View()), In) && desconectaOut == Expired(old(View()), Out)
      ensures desconectaOutFREE == Expired(old(View()), OutFree) && deletaPeer == Leaving(old(View()))
      ensures View() == old(View()).(peers := TickAll(old(View())))
    {
      ghost var st := View();
      desconectaIn, desconectaOut, desconectaOutFREE, deletaPeer := {}, {}, {}, {};
      var rest := peerActiveIn + peerActiveOut + peerActiveOutFREE;
      StartCollecting(st, rest);
      hide Inv, Expired, Collected, PartlyTicked, Leaving, Ticked, TickAll;
      while rest != {}
        invariant rest <= st.AllActive() && View() == st.(peers := peerList)
        invariant PartlyTicked(peerList, st, rest)
        invariant Collected(desconectaIn, Expired(st, In), rest)
        invariant Collected(desconectaOut, Expired(st, Out), rest)
        invariant Collected(desconectaOutFREE, Expired(st, OutFree), rest)
        invariant Collected(deletaPeer, Leaving(st), rest)
        decreases rest
      {
        var i := Begin(rest);
        TickOne(peerList, st, rest, i);
        var isIn, isOut, isOutFREE := AgePeer(i, st);
        CollectOne(desconectaIn, Expired(st, In), rest, i);
        if i in peerActiveIn && !isIn {
          desconectaIn := desconectaIn + {i};
        }
        CollectOne(desconectaOut, Expired(st, Out), rest, i);
        if i in peerActiveOut && !isOut {
          desconectaOut := desconectaOut + {i};
        }
        CollectOne(desconectaOutFREE, Expired(st, OutFree), rest, i);
        if i in peerActiveOutFREE && !isOutFREE {
          desconectaOutFREE := desconectaOutFREE + {i};
        }
        CollectOne(deletaPeer, Leaving(st), rest, i);
        LeavingMeans(st, i);
        if !isIn && !isOut && !isOutFREE {
          deletaPeer := deletaPeer + {i};
        }
        rest := rest - {i};
      }
      EverythingCollected(desconectaIn, Expired(st, In));
      EverythingCollected(desconectaOut, Expired(st, Out));
      EverythingCollected(desconectaOutFREE, Expired(st, OutFree));
      EverythingCollected(deletaPeer, Leaving(st));
      EverythingTicked(peerList, st);
    }

    /** `found` is the part of `all` that is not still to be visited. */
    ghost static predicate Collected(found: set<string>, all: set<string>, rest: set<string>) {
      found == all - rest
    }

    /** The peers not still to be visited have been aged. */
    ghost static predicate PartlyTicked(peers: map<string, PeerData>, st: State, rest: set<string>) {
      && peers.Keys == st.peers.Keys
      && forall p :: p in peers ==> peers[p] == if p in rest then st.peers[p] else Ticked(st, p)
    }

    static lemma StartCollecting(st: State, rest: set<string>)
      requires ActiveKnown(st) && rest == st.AllActive()
      ensures PartlyTicked(st.peers, st, rest)
      ensures Collected({}, Expired(st, In), rest) && Collected({}, Expired(st, Out), rest)
      ensures Collected({}, Expired(st, OutFree), rest) && Collected({}, Leaving(st), rest)
      ensures Expired(st, In) <= st.inList.active && Expired(st, Out) <= st.outList.active
      ensures Expired(st, OutFree) <= st.outFree.active
    {}

    static lemma CollectOne(found: set<string>, all: set<string>, rest: set<string>, i: string)
      requires Collected(found, all, rest) && i in rest
      ensures Collected(if i in all then found + {i} else found, all, rest - {i})
    {}

    static lemma TickOne(peers: map<string, PeerData>, st: State, rest: set<string>, i: string)
      requires PartlyTicked(peers, st, rest) && i in rest && i in st.peers
      ensures i in peers && peers[i] == st.peers[i]
      ensures PartlyTicked(peers[i := Ticked(st, i)], st, rest - {i})
    {
      hide Ticked;
    }

    static lemma EverythingCollected(found: set<string>, all: set<string>)
      requires Collected(found, all, {})
      ensures found == all
    {}

    static lemma EverythingTicked(peers: map<string, PeerData>, st: State)
      requires PartlyTicked(peers, st, {})
      ensures peers == TickAll(st)
    {
      hide Ticked;
    }

    static lemma LeavingMeans(st: State, i: string)
      requires ActiveKnown(st) && i in st.AllActive()
      ensures i in Leaving(st) <==> !(i in st.inList.active && i !in Expired(st, In))
                                    && !(i in st.outList.active && i !in Expired(st, Out))
                                    && !(i in st.outFree.active && i !in Expired(st, OutFree))
    {
      hide Expired;
    }

    /** Ages one active peer; says which of its memberships go on. */
    method AgePeer(i: string, ghost st: State) returns (isIn: bool, isOut: bool, isOutFREE: bool)
      requires ActiveKnown(st) && View() == st.(peers := peerList)
      requires i in peerList && i in st.peers && peerList[i] == st.peers[i]
      modifies this`peerList
      ensures View() == st.(peers := old(peerList)[i := Ticked(st, i)])
      ensures isIn <==> i in st.inList.active && i !in Expired(st, In)
      ensures isOut <==> i in st.outList.active && i !in Expired(st, Out)
      ensures isOutFREE <==> i in st.outFree.active && i !in Expired(st, OutFree)
    {
      isIn := i in peerActiveIn;
      if isIn {
        peerList := peerList[i := peerList[i].(ttlIn := peerList[i].ttlIn - 1)];
        if peerList[i].ttlIn <= 0 {
          isIn := false;
        }
      }
      isOut := i in peerActiveOut;
      if isOut {
        peerList := peerList[i := peerList[i].(ttlOut := peerList[i].ttlOut - 1)];
        if peerList[i].ttlOut <= 0 {
          isOut := false;
        }
      }
      isOutFREE := i in peerActiveOutFREE;
      if isOutFREE {
        peerList := peerList[i := peerList[i].(ttlOutFree := peerList[i].ttlOutFree - 1)];
        if peerList[i].ttlOutFree <= 0 {
          isOutFREE := false;
        }
      }
    }

    /** Disconnects a set of peers from one list. */
    method DisconnectAll(peers: set<string>, peerActive: Which)
      modifies this`peerActiveIn, this`peerActiveOut, this`peerActiveOutFREE,
               this`peerActiveCooldownIn, this`peerActiveCooldownOut, this`peerActiveCooldownOutFREE
      ensures View() == old(View()).Set(peerActive, Leave(old(View()).Get(peerActive), peers))
    {
      ghost var st := View();
      ghost var list := st.Get(peerActive);
      var rest, gone := peers, {};
      LeaveNone(list);
      hide Leave, Inv;
      while rest != {}
        invariant peers == gone + rest
        invariant View() == st.Set(peerActive, Leave(list, gone))
        decreases rest
      {
        var i := Begin(rest);
        LeaveOne(list, gone, i);
        DisconnectPeer(i, peerActive);
        rest, gone := rest - {i}, gone + {i};
      }
      assert gone == peers;
    }

    method CheckPeerList()
      requires Valid()
      modifies this
      ensures Valid() && View() == Check(old(View()))
    {
      KnownOfInv(View());
      CheckKeepsInv(View());
      hide Inv, Cooled, Expired, TickAll, Leaving, Leave;
      var desconectaIn, desconectaOut, desconectaOutFREE, deletaPeer := AgePeers();
      RemoveExpired(desconectaIn, desconectaOut, desconectaOutFREE, deletaPeer);
      CoolDown();
    }

    method RemoveExpired(desconectaIn: set<string>, desconectaOut: set<string>, desconectaOutFREE: set<string>,
                         deletaPeer: set<string>)
      modifies this
      ensures var st := old(View());
              View() == State(st.peers - deletaPeer, Leave(st.inList, desconectaIn), Leave(st.outList, desconectaOut),
                              Leave(st.outFree, desconectaOutFREE), st.removeWorse)
    {
      hide Leave;
      DisconnectAll(desconectaIn, In);
      DisconnectAll(desconectaOut, Out);
      DisconnectAll(desconectaOutFREE, OutFree);
      peerList := peerList - deletaPeer;
    }

    method CoolDown()
      modifies this`peerActiveCooldownIn, this`peerActiveCooldownOut, this`peerActiveCooldownOutFREE
      ensures var st := old(View());
              View() == st.(inList := st.inList.(cooldown := Cooled(st.inList.cooldown)),
                            outList := st.outList.(cooldown := Cooled(st.outList.cooldown)),
                            outFree := st.outFree.(cooldown := Cooled(st.outFree.cooldown)))
    {
      hide Cooled;
      peerActiveCooldownIn := CheckpeerActiveCooldown(peerActiveCooldownIn);
      peerActiveCooldownOut := CheckpeerActiveCooldown(peerActiveCooldownOut);
      peerActiveCooldownOutFREE := CheckpeerActiveCooldown(peerActiveCooldownOutFREE);
    }
  }
}
