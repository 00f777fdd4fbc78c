/** The channel of the bootstrap, updated in place by its renewals. */
module Channels {
  import opened Options
  import opened StringOrder
  import opened Ranking
  import opened Topology
  import opened Renewal

  /** The collected pairs name every ordinary peer once, with what it had sent. */
  ghost predicate Collected(v: seq<PairStrInt>, peers: Peers, names: set<string>) {
    && names <= peers.Keys
    && TopNames(v, |v|) == names && |names| == |v|
    && (forall i :: 0 <= i < |v| ==> v[i].first in names && v[i].second == peers[v[i].first].sent)
  }

  lemma CollectOne(v: seq<PairStrInt>, peers: Peers, names: set<string>, p: string)
    requires Collected(v, peers, names) && p in peers && p !in names
    ensures Collected(v + [PairStrInt(p, peers[p].sent)], peers, names + {p})
  {
    var w := v + [PairStrInt(p, peers[p].sent)];
    forall n | n in names + {p}
      ensures n in TopNames(w, |w|)
    {
      if n == p {
        assert w[|v|].first == p;
      } else {
        var i :| 0 <= i < |v| && v[i].first == n;
        assert w[i].first == n;
      }
    }
    assert TopNames(w, |w|) <= names + {p};
  }

  function Names(r: seq<PairStrInt>): (names: seq<string>)
    ensures |names| == |r|
    ensures forall i :: 0 <= i < |r| ==> names[i] == r[i].first
  {
    seq(|r|, i requires 0 <= i < |r| => r[i].first)
  }

  /** Sorting the collected pairs by their second half orders the ordinary peers by what they sent. */
  lemma SortedIsOrder(v: seq<PairStrInt>, r: seq<PairStrInt>, peers: Peers, server: string)
    requires Collected(v, peers, Ordinary(peers, server)) && IsRanking(r, v)
    ensures IsOrder(Names(r), peers, server)
  {
    hide IsOrdinary;
    assert |multiset(r)| == |multiset(v)|;
    forall i | 0 <= i < |r|
      ensures r[i] in v
    {
      assert r[i] in multiset(v);
    }
    forall i | 0 <= i < |v|
      ensures v[i] in r
    {
      assert v[i] in multiset(r);
    }
    assert TopNames(r, |r|) == TopNames(v, |v|);
    forall i, j | 0 <= i < j < |r|
      ensures r[i].first != r[j].first
    {
      DistinctNames(r, i, j);
    }
    forall p
      ensures p in Names(r) <==> p in Ordinary(peers, server)
    {
      if p in Ordinary(peers, server) {
        var i :| 0 <= i < |r| && r[i].first == p;
        assert Names(r)[i] == p;
      }
    }
  }

  function Plus(r: (Peers, nat), n: nat): (Peers, nat) {
    (r.0, r.1 + n)
  }

  lemma InRange(peers: Peers, server: string, names: seq<string>, percent: nat)
    requires IsOrder(names, peers, server)
    requires forall p :: p in Ordinary(peers, server) ==> !LeavesVector(|Ordinary(peers, server)|, peers[p], percent)
    ensures Renew(peers, server, false, percent, names).Some?
  {
    hide Reclassified, IsOrdinary;
    var cleared := ZeroSent(peers, {server} + Ordinary(peers, server));
    RenewalStaysInRange(cleared, names, percent);
    if |names| == 1 {
      assert names[0] in names;
      assert Ordinary(peers, server) == {names[0]};
    }
  }

  /** The collection with the peers `rest` still to visit. */
  ghost predicate Collecting(before: Peers, server: string, rest: set<string>, peers: Peers, v: seq<PairStrInt>) {
    && rest <= before.Keys
    && peers == ZeroSent(before, {server} + (Ordinary(before, server) - rest))
    && Collected(v, before, Ordinary(before, server) - rest)
  }

  lemma CollectNone(before: Peers, server: string)
    requires server in before
    ensures Collecting(before, server, before.Keys, before[server := before[server].(sent := 0)], [])
  {
    assert Ordinary(before, server) - before.Keys == {};
  }

  lemma CollectAll(before: Peers, server: string, peers: Peers, v: seq<PairStrInt>)
    requires Collecting(before, server, {}, peers, v)
    ensures peers == ZeroSent(before, {server} + Ordinary(before, server))
    ensures Collected(v, before, Ordinary(before, server))
  {
    assert Ordinary(before, server) - {} == Ordinary(before, server);
  }

  /** Visiting one more peer. */
  lemma CollectStep(before: Peers, server: string, rest: set<string>, i: string, peers: Peers, v: seq<PairStrInt>)
    requires Collecting(before, server, rest, peers, v) && i in rest
    ensures i in peers
    ensures if IsOrdinary(peers[i]) && i != server then
              Collecting(before, server, rest - {i}, peers[i := peers[i].(sent := 0)],
                         v + [PairStrInt(i, peers[i].sent)])
            else Collecting(before, server, rest - {i}, peers, v)
  {
    var ordinary := Ordinary(before, server);
    var done := {server} + (ordinary - rest);
    ZeroOneMore(before, done, i);
    if i in ordinary {
      CollectOne(v, before, ordinary - rest, i);
      assert IsOrdinary(peers[i]) && i != server;
      hide Ordinary, Collected, IsOrdinary, ZeroSent;
      assert ordinary - (rest - {i}) == (ordinary - rest) + {i};
      assert {server} + (ordinary - (rest - {i})) == done + {i};
    } else {
      assert !(IsOrdinary(peers[i]) && i != server);
      hide Ordinary, Collected, IsOrdinary, ZeroSent;
      assert ordinary - (rest - {i}) == ordinary - rest;
    }
  }

  lemma ZeroOneMore(before: Peers, done: set<string>, i: string)
    requires i in before
    ensures i !in done ==> ZeroSent(before, done)[i] == before[i]
    ensures ZeroSent(before, done + {i}) == ZeroSent(before, done)[i := before[i].(sent := 0)]
    ensures IsOrdinary(ZeroSent(before, done)[i]) == IsOrdinary(before[i])
  {}

  /** Visiting one peer: what becomes of the list, and how many peers it altered. */
  function One(peers: Peers, p: string, base: Class, target: Class): (r: (Peers, nat))
    requires p in peers
    ensures r.0.Keys == peers.Keys && r.1 <= 1
  {
    if peers[p].out == target.Out() then (peers, 0) else (peers[p := Moved(peers[p], base, target)], 1)
  }

  /** What is left of the forward pass at the position `common`. */
  function From(peers: Peers, segment: seq<string>, common: nat, base: Class, target: Class, budget: nat): (Peers, nat)
    requires Known(peers, segment) && common <= |segment|
  {
    Greedy(peers, segment[common..], base, target, budget)
  }

  lemma FromEnds(peers: Peers, segment: seq<string>, common: nat, base: Class, target: Class, budget: nat)
    requires Known(peers, segment) && common <= |segment|
    ensures common == 0 ==> From(peers, segment, common, base, target, budget)
                            == Greedy(peers, segment, base, target, budget)
    ensures common == |segment| || budget == 0 ==> From(peers, segment, common, base, target, budget) == (peers, 0)
  {
    assert segment[0..] == segment;
  }

  lemma FromStep(peers: Peers, segment: seq<string>, common: nat, base: Class, target: Class, budget: nat)
    requires Known(peers, segment) && common < |segment| && budget > 0
    ensures var (next, altered) := One(peers, segment[common], base, target);
            From(peers, segment, common, base, target, budget)
            == Plus(From(next, segment, common + 1, base, target, budget - altered), altered)
  {
    hide Moved;
    assert segment[common..][1..] == segment[common + 1..];
  }

  class Channel {
    var peerList: Peers
    const serverPeer: string
    const peerPercentChangeAlowed: nat
    var firstTimeOverlay: bool

    constructor (serverPeer: string, server: PeerData, peerPercentChangeAlowed: nat)
      ensures peerList == map[serverPeer := server] && firstTimeOverlay
      ensures this.serverPeer == serverPeer && this.peerPercentChangeAlowed == peerPercentChangeAlowed
    {
      this.peerList := map[serverPeer := server];
      this.serverPeer := serverPeer;
      this.peerPercentChangeAlowed := peerPercentChangeAlowed;
      this.firstTimeOverlay := true;
    }

    method ConvertePeerClasse(newClass: Class, pos: string)
      requires pos in peerList
      modifies this`peerList
      ensures peerList == old(peerList)[pos := Convert(old(peerList)[pos], newClass)]
    {
      peerList := peerList[pos := peerList[pos].(outOld := peerList[pos].out)];
      peerList := peerList[pos := peerList[pos].(out := newClass.Out())];
      peerList := peerList[pos := peerList[pos].(outFreeOld := peerList[pos].outFree)];
      peerList := peerList[pos := peerList[pos].(outFree := newClass.OutFree())];
    }

    /** Alters the peer unless it is in the class `classRef`. */
    method Altera(classBase: Class, classRef: Class, common: string) returns (altered: nat)
      requires common in peerList
      modifies this`peerList
      ensures (peerList, altered) == One(old(peerList), common, classBase, classRef)
    {
      if peerList[common].out == classRef.Out() {
        return 0;
      }
      if peerList[common].out == classBase.Out() {
        ConvertePeerClasse(classRef, common);
      } else {
        ConvertePeerClasse(classBase, common);
      }
      altered := 1;
    }

    method NormalizeClasses(classBase: Class, classRef: Class, ordinaryNodeVector: seq<string>, start: nat, stop: nat,
                            percent: nat) returns (contador: nat)
      requires Known(peerList, ordinaryNodeVector) && start <= stop <= |ordinaryNodeVector|
      requires Normalized(peerList, ordinaryNodeVector, classBase, classRef, start, stop,
                          Budget(|ordinaryNodeVector|, percent)).Some?
      modifies this`peerList
      ensures Some((peerList, contador))
              == Normalized(old(peerList), ordinaryNodeVector, classBase, classRef, start, stop,
                            Budget(|ordinaryNodeVector|, percent))
    {
      var totalAltera := Budget(|ordinaryNodeVector|, percent);
      if classBase == classRef {
        contador := NormalizeBase(classBase, ordinaryNodeVector[start..stop]);
      } else if classRef.Out() > classBase.Out() {
        contador := NormalizeDown(classBase, classRef, ordinaryNodeVector[start..stop], totalAltera);
      } else {
        contador := NormalizeUp(classBase, classRef, ordinaryNodeVector, stop - 1, start + 1, totalAltera);
      }
    }

    method NormalizeBase(classBase: Class, segment: seq<string>) returns (contador: nat)
      requires Known(peerList, segment)
      modifies this`peerList
      ensures (peerList, contador) == AllInto(old(peerList), segment, classBase)
    {
      contador := 0;
      for common := 0 to |segment|
        invariant Known(peerList, segment)
        invariant Plus(AllInto(peerList, segment[common..], classBase), contador)
                  == AllInto(old(peerList), segment, classBase)
      {
        assert segment[common..][1..] == segment[common + 1..];
        if peerList[segment[common]].out != classBase.Out() {
          ConvertePeerClasse(classBase, segment[common]);
          contador := contador + 1;
        }
      }
    }

    method NormalizeDown(classBase: Class, classRef: Class, segment: seq<string>, totalAltera: nat)
      returns (contador: nat)
      requires Known(peerList, segment)
      modifies this`peerList
      ensures (peerList, contador) == Greedy(old(peerList), segment, classBase, classRef, totalAltera)
    {
      hide Greedy, One, From;
      contador := 0;
      FromEnds(peerList, segment, 0, classBase, classRef, totalAltera);
      var common := 0;
      while common != |segment|
        invariant 0 <= common <= |segment| && contador <= totalAltera
        invariant Known(peerList, segment)
        invariant Plus(From(peerList, segment, common, classBase, classRef, totalAltera - contador), contador)
                  == Greedy(old(peerList), segment, classBase, classRef, totalAltera)
        decreases |segment| - common
      {
        if contador >= totalAltera {
          break;
        }
        FromStep(peerList, segment, common, classBase, classRef, totalAltera - contador);
        var altered := Altera(classBase, classRef, segment[common]);
        contador := contador + altered;
        common := common + 1;
      }
      FromEnds(peerList, segment, common, classBase, classRef, totalAltera - contador);
    }

    /** Walks down from `common` and stops before `end`. The counter is asked before each access. */
    method NormalizeUp(classBase: Class, classRef: Class, names: seq<string>, from: int, end: int, totalAltera: nat)
      returns (contador: nat)
      requires Known(peerList, names) && from < |names|
      requires Backward(peerList, names, from, end, classBase, classRef, totalAltera).Some?
      modifies this`peerList
      ensures Some((peerList, contador)) == Backward(old(peerList), names, from, end, classBase, classRef, totalAltera)
    {
      hide Moved;
      contador := 0;
      ghost var all := Backward(peerList, names, from, end, classBase, classRef, totalAltera);
      var common := from;
      while common != end
        invariant common < |names| && contador <= totalAltera
        invariant Known(peerList, names)
        invariant var rest := Backward(peerList, names, common, end, classBase, classRef, totalAltera - contador);
                  rest.Some? && Some(Plus(rest.value, contador)) == all
        decreases common + 1
      {
        if contador >= totalAltera {
          break;
        }
        var altered := Altera(classBase, classRef, names[common]);
        contador := contador + altered;
        common := common - 1;
      }
    }

    /** Collects the ordinary peers and clears their counters. */
    method CollectOrdinary() returns (ordinaryNodeVector: seq<PairStrInt>)
      requires serverPeer in peerList
      modifies this`peerList
      ensures peerList == ZeroSent(old(peerList), {serverPeer} + Ordinary(old(peerList), serverPeer))
      ensures Collected(ordinaryNodeVector, old(peerList), Ordinary(old(peerList), serverPeer))
    {
      ghost var before := peerList;
      CollectNone(before, serverPeer);
      hide *;
      peerList := peerList[serverPeer := peerList[serverPeer].(sent := 0)];
      ordinaryNodeVector := [];
      var rest := peerList.Keys;
      while rest != {}
        invariant Collecting(before, serverPeer, rest, peerList, ordinaryNodeVector)
        decreases rest
      {
        var i := Begin(rest);
        CollectStep(before, serverPeer, rest, i, peerList, ordinaryNodeVector);
        rest := rest - {i};
        ordinaryNodeVector := Visit(i, ordinaryNodeVector);
      }
      CollectAll(before, serverPeer, peerList, ordinaryNodeVector);
    }

    method Visit(i: string, v: seq<PairStrInt>) returns (v': seq<PairStrInt>)
      requires i in peerList
      modifies this`peerList
      ensures var d := old(peerList)[i];
              if IsOrdinary(d) && i != serverPeer then
                v' == v + [PairStrInt(i, d.sent)] && peerList == old(peerList)[i := d.(sent := 0)]
              else v' == v && peerList == old(peerList)
    {
      v' := v;
      if peerList[i].out > 0 || peerList[i].outFree > 0 {
        if peerList[i].hits == 0 && i != serverPeer {
          v' := v + [PairStrInt(i, peerList[i].sent)];
          peerList := peerList[i := peerList[i].(sent := 0)];
        }
      }
    }

    /** Everything is a renewal by some order of the ordinary peers. Asked of the caller: the server is listed,
      * and the ranking is not a single peer that the backward pass would walk past. */
    method RenewOUTALL()
      requires serverPeer in peerList
      requires firstTimeOverlay || forall p :: p in Ordinary(peerList, serverPeer) ==>
                 !LeavesVector(|Ordinary(peerList, serverPeer)|, peerList[p], peerPercentChangeAlowed)
      modifies this`peerList, this`firstTimeOverlay
      ensures !firstTimeOverlay
      ensures old(firstTimeOverlay) ==> peerList == ZeroSent(old(peerList), old(peerList).Keys)
      ensures !old(firstTimeOverlay) ==>
                exists names :: IsOrder(names, old(peerList), serverPeer)
                                && Renew(old(peerList), serverPeer, false, peerPercentChangeAlowed, names)
                                   == Some(peerList)
    {
      if firstTimeOverlay {
        ClearAll();
        firstTimeOverlay := false;
        return;
      }
      ghost var before := peerList;
      var pairs := CollectOrdinary();
      var ordinaryNodeVector := Sorted(pairs);
      SortedIsOrder(pairs, ordinaryNodeVector, before, serverPeer);
      var names := Names(ordinaryNodeVector);
      InRange(before, serverPeer, names, peerPercentChangeAlowed);
      Classify(names);
    }

    method Classify(names: seq<string>)
      requires Known(peerList, names) && Reclassified(peerList, names, peerPercentChangeAlowed).Some?
      modifies this`peerList
      ensures Reclassified(old(peerList), names, peerPercentChangeAlowed) == Some(peerList)
    {
      hide Greedy, AllInto, Backward, PosD, PosC, Budget;
      var commonSize := |names|;
      var posClassD := PosD(commonSize);
      var posClassC := PosC(commonSize);
      var peerCountD := NormalizeClasses(ClassC, ClassD, names, 0, posClassD, peerPercentChangeAlowed);
      var peerCountC := NormalizeClasses(ClassC, ClassC, names, posClassD, posClassC, peerPercentChangeAlowed);
      var peerCountB := NormalizeClasses(ClassC, ClassB, names, posClassC, commonSize, peerPercentChangeAlowed);
    }

    method ClearAll()
      modifies this`peerList
      ensures peerList == ZeroSent(old(peerList), old(peerList).Keys)
    {
      var rest := peerList.Keys;
      ghost var before := peerList;
      while rest != {}
        invariant rest <= before.Keys && peerList == ZeroSent(before, before.Keys - rest)
        decreases rest
      {
        var i := Begin(rest);
        rest := rest - {i};
        peerList := peerList[i := peerList[i].(sent := 0)];
      }
    }
  }
}
