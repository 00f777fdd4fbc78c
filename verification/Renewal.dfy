/** One renewal of the overlay: the ranking is cut into three segments and each is led to its class. */
module Renewal {
  import opened Options
  import opened Topology

  predicate IsOrdinary(d: PeerData) {
    (d.out > 0 || d.outFree > 0) && d.hits == 0
  }

  /** The peers that are ranked: no free riders, no peer that still waits, and not the server. */
  function Ordinary(peers: Peers, server: string): set<string> {
    set p | p in peers && IsOrdinary(peers[p]) && p != server
  }

  function ZeroSent(peers: Peers, who: set<string>): (r: Peers)
    ensures r.Keys == peers.Keys
  {
    map p | p in peers :: if p in who then peers[p].(sent := 0) else peers[p]
  }

  /** An order of the ordinary peers by what they sent, largest first. Equals may stand in any order. */
  ghost predicate IsOrder(names: seq<string>, peers: Peers, server: string) {
    && Distinct(names) && Known(peers, names)
    && (forall p :: p in names <==> p in Ordinary(peers, server))
    && (forall i, j :: 0 <= i < j < |names| ==> peers[names[i]].sent >= peers[names[j]].sent)
  }

  function Budget(n: nat, percent: nat): nat {
    n * percent / 100
  }

  /** Where the class D segment ends: 15 percent of the ranking. */
  function PosD(n: nat): (r: nat)
    ensures r <= n
  {
    n * 15 / 100
  }

  /** Where the class C segment ends: 45 percent further. The rest is led to class B. */
  function PosC(n: nat): (r: nat)
    ensures PosD(n) <= r <= n
    ensures n >= 2 ==> r + 2 <= n
  {
    PosD(n) + n * 45 / 100
  }

  /** One normalisation of the segment `start..stop`. `None` is an access outside the ranking. */
  function Normalized(peers: Peers, names: seq<string>, base: Class, target: Class, start: nat, stop: nat, budget: nat)
    : (r: Option<(Peers, nat)>)
    requires Known(peers, names) && start <= stop <= |names|
    ensures r.Some? ==> r.value.0.Keys == peers.Keys
  {
    if base == target then
      Some(AllInto(peers, names[start..stop], base))
    else if target.Out() > base.Out() then
      Some(Greedy(peers, names[start..stop], base, target, budget))
    else
      Backward(peers, names, stop - 1, start + 1, base, target, budget)
  }

  /** The three normalisations after the sent counters of the ranked peers and of the server are cleared. */
  function Reclassified(peers: Peers, names: seq<string>, percent: nat): (r: Option<Peers>)
    requires Known(peers, names)
    ensures r.Some? ==> r.value.Keys == peers.Keys
  {
    var n := |names|;
    var budget := Budget(n, percent);
    var top := Normalized(peers, names, ClassC, ClassD, 0, PosD(n), budget).value.0;
    var middle := Normalized(top, names, ClassC, ClassC, PosD(n), PosC(n), budget).value.0;
    match Normalized(middle, names, ClassC, ClassB, PosC(n), n, budget)
    case None => None
    case Some(r) => Some(r.0)
  }

  // ---------- What one pass does ----------

  /** The peers at the positions `lo..hi` have moved one step; all others are as they were. */
  ghost predicate Applied(peers: Peers, peers': Peers, names: seq<string>, lo: nat, hi: nat, base: Class,
                          target: Class) {
    && peers'.Keys == peers.Keys && lo <= hi <= |names| && Known(peers, names)
    && (forall i :: lo <= i < hi ==> peers'[names[i]] == Moved(peers[names[i]], base, target))
    && (forall i :: 0 <= i < |names| && !(lo <= i < hi) ==> peers'[names[i]] == peers[names[i]])
    && (forall p :: p in peers && p !in names ==> peers'[p] == peers[p])
  }

  lemma NotInSegment(names: seq<string>, lo: nat, hi: nat, i: nat)
    requires Distinct(names) && lo <= hi <= |names| && i < |names| && !(lo <= i < hi)
    ensures names[i] !in names[lo..hi]
  {
    forall k | 0 <= k < |names[lo..hi]|
      ensures names[lo..hi][k] != names[i]
    {
      assert names[lo..hi][k] == names[lo + k];
    }
  }

  /** The forward pass: greedy from the best ranked peer down. */
  lemma ForwardPass(peers: Peers, names: seq<string>, base: Class, target: Class, stop: nat, budget: nat)
    returns (cut: nat)
    requires Known(peers, names) && Distinct(names) && stop <= |names|
    ensures cut <= stop
    ensures var r := Greedy(peers, names[0..stop], base, target, budget);
            && Applied(peers, r.0, names, 0, cut, base, target)
            && r.1 == Outside(peers, names[0..cut], target)
            && (cut == stop || r.1 == budget)
  {
    var segment := names[0..stop];
    cut := GreedyHasCut(peers, segment, base, target, budget);
    assert segment[..cut] == names[0..cut];
    hide Greedy, Outside;
    forall i: nat | cut <= i < |names|
      ensures names[i] !in segment[..cut]
    {
      NotInSegment(names, 0, cut, i);
    }
    assert forall i :: 0 <= i < cut ==> segment[i] == names[i];
  }

  lemma DistinctDrop(names: seq<string>, k: nat)
    requires Distinct(names) && k <= |names|
    ensures Distinct(names[k..])
  {
    assert forall i :: 0 <= i < |names| - k ==> names[k..][i] == names[k + i];
  }

  lemma ReversedDistinct(names: seq<string>)
    requires Distinct(names)
    ensures Distinct(Reversed(names))
  {
    forall i, j | 0 <= i < j < |names|
      ensures Reversed(names)[i] != Reversed(names)[j]
    {
      ReversedAt(names, i);
      ReversedAt(names, j);
    }
  }

  /** A prefix of the reversed segment is a suffix of the segment, reversed. */
  lemma {:induction false} ReversedPrefix(names: seq<string>, from: nat)
    requires from <= |names|
    ensures Reversed(names)[..|names| - from] == Reversed(names[from..])
  {
    if from < |names| {
      var last, front := names[|names| - 1], names[..|names| - 1];
      ReversedPrefix(front, from);
      var suffix := names[from..];
      assert suffix[|suffix| - 1] == last && suffix[..|suffix| - 1] == front[from..];
    }
  }

  lemma {:induction false} OutsideAppend(peers: Peers, a: seq<string>, p: string, target: Class)
    requires Known(peers, a) && p in peers
    ensures Known(peers, a + [p]) && Known(peers, [p] + a)
    ensures Outside(peers, a + [p], target) == Outside(peers, [p] + a, target)
  {
    assert ([p] + a)[1..] == a;
    if a == [] {
      assert a + [p] == [p] + a;
    } else {
      OutsideAppend(peers, a[1..], p, target);
      assert (a + [p])[1..] == a[1..] + [p];
      assert ([p] + a[1..])[1..] == a[1..];
    }
  }

  lemma {:induction false} OutsideReversed(peers: Peers, names: seq<string>, target: Class)
    requires Known(peers, names)
    ensures Known(peers, Reversed(names)) && Outside(peers, Reversed(names), target) == Outside(peers, names, target)
  {
    KnownReversed(peers, names);
    if names != [] {
      var last, front := names[|names| - 1], names[..|names| - 1];
      OutsideReversed(peers, front, target);
      OutsideAppend(peers, front, last, target);
      assert front + [last] == names;
      assert Reversed(names)[1..] == Reversed(front);
      assert ([last] + front)[1..] == front;
    }
  }

  /** The backward pass: greedy from the worst ranked peer up, never reaching the first two of its segment. */
  lemma BackwardPass(peers: Peers, names: seq<string>, base: Class, target: Class, start: nat, budget: nat)
    returns (from: nat)
    requires Known(peers, names) && Distinct(names) && start + 2 <= |names|
    ensures start + 2 <= from <= |names|
    ensures var r := Backward(peers, names, |names| - 1, start + 1, base, target, budget);
            && r.Some?
            && Applied(peers, r.value.0, names, from, |names|, base, target)
            && r.value.1 == Outside(peers, names[from..], target)
            && (from == start + 2 || r.value.1 == budget)
  {
    hide Distinct, Reversed, Greedy, Backward, Outside;
    var segment := names[start + 2..];
    assert names[start + 1 + 1..|names| - 1 + 1] == segment;
    BackwardIsGreedy(peers, names, |names| - 1, start + 1, base, target, budget);
    DistinctDrop(names, start + 2);
    ReversedDistinct(segment);
    var cut := GreedyHasCut(peers, Reversed(segment), base, target, budget);
    from := |names| - cut;
    BackwardCut(peers, Greedy(peers, Reversed(segment), base, target, budget).0, names, base, target, start, cut);
  }

  lemma BackwardCut(peers: Peers, peers': Peers, names: seq<string>, base: Class, target: Class, start: nat, cut: nat)
    requires Known(peers, names) && Distinct(names) && start + 2 <= |names|
    requires CutAt(peers, peers', Reversed(names[start + 2..]), base, target, cut)
    ensures Known(peers, Reversed(names[start + 2..])[..cut]) && Known(peers, names[|names| - cut..])
    ensures Applied(peers, peers', names, |names| - cut, |names|, base, target)
    ensures Outside(peers, Reversed(names[start + 2..])[..cut], target)
            == Outside(peers, names[|names| - cut..], target)
  {
    hide Reversed, Moved;
    var segment, from := names[start + 2..], |names| - cut;
    ReversedPrefix(segment, |segment| - cut);
    assert segment[|segment| - cut..] == names[from..];
    OutsideReversed(peers, names[from..], target);
    hide Outside;
    forall i: nat | from <= i < |names|
      ensures peers'[names[i]] == Moved(peers[names[i]], base, target)
    {
      ReversedAt(segment, |names| - 1 - i);
    }
    UntouchedOutside(peers, peers', names, from);
  }

  lemma UntouchedOutside(peers: Peers, peers': Peers, names: seq<string>, from: nat)
    requires Known(peers, names) && Distinct(names) && from <= |names| && peers'.Keys == peers.Keys
    requires forall p :: p in peers && p !in Reversed(names[from..]) ==> peers'[p] == peers[p]
    ensures forall i :: 0 <= i < from ==> peers'[names[i]] == peers[names[i]]
    ensures forall p :: p in peers && p !in names ==> peers'[p] == peers[p]
  {
    hide Reversed;
    forall p | p in peers && p !in names[from..]
      ensures peers'[p] == peers[p]
    {
      InReversed(names[from..], p);
    }
    forall i: nat | i < from
      ensures names[i] !in names[from..]
    {
      NotInSegment(names, from, |names|, i);
      assert names[from..|names|] == names[from..];
    }
  }

  lemma {:induction false} InReversed(names: seq<string>, p: string)
    ensures p in Reversed(names) <==> p in names
  {
    if names != [] {
      InReversed(names[..|names| - 1], p);
      assert names == names[..|names| - 1] + [names[|names| - 1]];
    }
  }

  /** The middle pass takes the whole segment into the base class. */
  lemma MiddlePass(peers: Peers, names: seq<string>, base: Class, start: nat, stop: nat)
    requires Known(peers, names) && Distinct(names) && start <= stop <= |names|
    ensures Applied(peers, AllInto(peers, names[start..stop], base).0, names, start, stop, base, base)
  {
    var segment := names[start..stop];
    forall p | p in peers
      ensures p in segment ==> AllInto(peers, segment, base).0[p] == Moved(peers[p], base, base)
      ensures p !in segment ==> AllInto(peers, segment, base).0[p] == peers[p]
    {
      AllIntoBase(peers, segment, base, p);
    }
    hide AllInto;
    forall i: nat | i < |names|
      ensures names[i] in segment <==> start <= i < stop
    {
      if start <= i < stop {
        assert segment[i - start] == names[i];
      } else {
        NotInSegment(names, start, stop, i);
      }
    }
  }

  // ---------- The whole renewal ----------

  /** The data of the peer at rank `i` after the renewal, given how far the two greedy passes came. */
  ghost function Renewed(d: PeerData, i: nat, n: nat, endD: nat, startB: nat): PeerData {
    if i < endD then Moved(d, ClassC, ClassD)
    else if PosD(n) <= i < PosC(n) then Moved(d, ClassC, ClassC)
    else if startB <= i then Moved(d, ClassC, ClassB)
    else d
  }

  lemma {:induction false} SameOutside(peers: Peers, peers': Peers, names: seq<string>, lo: nat, target: Class)
    requires Known(peers, names) && Known(peers', names) && lo <= |names|
    requires forall i :: lo <= i < |names| ==> peers'[names[i]] == peers[names[i]]
    ensures Known(peers, names[lo..]) && Known(peers', names[lo..])
    ensures Outside(peers', names[lo..], target) == Outside(peers, names[lo..], target)
    decreases |names| - lo
  {
    if lo < |names| {
      assert names[lo..][1..] == names[lo + 1..];
      SameOutside(peers, peers', names, lo + 1, target);
    }
  }

  lemma Compose(p0: Peers, p1: Peers, p2: Peers, p3: Peers, names: seq<string>, endD: nat, startB: nat)
    requires Applied(p0, p1, names, 0, endD, ClassC, ClassD)
    requires Applied(p1, p2, names, PosD(|names|), PosC(|names|), ClassC, ClassC)
    requires Applied(p2, p3, names, startB, |names|, ClassC, ClassB)
    requires endD <= PosD(|names|) && PosC(|names|) <= startB
    ensures forall i :: 0 <= i < |names| ==> p3[names[i]] == Renewed(p0[names[i]], i, |names|, endD, startB)
    ensures forall p :: p in p0 && p !in names ==> p3[p] == p0[p]
    ensures p3.Keys == p0.Keys
  {
    hide Moved, PosD;
  }

  /** The whole effect of a renewal of two or more peers, rank by rank. The best ranked segment is led
    * towards class D from the top, the middle is put in class C, the rest is led towards class B from the
    * bottom; each greedy pass stops only at the end of its segment or when its budget is spent. */
  lemma RenewalByRank(peers: Peers, names: seq<string>, percent: nat)
    returns (endD: nat, startB: nat)
    requires Known(peers, names) && Distinct(names) && |names| >= 2
    ensures endD <= PosD(|names|) && PosC(|names|) + 2 <= startB <= |names|
    ensures Reclassified(peers, names, percent).Some?
    ensures var r := Reclassified(peers, names, percent).value;
            && (forall i :: 0 <= i < |names| ==> r[names[i]] == Renewed(peers[names[i]], i, |names|, endD, startB))
            && (forall p :: p in peers && p !in names ==> r[p] == peers[p])
    ensures Outside(peers, names[0..endD], ClassD) <= Budget(|names|, percent)
    ensures Outside(peers, names[startB..], ClassB) <= Budget(|names|, percent)
    ensures endD < PosD(|names|) ==> Outside(peers, names[0..endD], ClassD) == Budget(|names|, percent)
    ensures startB > PosC(|names|) + 2 ==> Outside(peers, names[startB..], ClassB) == Budget(|names|, percent)
  {
    hide Budget, Greedy, AllInto, Outside, Moved, PosD, Distinct;
    var n := |names|;
    var budget := Budget(n, percent);
    endD := ForwardPass(peers, names, ClassC, ClassD, PosD(n), budget);
    var p1 := Greedy(peers, names[0..PosD(n)], ClassC, ClassD, budget).0;
    MiddlePass(p1, names, ClassC, PosD(n), PosC(n));
    var p2 := AllInto(p1, names[PosD(n)..PosC(n)], ClassC).0;
    startB := BackwardPass(p2, names, ClassC, ClassB, PosC(n), budget);
    var p3 := Backward(p2, names, n - 1, PosC(n) + 1, ClassC, ClassB, budget).value.0;
    hide Backward;
    Compose(peers, p1, p2, p3, names, endD, startB);
    SameOutside(peers, p2, names, startB, ClassB);
    hide Applied;
    NormalizedTop(peers, names, percent);
  }

  lemma NormalizedTop(peers: Peers, names: seq<string>, percent: nat)
    requires Known(peers, names)
    ensures var n, budget := |names|, Budget(|names|, percent);
            var p1 := Greedy(peers, names[0..PosD(n)], ClassC, ClassD, budget).0;
            var p2 := AllInto(p1, names[PosD(n)..PosC(n)], ClassC).0;
            var last := Backward(p2, names, n - 1, PosC(n) + 1, ClassC, ClassB, budget);
            Reclassified(peers, names, percent) == if last.None? then None else Some(last.value.0)
  {
    hide Budget, Greedy, AllInto, Outside, Backward, PosD, PosC;
  }

  lemma BudgetOfOne(percent: nat)
    ensures Budget(0, percent) == 0 && Budget(1, percent) == percent / 100
    ensures Budget(1, percent) >= 1 <==> percent >= 100
    ensures Budget(1, percent) >= 2 <==> percent >= 200
  {}

  /** The one ranking whose class B pass leaves the vector: a single peer with budget left at the end. */
  predicate LeavesVector(n: nat, first: PeerData, percent: nat) {
    n == 1 && (percent >= 200 || (percent >= 100 && first.out == ClassB.Out()))
  }

  /** A renewal of fewer than two peers: only the backward pass may see the single one. */
  lemma SmallRenewal(peers: Peers, names: seq<string>, percent: nat)
    requires Known(peers, names) && |names| < 2
    ensures Reclassified(peers, names, percent)
            == if |names| == 0 || percent < 100 then Some(peers)
               else if LeavesVector(1, peers[names[0]], percent) then None
               else Some(peers[names[0] := Moved(peers[names[0]], ClassC, ClassB)])
  {
    var n, budget := |names|, Budget(|names|, percent);
    BudgetOfOne(percent);
    assert PosD(n) == 0 && PosC(n) == 0;
    assert names[0..0] == [];
    NormalizedTop(peers, names, percent);
    hide Budget, Moved, Reclassified, PosD, PosC;
    if n == 1 {
      assert Backward(peers, names, 0, 1, ClassC, ClassB, budget)
             == if budget == 0 then Some((peers, 0)) else Backward(peers, names, 0, 1, ClassC, ClassB, budget);
    }
  }

  /** A single ranked peer that is in class B already, with a whole peer of budget: the backward pass leaves it and
    * walks below the first element. */
  lemma SoleClassBPeerLeavesVector()
    ensures var peers := map["p" := PeerData(1, 38, 0, 0, 0, 0)];
            Known(peers, ["p"]) && Distinct(["p"]) && Reclassified(peers, ["p"], 100) == None
  {
    SmallRenewal(map["p" := PeerData(1, 38, 0, 0, 0, 0)], ["p"], 100);
  }

  /** Indexing stays inside the ranking exactly when it is not that ranking; so always below 100 percent. */
  lemma RenewalStaysInRange(peers: Peers, names: seq<string>, percent: nat)
    requires Known(peers, names) && Distinct(names)
    ensures Reclassified(peers, names, percent).Some?
            <==> names == [] || !LeavesVector(|names|, peers[names[0]], percent)
    ensures percent < 100 ==> Reclassified(peers, names, percent).Some?
  {
    if |names| >= 2 {
      var _, _ := RenewalByRank(peers, names, percent);
    } else {
      SmallRenewal(peers, names, percent);
    }
  }

  /** The first two peers of the class B segment never move, whatever the budget. */
  lemma FirstTwoOfClassBStay(peers: Peers, names: seq<string>, percent: nat, i: nat)
    requires Known(peers, names) && Distinct(names) && |names| >= 2 && PosC(|names|) <= i < PosC(|names|) + 2
    ensures Reclassified(peers, names, percent).Some?
    ensures Reclassified(peers, names, percent).value[names[i]] == peers[names[i]]
  {
    hide Reclassified, Moved, PosD;
    var endD, startB := RenewalByRank(peers, names, percent);
    assert Reclassified(peers, names, percent).value[names[i]] == Renewed(peers[names[i]], i, |names|, endD, startB);
  }

  /** Every peer changes class at most once, and only if it is ranked. */
  lemma AtMostOneChange(peers: Peers, names: seq<string>, percent: nat, p: string)
    requires Known(peers, names) && Distinct(names) && p in peers && Reclassified(peers, names, percent).Some?
    ensures var d := Reclassified(peers, names, percent).value[p];
            && (p !in names ==> d == peers[p])
            && d in {peers[p], Convert(peers[p], ClassB), Convert(peers[p], ClassC), Convert(peers[p], ClassD)}
  {
    if |names| >= 2 {
      var endD, startB := RenewalByRank(peers, names, percent);
      hide Reclassified, PosD, PosC, Distinct;
      if p in names {
        var i :| 0 <= i < |names| && names[i] == p;
      }
    } else {
      SmallRenewal(peers, names, percent);
    }
  }

  // ---------- The renewal as the channel calls it ----------

  /** The first renewal only clears the sent counters. */
  function Renew(peers: Peers, server: string, firstTime: bool, percent: nat, names: seq<string>): Option<Peers>
    requires Known(peers, names)
  {
    if firstTime then Some(ZeroSent(peers, peers.Keys))
    else Reclassified(ZeroSent(peers, {server} + Ordinary(peers, server)), names, percent)
  }

  /** The server, the free riders and the peers that still wait keep their places; of these only the server
    * loses its sent counter, as every ranked peer does. */
  lemma RenewKeepsTheRest(peers: Peers, server: string, percent: nat, names: seq<string>, p: string)
    requires IsOrder(names, peers, server) && p in peers
    requires Renew(peers, server, false, percent, names).Some?
    ensures var d := Renew(peers, server, false, percent, names).value[p];
            && (p == server ==> d == peers[p].(sent := 0))
            && (p != server && !IsOrdinary(peers[p]) ==> d == peers[p])
            && (p in Ordinary(peers, server) ==> d.sent == 0 && d.hits == peers[p].hits)
  {
    AtMostOneChange(ZeroSent(peers, {server} + Ordinary(peers, server)), names, percent, p);
    hide Reclassified, IsOrdinary;
    assert p in names <==> p in Ordinary(peers, server);
  }

  // ---------- The same, field by field ----------

  /** Places as a renewal sets them; the former ones are remembered. */
  function Placed(d: PeerData, out: int, outFree: int): PeerData {
    PeerData(out, outFree, d.out, d.outFree, d.sent, d.hits)
  }

  /** What a renewal makes of the peer at rank `i` of `n`, when the pass from the top came to rank `endD` and the one
    * from the bottom to `startB`: towards 46 places, to 18 and 22, or towards 1 and 38 -- by way of 18 and 22. */
  function Outcome(d: PeerData, i: nat, n: nat, endD: nat, startB: nat): PeerData {
    if i < endD then if d.out == 46 then d else if d.out == 18 then Placed(d, 46, 0) else Placed(d, 18, 22)
    else if n * 15 / 100 <= i < n * 15 / 100 + n * 45 / 100 then if d.out == 18 then d else Placed(d, 18, 22)
    else if startB <= i then if d.out == 1 then d else if d.out == 18 then Placed(d, 1, 38) else Placed(d, 18, 22)
    else d
  }

  /** A renewal in numbers: 15 percent of the ranking are led up, 45 percent put in the middle, and all but two of the
    * rest led down; a pass that stops early has altered exactly `n * percent / 100` peers. */
  lemma RenewalInNumbers(peers: Peers, names: seq<string>, percent: nat)
    returns (endD: nat, startB: nat)
    requires Known(peers, names) && Distinct(names) && |names| >= 2
    ensures var n := |names|;
            && endD <= n * 15 / 100 && n * 15 / 100 + n * 45 / 100 + 2 <= startB <= n
            && Reclassified(peers, names, percent).Some?
            && (forall i :: 0 <= i < n ==> Reclassified(peers, names, percent).value[names[i]]
                                           == Outcome(peers[names[i]], i, n, endD, startB))
            && Outside(peers, names[0..endD], ClassD) <= n * percent / 100
            && Outside(peers, names[startB..], ClassB) <= n * percent / 100
            && (endD < n * 15 / 100 ==> Outside(peers, names[0..endD], ClassD) == n * percent / 100)
            && (startB > n * 15 / 100 + n * 45 / 100 + 2 ==>
                  Outside(peers, names[startB..], ClassB) == n * percent / 100)
  {
    Cuts(|names|, percent);
    hide *;
    endD, startB := RenewalByRank(peers, names, percent);
    forall i: nat | i < |names|
      ensures Renewed(peers[names[i]], i, |names|, endD, startB)
              == Outcome(peers[names[i]], i, |names|, endD, startB)
    {
      RenewedIsOutcome(peers[names[i]], i, |names|, endD, startB);
    }
  }

  lemma Cuts(n: nat, percent: nat)
    ensures PosD(n) == n * 15 / 100 && PosC(n) == n * 15 / 100 + n * 45 / 100
    ensures Budget(n, percent) == n * percent / 100
  {}

  lemma RenewedIsOutcome(d: PeerData, i: nat, n: nat, endD: nat, startB: nat)
    ensures Renewed(d, i, n, endD, startB) == Outcome(d, i, n, endD, startB)
  {}

  /** The peers a renewal ranks: those with places and without a hit count, but for the server. */
  function Competitors(peers: Peers, server: string): set<string> {
    set p | p in peers && p != server && peers[p].hits == 0 && (peers[p].out > 0 || peers[p].outFree > 0)
  }

  lemma {:induction false} PrefixSize(names: seq<string>, k: nat)
    requires Distinct(names) && k <= |names|
    ensures |set i | 0 <= i < k :: names[i]| == k
  {
    if k > 0 {
      PrefixSize(names, k - 1);
      assert (set i | 0 <= i < k :: names[i]) == (set i | 0 <= i < k - 1 :: names[i]) + {names[k - 1]};
    }
  }

  lemma SubsetSize(a: set<string>, b: set<string>)
    requires a <= b
    ensures |a| <= |b|
  {
    assert b == a + (b - a);
  }

  /** A peer's rank is the number of competitors that sent more, but for those that sent as much. */
  lemma RankCountsBetter(peers: Peers, server: string, names: seq<string>, i: nat)
    requires IsOrder(names, peers, server) && i < |names|
    ensures names[i] in Competitors(peers, server) && |names| == |Competitors(peers, server)|
    ensures var sent := peers[names[i]].sent;
            && |set q | q in Competitors(peers, server) && peers[q].sent > sent| <= i
            && i < |set q | q in Competitors(peers, server) && peers[q].sent >= sent|
  {
    var all, sent := Competitors(peers, server), peers[names[i]].sent;
    assert all == Ordinary(peers, server);
    assert names[i] in names;
    hide Ordinary, IsOrdinary, Competitors;
    PrefixSize(names, i);
    PrefixSize(names, i + 1);
    PrefixSize(names, |names|);
    forall q | q in all && peers[q].sent > sent
      ensures q in set j | 0 <= j < i :: names[j]
    {
      var j :| 0 <= j < |names| && names[j] == q;
    }
    SubsetSize(set q | q in all && peers[q].sent > sent, set j | 0 <= j < i :: names[j]);
    forall j | 0 <= j < i + 1
      ensures names[j] in all && peers[names[j]].sent >= sent
    {
      assert names[j] in names;
    }
    SubsetSize(set j | 0 <= j < i + 1 :: names[j], set q | q in all && peers[q].sent >= sent);
    assert all == set j | 0 <= j < |names| :: names[j];
  }

  /** Who is touched by a renewal at all. A peer with a hit count, or without places, keeps everything; the server loses
    * its counter and nothing else; every competitor loses its counter, and keeps or gets the places of a class. */
  lemma RenewalTouchesCompetitors(peers: Peers, server: string, percent: nat, names: seq<string>, p: string)
    requires IsOrder(names, peers, server) && p in peers
    requires Renew(peers, server, false, percent, names).Some?
    ensures var d, d' := peers[p], Renew(peers, server, false, percent, names).value[p];
            && (p == server ==> d' == d.(sent := 0))
            && (p != server && (d.hits > 0 || (d.out <= 0 && d.outFree <= 0)) ==> d' == d)
            && (p in Competitors(peers, server) ==>
                  d' in {d.(sent := 0), Placed(d, 1, 38).(sent := 0), Placed(d, 18, 22).(sent := 0),
                         Placed(d, 46, 0).(sent := 0)})
  {
    AtMostOneChange(ZeroSent(peers, {server} + Ordinary(peers, server)), names, percent, p);
    hide Reclassified;
    assert p in names <==> p in Ordinary(peers, server);
  }

  /** The first renewal clears every counter and changes nothing else. */
  lemma FirstRenewalClears(peers: Peers, server: string, percent: nat, names: seq<string>, p: string)
    requires Known(peers, names) && p in peers
    ensures Renew(peers, server, true, percent, names).Some?
    ensures Renew(peers, server, true, percent, names).value.Keys == peers.Keys
    ensures Renew(peers, server, true, percent, names).value[p] == peers[p].(sent := 0)
  {}

  /** A peer that sent most but still waits is not ranked: it keeps its places, its counter and its hit count. */
  lemma WaitingPeerIsNotRanked()
    ensures var peers := map["s" := PeerData(10, 0, 0, 0, 5, 0), "p" := PeerData(46, 0, 0, 0, 90, 2),
                             "q" := PeerData(18, 22, 0, 0, 8, 0), "r" := PeerData(18, 22, 0, 0, 7, 0)];
            && IsOrder(["q", "r"], peers, "s") && Renew(peers, "s", false, 10, ["q", "r"]).Some?
            && Renew(peers, "s", false, 10, ["q", "r"]).value["p"] == PeerData(46, 0, 0, 0, 90, 2)
  {
    var peers := map["s" := PeerData(10, 0, 0, 0, 5, 0), "p" := PeerData(46, 0, 0, 0, 90, 2),
                     "q" := PeerData(18, 22, 0, 0, 8, 0), "r" := PeerData(18, 22, 0, 0, 7, 0)];
    assert Ordinary(peers, "s") == {"q", "r"};
    assert ["q", "r"][0] == "q" && ["q", "r"][1] == "r";
    RenewalStaysInRange(ZeroSent(peers, {"s"} + Ordinary(peers, "s")), ["q", "r"], 10);
    RenewalTouchesCompetitors(peers, "s", 10, ["q", "r"], "p");
  }
}
