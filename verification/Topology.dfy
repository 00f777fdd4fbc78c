/** Topology reclassification: the bootstrap moves ranked peers between the classes B, C and D. */
module Topology {
  import opened Options

  datatype Class = ClassB | ClassC | ClassD {
    /** The outgoing places of the class. */
    function Out(): int {
      match this
      case ClassB => 1
      case ClassC => 18
      case ClassD => 46
    }

    function OutFree(): int {
      match this
      case ClassB => 38
      case ClassC => 22
      case ClassD => 0
    }
  }

  datatype PeerData = PeerData(out: int, outFree: int, outOld: int, outFreeOld: int, sent: nat, hits: nat)

  type Peers = map<string, PeerData>

  function Convert(d: PeerData, c: Class): PeerData {
    d.(outOld := d.out, out := c.Out(), outFreeOld := d.outFree, outFree := c.OutFree())
  }

  /** A peer that is not in the target class moves one step: from the base class to the target, from any
    * other class to the base. */
  function Moved(d: PeerData, base: Class, target: Class): PeerData {
    if d.out == target.Out() then d
    else if d.out == base.Out() then Convert(d, target)
    else Convert(d, base)
  }

  /** Steps to the target class: other, base, target. */
  function StepsAway(d: PeerData, base: Class, target: Class): nat {
    if d.out == target.Out() then 0 else if d.out == base.Out() then 1 else 2
  }

  lemma MoveIsOneStep(d: PeerData, base: Class, target: Class)
    requires base != target
    ensures d.out != target.Out() ==> StepsAway(Moved(d, base, target), base, target) == StepsAway(d, base, target) - 1
  {}

  // ---------- One pass over a segment ----------

  ghost predicate Known(peers: Peers, names: seq<string>) {
    forall i :: 0 <= i < |names| ==> names[i] in peers
  }

  ghost predicate Distinct(names: seq<string>) {
    forall i, j :: 0 <= i < j < |names| ==> names[i] != names[j]
  }

  /** The budgeted pass over `names` in visiting order, and how many peers it altered. */
  function Greedy(peers: Peers, names: seq<string>, base: Class, target: Class, budget: nat): (r: (Peers, nat))
    requires Known(peers, names)
    ensures r.0.Keys == peers.Keys && r.1 <= budget
  {
    if names == [] || budget == 0 then (peers, 0)
    else
      var d := peers[names[0]];
      if d.out == target.Out() then Greedy(peers, names[1..], base, target, budget)
      else
        var (rest, count) := Greedy(peers[names[0] := Moved(d, base, target)], names[1..], base, target, budget - 1);
        (rest, count + 1)
  }

  /** The same pass walking an index down from `i` to `end`, exclusively. `None` is an access below the
    * first element. */
  function Backward(peers: Peers, names: seq<string>, i: int, end: int, base: Class, target: Class, budget: nat)
    : (r: Option<(Peers, nat)>)
    requires Known(peers, names) && i < |names|
    ensures r.Some? ==> r.value.0.Keys == peers.Keys && r.value.1 <= budget
    decreases i + 1
  {
    if i == end || budget == 0 then Some((peers, 0))
    else if i < 0 then None
    else
      var d := peers[names[i]];
      if d.out == target.Out() then Backward(peers, names, i - 1, end, base, target, budget)
      else
        var r := Backward(peers[names[i] := Moved(d, base, target)], names, i - 1, end, base, target, budget - 1);
        if r.None? then None else Some((r.value.0, r.value.1 + 1))
  }

  /** The pass without a budget that moves a whole segment into the base class. */
  function AllInto(peers: Peers, names: seq<string>, base: Class): (r: (Peers, nat))
    requires Known(peers, names)
    ensures r.0.Keys == peers.Keys
  {
    if names == [] then (peers, 0)
    else if peers[names[0]].out != base.Out() then
      var (rest, count) := AllInto(peers[names[0] := Convert(peers[names[0]], base)], names[1..], base);
      (rest, count + 1)
    else AllInto(peers, names[1..], base)
  }

  function Reversed(names: seq<string>): (r: seq<string>)
    ensures |r| == |names|
  {
    if names == [] then [] else [names[|names| - 1]] + Reversed(names[..|names| - 1])
  }

  lemma {:induction false} ReversedAt(names: seq<string>, k: nat)
    requires k < |names|
    ensures Reversed(names)[k] == names[|names| - 1 - k]
  {
    if k > 0 {
      ReversedAt(names[..|names| - 1], k - 1);
    }
  }

  lemma KnownReversed(peers: Peers, names: seq<string>)
    requires Known(peers, names)
    ensures Known(peers, Reversed(names))
  {
    forall k | 0 <= k < |names|
      ensures Reversed(names)[k] in peers
    {
      ReversedAt(names, k);
    }
  }

  /** A peer that is in the target class already is passed over. */
  lemma BackwardStays(peers: Peers, names: seq<string>, i: int, end: int, base: Class, target: Class, budget: nat)
    requires Known(peers, names) && -1 <= end < i < |names| && budget > 0
    requires peers[names[i]].out == target.Out()
    ensures Backward(peers, names, i, end, base, target, budget)
            == Backward(peers, names, i - 1, end, base, target, budget)
  {
    hide Moved, Known;
  }

  /** Any other peer is moved, and the walk goes on with one peer fewer to alter. */
  lemma BackwardMoves(peers: Peers, names: seq<string>, i: int, end: int, base: Class, target: Class, budget: nat,
                      peers1: Peers, result: Peers, count: nat)
    requires Known(peers, names) && -1 <= end < i < |names| && budget > 0
    requires peers[names[i]].out != target.Out()
    requires peers1 == peers[names[i] := Moved(peers[names[i]], base, target)] && Known(peers1, names)
    requires Backward(peers1, names, i - 1, end, base, target, budget - 1) == Some((result, count))
    ensures Backward(peers, names, i, end, base, target, budget) == Some((result, count + 1))
  {
    hide Moved, Known;
  }

  lemma GreedyHead(peers: Peers, first: string, rest: seq<string>, base: Class, target: Class, budget: nat)
    requires Known(peers, [first] + rest) && Known(peers, rest) && first in peers && budget > 0
    ensures var d := peers[first];
            Greedy(peers, [first] + rest, base, target, budget)
            == if d.out == target.Out() then Greedy(peers, rest, base, target, budget)
               else var r := Greedy(peers[first := Moved(d, base, target)], rest, base, target, budget - 1);
                    (r.0, r.1 + 1)
  {
    hide Moved;
    assert ([first] + rest)[1..] == rest;
  }

  lemma SegmentsAreKnown(peers: Peers, names: seq<string>, i: int, end: int)
    requires Known(peers, names) && -1 <= end <= i < |names|
    ensures Known(peers, Reversed(names[end + 1..i + 1]))
  {
    KnownReversed(peers, names[end + 1..i + 1]);
  }

  lemma StillKnown(peers: Peers, names: seq<string>, p: string, d: PeerData)
    requires Known(peers, names) && p in peers
    ensures Known(peers[p := d], names)
  {}

  /** What the next step down needs to know about the segment. */
  lemma SegmentStep(peers: Peers, names: seq<string>, i: int, end: int)
    requires Known(peers, names) && -1 <= end < i < |names|
    ensures Known(peers, Reversed(names[end + 1..i])) && Known(peers, [names[i]] + Reversed(names[end + 1..i]))
    ensures Reversed(names[end + 1..i + 1]) == [names[i]] + Reversed(names[end + 1..i])
  {
    KnownReversed(peers, names[end + 1..i]);
    ReversedSegment(names, i, end);
  }

  lemma NothingToPass(peers: Peers, names: seq<string>, i: int, end: int, base: Class, target: Class, budget: nat)
    requires Known(peers, names) && -1 <= end <= i < |names| && (i == end || budget == 0)
    requires Known(peers, Reversed(names[end + 1..i + 1]))
    ensures Backward(peers, names, i, end, base, target, budget)
            == Some(Greedy(peers, Reversed(names[end + 1..i + 1]), base, target, budget))
  {}

  /** While it stays in range, walking down is the greedy pass over the reversed segment. */
  lemma {:induction false} BackwardIsGreedy(peers: Peers, names: seq<string>, i: int, end: int, base: Class,
                                            target: Class, budget: nat)
    requires Known(peers, names) && -1 <= end <= i < |names|
    ensures Known(peers, Reversed(names[end + 1..i + 1]))
    ensures Backward(peers, names, i, end, base, target, budget)
            == Some(Greedy(peers, Reversed(names[end + 1..i + 1]), base, target, budget))
    decreases i - end
  {
    SegmentsAreKnown(peers, names, i, end);
    hide *;
    if i == end || budget == 0 {
      NothingToPass(peers, names, i, end, base, target, budget);
    } else {
      SegmentStep(peers, names, i, end);
      var d, rest := peers[names[i]], Reversed(names[end + 1..i]);
      GreedyHead(peers, names[i], rest, base, target, budget);
      if d.out == target.Out() {
        BackwardIsGreedy(peers, names, i - 1, end, base, target, budget);
        BackwardStays(peers, names, i, end, base, target, budget);
      } else {
        var peers1 := peers[names[i] := Moved(d, base, target)];
        StillKnown(peers, names, names[i], Moved(d, base, target));
        BackwardIsGreedy(peers1, names, i - 1, end, base, target, budget - 1);
        var (result, count) := Greedy(peers1, rest, base, target, budget - 1);
        BackwardMoves(peers, names, i, end, base, target, budget, peers1, result, count);
      }
    }
  }

  lemma ReversedSegment(names: seq<string>, i: int, end: int)
    requires -1 <= end < i < |names|
    ensures Reversed(names[end + 1..i + 1]) == [names[i]] + Reversed(names[end + 1..i])
  {
    var segment := names[end + 1..i + 1];
    assert segment[..|segment| - 1] == names[end + 1..i];
  }

  /** The number of peers of a segment outside the target class. */
  function Outside(peers: Peers, names: seq<string>, target: Class): nat
    requires Known(peers, names)
  {
    if names == [] then 0
    else (if peers[names[0]].out != target.Out() then 1 else 0) + Outside(peers, names[1..], target)
  }

  function TotalSteps(peers: Peers, names: seq<string>, base: Class, target: Class): nat
    requires Known(peers, names)
  {
    if names == [] then 0
    else StepsAway(peers[names[0]], base, target) + TotalSteps(peers, names[1..], base, target)
  }

  lemma {:induction false} SameElsewhere(peers: Peers, peers': Peers, names: seq<string>, base: Class, target: Class)
    requires Known(peers, names) && Known(peers', names)
    requires forall i :: 0 <= i < |names| ==> peers'[names[i]] == peers[names[i]]
    ensures TotalSteps(peers', names, base, target) == TotalSteps(peers, names, base, target)
    ensures Outside(peers', names, target) == Outside(peers, names, target)
  {
    if names != [] {
      assert peers'[names[0]] == peers[names[0]];
      SameElsewhere(peers, peers', names[1..], base, target);
    }
  }

  /** The pass is greedy by position: there is a cut such that every peer before it has moved one step
    * (or is in the target class already) and every other peer is untouched. */
  ghost predicate CutAt(peers: Peers, peers': Peers, names: seq<string>, base: Class, target: Class, cut: nat) {
    && peers'.Keys == peers.Keys && cut <= |names| && Known(peers, names)
    && (forall i :: 0 <= i < cut ==> peers'[names[i]] == Moved(peers[names[i]], base, target))
    && (forall p :: p in peers && p !in names[..cut] ==> peers'[p] == peers[p])
  }

  lemma {:induction false} GreedyHasCut(peers: Peers, names: seq<string>, base: Class, target: Class, budget: nat)
    returns (cut: nat)
    requires Known(peers, names) && Distinct(names)
    ensures CutAt(peers, Greedy(peers, names, base, target, budget).0, names, base, target, cut)
    ensures Greedy(peers, names, base, target, budget).1 == Outside(peers, names[..cut], target)
    ensures cut == |names| || Greedy(peers, names, base, target, budget).1 == budget
  {
    if names == [] || budget == 0 {
      cut := 0;
    } else {
      var d := peers[names[0]];
      var rest := names[1..];
      RestIsDistinct(names);
      var peers1 := if d.out == target.Out() then peers else peers[names[0] := Moved(d, base, target)];
      var budget1 := if d.out == target.Out() then budget else budget - 1;
      assert [names[0]] + rest == names;
      GreedyHead(peers, names[0], rest, base, target, budget);
      hide Greedy, Outside, CutAt, Moved, Distinct;
      var c := GreedyHasCut(peers1, rest, base, target, budget1);
      cut := c + 1;
      OutsideExtends(peers, peers1, names, base, target, c);
      CutExtends(peers, peers1, Greedy(peers, names, base, target, budget).0, names, base, target, c);
    }
  }

  lemma RestIsDistinct(names: seq<string>)
    requires names != [] && Distinct(names)
    ensures Distinct(names[1..]) && names[0] !in names[1..]
  {
    assert forall i :: 0 <= i < |names| - 1 ==> names[1..][i] == names[i + 1];
  }

  /** A cut one further counts its first peer too. */
  lemma OutsideExtends(peers: Peers, peers1: Peers, names: seq<string>, base: Class, target: Class, c: nat)
    requires names != [] && Known(peers, names) && Distinct(names) && c < |names|
    requires peers1 == (if peers[names[0]].out == target.Out() then peers
                        else peers[names[0] := Moved(peers[names[0]], base, target)])
    ensures Known(peers, names[..c + 1]) && Known(peers1, names[1..][..c])
    ensures Outside(peers, names[..c + 1], target)
            == (if peers[names[0]].out != target.Out() then 1 else 0) + Outside(peers1, names[1..][..c], target)
  {
    RestIsDistinct(names);
    hide Distinct, Moved;
    var rest := names[1..][..c];
    assert names[..c + 1][1..] == rest;
    assert forall i :: 0 <= i < |rest| ==> rest[i] == names[i + 1] && rest[i] in names[1..];
    SameElsewhere(peers, peers1, rest, base, target);
  }

  lemma CutExtends(peers: Peers, peers1: Peers, peers': Peers, names: seq<string>, base: Class, target: Class, c: nat)
    requires names != [] && names[0] in peers && Known(peers, names) && Distinct(names)
    requires peers1 == (if peers[names[0]].out == target.Out() then peers
                        else peers[names[0] := Moved(peers[names[0]], base, target)])
    requires CutAt(peers1, peers', names[1..], base, target, c)
    ensures CutAt(peers, peers', names, base, target, c + 1)
  {
    var rest := names[1..];
    assert names[0] !in rest[..c];
    assert names[..c + 1] == [names[0]] + rest[..c];
    forall i | 0 <= i < c + 1
      ensures peers'[names[i]] == Moved(peers[names[i]], base, target)
    {
      if i > 0 {
        assert names[i] == rest[i - 1];
      }
    }
  }

  /** The number of altered peers is exactly the total number of steps saved. */
  lemma {:induction false} GreedySavesSteps(peers: Peers, names: seq<string>, base: Class, target: Class, budget: nat)
    requires Known(peers, names) && Distinct(names) && base != target
    ensures var r := Greedy(peers, names, base, target, budget);
            TotalSteps(r.0, names, base, target) == TotalSteps(peers, names, base, target) - r.1
  {
    if names != [] && budget > 0 {
      var d, rest := peers[names[0]], names[1..];
      assert forall i :: 0 <= i < |rest| ==> rest[i] == names[i + 1] && rest[i] != names[0];
      var peers1 := if d.out == target.Out() then peers else peers[names[0] := Moved(d, base, target)];
      var budget1 := if d.out == target.Out() then budget else budget - 1;
      GreedySavesSteps(peers1, rest, base, target, budget1);
      var cut := GreedyHasCut(peers1, rest, base, target, budget1);
      MoveIsOneStep(d, base, target);
      assert names[0] !in rest[..cut];
      SameElsewhere(peers, peers1, rest, base, target);
    }
  }

  lemma {:induction false} AllIntoBase(peers: Peers, names: seq<string>, base: Class, p: string)
    requires Known(peers, names) && p in peers
    ensures p in names ==> AllInto(peers, names, base).0[p].out == base.Out()
    ensures p !in names ==> AllInto(peers, names, base).0[p] == peers[p]
    ensures AllInto(peers, names, base).0[p] == peers[p] || AllInto(peers, names, base).0[p] == Convert(peers[p], base)
    ensures peers[p].out == base.Out() ==> AllInto(peers, names, base).0[p] == peers[p]
  {
    if names != [] {
      var d := peers[names[0]];
      var peers1 := if d.out != base.Out() then peers[names[0] := Convert(d, base)] else peers;
      AllIntoBase(peers1, names[1..], base, p);
      assert names == [names[0]] + names[1..];
    }
  }

  // ---------- Passing over one segment again and again ----------

  // The segment stays the same here. A renewal ranks the peers anew before each pass, and the pass for class B
  // leaves out the first two peers of its segment; `Renewal` says what one renewal does.

  function Passes(peers: Peers, names: seq<string>, base: Class, target: Class, budget: nat, k: nat): (r: Peers)
    requires Known(peers, names)
    ensures r.Keys == peers.Keys
  {
    if k == 0 then peers
    else Passes(Greedy(peers, names, base, target, budget).0, names, base, target, budget, k - 1)
  }

  lemma {:induction false} NoStepsNoOutside(peers: Peers, names: seq<string>, base: Class, target: Class)
    requires Known(peers, names)
    ensures TotalSteps(peers, names, base, target) == 0 <==> Outside(peers, names, target) == 0
    ensures TotalSteps(peers, names, base, target) <= 2 * |names|
  {
    if names != [] {
      NoStepsNoOutside(peers, names[1..], base, target);
    }
  }

  lemma {:induction false} PassMakesProgress(peers: Peers, names: seq<string>, base: Class, target: Class, budget: nat)
    requires Known(peers, names) && budget > 0
    ensures Greedy(peers, names, base, target, budget).1 == 0 <==> Outside(peers, names, target) == 0
    ensures Outside(peers, names, target) == 0 ==> Greedy(peers, names, base, target, budget).0 == peers
  {
    if names != [] {
      if peers[names[0]].out == target.Out() {
        PassMakesProgress(peers, names[1..], base, target, budget);
      }
    }
  }

  /** With any budget at all, passing over one and the same segment brings it wholly into the target class within as
    * many passes as there are steps left, at most two for each peer. */
  lemma {:induction false} PassesConverge(peers: Peers, names: seq<string>, base: Class, target: Class, budget: nat,
                                          k: nat)
    requires Known(peers, names) && Distinct(names) && base != target && budget > 0
    requires k >= TotalSteps(peers, names, base, target) || k >= 2 * |names|
    ensures Outside(Passes(peers, names, base, target, budget, k), names, target) == 0
    decreases k
  {
    NoStepsNoOutside(peers, names, base, target);
    if k > 0 {
      var next := Greedy(peers, names, base, target, budget).0;
      PassMakesProgress(peers, names, base, target, budget);
      GreedySavesSteps(peers, names, base, target, budget);
      hide Greedy, TotalSteps, Outside, Distinct;
      NoStepsNoOutside(next, names, base, target);
      if Outside(peers, names, target) == 0 {
        PassesStay(peers, names, base, target, budget, k);
      } else {
        PassesConverge(next, names, base, target, budget, k - 1);
      }
    }
  }

  lemma {:induction false} PassesStay(peers: Peers, names: seq<string>, base: Class, target: Class, budget: nat, k: nat)
    requires Known(peers, names) && budget > 0 && Outside(peers, names, target) == 0
    ensures Passes(peers, names, base, target, budget, k) == peers
  {
    PassMakesProgress(peers, names, base, target, budget);
    hide Greedy, Outside;
    if k > 0 {
      PassesStay(peers, names, base, target, budget, k - 1);
    }
  }
}
