/** Ranking peers by what they sent, as `PeerManager` and `Channel` sort their pair vectors. */
module Ranking {

  datatype PairStrInt = PairStrInt(first: string, second: nat)

  predicate Descending(v: seq<PairStrInt>) {
    forall i, j :: 0 <= i < j < |v| ==> v[i].second >= v[j].second
  }

  /** Some ordering `std::sort` may produce: it leaves the order of equals open. */
  ghost predicate IsRanking(r: seq<PairStrInt>, v: seq<PairStrInt>) {
    multiset(r) == multiset(v) && Descending(r)
  }

  function InsertByRank(v: seq<PairStrInt>, p: PairStrInt): (r: seq<PairStrInt>)
    requires Descending(v)
    ensures Descending(r) && multiset(r) == multiset(v) + multiset{p}
    decreases |v|, 1
  {
    if v == [] || p.second >= v[0].second then [p] + v
    else
      assert v == [v[0]] + v[1..];
      [v[0]] + InsertByRankTail(v, p)
  }

  function InsertByRankTail(v: seq<PairStrInt>, p: PairStrInt): (r: seq<PairStrInt>)
    requires Descending(v) && v != [] && p.second < v[0].second
    ensures Descending(r) && multiset(r) == multiset(v[1..]) + multiset{p}
    ensures forall i :: 0 <= i < |r| ==> r[i].second <= v[0].second
    decreases |v|, 0
  {
    var r := InsertByRank(v[1..], p);
    assert forall i :: 0 <= i < |r| ==> r[i] in multiset(r);
    assert forall x :: x in multiset(v[1..]) ==> x in v[1..];
    r
  }

  function Sorted(v: seq<PairStrInt>): (r: seq<PairStrInt>)
    ensures IsRanking(r, v) && |r| == |v|
  {
    if v == [] then []
    else
      assert v == v[..|v| - 1] + [v[|v| - 1]];
      var r := InsertByRank(Sorted(v[..|v| - 1]), v[|v| - 1]);
      assert |multiset(r)| == |multiset(v)|;
      r
  }

  /** The names in the first `k` places. */
  function TopNames(r: seq<PairStrInt>, k: nat): set<string> {
    set i | 0 <= i < |r| && i < k :: r[i].first
  }

  lemma {:induction false} TopNamesGrow(r: seq<PairStrInt>, k: nat, n: nat)
    requires k <= n <= |r|
    ensures TopNames(r, k) <= TopNames(r, n) && |TopNames(r, n)| <= |TopNames(r, k)| + n - k
  {
    if k < n {
      TopNamesGrow(r, k, n - 1);
      assert TopNames(r, n) == TopNames(r, n - 1) + {r[n - 1].first};
    }
  }

  /** If the names of the whole ranking are distinct, `k` places hold `k` names. */
  lemma TopNamesSize(r: seq<PairStrInt>, k: nat)
    requires k <= |r| && |TopNames(r, |r|)| == |r|
    ensures |TopNames(r, k)| == k
  {
    assert TopNames(r, 0) == {};
    TopNamesGrow(r, 0, k);
    TopNamesGrow(r, k, |r|);
  }

  /** A ranking of distinct names names each of them once. */
  lemma DistinctNames(r: seq<PairStrInt>, i: nat, j: nat)
    requires |TopNames(r, |r|)| == |r| && i < j < |r|
    ensures r[i].first != r[j].first
  {
    TopNamesSize(r, j);
    TopNamesSize(r, j + 1);
    assert TopNames(r, j + 1) == TopNames(r, j) + {r[j].first};
    assert r[i].first in TopNames(r, j);
  }
}
