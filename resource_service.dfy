/**
 * Conflict detection and alternative-space selection
 * (services/resourceService.js). A prediction conflicts with a capacity when
 * the utilisation is strictly above 85 per cent. An alternative is sought
 * among the other spaces at least as large as required: each candidate is
 * predicted once, the list of (space, utilisation) pairs is sorted by
 * utilisation with JavaScript's stable sort, and the first is taken.
 */
module ResourceService {
  import opened Common
  import opened CampusStore
  import opened PredictionService

  /**
   * `checkConflict(predictedCount, capacity)`: (predicted / capacity) * 100 > 85.
   * A zero capacity divides to +Infinity, NaN or -Infinity, so only a
   * positive prediction conflicts with it.
   */
  predicate CheckConflict(predictedCount: int, capacity: int): (r: bool)
    ensures 0 < capacity ==> (r <==> 85 * capacity < 100 * predictedCount)
  {
    if capacity == 0 then 0 < predictedCount
    else
      assert 0 < capacity ==> ((predictedCount as real / capacity as real) * 100.0 > 85.0 <==> 85 * capacity < 100 * predictedCount) by {
        if 0 < capacity { PercentAboveThreshold(predictedCount, capacity); }
      }
      (predictedCount as real / capacity as real) * 100.0 > 85.0
  }

  /** The real-valued percentage test as an integer comparison. */
  lemma PercentAboveThreshold(predictedCount: int, capacity: int)
    requires 0 < capacity
    ensures ((predictedCount as real / capacity as real) * 100.0 > 85.0) <==> 85 * capacity < 100 * predictedCount
  {
    var c := capacity as real;
    var d := (predictedCount as real / c) * 100.0 - 85.0;
    assert d * c == (100 * predictedCount - 85 * capacity) as real;
    ProductSign(d, c);
  }

  /** For a positive capacity the threshold is the integer comparison 100p > 85c; exactly 85% is no conflict. */
  lemma ConflictThreshold(predictedCount: int, capacity: int)
    requires 0 < capacity
    ensures CheckConflict(predictedCount, capacity) <==> 85 * capacity < 100 * predictedCount
    ensures 100 * predictedCount == 85 * capacity ==> !CheckConflict(predictedCount, capacity)
  {
  }

  /**
   * `SELECT * FROM spaces WHERE id != ? AND capacity >= ?`: the spaces other
   * than the original one that hold at least the required number, in table order.
   */
  function Candidates(spaces: seq<Space>, originalSpaceId: int, requiredCapacity: int): (r: seq<Space>)
    ensures forall s :: s in r <==> s in spaces && s.id != originalSpaceId && requiredCapacity <= s.capacity
  {
    if spaces == [] then []
    else
      var rest := Candidates(spaces[1..], originalSpaceId, requiredCapacity);
      assert forall s :: s in spaces <==> s == spaces[0] || s in spaces[1..];
      if spaces[0].id != originalSpaceId && requiredCapacity <= spaces[0].capacity then [spaces[0]] + rest else rest
  }

  /** A candidate with its predicted utilisation, an element of `spaceUtilization`. */
  datatype Ranked = Ranked(space: Space, util: real)

  /** predicted_count / capacity for a space of the table. */
  function Utilization(spaces: seq<Space>, logs: seq<OccupancyLog>, s: Space, hour: Hour): real
    requires s in spaces && 0 < s.capacity
  {
    PredictionFor(spaces, logs, s, hour).predictedCount as real / s.capacity as real
  }

  /** Each candidate paired with its utilisation, in candidate order. */
  function Rank(candidates: seq<Space>, spaces: seq<Space>, logs: seq<OccupancyLog>, hour: Hour): (r: seq<Ranked>)
    requires forall i :: 0 <= i < |candidates| ==> candidates[i] in spaces && 0 < candidates[i].capacity
    ensures |r| == |candidates|
    ensures forall i :: 0 <= i < |candidates| ==> r[i] == Ranked(candidates[i], Utilization(spaces, logs, candidates[i], hour))
  {
    seq(|candidates|, i requires 0 <= i < |candidates| =>
      Ranked(candidates[i], Utilization(spaces, logs, candidates[i], hour)))
  }

  ghost predicate SortedByUtil(xs: seq<Ranked>)
  {
    forall i, j :: 0 <= i < j < |xs| ==> xs[i].util <= xs[j].util
  }

  /** Inserts x in front of the first element that is not less utilised. */
  function InsertByUtil(x: Ranked, sorted: seq<Ranked>): (r: seq<Ranked>)
    ensures |r| == |sorted| + 1
    ensures multiset(r) == multiset(sorted) + multiset{x}
    ensures r[0] == x || (sorted != [] && r[0] == sorted[0])
  {
    if sorted == [] || x.util <= sorted[0].util then [x] + sorted
    else
      var rest := InsertByUtil(x, sorted[1..]);
      assert sorted == [sorted[0]] + sorted[1..];
      [sorted[0]] + rest
  }

  lemma {:induction false} InsertKeepsSorted(x: Ranked, sorted: seq<Ranked>)
    requires SortedByUtil(sorted)
    ensures SortedByUtil(InsertByUtil(x, sorted))
  {
    if sorted != [] && sorted[0].util < x.util {
      var rest := InsertByUtil(x, sorted[1..]);
      InsertKeepsSorted(x, sorted[1..]);
      assert InsertByUtil(x, sorted) == [sorted[0]] + rest;
      assert rest[0] == x || rest[0] == sorted[1];
      forall i, j | 0 <= i < j < |rest| + 1
        ensures ([sorted[0]] + rest)[i].util <= ([sorted[0]] + rest)[j].util
      {
        if i == 0 {
          assert rest[0].util >= sorted[0].util;
          assert rest[j - 1].util >= rest[0].util;
        }
      }
    }
  }

  /**
   * `spaceUtilization.sort((a, b) => a.util - b.util)`: a stable sort by
   * ascending utilisation (an insertion sort that places each element in
   * front of the equally utilised ones that follow it in the input).
   */
  function SortByUtil(xs: seq<Ranked>): (r: seq<Ranked>)
    ensures |r| == |xs|
    ensures multiset(r) == multiset(xs)
    ensures SortedByUtil(r)
  {
    if xs == [] then []
    else
      assert xs == [xs[0]] + xs[1..];
      InsertKeepsSorted(xs[0], SortByUtil(xs[1..]));
      InsertByUtil(xs[0], SortByUtil(xs[1..]))
  }

  /** The position of the first least-utilised element. */
  function FirstLeast(xs: seq<Ranked>): (k: nat)
    requires xs != []
    ensures k < |xs|
    ensures forall i :: 0 <= i < |xs| ==> xs[k].util <= xs[i].util
    ensures forall i :: 0 <= i < k ==> xs[k].util < xs[i].util
  {
    if |xs| == 1 then 0
    else
      var k := FirstLeast(xs[1..]);
      assert forall i :: 1 <= i < |xs| ==> xs[i] == xs[1..][i - 1];
      if xs[0].util <= xs[k + 1].util then 0 else k + 1
  }

  /** The head of the stable sort is the first least-utilised element of the input. */
  lemma {:induction false} SortedHead(xs: seq<Ranked>)
    requires xs != []
    ensures SortByUtil(xs)[0] == xs[FirstLeast(xs)]
  {
    if |xs| > 1 {
      SortedHead(xs[1..]);
      assert xs[FirstLeast(xs[1..]) + 1] == xs[1..][FirstLeast(xs[1..])];
    }
  }

  /**
   * The space `findAlternativeSpace` resolves with: none when no space
   * qualifies, otherwise the head of the sorted utilisation list.
   */
  function AlternativeSpace(spaces: seq<Space>, logs: seq<OccupancyLog>, originalSpaceId: int, requiredCapacity: int, hour: Hour): (r: Option<Space>)
    requires PositiveCapacities(spaces)
    ensures r.None? <==> Candidates(spaces, originalSpaceId, requiredCapacity) == []
    ensures r.Some? ==> r.value in Candidates(spaces, originalSpaceId, requiredCapacity)
  {
    var candidates := Candidates(spaces, originalSpaceId, requiredCapacity);
    if candidates == [] then None
    else
      var ranked := Rank(candidates, spaces, logs, hour);
      SortedHead(ranked);
      Some(SortByUtil(ranked)[0].space)
  }

  /** The alternative is the candidate at the first least-utilised position of the ranking. */
  lemma AlternativeIsFirstLeast(spaces: seq<Space>, logs: seq<OccupancyLog>, originalSpaceId: int, requiredCapacity: int, hour: Hour)
    requires PositiveCapacities(spaces)
    requires Candidates(spaces, originalSpaceId, requiredCapacity) != []
    ensures var candidates := Candidates(spaces, originalSpaceId, requiredCapacity);
      AlternativeSpace(spaces, logs, originalSpaceId, requiredCapacity, hour) ==
        Some(candidates[FirstLeast(Rank(candidates, spaces, logs, hour))])
  {
    var candidates := Candidates(spaces, originalSpaceId, requiredCapacity);
    var ranked := Rank(candidates, spaces, logs, hour);
    SortedHead(ranked);
    assert ranked[FirstLeast(ranked)].space == candidates[FirstLeast(ranked)];
  }

  /**
   * The alternative is another space, at least as large as required, and no
   * candidate is less utilised.
   */
  lemma LeastUtilizedAlternative(spaces: seq<Space>, logs: seq<OccupancyLog>, originalSpaceId: int, requiredCapacity: int, hour: Hour)
    requires PositiveCapacities(spaces)
    ensures var r := AlternativeSpace(spaces, logs, originalSpaceId, requiredCapacity, hour);
      r.Some? ==> r.value in spaces && r.value.id != originalSpaceId && requiredCapacity <= r.value.capacity
    ensures var r := AlternativeSpace(spaces, logs, originalSpaceId, requiredCapacity, hour);
      r.Some? ==> forall c :: c in Candidates(spaces, originalSpaceId, requiredCapacity) ==>
                    Utilization(spaces, logs, r.value, hour) <= Utilization(spaces, logs, c, hour)
  {
    var candidates := Candidates(spaces, originalSpaceId, requiredCapacity);
    if candidates != [] {
      var ranked := Rank(candidates, spaces, logs, hour);
      var k := FirstLeast(ranked);
      var r := AlternativeSpace(spaces, logs, originalSpaceId, requiredCapacity, hour);
      AlternativeIsFirstLeast(spaces, logs, originalSpaceId, requiredCapacity, hour);
      forall c | c in candidates
        ensures Utilization(spaces, logs, r.value, hour) <= Utilization(spaces, logs, c, hour)
      {
        var i :| 0 <= i < |candidates| && candidates[i] == c;
        assert ranked[i].util == Utilization(spaces, logs, c, hour);
      }
    }
  }

  /**
   * Ties go to the earliest candidate: a candidate utilised no more than the
   * alternative comes at or after the alternative's first position in query
   * order.
   */
  lemma TiesGoToEarliest(spaces: seq<Space>, logs: seq<OccupancyLog>, originalSpaceId: int, requiredCapacity: int, hour: Hour)
    requires PositiveCapacities(spaces)
    ensures var r := AlternativeSpace(spaces, logs, originalSpaceId, requiredCapacity, hour);
      var candidates := Candidates(spaces, originalSpaceId, requiredCapacity);
      r.Some? ==> forall i ::
        0 <= i < |candidates| && Utilization(spaces, logs, candidates[i], hour) <= Utilization(spaces, logs, r.value, hour) ==>
          r.value in candidates[..i + 1]
  {
    var candidates := Candidates(spaces, originalSpaceId, requiredCapacity);
    if candidates != [] {
      var ranked := Rank(candidates, spaces, logs, hour);
      var k := FirstLeast(ranked);
      var r := AlternativeSpace(spaces, logs, originalSpaceId, requiredCapacity, hour);
      AlternativeIsFirstLeast(spaces, logs, originalSpaceId, requiredCapacity, hour);
      forall i | 0 <= i < |candidates| && Utilization(spaces, logs, candidates[i], hour) <= Utilization(spaces, logs, r.value, hour)
        ensures r.value in candidates[..i + 1]
      {
        assert ranked[i].util == Utilization(spaces, logs, candidates[i], hour);
        assert ranked[k].util == Utilization(spaces, logs, r.value, hour);
        assert candidates[..i + 1][k] == r.value;
      }
    }
  }

  /**
   * `findAlternativeSpace(originalSpaceId, requiredCapacity, startTime)`:
   * queries the candidates, predicts each once, sorts and takes the first.
   */
  method FindAlternativeSpace(spaces: seq<Space>, logs: seq<OccupancyLog>, originalSpaceId: int, requiredCapacity: int, hour: Hour)
    returns (alternative: Option<Space>)
    requires PositiveCapacities(spaces)
    ensures alternative == AlternativeSpace(spaces, logs, originalSpaceId, requiredCapacity, hour)
  {
    var candidates := Candidates(spaces, originalSpaceId, requiredCapacity);
    if |candidates| == 0 {
      return None;
    }
    ghost var ranked := Rank(candidates, spaces, logs, hour);
    var spaceUtilization: seq<Ranked> := [];
    for i := 0 to |candidates|
      invariant spaceUtilization == ranked[..i]
    {
      var prediction := PredictionFor(spaces, logs, candidates[i], hour);
      var util := prediction.predictedCount as real / candidates[i].capacity as real;
      assert ranked[i] == Ranked(candidates[i], util);
      PrefixExtends(ranked, i);
      spaceUtilization := spaceUtilization + [Ranked(candidates[i], util)];
    }
    assert spaceUtilization == ranked;
    var sorted := SortByUtil(spaceUtilization);
    alternative := Some(sorted[0].space);
  }
}
