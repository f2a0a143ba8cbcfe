/**
 * The occupancy predictor (backend/services/predictionService.js): the mean
 * of a space's five newest occupancy counts (one fifth of its capacity when
 * it has none), scaled by an hour-of-day multiplier, rounded with
 * Math.round and capped at the capacity, with a confidence of 0.85 when
 * more than three counts backed it and 0.6 otherwise; and the batch job
 * that stores one such prediction per space.
 */
module PredictionService {
  import opened Common
  import opened Tables
  import opened CampusStore

  datatype Prediction = Prediction(predictedCount: int, confidence: real)

  datatype PredictError = SpaceNotFound

  /** How many of a space's newest logs the predictor reads (`LIMIT 5`). */
  const RecentLimit: nat := 5

  /** The hour-of-day factor; the branches are tried in this order. */
  function Multiplier(hour: Hour): (m: real)
    ensures 0.5 <= m <= 1.2
    ensures 1.0 < m <==> 9 <= hour <= 11 || 18 <= hour <= 20
    ensures m < 1.0 <==> hour <= 6 || 23 <= hour
    ensures m == 1.0 <==> 7 <= hour <= 8 || 12 <= hour <= 17 || 21 <= hour <= 22
  {
    if 9 <= hour <= 11 then 1.2        // morning peak
    else if 18 <= hour <= 20 then 1.1  // evening peak
    else if 23 <= hour || hour <= 6 then 0.5  // night off-peak
    else 1.0
  }

  /** The mean of the counts, or the cold-start default of capacity * 0.2 when there are none. */
  function BaseEstimate(capacity: int, counts: seq<int>): (r: real)
    ensures 0 < |counts| ==> r * |counts| as real == Sum(counts) as real
    ensures |counts| == 0 ==> r * 5.0 == capacity as real
  {
    if 0 < |counts| then Sum(counts) as real / |counts| as real else capacity as real * 0.2
  }

  /** The prediction for a space of the given capacity whose newest counts are `counts`. */
  function Estimate(capacity: int, counts: seq<int>, hour: Hour): (r: Prediction)
    ensures r.predictedCount <= capacity
    ensures 0 <= capacity && (forall i :: 0 <= i < |counts| ==> 0 <= counts[i]) ==> 0 <= r.predictedCount
    ensures r.confidence == 0.85 <==> 3 < |counts|
    ensures r.confidence == 0.6 <==> |counts| <= 3
  {
    Prediction(Min(capacity, Round(Scaled(capacity, counts, hour))), if 3 < |counts| then 0.85 else 0.6)
  }

  /** The base estimate times the hour multiplier, before rounding. */
  function Scaled(capacity: int, counts: seq<int>, hour: Hour): (x: real)
    ensures 0 <= capacity && (forall i :: 0 <= i < |counts| ==> 0 <= counts[i]) ==> 0.0 <= x
  {
    BaseEstimate(capacity, counts) * Multiplier(hour)
  }

  /** The logs of one space, in table order. */
  function SpaceLogs(logs: seq<OccupancyLog>, spaceId: int): (r: seq<OccupancyLog>)
    ensures forall i :: 0 <= i < |r| ==> r[i] in logs && r[i].spaceId == spaceId
  {
    if logs == [] then []
    else (if logs[0].spaceId == spaceId then [logs[0]] else []) + SpaceLogs(logs[1..], spaceId)
  }

  /**
   * `SELECT current_count FROM occupancy_logs WHERE space_id = ? ORDER BY
   * timestamp DESC LIMIT limit`: rows are stamped as they are inserted, so
   * the newest logs are the last ones in table order.
   */
  function RecentCounts(logs: seq<OccupancyLog>, spaceId: int, limit: nat): (r: seq<int>)
    ensures |r| == Min(limit, |SpaceLogs(logs, spaceId)|)
    ensures forall i :: 0 <= i < |r| ==> r[i] == SpaceLogs(logs, spaceId)[|SpaceLogs(logs, spaceId)| - 1 - i].count
  {
    var s := SpaceLogs(logs, spaceId);
    Newest(s, Min(limit, |s|))
  }

  /** The counts of the last n logs of s, the last one first. */
  function Newest(s: seq<OccupancyLog>, n: nat): (r: seq<int>)
    requires n <= |s|
    ensures |r| == n
    ensures forall i :: 0 <= i < n ==> r[i] == s[|s| - 1 - i].count
  {
    seq(n, i requires 0 <= i < n => s[|s| - 1 - i].count)
  }

  predicate NonNegativeCounts(logs: seq<OccupancyLog>)
  {
    forall i :: 0 <= i < |logs| ==> 0 <= logs[i].count
  }

  /**
   * `predictOccupancy(spaceId, targetTime)`: fails when no space has the id;
   * otherwise predicts from that space's capacity and newest counts.
   */
  function PredictOccupancy(spaces: seq<Space>, logs: seq<OccupancyLog>, spaceId: int, hour: Hour): (r: Result<Prediction, PredictError>)
    ensures r.Err? <==> forall i :: 0 <= i < |spaces| ==> spaces[i].id != spaceId
    ensures r.Ok? ==> FindSpace(spaces, spaceId).Some? && r.value.predictedCount <= FindSpace(spaces, spaceId).value.capacity
    ensures r.Ok? && PositiveCapacities(spaces) && NonNegativeCounts(logs) ==> 0 <= r.value.predictedCount
    ensures r.Ok? ==> (r.value.confidence == 0.85 <==> 3 < |RecentCounts(logs, spaceId, RecentLimit)|)
  {
    match FindSpace(spaces, spaceId)
    case None => Err(SpaceNotFound)
    case Some(space) =>
      var counts := RecentCounts(logs, spaceId, RecentLimit);
      assert NonNegativeCounts(logs) ==> forall i :: 0 <= i < |counts| ==> 0 <= counts[i];
      Ok(Estimate(space.capacity, counts, hour))
  }

  /** The prediction for a space of the table, which always exists. */
  function PredictionFor(spaces: seq<Space>, logs: seq<OccupancyLog>, s: Space, hour: Hour): (p: Prediction)
    requires s in spaces
    ensures p.confidence == 0.85 || p.confidence == 0.6
  {
    FindSpaceFound(spaces, s);
    PredictOccupancy(spaces, logs, s.id, hour).value
  }

  /**
   * The same prediction in integer arithmetic: with `tenths` the multiplier
   * in tenths, Math.round of mean * multiplier is (2 * sum * tenths + 10n)
   * div 20n, and on a cold start (2 * capacity * tenths + 50) div 100.
   */
  lemma EstimateInIntegers(capacity: int, counts: seq<int>, hour: Hour, tenths: int)
    requires tenths as real == Multiplier(hour) * 10.0
    ensures var n := |counts|;
      Estimate(capacity, counts, hour).predictedCount ==
        Min(capacity, if 0 < n then (2 * Sum(counts) * tenths + 10 * n) / (20 * n)
                      else (2 * capacity * tenths + 50) / 100)
  {
    if 0 < |counts| {
      EstimateWithCounts(capacity, counts, hour, tenths);
    } else {
      EstimateColdStart(capacity, counts, hour, tenths);
    }
  }

  lemma EstimateWithCounts(capacity: int, counts: seq<int>, hour: Hour, tenths: int)
    requires 0 < |counts| && tenths as real == Multiplier(hour) * 10.0
    ensures Estimate(capacity, counts, hour).predictedCount ==
      Min(capacity, (2 * Sum(counts) * tenths + 10 * |counts|) / (20 * |counts|))
  {
    RoundScaledWithCounts(capacity, counts, hour, tenths);
  }

  lemma RoundScaledWithCounts(capacity: int, counts: seq<int>, hour: Hour, tenths: int)
    requires 0 < |counts| && tenths as real == Multiplier(hour) * 10.0
    ensures Round(Scaled(capacity, counts, hour)) == (2 * Sum(counts) * tenths + 10 * |counts|) / (20 * |counts|)
  {
    var s, n := Sum(counts), |counts|;
    assert Multiplier(hour) == tenths as real / 10.0;
    assert BaseEstimate(capacity, counts) == s as real / n as real;
    RoundMeanScaled(s, n, tenths);
  }

  lemma EstimateColdStart(capacity: int, counts: seq<int>, hour: Hour, tenths: int)
    requires |counts| == 0 && tenths as real == Multiplier(hour) * 10.0
    ensures Estimate(capacity, counts, hour).predictedCount == Min(capacity, (2 * capacity * tenths + 50) / 100)
  {
    assert Scaled(capacity, counts, hour) == (capacity as real * 0.2) * (tenths as real / 10.0);
    RoundColdScaled(capacity, tenths);
  }

  /** Math.round of mean * tenths / 10 in integer arithmetic. */
  lemma RoundMeanScaled(s: int, n: int, t: int)
    requires 0 < n
    ensures Round((s as real / n as real) * (t as real / 10.0)) == (2 * s * t + 10 * n) / (20 * n)
  {
    MeanScaledPlusHalf(s, n, t);
    FloorOfQuotient(2 * s * t + 10 * n, 20 * n);
  }

  /** Math.round of capacity * 0.2 * tenths / 10 in integer arithmetic. */
  lemma RoundColdScaled(c: int, t: int)
    ensures Round((c as real * 0.2) * (t as real / 10.0)) == (2 * c * t + 50) / 100
  {
    ColdScaledPlusHalf(c, t);
    FloorOfQuotient(2 * c * t + 50, 100);
  }

  lemma ColdScaledPlusHalf(c: int, t: int)
    ensures (c as real * 0.2) * (t as real / 10.0) + 0.5 == (2 * c * t + 50) as real / 100 as real
  {
    var y := (c as real * 0.2) * (t as real / 10.0) + 0.5;
    assert y * 100.0 == (2 * c * t + 50) as real;
    QuotientOfProduct(y, (2 * c * t + 50) as real, 100.0);
  }

  lemma MeanScaledPlusHalf(s: int, n: int, t: int)
    requires 0 < n
    ensures (s as real / n as real) * (t as real / 10.0) + 0.5 == (2 * s * t + 10 * n) as real / (20 * n) as real
  {
    var a := s as real / n as real;
    assert a * n as real == s as real;
    var y := a * (t as real / 10.0) + 0.5;
    calc {
      y * (20 * n) as real;
      a * (t as real / 10.0) * (20 * n) as real + 0.5 * (20 * n) as real;
      (a * n as real) * (2 * t) as real + (10 * n) as real;
      s as real * (2 * t) as real + (10 * n) as real;
      (2 * s * t + 10 * n) as real;
    }
    QuotientOfProduct(y, (2 * s * t + 10 * n) as real, (20 * n) as real);
  }

  lemma QuotientOfProduct(y: real, a: real, b: real)
    requires b != 0.0 && y * b == a
    ensures y == a / b
  {
  }

  /** Capacity 100, counts 90, 88, 92, 85, 91 at 10:00: 89.2 * 1.2 = 107.04 rounds to 107, capped to 100. */
  lemma MorningPeakIsCapped()
    ensures Estimate(100, [90, 88, 92, 85, 91], 10) == Prediction(100, 0.85)
  {
    assert Sum([90, 88, 92, 85, 91]) == 446;
    EstimateInIntegers(100, [90, 88, 92, 85, 91], 10, 12);
  }

  /** Capacity 200, no logs, at 02:00: 200 * 0.2 = 40, halved off-peak to 20. */
  lemma ColdStartOffPeak()
    ensures Estimate(200, [], 2) == Prediction(20, 0.6)
  {
    EstimateInIntegers(200, [], 2, 5);
  }

  /** Evening peak: a mean of 45 scaled by 1.1 is 49.5, which rounds up to 50; two counts give the low confidence. */
  lemma EveningPeakRoundsHalfUp()
    ensures Estimate(100, [40, 50], 19) == Prediction(50, 0.6)
  {
    assert Sum([40, 50]) == 90;
    EstimateInIntegers(100, [40, 50], 19, 11);
  }

  /** A stored prediction row for space `s` at the target hour and time. */
  ghost predicate PredictsFor(row: PredictionRow, spaces: seq<Space>, logs: seq<OccupancyLog>, s: Space, hour: Hour, predictionTime: int)
    requires s in spaces
  {
    var p := PredictionFor(spaces, logs, s, hour);
    row.spaceId == s.id && row.predictedCount == p.predictedCount &&
    row.confidence == p.confidence && row.predictionTime == predictionTime
  }

  /** Rows that predict the first k spaces, followed by one for space k, predict the first k + 1. */
  lemma PredictsForAppend(rows: seq<PredictionRow>, row: PredictionRow, spaces: seq<Space>, logs: seq<OccupancyLog>, hour: Hour, predictionTime: int)
    requires |rows| < |spaces|
    requires forall j :: 0 <= j < |rows| ==> PredictsFor(rows[j], spaces, logs, spaces[j], hour, predictionTime)
    requires PredictsFor(row, spaces, logs, spaces[|rows|], hour, predictionTime)
    ensures forall j :: 0 <= j < |rows| + 1 ==> PredictsFor((rows + [row])[j], spaces, logs, spaces[j], hour, predictionTime)
  {
    forall j | 0 <= j < |rows| + 1
      ensures PredictsFor((rows + [row])[j], spaces, logs, spaces[j], hour, predictionTime)
    {
      if j < |rows| {
        assert (rows + [row])[j] == rows[j];
      }
    }
  }

  /**
   * `updateAllPredictions`: for every space, in table order, one prediction
   * row for the target hour carrying that space's predicted count and
   * confidence; nothing else in the store changes.
   */
  method UpdateAllPredictions(db: Database, hour: Hour, predictionTime: int)
    requires db.Valid()
    modifies db
    ensures db.Valid()
    ensures db.spaces == old(db.spaces) && db.occupancyLogs == old(db.occupancyLogs) && db.events == old(db.events)
    ensures db.reassignmentLogs == old(db.reassignmentLogs) && db.accuracyMetrics == old(db.accuracyMetrics)
    ensures |db.predictions| == |old(db.predictions)| + |db.spaces|
    ensures db.predictions[..|old(db.predictions)|] == old(db.predictions)
    ensures forall k :: 0 <= k < |db.spaces| ==>
      PredictsFor(db.predictions[|old(db.predictions)| + k], db.spaces, db.occupancyLogs, db.spaces[k], hour, predictionTime)
  {
    var spaces, logs := db.spaces, db.occupancyLogs;
    ghost var initial, added: seq<PredictionRow> := db.predictions, [];
    for k := 0 to |spaces|
      invariant db.Valid()
      invariant db.spaces == spaces && db.occupancyLogs == logs && db.events == old(db.events)
      invariant db.reassignmentLogs == old(db.reassignmentLogs) && db.accuracyMetrics == old(db.accuracyMetrics)
      invariant db.predictions == initial + added && |added| == k
      invariant forall j :: 0 <= j < k ==> PredictsFor(added[j], spaces, logs, spaces[j], hour, predictionTime)
    {
      var row := StorePrediction(db, spaces[k], hour, predictionTime);
      PredictsForAppend(added, row, spaces, logs, hour, predictionTime);
      AppendAssociates(initial, added, [row]);
      added := added + [row];
    }
  }

  /** One step of the batch: predicts space `s` and inserts the prediction row. */
  method StorePrediction(db: Database, s: Space, hour: Hour, predictionTime: int) returns (row: PredictionRow)
    requires db.Valid() && s in db.spaces
    modifies db
    ensures db.Valid()
    ensures db.spaces == old(db.spaces) && db.occupancyLogs == old(db.occupancyLogs) && db.events == old(db.events)
    ensures PredictsFor(row, db.spaces, db.occupancyLogs, s, hour, predictionTime)
    ensures db.predictions == old(db.predictions) + [row]
    ensures db.reassignmentLogs == old(db.reassignmentLogs) && db.accuracyMetrics == old(db.accuracyMetrics)
  {
    var prediction := PredictionFor(db.spaces, db.occupancyLogs, s, hour);
    var id := db.InsertPrediction(s.id, prediction.predictedCount, predictionTime, prediction.confidence);
    row := PredictionRow(id, s.id, prediction.predictedCount, predictionTime, prediction.confidence);
  }
}
