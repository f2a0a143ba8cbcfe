/**
 * The sensing side (backend/controllers/pulseController.js): an occupancy
 * update appends one log row for a space; the current-occupancy and
 * heatmap views report, for every space, the count of its log with the
 * greatest id (0 without logs); the prediction view predicts every space
 * for the next hour.
 */
module PulseController {
  import opened Common
  import opened Tables
  import opened CampusStore
  import opened PredictionService

  /** Whether `process.env.SYSTEM_MODE` is 'SIMULATION'. */
  datatype Mode = Live | Simulation

  datatype UpdateError =
    | MissingSpaceId   // 400
    | UnknownSpace     // 404, only asked in simulation mode

  /** One entry of `GET /api/occupancy/current`. */
  datatype OccupancyEntry = OccupancyEntry(spaceId: int, spaceName: string, currentCount: int, capacity: int, utilization: real)

  /** One entry of `GET /api/occupancy/heatmap`. */
  datatype HeatmapEntry = HeatmapEntry(name: string, occupancyPercentage: real)

  /** One entry of `GET /api/predictions/next`. */
  datatype PredictionEntry = PredictionEntry(spaceId: int, predictedCount: int, capacity: int, confidence: real, predictionTime: int)

  /**
   * The count `updateOccupancy` logs: the reported count (0 when it is
   * absent or falsy), except that in simulation mode an absent count is
   * generated for a space that exists (`generated` stands for what
   * `generateOccupancy` returned, never negative).
   */
  function CountToLog(spaces: seq<Space>, spaceId: Option<int>, currentCount: Option<int>, mode: Mode, generated: nat): (r: Result<int, UpdateError>)
    ensures r == Err(MissingSpaceId) <==> spaceId.None?
    ensures r == Err(UnknownSpace) <==> spaceId.Some? && currentCount.None? && mode == Simulation && FindSpace(spaces, spaceId.value).None?
    ensures r.Ok? && currentCount.Some? ==> r.value == currentCount.value
    ensures r.Ok? && currentCount.None? ==> r.value == if mode == Simulation then generated else 0
    ensures r.Ok? && (currentCount.None? || 0 <= currentCount.value) ==> 0 <= r.value
  {
    if spaceId.None? then Err(MissingSpaceId)
    else if currentCount.None? && mode == Simulation then
      (if FindSpace(spaces, spaceId.value).None? then Err(UnknownSpace) else Ok(generated))
    else Ok(if currentCount.None? then 0 else currentCount.value)
  }

  /** `saveLog`: inserts one occupancy log and answers with the stored row. */
  method SaveLog(db: Database, spaceId: int, count: int) returns (log: OccupancyLog)
    requires db.Valid()
    modifies db
    ensures db.Valid()
    ensures log == OccupancyLog(NextId(LogIds(old(db.occupancyLogs))), spaceId, count)
    ensures db.occupancyLogs == old(db.occupancyLogs) + [log]
    ensures db.spaces == old(db.spaces) && db.predictions == old(db.predictions) && db.events == old(db.events)
    ensures db.reassignmentLogs == old(db.reassignmentLogs) && db.accuracyMetrics == old(db.accuracyMetrics)
  {
    var id := db.InsertOccupancyLog(spaceId, count);
    log := OccupancyLog(id, spaceId, count);
  }

  /**
   * `updateOccupancy`: a rejected update writes nothing; an accepted one
   * appends exactly one log row for that space carrying CountToLog's count.
   */
  method UpdateOccupancy(db: Database, spaceId: Option<int>, currentCount: Option<int>, mode: Mode, generated: nat)
    returns (r: Result<OccupancyLog, UpdateError>)
    requires db.Valid()
    modifies db
    ensures db.Valid()
    ensures r.Err? <==> CountToLog(old(db.spaces), spaceId, currentCount, mode, generated).Err?
    ensures r.Err? ==> r.error == CountToLog(old(db.spaces), spaceId, currentCount, mode, generated).error
    ensures r.Err? ==> db.occupancyLogs == old(db.occupancyLogs)
    ensures r.Ok? ==>
      && r.value == OccupancyLog(NextId(LogIds(old(db.occupancyLogs))), spaceId.value,
                                 CountToLog(old(db.spaces), spaceId, currentCount, mode, generated).value)
      && db.occupancyLogs == old(db.occupancyLogs) + [r.value]
    ensures db.spaces == old(db.spaces) && db.predictions == old(db.predictions) && db.events == old(db.events)
    ensures db.reassignmentLogs == old(db.reassignmentLogs) && db.accuracyMetrics == old(db.accuracyMetrics)
  {
    if spaceId.None? {
      return Err(MissingSpaceId);
    }
    var count: int;
    if currentCount.None? && mode == Simulation {
      var space := FindSpace(db.spaces, spaceId.value);
      if space.None? {
        return Err(UnknownSpace);
      }
      count := generated;
    } else {
      count := if currentCount.None? then 0 else currentCount.value;
    }
    var log := SaveLog(db, spaceId.value, count);
    r := Ok(log);
  }

  /**
   * The latest reading of a space: filter its logs, sort them by descending
   * id (stably) and take the first; 0 when it has none.
   */
  function LatestCount(logs: seq<OccupancyLog>, spaceId: int): (r: int)
    ensures (forall i :: 0 <= i < |logs| ==> logs[i].spaceId != spaceId) ==> r == 0
    ensures (exists i :: 0 <= i < |logs| && logs[i].spaceId == spaceId) ==>
      exists i :: 0 <= i < |logs| && logs[i].spaceId == spaceId && logs[i].count == r &&
        forall k :: 0 <= k < |logs| && logs[k].spaceId == spaceId ==> logs[k].id <= logs[i].id
  {
    match LatestWhere(logs, (l: OccupancyLog) => l.spaceId == spaceId, (l: OccupancyLog) => l.id)
    case None => 0
    case Some(l) => l.count
  }

  /** A log saved with the next id becomes its space's latest reading. */
  lemma SavedLogIsLatest(logs: seq<OccupancyLog>, spaceId: int, count: int)
    ensures LatestCount(logs + [OccupancyLog(NextId(LogIds(logs)), spaceId, count)], spaceId) == count
  {
    var log := OccupancyLog(NextId(LogIds(logs)), spaceId, count);
    var all := logs + [log];
    var keep := (l: OccupancyLog) => l.spaceId == spaceId;
    var id := (l: OccupancyLog) => l.id;
    assert all[|logs|] == log && keep(log);
    var r := LatestWhere(all, keep, id);
    assert id(log) <= id(r.value);
  }

  /** The logs of one space are empty exactly when no log names it. */
  lemma {:induction false} SpaceLogsEmpty(logs: seq<OccupancyLog>, spaceId: int)
    ensures SpaceLogs(logs, spaceId) == [] <==> forall i :: 0 <= i < |logs| ==> logs[i].spaceId != spaceId
  {
    if logs != [] {
      SpaceLogsEmpty(logs[1..], spaceId);
      assert forall i :: 1 <= i < |logs| ==> logs[i] == logs[1..][i - 1];
    }
  }

  /** The last of a space's logs is the last row of the table that names the space. */
  lemma {:induction false} SpaceLogsLast(logs: seq<OccupancyLog>, spaceId: int) returns (j: nat)
    requires SpaceLogs(logs, spaceId) != []
    ensures j < |logs| && logs[j].spaceId == spaceId
    ensures logs[j] == SpaceLogs(logs, spaceId)[|SpaceLogs(logs, spaceId)| - 1]
    ensures forall k :: j < k < |logs| ==> logs[k].spaceId != spaceId
  {
    var s := SpaceLogs(logs, spaceId);
    var rest := SpaceLogs(logs[1..], spaceId);
    if rest != [] {
      var i := SpaceLogsLast(logs[1..], spaceId);
      assert s[|s| - 1] == rest[|rest| - 1];
      forall k | i + 1 < k < |logs|
        ensures logs[k].spaceId != spaceId
      {
        assert logs[k] == logs[1..][k - 1];
      }
      j := i + 1;
    } else {
      SpaceLogsEmpty(logs[1..], spaceId);
      assert s == [logs[0]];
      forall k | 0 < k < |logs|
        ensures logs[k].spaceId != spaceId
      {
        assert logs[k] == logs[1..][k - 1];
      }
      j := 0;
    }
  }

  /** With increasing ids, the latest reading comes from the last row naming the space. */
  lemma LatestIsLastMatch(logs: seq<OccupancyLog>, spaceId: int, j: int)
    requires Increasing(LogIds(logs))
    requires 0 <= j < |logs| && logs[j].spaceId == spaceId
    requires forall k :: j < k < |logs| ==> logs[k].spaceId != spaceId
    ensures LatestCount(logs, spaceId) == logs[j].count
  {
    var keep := (l: OccupancyLog) => l.spaceId == spaceId;
    var id := (l: OccupancyLog) => l.id;
    var r := LatestWhere(logs, keep, id);
    assert keep(logs[j]);
    var m :| 0 <= m < |logs| && logs[m] == r.value;
    assert id(logs[j]) <= id(logs[m]);
    assert LogIds(logs)[j] == logs[j].id && LogIds(logs)[m] == logs[m].id;
    assert keep(logs[m]);
    assert m == j;
  }

  /**
   * With increasing log ids the latest reading of the occupancy views is the
   * newest count the predictor reads: the first of its recent counts, or 0
   * for a space without logs.
   */
  lemma LatestCountIsNewest(logs: seq<OccupancyLog>, spaceId: int)
    requires Increasing(LogIds(logs))
    ensures RecentCounts(logs, spaceId, RecentLimit) == [] ==> LatestCount(logs, spaceId) == 0
    ensures RecentCounts(logs, spaceId, RecentLimit) != [] ==>
      LatestCount(logs, spaceId) == RecentCounts(logs, spaceId, RecentLimit)[0]
  {
    var s := SpaceLogs(logs, spaceId);
    if s != [] {
      LatestCountOfLastLog(logs, spaceId);
      assert RecentCounts(logs, spaceId, RecentLimit)[0] == s[|s| - 1].count;
    } else {
      LatestCountWithoutLogs(logs, spaceId);
    }
  }

  /** With increasing ids, the latest reading of a space is its last log in table order. */
  lemma LatestCountOfLastLog(logs: seq<OccupancyLog>, spaceId: int)
    requires Increasing(LogIds(logs))
    requires SpaceLogs(logs, spaceId) != []
    ensures var s := SpaceLogs(logs, spaceId); LatestCount(logs, spaceId) == s[|s| - 1].count
  {
    var j := SpaceLogsLast(logs, spaceId);
    LatestIsLastMatch(logs, spaceId, j);
  }

  /** A space without logs reads 0. */
  lemma LatestCountWithoutLogs(logs: seq<OccupancyLog>, spaceId: int)
    requires SpaceLogs(logs, spaceId) == []
    ensures LatestCount(logs, spaceId) == 0
  {
    SpaceLogsEmpty(logs, spaceId);
    assert LatestWhere(logs, (l: OccupancyLog) => l.spaceId == spaceId, (l: OccupancyLog) => l.id).None?;
  }

  /** The occupied fraction count / capacity rounded to two decimals, within 0.005 of the exact one. */
  function OccupiedFraction(count: int, capacity: int): (u: real)
    requires 0 < capacity
    ensures count as real / capacity as real - 0.005 <= u <= count as real / capacity as real + 0.005
    ensures 0 <= count <= capacity ==> 0.0 <= u <= 1.0
  {
    assert 0 <= count <= capacity ==> 0.0 <= count as real / capacity as real <= 1.0 by {
      if 0 <= count <= capacity {
        QuotientInUnit(count, capacity);
      }
    }
    ToFixed2(count as real / capacity as real)
  }

  /**
   * `getCurrentOccupancy`: one entry per space, in table order, with its
   * latest reading and the occupied fraction rounded to two decimals.
   */
  function CurrentOccupancy(spaces: seq<Space>, logs: seq<OccupancyLog>): (r: seq<OccupancyEntry>)
    requires PositiveCapacities(spaces)
    ensures |r| == |spaces|
    ensures forall i :: 0 <= i < |spaces| ==>
      r[i] == OccupancyEntry(spaces[i].id, spaces[i].name, LatestCount(logs, spaces[i].id), spaces[i].capacity,
                             OccupiedFraction(LatestCount(logs, spaces[i].id), spaces[i].capacity))
  {
    seq(|spaces|, i requires 0 <= i < |spaces| =>
      var count := LatestCount(logs, spaces[i].id);
      OccupancyEntry(spaces[i].id, spaces[i].name, count, spaces[i].capacity, OccupiedFraction(count, spaces[i].capacity)))
  }

  /** `getHeatmapData`: per space, in table order, the latest reading as a percentage of capacity. */
  function Heatmap(spaces: seq<Space>, logs: seq<OccupancyLog>): (r: seq<HeatmapEntry>)
    requires PositiveCapacities(spaces)
    ensures |r| == |spaces|
    ensures forall i :: 0 <= i < |spaces| ==> r[i].name == spaces[i].name
  {
    seq(|spaces|, i requires 0 <= i < |spaces| =>
      HeatmapEntry(spaces[i].name, (LatestCount(logs, spaces[i].id) as real / spaces[i].capacity as real) * 100.0))
  }

  /**
   * The heatmap and the current-occupancy view select the same reading: the
   * heatmap's percentage is the exact occupied fraction times 100, which
   * the rounded utilisation matches to within half a percentage point.
   */
  lemma HeatmapAgreesWithCurrent(spaces: seq<Space>, logs: seq<OccupancyLog>)
    requires PositiveCapacities(spaces)
    ensures forall i :: 0 <= i < |spaces| ==>
      var h := Heatmap(spaces, logs)[i];
      var c := CurrentOccupancy(spaces, logs)[i];
      && h.name == c.spaceName
      && h.occupancyPercentage == (c.currentCount as real / c.capacity as real) * 100.0
      && c.utilization * 100.0 - 0.5 <= h.occupancyPercentage <= c.utilization * 100.0 + 0.5
  {
  }

  /** toFixed(2) leaves both confidence levels unchanged. */
  lemma ConfidenceIsExact(p: Prediction)
    requires p.confidence == 0.85 || p.confidence == 0.6
    ensures ToFixed2(p.confidence) == p.confidence
  {
    if p.confidence == 0.85 {
      assert (85.0 + 0.5).Floor == 85;
    } else {
      assert (60.0 + 0.5).Floor == 60;
    }
  }

  /** The entry `getPredictions` pushes for one space. */
  ghost predicate EntryFor(e: PredictionEntry, spaces: seq<Space>, logs: seq<OccupancyLog>, s: Space, hour: Hour, predictionTime: int)
    requires s in spaces
  {
    var p := PredictionFor(spaces, logs, s, hour);
    e == PredictionEntry(s.id, p.predictedCount, s.capacity, p.confidence, predictionTime)
  }

  /** Entries for the first k spaces, followed by one for space k, are entries for the first k + 1. */
  lemma EntryForAppend(results: seq<PredictionEntry>, entry: PredictionEntry, spaces: seq<Space>, logs: seq<OccupancyLog>, hour: Hour, predictionTime: int)
    requires |results| < |spaces|
    requires forall j :: 0 <= j < |results| ==> EntryFor(results[j], spaces, logs, spaces[j], hour, predictionTime)
    requires EntryFor(entry, spaces, logs, spaces[|results|], hour, predictionTime)
    ensures forall j :: 0 <= j < |results| + 1 ==> EntryFor((results + [entry])[j], spaces, logs, spaces[j], hour, predictionTime)
  {
    forall j | 0 <= j < |results| + 1
      ensures EntryFor((results + [entry])[j], spaces, logs, spaces[j], hour, predictionTime)
    {
      if j < |results| {
        assert (results + [entry])[j] == results[j];
      }
    }
  }

  /**
   * Every entry reports a confidence of 0.85 or 0.6, and with distinct
   * space ids a predicted count within the space's capacity.
   */
  lemma EntriesWithinCapacity(results: seq<PredictionEntry>, spaces: seq<Space>, logs: seq<OccupancyLog>, hour: Hour, predictionTime: int)
    requires |results| == |spaces|
    requires forall i :: 0 <= i < |spaces| ==> EntryFor(results[i], spaces, logs, spaces[i], hour, predictionTime)
    ensures forall i :: 0 <= i < |spaces| ==> results[i].confidence == 0.85 || results[i].confidence == 0.6
    ensures Increasing(SpaceIds(spaces)) ==> forall i :: 0 <= i < |spaces| ==> results[i].predictedCount <= results[i].capacity
  {
    forall i | 0 <= i < |spaces|
      ensures results[i].confidence == 0.85 || results[i].confidence == 0.6
      ensures Increasing(SpaceIds(spaces)) ==> results[i].predictedCount <= results[i].capacity
    {
      assert EntryFor(results[i], spaces, logs, spaces[i], hour, predictionTime);
      if Increasing(SpaceIds(spaces)) {
        FindSpaceDistinct(spaces, i);
      }
    }
  }

  /**
   * `getPredictions`: predicts every space, in table order, for the next
   * hour; each entry carries the space's predicted count (at most its
   * capacity when space ids are distinct), its capacity and the confidence,
   * which rounding to two decimals leaves unchanged.
   */
  method GetPredictions(spaces: seq<Space>, logs: seq<OccupancyLog>, hour: Hour, predictionTime: int)
    returns (results: seq<PredictionEntry>)
    ensures |results| == |spaces|
    ensures forall i :: 0 <= i < |spaces| ==> EntryFor(results[i], spaces, logs, spaces[i], hour, predictionTime)
    ensures forall i :: 0 <= i < |spaces| ==> results[i].confidence == 0.85 || results[i].confidence == 0.6
    ensures Increasing(SpaceIds(spaces)) ==> forall i :: 0 <= i < |spaces| ==> results[i].predictedCount <= results[i].capacity
  {
    results := [];
    for i := 0 to |spaces|
      invariant |results| == i
      invariant forall j :: 0 <= j < i ==> EntryFor(results[j], spaces, logs, spaces[j], hour, predictionTime)
    {
      var prediction := PredictionFor(spaces, logs, spaces[i], hour);
      ConfidenceIsExact(prediction);
      var entry := PredictionEntry(spaces[i].id, prediction.predictedCount, spaces[i].capacity,
                                   ToFixed2(prediction.confidence), predictionTime);
      EntryForAppend(results, entry, spaces, logs, hour, predictionTime);
      results := results + [entry];
    }
    EntriesWithinCapacity(results, spaces, logs, hour, predictionTime);
  }
}
