/**
 * The relational store the controllers address through SQL: the six tables
 * spaces, occupancy_logs, predictions, events, reassignment_logs and
 * accuracy_metrics, each a sequence of typed rows in insertion order. A new
 * row receives the next id (greatest id plus one), so ids increase along
 * every table; that, and positive capacities, is the store invariant.
 */
module CampusStore {
  import opened Common
  import opened Tables

  /** The local hour of a timestamp, as `Date.prototype.getHours` gives it. */
  type Hour = h: int | 0 <= h < 24

  datatype Space = Space(id: int, name: string, kind: string, capacity: int)

  datatype OccupancyLog = OccupancyLog(id: int, spaceId: int, count: int)

  /** An event; only the hour of its start time matters to the core. */
  datatype Event = Event(id: int, name: string, priority: string, spaceId: int, startHour: Hour)

  datatype PredictionRow = PredictionRow(id: int, spaceId: int, predictedCount: int, predictionTime: int, confidence: real)

  /** The reason column of an audit row: the tag of the message and the number it embeds. */
  datatype Reason =
    | SafeWithin(utilization: int)        // "SAFE: Predicted occupancy u% within capacity"
    | NoSuitableAlternative               // "NO_ACTION: No suitable alternative space available"
    | PredictedOverload(utilization: int) // "Predicted overload (u%)"
    | Stated(text: string)                // the reason a manual reassignment supplies

  datatype DecisionRow = DecisionRow(id: int, eventId: int, fromSpaceId: int, toSpaceId: int, reason: Reason)

  datatype AccuracyRow = AccuracyRow(id: int, spaceId: int, predictionId: int, actualCount: int, errorMargin: int)

  predicate PositiveCapacities(spaces: seq<Space>)
  {
    forall i :: 0 <= i < |spaces| ==> 0 < spaces[i].capacity
  }

  /** `SELECT ... FROM spaces WHERE id = ?` read with `get`: the first space with that id. */
  function FindSpace(spaces: seq<Space>, id: int): Option<Space>
  {
    First(spaces, (s: Space) => s.id == id)
  }

  /** `SELECT ... FROM events WHERE id = ?` read with `get`: the first event with that id. */
  function FindEvent(events: seq<Event>, id: int): Option<Event>
  {
    First(events, (e: Event) => e.id == id)
  }

  lemma FindSpaceFound(spaces: seq<Space>, s: Space)
    requires s in spaces
    ensures FindSpace(spaces, s.id).Some?
    ensures FindSpace(spaces, s.id).value in spaces && FindSpace(spaces, s.id).value.id == s.id
  {
    var k :| 0 <= k < |spaces| && spaces[k] == s;
    assert ((s: Space) => s.id == s.id)(spaces[k]);
  }

  /** With distinct ids, looking a space of the table up by its id finds that very space. */
  lemma FindSpaceDistinct(spaces: seq<Space>, k: int)
    requires Increasing(SpaceIds(spaces)) && 0 <= k < |spaces|
    ensures FindSpace(spaces, spaces[k].id) == Some(spaces[k])
  {
    var p := (s: Space) => s.id == spaces[k].id;
    var r := First(spaces, p);
    assert p(spaces[k]);
    var j :| 0 <= j < |spaces| && spaces[j] == r.value && forall i :: 0 <= i < j ==> !p(spaces[i]);
    assert SpaceIds(spaces)[j] == spaces[j].id && SpaceIds(spaces)[k] == spaces[k].id;
  }

  function SpaceIds(rows: seq<Space>): seq<int> { Ids(rows, (r: Space) => r.id) }
  function LogIds(rows: seq<OccupancyLog>): seq<int> { Ids(rows, (r: OccupancyLog) => r.id) }
  function PredictionIds(rows: seq<PredictionRow>): seq<int> { Ids(rows, (r: PredictionRow) => r.id) }
  function EventIds(rows: seq<Event>): seq<int> { Ids(rows, (r: Event) => r.id) }
  function DecisionIds(rows: seq<DecisionRow>): seq<int> { Ids(rows, (r: DecisionRow) => r.id) }
  function AccuracyIds(rows: seq<AccuracyRow>): seq<int> { Ids(rows, (r: AccuracyRow) => r.id) }

  /**
   * `UPDATE events SET space_id = ? WHERE id = ?`: every event with that id
   * moves to the new space; nothing else about any event changes.
   */
  function SetSpace(events: seq<Event>, eventId: int, toSpaceId: int): (r: seq<Event>)
    ensures |r| == |events|
    ensures forall i :: 0 <= i < |events| && events[i].id == eventId ==> r[i] == events[i].(spaceId := toSpaceId)
    ensures forall i :: 0 <= i < |events| && events[i].id != eventId ==> r[i] == events[i]
  {
    if events == [] then []
    else
      var head := if events[0].id == eventId then events[0].(spaceId := toSpaceId) else events[0];
      var tail := SetSpace(events[1..], eventId, toSpaceId);
      assert forall i :: 1 <= i < |events| ==> ([head] + tail)[i] == tail[i - 1] && events[i] == events[1..][i - 1];
      [head] + tail
  }

  class Database {
    var spaces: seq<Space>
    var occupancyLogs: seq<OccupancyLog>
    var predictions: seq<PredictionRow>
    var events: seq<Event>
    var reassignmentLogs: seq<DecisionRow>
    var accuracyMetrics: seq<AccuracyRow>

    ghost predicate Valid()
      reads this
    {
      && PositiveCapacities(spaces)
      && Increasing(SpaceIds(spaces))
      && Increasing(LogIds(occupancyLogs))
      && Increasing(PredictionIds(predictions))
      && Increasing(EventIds(events))
      && Increasing(DecisionIds(reassignmentLogs))
      && Increasing(AccuracyIds(accuracyMetrics))
    }

    /** A store holding the given spaces and events (as seeded), with empty logs. */
    constructor (spaces: seq<Space>, events: seq<Event>)
      requires PositiveCapacities(spaces) && Increasing(SpaceIds(spaces)) && Increasing(EventIds(events))
      ensures Valid()
      ensures this.spaces == spaces && this.events == events
      ensures occupancyLogs == [] && predictions == [] && reassignmentLogs == [] && accuracyMetrics == []
    {
      this.spaces := spaces;
      this.events := events;
      occupancyLogs, predictions, reassignmentLogs, accuracyMetrics := [], [], [], [];
    }

    /** `INSERT INTO occupancy_logs (space_id, current_count)`. */
    method InsertOccupancyLog(spaceId: int, count: int) returns (id: int)
      requires Valid()
      modifies this
      ensures Valid()
      ensures id == NextId(LogIds(old(occupancyLogs)))
      ensures occupancyLogs == old(occupancyLogs) + [OccupancyLog(id, spaceId, count)]
      ensures spaces == old(spaces) && predictions == old(predictions) && events == old(events)
      ensures reassignmentLogs == old(reassignmentLogs) && accuracyMetrics == old(accuracyMetrics)
    {
      id := NextId(LogIds(occupancyLogs));
      IncreasingAppendNext(LogIds(occupancyLogs));
      assert LogIds(occupancyLogs + [OccupancyLog(id, spaceId, count)]) == LogIds(occupancyLogs) + [id];
      occupancyLogs := occupancyLogs + [OccupancyLog(id, spaceId, count)];
    }

    /** `INSERT INTO predictions (space_id, predicted_count, prediction_time, confidence)`. */
    method InsertPrediction(spaceId: int, predictedCount: int, predictionTime: int, confidence: real) returns (id: int)
      requires Valid()
      modifies this
      ensures Valid()
      ensures id == NextId(PredictionIds(old(predictions)))
      ensures predictions == old(predictions) + [PredictionRow(id, spaceId, predictedCount, predictionTime, confidence)]
      ensures spaces == old(spaces) && occupancyLogs == old(occupancyLogs) && events == old(events)
      ensures reassignmentLogs == old(reassignmentLogs) && accuracyMetrics == old(accuracyMetrics)
    {
      id := NextId(PredictionIds(predictions));
      var row := PredictionRow(id, spaceId, predictedCount, predictionTime, confidence);
      IncreasingAppendNext(PredictionIds(predictions));
      assert PredictionIds(predictions + [row]) == PredictionIds(predictions) + [id];
      predictions := predictions + [row];
    }

    /** `INSERT INTO reassignment_logs (event_id, from_space_id, to_space_id, reason)`. */
    method InsertDecision(eventId: int, fromSpaceId: int, toSpaceId: int, reason: Reason) returns (id: int)
      requires Valid()
      modifies this
      ensures Valid()
      ensures id == NextId(DecisionIds(old(reassignmentLogs)))
      ensures reassignmentLogs == old(reassignmentLogs) + [DecisionRow(id, eventId, fromSpaceId, toSpaceId, reason)]
      ensures spaces == old(spaces) && occupancyLogs == old(occupancyLogs) && predictions == old(predictions)
      ensures events == old(events) && accuracyMetrics == old(accuracyMetrics)
    {
      id := NextId(DecisionIds(reassignmentLogs));
      var row := DecisionRow(id, eventId, fromSpaceId, toSpaceId, reason);
      IncreasingAppendNext(DecisionIds(reassignmentLogs));
      assert DecisionIds(reassignmentLogs + [row]) == DecisionIds(reassignmentLogs) + [id];
      reassignmentLogs := reassignmentLogs + [row];
    }

    /** `INSERT INTO accuracy_metrics (space_id, prediction_id, actual_count, error_margin)`. */
    method InsertAccuracy(spaceId: int, predictionId: int, actualCount: int, errorMargin: int) returns (id: int)
      requires Valid()
      modifies this
      ensures Valid()
      ensures id == NextId(AccuracyIds(old(accuracyMetrics)))
      ensures accuracyMetrics == old(accuracyMetrics) + [AccuracyRow(id, spaceId, predictionId, actualCount, errorMargin)]
      ensures spaces == old(spaces) && occupancyLogs == old(occupancyLogs) && predictions == old(predictions)
      ensures events == old(events) && reassignmentLogs == old(reassignmentLogs)
    {
      id := NextId(AccuracyIds(accuracyMetrics));
      var row := AccuracyRow(id, spaceId, predictionId, actualCount, errorMargin);
      IncreasingAppendNext(AccuracyIds(accuracyMetrics));
      assert AccuracyIds(accuracyMetrics + [row]) == AccuracyIds(accuracyMetrics) + [id];
      accuracyMetrics := accuracyMetrics + [row];
    }

    /** `UPDATE events SET space_id = ? WHERE id = ?`. */
    method UpdateEventSpace(eventId: int, toSpaceId: int)
      requires Valid()
      modifies this
      ensures Valid()
      ensures events == SetSpace(old(events), eventId, toSpaceId)
      ensures spaces == old(spaces) && occupancyLogs == old(occupancyLogs) && predictions == old(predictions)
      ensures reassignmentLogs == old(reassignmentLogs) && accuracyMetrics == old(accuracyMetrics)
    {
      var moved := SetSpace(events, eventId, toSpaceId);
      assert EventIds(moved) == EventIds(events);
      events := moved;
    }
  }
}
