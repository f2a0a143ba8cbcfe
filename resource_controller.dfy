/**
 * The decision engine of backend/controllers/resourceController.js. An
 * evaluation looks the event up together with its space, predicts the
 * space's occupancy at the event's start hour and takes one of three
 * decisions: SAFE (no conflict), NO_ACTION (conflict, but no other space
 * qualifies) or REASSIGNED (the event moves to the least utilised
 * alternative). Each decision appends exactly one audit row; only
 * REASSIGNED changes the event. A manual reassignment moves an event to a
 * given space and records the stated reason.
 */
module ResourceController {
  import opened Common
  import opened Tables
  import opened CampusStore
  import opened PredictionService
  import opened ResourceService

  /** An event joined with its space (`events e JOIN spaces s ON e.space_id = s.id`). */
  datatype Booking = Booking(event: Event, space: Space)

  /** The answer of `POST /api/resource/evaluate`, with the ids each decision concerns. */
  datatype EvalResponse =
    | MissingEventId                                        // 400
    | EventNotFound                                         // 404
    | Safe(eventId: int, spaceId: int, spaceName: string, utilization: int)
    | NoAction(eventId: int, spaceId: int)
    | Reassigned(eventId: int, fromSpaceId: int, fromName: string, toSpaceId: int, toName: string,
                 utilization: int, altUtilization: int)

  /** The answer of `POST /api/resource/reassign`. */
  datatype ReassignResponse =
    | ReassignNotFound                                      // 404
    | ReassignDone(eventId: int, fromSpaceId: int, toSpaceId: int, reason: string)

  /** `!event_id`: an absent id, or the number 0. */
  predicate Falsy(eventId: Option<int>)
  {
    eventId.None? || eventId.value == 0
  }

  /**
   * `db.get` of the join `WHERE e.id = ?`: the first event with that id
   * whose space exists, together with that space.
   */
  function JoinEvent(spaces: seq<Space>, events: seq<Event>, eventId: int): (r: Option<Booking>)
    ensures r.None? <==> forall i :: 0 <= i < |events| && events[i].id == eventId ==> FindSpace(spaces, events[i].spaceId).None?
    ensures r.Some? ==> r.value.event in events && r.value.event.id == eventId
    ensures r.Some? ==> r.value.space in spaces && r.value.space.id == r.value.event.spaceId
    ensures r.Some? ==> r.value.space == FindSpace(spaces, r.value.event.spaceId).value
  {
    match First(events, (e: Event) => e.id == eventId && FindSpace(spaces, e.spaceId).Some?)
    case None => None
    case Some(e) => Some(Booking(e, FindSpace(spaces, e.spaceId).value))
  }

  /** `((predicted / capacity) * 100).toFixed(0)`: the utilisation in whole per cent. */
  function UtilizationPercent(predictedCount: int, capacity: int): (r: int)
    requires 0 < capacity
    ensures var exact := (predictedCount as real / capacity as real) * 100.0;
      r as real - 0.5 <= exact <= r as real + 0.5
  {
    ToFixed0((predictedCount as real / capacity as real) * 100.0)
  }

  /**
   * The rounded percentage agrees with the conflict test: at most 85 without
   * a conflict, at least 85 with one, and within 0..100 for a prediction
   * between 0 and the capacity.
   */
  lemma UtilizationBounds(predictedCount: int, capacity: int)
    requires 0 < capacity
    ensures !CheckConflict(predictedCount, capacity) ==> UtilizationPercent(predictedCount, capacity) <= 85
    ensures CheckConflict(predictedCount, capacity) ==> 85 <= UtilizationPercent(predictedCount, capacity)
    ensures 0 <= predictedCount <= capacity ==> 0 <= UtilizationPercent(predictedCount, capacity) <= 100
  {
    var x := (predictedCount as real / capacity as real) * 100.0;
    if 0 <= predictedCount <= capacity {
      var d := predictedCount as real / capacity as real - 1.0;
      assert d * capacity as real == (predictedCount - capacity) as real;
      ProductSign(d, capacity as real);
      assert x <= 100.0;
      assert 0.0 <= predictedCount as real / capacity as real;
    }
  }

  /**
   * What `evaluateResource` answers for the store as it is before the call:
   * a falsy id is rejected, an event that does not join its space is not
   * found, and otherwise the SAFE / NO_ACTION / REASSIGNED branch is taken
   * on the predicted occupancy of the event's space at its start hour.
   */
  function Evaluate(spaces: seq<Space>, logs: seq<OccupancyLog>, events: seq<Event>, eventId: Option<int>): (r: EvalResponse)
    requires PositiveCapacities(spaces)
    ensures r == MissingEventId <==> Falsy(eventId)
    ensures r == EventNotFound <==> !Falsy(eventId) && JoinEvent(spaces, events, eventId.value).None?
  {
    if Falsy(eventId) then MissingEventId
    else match JoinEvent(spaces, events, eventId.value)
      case None => EventNotFound
      case Some(Booking(ev, space)) =>
        var predicted := PredictionFor(spaces, logs, space, ev.startHour).predictedCount;
        var utilization := UtilizationPercent(predicted, space.capacity);
        if !CheckConflict(predicted, space.capacity) then
          Safe(ev.id, ev.spaceId, space.name, utilization)
        else match AlternativeSpace(spaces, logs, ev.spaceId, space.capacity, ev.startHour)
          case None => NoAction(ev.id, ev.spaceId)
          case Some(alt) =>
            var altPredicted := PredictionFor(spaces, logs, alt, ev.startHour).predictedCount;
            Reassigned(eventId.value, ev.spaceId, space.name, alt.id, alt.name,
                       utilization, UtilizationPercent(altPredicted, alt.capacity))
  }

  /** The predicted count of a booked space at the event's start hour. */
  function BookedPrediction(spaces: seq<Space>, logs: seq<OccupancyLog>, b: Booking): int
    requires b.space in spaces
  {
    PredictionFor(spaces, logs, b.space, b.event.startHour).predictedCount
  }

  /**
   * The three decisions partition the found events: SAFE exactly without a
   * conflict, NO_ACTION exactly with a conflict and no candidate space,
   * REASSIGNED exactly with a conflict and some candidate; each concerns
   * the event that was asked for and the space it is booked in.
   */
  lemma DecisionBranches(spaces: seq<Space>, logs: seq<OccupancyLog>, events: seq<Event>, eventId: int)
    requires PositiveCapacities(spaces)
    requires eventId != 0 && JoinEvent(spaces, events, eventId).Some?
    ensures var b := JoinEvent(spaces, events, eventId).value;
      var r := Evaluate(spaces, logs, events, Some(eventId));
      var conflict := CheckConflict(BookedPrediction(spaces, logs, b), b.space.capacity);
      && (r.Safe? <==> !conflict)
      && (r.NoAction? <==> conflict && Candidates(spaces, b.event.spaceId, b.space.capacity) == [])
      && (r.Reassigned? <==> conflict && Candidates(spaces, b.event.spaceId, b.space.capacity) != [])
    ensures var b := JoinEvent(spaces, events, eventId).value;
      var r := Evaluate(spaces, logs, events, Some(eventId));
      && (r.Safe? || r.NoAction? || r.Reassigned?) && r.eventId == eventId == b.event.id
      && (r.Safe? ==> r.spaceId == b.event.spaceId && r.spaceName == b.space.name)
      && (r.NoAction? ==> r.spaceId == b.event.spaceId)
      && (r.Reassigned? ==> r.fromSpaceId == b.event.spaceId && r.fromName == b.space.name)
  {
  }

  /**
   * A SAFE answer reports at most 85 per cent and a REASSIGNED one at least
   * 85; the new space is another one, at least as large as the old, and no
   * candidate is predicted less utilised (ties go to the earliest candidate).
   */
  lemma ReassignmentTarget(spaces: seq<Space>, logs: seq<OccupancyLog>, events: seq<Event>, eventId: Option<int>)
    requires PositiveCapacities(spaces)
    ensures var r := Evaluate(spaces, logs, events, eventId);
      r.Safe? ==> r.utilization <= 85 && r.spaceId == JoinEvent(spaces, events, eventId.value).value.event.spaceId
    ensures var r := Evaluate(spaces, logs, events, eventId);
      r.Reassigned? ==> 85 <= r.utilization && r.toSpaceId != r.fromSpaceId
    ensures var r := Evaluate(spaces, logs, events, eventId);
      r.Reassigned? ==>
        var b := JoinEvent(spaces, events, eventId.value).value;
        var alt := AlternativeSpace(spaces, logs, b.event.spaceId, b.space.capacity, b.event.startHour).value;
        && r.fromSpaceId == b.event.spaceId && alt.id == r.toSpaceId
        && alt in spaces && b.space.capacity <= alt.capacity
        && forall c :: c in Candidates(spaces, b.event.spaceId, b.space.capacity) ==>
             Utilization(spaces, logs, alt, b.event.startHour) <= Utilization(spaces, logs, c, b.event.startHour)
  {
    if !Falsy(eventId) && JoinEvent(spaces, events, eventId.value).Some? {
      var b := JoinEvent(spaces, events, eventId.value).value;
      UtilizationBounds(BookedPrediction(spaces, logs, b), b.space.capacity);
      LeastUtilizedAlternative(spaces, logs, b.event.spaceId, b.space.capacity, b.event.startHour);
    }
  }

  /**
   * The percentage a SAFE or REASSIGNED answer reports (and the audit
   * reason embeds) is the booked space's predicted count over its capacity,
   * times 100, as toFixed(0) rounds it.
   */
  lemma ReportedUtilization(spaces: seq<Space>, logs: seq<OccupancyLog>, events: seq<Event>, eventId: Option<int>)
    requires PositiveCapacities(spaces)
    ensures var r := Evaluate(spaces, logs, events, eventId);
      (r.Safe? || r.Reassigned?) ==>
        var b := JoinEvent(spaces, events, eventId.value).value;
        r.utilization == UtilizationPercent(BookedPrediction(spaces, logs, b), b.space.capacity)
  {
  }

  /**
   * The percentage a REASSIGNED answer reports for the new space is that
   * space's predicted count at the event's start hour over its capacity,
   * times 100, as toFixed(0) rounds it.
   */
  lemma AlternativeUtilization(spaces: seq<Space>, logs: seq<OccupancyLog>, events: seq<Event>, eventId: Option<int>)
    requires PositiveCapacities(spaces)
    ensures var r := Evaluate(spaces, logs, events, eventId);
      r.Reassigned? ==>
        var b := JoinEvent(spaces, events, eventId.value).value;
        var alt := AlternativeSpace(spaces, logs, b.event.spaceId, b.space.capacity, b.event.startHour).value;
        alt in spaces && 0 < alt.capacity &&
        r.altUtilization == UtilizationPercent(PredictionFor(spaces, logs, alt, b.event.startHour).predictedCount, alt.capacity)
  {
    if !Falsy(eventId) && JoinEvent(spaces, events, eventId.value).Some? {
      var b := JoinEvent(spaces, events, eventId.value).value;
      LeastUtilizedAlternative(spaces, logs, b.event.spaceId, b.space.capacity, b.event.startHour);
    }
  }

  /** The audit row a response is logged with (`logDecision`), if it is a decision. */
  function Audit(r: EvalResponse, id: int): (rows: seq<DecisionRow>)
    ensures |rows| == (if r.MissingEventId? || r.EventNotFound? then 0 else 1)
    ensures r.Safe? ==> rows == [DecisionRow(id, r.eventId, r.spaceId, r.spaceId, SafeWithin(r.utilization))]
    ensures r.NoAction? ==> rows == [DecisionRow(id, r.eventId, r.spaceId, r.spaceId, NoSuitableAlternative)]
    ensures r.Reassigned? ==> rows == [DecisionRow(id, r.eventId, r.fromSpaceId, r.toSpaceId, PredictedOverload(r.utilization))]
  {
    match r
    case MissingEventId => []
    case EventNotFound => []
    case Safe(e, s, _, u) => [DecisionRow(id, e, s, s, SafeWithin(u))]
    case NoAction(e, s) => [DecisionRow(id, e, s, s, NoSuitableAlternative)]
    case Reassigned(e, from, _, to, _, u, _) => [DecisionRow(id, e, from, to, PredictedOverload(u))]
  }

  /**
   * The audit row of a decision names the requested event and the space it
   * is booked in; it stays in that space for SAFE and NO_ACTION and goes to
   * the chosen alternative for REASSIGNED.
   */
  lemma AuditOfRequest(spaces: seq<Space>, logs: seq<OccupancyLog>, events: seq<Event>, eventId: int, id: int)
    requires PositiveCapacities(spaces)
    requires eventId != 0 && JoinEvent(spaces, events, eventId).Some?
    ensures var b := JoinEvent(spaces, events, eventId).value;
      var r := Evaluate(spaces, logs, events, Some(eventId));
      var rows := Audit(r, id);
      && |rows| == 1 && rows[0].id == id && rows[0].eventId == eventId && rows[0].fromSpaceId == b.event.spaceId
      && (!r.Reassigned? ==> rows[0].toSpaceId == b.event.spaceId)
      && (r.Reassigned? ==> rows[0].toSpaceId == AlternativeSpace(spaces, logs, b.event.spaceId, b.space.capacity, b.event.startHour).value.id)
  {
    DecisionBranches(spaces, logs, events, eventId);
    ReassignmentTarget(spaces, logs, events, Some(eventId));
  }

  /**
   * `evaluateResource`: answers as Evaluate does; a decision appends its one
   * audit row with the next id, REASSIGNED moves the event (atomically with
   * the audit row) and nothing else in the store changes.
   */
  method EvaluateResource(db: Database, eventId: Option<int>) returns (r: EvalResponse)
    requires db.Valid()
    modifies db
    ensures db.Valid()
    ensures r == Evaluate(old(db.spaces), old(db.occupancyLogs), old(db.events), eventId)
    ensures (r.Safe? || r.NoAction? || r.Reassigned?) ==> eventId == Some(r.eventId)
    ensures db.reassignmentLogs == old(db.reassignmentLogs) + Audit(r, NextId(DecisionIds(old(db.reassignmentLogs))))
    ensures db.events == if r.Reassigned? then SetSpace(old(db.events), r.eventId, r.toSpaceId) else old(db.events)
    ensures db.spaces == old(db.spaces) && db.occupancyLogs == old(db.occupancyLogs)
    ensures db.predictions == old(db.predictions) && db.accuracyMetrics == old(db.accuracyMetrics)
  {
    if eventId.None? || eventId.value == 0 {
      return MissingEventId;
    }
    var booking := JoinEvent(db.spaces, db.events, eventId.value);
    if booking.None? {
      return EventNotFound;
    }
    var event, space := booking.value.event, booking.value.space;
    var spaces, logs := db.spaces, db.occupancyLogs;
    ghost var expected := Evaluate(spaces, logs, db.events, eventId);
    var prediction := PredictionFor(spaces, logs, space, event.startHour);
    var utilization := UtilizationPercent(prediction.predictedCount, space.capacity);
    if !CheckConflict(prediction.predictedCount, space.capacity) {
      assert expected == Safe(event.id, event.spaceId, space.name, utilization);
      var logId := db.InsertDecision(event.id, event.spaceId, event.spaceId, SafeWithin(utilization));
      return Safe(event.id, event.spaceId, space.name, utilization);
    }
    var alternative := FindAlternativeSpace(spaces, logs, event.spaceId, space.capacity, event.startHour);
    if alternative.None? {
      assert expected == NoAction(event.id, event.spaceId);
      var logId := db.InsertDecision(event.id, event.spaceId, event.spaceId, NoSuitableAlternative);
      return NoAction(event.id, event.spaceId);
    }
    var alt := alternative.value;
    var altPrediction := PredictionFor(spaces, logs, alt, event.startHour);
    var altUtil := UtilizationPercent(altPrediction.predictedCount, alt.capacity);
    assert expected == Reassigned(eventId.value, event.spaceId, space.name, alt.id, alt.name, utilization, altUtil);
    db.UpdateEventSpace(eventId.value, alt.id);
    var logId := db.InsertDecision(eventId.value, event.spaceId, alt.id, PredictedOverload(utilization));
    r := Reassigned(eventId.value, event.spaceId, space.name, alt.id, alt.name, utilization, altUtil);
  }

  /**
   * What `reassignResource` answers: not found when no event has the id,
   * otherwise a move from the event's current space to the given one.
   */
  function ManualReassign(events: seq<Event>, eventId: Option<int>, toSpaceId: int, reason: string): (r: ReassignResponse)
    ensures r.ReassignNotFound? <==> eventId.None? || FindEvent(events, eventId.value).None?
    ensures r.ReassignDone? ==> r.eventId == eventId.value && r.toSpaceId == toSpaceId && r.reason == reason
    ensures r.ReassignDone? ==> exists i :: 0 <= i < |events| && events[i].id == r.eventId && events[i].spaceId == r.fromSpaceId
  {
    if eventId.None? then ReassignNotFound
    else match FindEvent(events, eventId.value)
      case None => ReassignNotFound
      case Some(ev) => ReassignDone(eventId.value, ev.spaceId, toSpaceId, reason)
  }

  /**
   * `reassignResource`: on an unknown event nothing is written; otherwise,
   * in one step, every event with the id moves to the given space and one
   * audit row records the previous space and the stated reason.
   */
  method ReassignResource(db: Database, eventId: Option<int>, toSpaceId: int, reason: string) returns (r: ReassignResponse)
    requires db.Valid()
    modifies db
    ensures db.Valid()
    ensures r == ManualReassign(old(db.events), eventId, toSpaceId, reason)
    ensures r.ReassignNotFound? ==> db.events == old(db.events) && db.reassignmentLogs == old(db.reassignmentLogs)
    ensures r.ReassignDone? ==> db.events == SetSpace(old(db.events), r.eventId, toSpaceId)
    ensures r.ReassignDone? ==>
      db.reassignmentLogs == old(db.reassignmentLogs) +
        [DecisionRow(NextId(DecisionIds(old(db.reassignmentLogs))), r.eventId, r.fromSpaceId, toSpaceId, Stated(reason))]
    ensures db.spaces == old(db.spaces) && db.occupancyLogs == old(db.occupancyLogs)
    ensures db.predictions == old(db.predictions) && db.accuracyMetrics == old(db.accuracyMetrics)
  {
    if eventId.None? {
      return ReassignNotFound;
    }
    var event := FindEvent(db.events, eventId.value);
    if event.None? {
      return ReassignNotFound;
    }
    var fromSpaceId := event.value.spaceId;
    db.UpdateEventSpace(eventId.value, toSpaceId);
    var logId := db.InsertDecision(eventId.value, fromSpaceId, toSpaceId, Stated(reason));
    r := ReassignDone(eventId.value, fromSpaceId, toSpaceId, reason);
  }

  /**
   * With distinct event ids, a manual reassignment moves exactly the named
   * event: it ends in the given space and every other event is unchanged.
   */
  lemma ManualReassignMovesOneEvent(events: seq<Event>, eventId: int, toSpaceId: int, reason: string)
    requires Increasing(EventIds(events))
    ensures var r := ManualReassign(events, Some(eventId), toSpaceId, reason);
      r.ReassignDone? ==>
        var moved := SetSpace(events, eventId, toSpaceId);
        && (exists k :: 0 <= k < |events| && events[k].id == eventId && moved[k] == events[k].(spaceId := toSpaceId)
              && forall i :: 0 <= i < |events| && i != k ==> moved[i] == events[i])
  {
    var r := ManualReassign(events, Some(eventId), toSpaceId, reason);
    if r.ReassignDone? {
      DistinctEventIds(events);
      var k :| 0 <= k < |events| && events[k].id == eventId && events[k].spaceId == r.fromSpaceId;
    }
  }

  /** Increasing ids are distinct: two positions of the events table hold different ids. */
  lemma DistinctEventIds(events: seq<Event>)
    requires Increasing(EventIds(events))
    ensures forall i, k :: 0 <= i < |events| && 0 <= k < |events| && i != k ==> events[i].id != events[k].id
  {
    var ids := EventIds(events);
    forall i, k | 0 <= i < |events| && 0 <= k < |events| && i != k
      ensures events[i].id != events[k].id
    {
      assert ids[i] == events[i].id && ids[k] == events[k].id;
      if i < k { assert ids[i] < ids[k]; } else { assert ids[k] < ids[i]; }
    }
  }
}
