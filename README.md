# PulseCampus decision engine — a Dafny model

PulseCampus watches how full the rooms of a campus are and moves events
out of rooms that are predicted to be overcrowded. This project models
that engine and proves properties of it:

- **the occupancy predictor** (`predictOccupancy`). It takes the mean of a
  space's five newest occupancy counts, or one fifth of its capacity when
  there are none. It scales that by an hour-of-day multiplier, rounds it
  with `Math.round` and caps it at the capacity. The confidence is 0.85 or
  0.6. The batch job (`updateAllPredictions`) stores one prediction row
  per space;
- **the conflict detector and the alternative-space selector**
  (`checkConflict`, `findAlternativeSpace`);
- **the decision engine** (`evaluateResource` with `logDecision`,
  `reassignResource`). It gives a one-shot SAFE / NO_ACTION / REASSIGNED
  answer, moves the event and writes exactly one audit row per decision;
- **prediction feedback** (`evaluateFeedback`, `getMetrics`). It computes
  the absolute error, a two-decimal accuracy score, and the per-space mean
  error;
- **the sensing controller** (`updateOccupancy`, `saveLog`,
  `getCurrentOccupancy`, `getHeatmapData`, `getPredictions`). It appends
  logs, selects the newest reading of each space and predicts per space;
- **the in-memory table store** `JsonDb` (`run`, `get`, `all`, `exec`).

The controllers and services are modelled over the relational store
their SQL addresses. That store is the class `CampusStore.Database`, with
one sequence of typed rows per table. An insert gives a row the next id
(the greatest id plus one, or 1 on an empty table). The class invariant
`Valid` says that ids increase along every table and that capacities are
positive. `JsonStore.JsonDb` models the mock store of
backend/utils/jsonDb.js on its own: a map from table name to a sequence
of JSON-like records.

JavaScript numbers are modelled as exact rationals. `Math.round(x)` is
`floor(x + 1/2)`. `toFixed(0)` rounds halves away from zero.
`parseFloat(x.toFixed(2))` is that rounding at hundredths
(`Common.ToFixed2`). The hour of a target time is an input between 0 and
23. Request bodies are `Option`s (absent is `None`). HTTP answers are
result datatypes that carry the tag and the numbers of each message, not
its text.

Files:

| file | module | models |
|---|---|---|
| common.dfy | Common | Option/Result, Math.round, toFixed, sums |
| tables.dfy | Tables | first match, newest-by-id selection, next id |
| campus_store.dfy | CampusStore | the six tables, inserts, the event update |
| prediction_service.dfy | PredictionService | backend/services/predictionService.js |
| resource_service.dfy | ResourceService | services/resourceService.js |
| resource_controller.dfy | ResourceController | backend/controllers/resourceController.js |
| feedback_controller.dfy | FeedbackController | controllers/feedbackController.js |
| pulse_controller.dfy | PulseController | backend/controllers/pulseController.js |
| json_db.dfy | JsonStore | backend/utils/jsonDb.js |

## Model

| member | source | states |
|---|---|---|
| Common.Round | backend/services/predictionService.js:49 | Math.round: the integer within half of x, a half going up |
| Common.ToFixed0 | backend/controllers/resourceController.js:73 | toFixed(0): the integer within half of x, a half going away from zero (non-negative for non-negative x) |
| Common.ToFixed2 | backend/controllers/pulseController.js:67 | parseFloat(toFixed(2)): within 0.005 of x, a whole number of hundredths, and in [0, 1] for x in [0, 1] |
| Common.Mean | controllers/feedbackController.js:47 | AVG over a positive count: times the count it gives back the total, and it is non-negative for a non-negative total |
| Tables.NextId | backend/utils/jsonDb.js:67 | the id of an insert is greater than every existing id; it is 1 on an empty table and otherwise the greatest id plus one |
| Tables.IncreasingAppendNext | backend/utils/jsonDb.js:67 | appending a row with the next id keeps a table's ids strictly increasing, so ids stay distinct |
| Tables.LatestWhere | backend/controllers/pulseController.js:61-64 | the selected row is kept by the filter and has the greatest id among the kept rows; there is none exactly when no row is kept |
| CampusStore.Database.InsertOccupancyLog | backend/controllers/pulseController.js:40-42 | appends exactly one log row with the next id; the other tables are unchanged; the invariant holds |
| CampusStore.Database.InsertPrediction | backend/services/predictionService.js:78-81 | appends exactly one prediction row with the next id; nothing else changes |
| CampusStore.Database.InsertDecision | backend/controllers/resourceController.js:14-19 | appends exactly one audit row with the next id; nothing else changes |
| CampusStore.Database.InsertAccuracy | controllers/feedbackController.js:27-29 | appends exactly one accuracy row with the next id; nothing else changes |
| CampusStore.Database.UpdateEventSpace | backend/controllers/resourceController.js:121-124 | the events table becomes SetSpace of the old one; the other tables and the invariant are kept |
| CampusStore.SetSpace | backend/controllers/resourceController.js:121-124 | every event with the id gets the new space; every other event is unchanged; the length is unchanged |
| CampusStore.FindSpaceDistinct | backend/services/predictionService.js:22 | with distinct space ids, a lookup by the id of a table space finds that very space |
| PredictionService.Multiplier | backend/services/predictionService.js:42-47 | the factor is above 1 exactly for hours 9–11 and 18–20, below 1 exactly for hours ≤ 6 and ≥ 23, 1 otherwise, and lies in [0.5, 1.2] |
| PredictionService.RecentCounts | backend/services/predictionService.js:26-28 | at most five counts, as many as the space has logs up to five; the i-th is the count of the space's (i+1)-th newest log |
| PredictionService.BaseEstimate | backend/services/predictionService.js:32-38 | with counts, the estimate times their number equals their sum (the mean); without counts, five times the estimate is the capacity |
| PredictionService.Estimate | backend/services/predictionService.js:49-52 | the predicted count never exceeds the capacity and is non-negative for a non-negative capacity and counts; the confidence is 0.85 exactly when more than 3 counts were used, else 0.6 |
| PredictionService.PredictOccupancy | backend/services/predictionService.js:19-62 | fails exactly when no space has the id; otherwise the prediction is at most that space's capacity, non-negative when capacities are positive and every logged count is non-negative, and its confidence follows the number of recent counts |
| PredictionService.EstimateInIntegers | backend/services/predictionService.js:32-49 | the predicted count equals an integer formula: min(capacity, (2·sum·tenths + 10n) div 20n), or min(capacity, (2·capacity·tenths + 50) div 100) on a cold start |
| PredictionService.MorningPeakIsCapped | backend/services/predictionService.js:34-49 | capacity 100, counts 90, 88, 92, 85, 91 at 10:00 predicts 100 with confidence 0.85 |
| PredictionService.ColdStartOffPeak | backend/services/predictionService.js:37-49 | capacity 200, no logs, at 02:00 predicts 20 with confidence 0.6 |
| PredictionService.EveningPeakRoundsHalfUp | backend/services/predictionService.js:32-52 | capacity 100, counts 40 and 50 at 19:00: the evening multiplier 1.1 takes the mean 45 to 49.5, which rounds up to 50, with confidence 0.6 |
| PredictionService.StorePrediction | backend/services/predictionService.js:76-81 | appends exactly one row, the prediction for the given space at the target time; the store invariant and the other tables are kept |
| PredictionService.UpdateAllPredictions | backend/services/predictionService.js:67-89 | appends exactly one prediction row per space, in space order, each with that space's predicted count, confidence and the target time; the earlier rows and the other tables are unchanged |
| ResourceService.CheckConflict | services/resourceService.js:13-16 | for a positive capacity, the percentage test is the integer comparison 100·predicted > 85·capacity |
| ResourceService.ConflictThreshold | services/resourceService.js:13-16 | for a positive capacity, a conflict holds exactly when 100·predicted > 85·capacity; exactly 85% is not a conflict |
| ResourceService.Candidates | services/resourceService.js:24-26 | a space is a candidate exactly when it is in the table, its id differs from the original and its capacity is at least the required one |
| ResourceService.Rank | services/resourceService.js:33-37 | one entry per candidate, in order, pairing it with predicted count / capacity |
| ResourceService.SortByUtil | services/resourceService.js:40 | the result is a permutation of the input, sorted by ascending utilisation |
| ResourceService.SortedHead | services/resourceService.js:40-42 | the head of the stable sort is the first least-utilised element of the input |
| ResourceService.AlternativeSpace | services/resourceService.js:29-42 | there is no alternative exactly when there is no candidate; an alternative is a candidate |
| ResourceService.LeastUtilizedAlternative | services/resourceService.js:24-42 | the alternative is another space of the table that is large enough, and no candidate is less utilised |
| ResourceService.TiesGoToEarliest | services/resourceService.js:40-42 | ties go to the earliest candidate: every candidate utilised no more than the alternative comes at or after the alternative in query order |
| ResourceService.FindAlternativeSpace | services/resourceService.js:21-46 | the loop that predicts each candidate once, then sorts and takes the head, returns AlternativeSpace |
| ResourceController.JoinEvent | backend/controllers/resourceController.js:55-69 | the join finds nothing exactly when no event with the id is booked in an existing space; otherwise the event has the id and the space is the one it is booked in |
| ResourceController.UtilizationPercent | backend/controllers/resourceController.js:73 | the whole percentage is within half a point of predicted / capacity × 100 |
| ResourceController.UtilizationBounds | backend/controllers/resourceController.js:73-74 | the reported percentage is at most 85 without a conflict, at least 85 with one, and in [0, 100] when the prediction is within capacity |
| ResourceController.Evaluate | backend/controllers/resourceController.js:48-155 | the answer is "event_id required" exactly for a missing or zero id, and "not found" exactly when the join finds nothing |
| ResourceController.DecisionBranches | backend/controllers/resourceController.js:55-112 | for a joined event, SAFE exactly without a conflict, NO_ACTION exactly with a conflict and no candidate, REASSIGNED exactly with a conflict and some candidate; every decision carries the requested event id, and SAFE, NO_ACTION and the origin of REASSIGNED name the space the event is booked in |
| ResourceController.ReassignmentTarget | backend/controllers/resourceController.js:93-116 | SAFE reports at most 85% for the booked space; REASSIGNED reports at least 85% and moves from the booked space to another space that is at least as large and least utilised among the candidates |
| ResourceController.ReportedUtilization | backend/controllers/resourceController.js:71-88 | the percentage a SAFE or REASSIGNED answer reports is the booked space's predicted count at the event's start hour over that space's capacity, times 100, rounded as toFixed(0) |
| ResourceController.AlternativeUtilization | backend/controllers/resourceController.js:114-145 | the second percentage a REASSIGNED answer reports is the chosen space's own predicted count at the event's start hour over its capacity, times 100, rounded as toFixed(0); the chosen space is a positive-capacity space of the table |
| ResourceController.Audit | backend/controllers/resourceController.js:78-83 | no audit row for a rejected request; exactly one for each decision: from = to = the booked space for SAFE and NO_ACTION, from the booked space to the alternative for REASSIGNED |
| ResourceController.AuditOfRequest | backend/controllers/resourceController.js:78-112 | the one audit row of a decision names the requested event and its booked space as origin; the destination is the booked space for SAFE and NO_ACTION and the chosen alternative for REASSIGNED |
| ResourceController.EvaluateResource | backend/controllers/resourceController.js:48-155 | answers as Evaluate, and every decision carries the requested event id; appends exactly the Audit rows; moves the requested event only when REASSIGNED; nothing else changes |
| ResourceController.ManualReassign | backend/controllers/resourceController.js:158-198 | "not found" exactly when no event has the id; otherwise it reports that event's previous space, the target space and the reason |
| ResourceController.ReassignResource | backend/controllers/resourceController.js:158-198 | an unknown event writes nothing; otherwise the event moves to the target space and one audit row with the previous space and the given reason is appended |
| ResourceController.ManualReassignMovesOneEvent | backend/controllers/resourceController.js:174-177 | with distinct event ids, exactly the named event moves and every other event is unchanged |
| FeedbackController.LatestPrediction | controllers/feedbackController.js:18-22 | the space's prediction with the greatest id; none exactly when the space has no prediction |
| FeedbackController.AccuracyScore | controllers/feedbackController.js:25 | for a positive actual count the score is within 0.005 of 1 − abs(predicted − actual) / max(actual, predicted) and a whole number of hundredths; 1 when the actual count is not positive or equals the prediction; in [0, 1] for non-negative counts |
| FeedbackController.AccuracyFiftyOfSixty | controllers/feedbackController.js:25 | prediction 50 against actual 60 scores 0.83 |
| FeedbackController.Feedback | controllers/feedbackController.js:10-42 | rejected exactly when the space id or the count is missing; "no recent prediction" exactly when the space has none |
| FeedbackController.FeedbackScoresLatest | controllers/feedbackController.js:18-25 | a recorded feedback compares with the prediction of greatest id for the space; the error is the absolute difference, 0 exactly when the counts agree; the accuracy is that pair's AccuracyScore (1 − error / max, to two decimals) and in [0, 1] for non-negative counts |
| FeedbackController.EvaluateFeedback | controllers/feedbackController.js:10-42 | answers as Feedback; a recorded feedback appends exactly one accuracy row with the space, the prediction's id, the actual count and the error; otherwise nothing is written |
| FeedbackController.Errors | controllers/feedbackController.js:46-50 | the error margins of a space's accuracy rows; empty exactly when the space has none |
| FeedbackController.ErrorsAppend | controllers/feedbackController.js:46-50 | a new accuracy row adds its error to its own space's group only |
| FeedbackController.FeedbackAddsOneSample | controllers/feedbackController.js:27-29 | recording feedback raises that space's sample size by one and its error total by the new error; other spaces are unchanged |
| FeedbackController.Group | controllers/feedbackController.js:46-50 | a metric row carries the space's id and name; its sample size is the number of its accuracy rows (positive); mean × sample size = the error total |
| FeedbackController.Sampled | controllers/feedbackController.js:48-50 | a space is grouped exactly when it is in the table and has accuracy rows |
| FeedbackController.Metrics | controllers/feedbackController.js:45-57 | one row per grouped space, each the Group of that space |
| FeedbackController.MetricsAreGroups | controllers/feedbackController.js:45-57 | every space with accuracy rows has its group among the metrics; every metric is such a group |
| FeedbackController.MetricsNonNegative | controllers/feedbackController.js:47 | when no recorded error is negative, no reported mean error is negative |
| FeedbackController.GroupMean | controllers/feedbackController.js:47 | the mean error of a group is non-negative when all error margins are |
| PulseController.CountToLog | backend/controllers/pulseController.js:20-37 | a missing space id is rejected; in simulation mode an absent count of an unknown space is rejected; otherwise the count is the reported one, the generated one in simulation mode, or 0 |
| PulseController.SaveLog | backend/controllers/pulseController.js:39-48 | appends exactly one log row with the next id, the space and the count, and answers with it |
| PulseController.UpdateOccupancy | backend/controllers/pulseController.js:20-37 | a rejected update writes nothing; an accepted one appends exactly one log row for the space with CountToLog's count |
| PulseController.LatestCount | backend/controllers/pulseController.js:59-65 | 0 for a space without logs; otherwise the count of one of the space's logs whose id is the greatest among them |
| PulseController.SavedLogIsLatest | backend/controllers/pulseController.js:39-66 | a log that was just saved is its space's newest reading |
| PulseController.LatestCountIsNewest | backend/controllers/pulseController.js:61-66 | with increasing log ids, the reading the views report is the newest count the predictor reads, or 0 for a space without logs |
| PulseController.LatestCountOfLastLog | backend/controllers/pulseController.js:59-64 | with increasing log ids, the reading of a space that has logs is the count of its last log in table order |
| PulseController.LatestCountWithoutLogs | backend/controllers/pulseController.js:61-66 | a space without logs reads 0 |
| PulseController.OccupiedFraction | backend/controllers/pulseController.js:67 | the rounded utilisation is within 0.005 of count / capacity, and in [0, 1] when the count is within capacity |
| PulseController.CurrentOccupancy | backend/controllers/pulseController.js:51-81 | one entry per space, in table order, with its id, name, capacity, newest reading (or 0) and rounded utilisation |
| PulseController.Heatmap | backend/controllers/pulseController.js:84-110 | one entry per space, in table order, named after it |
| PulseController.HeatmapAgreesWithCurrent | backend/controllers/pulseController.js:92-105 | the heatmap uses the same reading as the current view; its percentage is the exact count / capacity × 100 and is within half a point of the rounded utilisation × 100 |
| PulseController.ConfidenceIsExact | backend/controllers/pulseController.js:127 | rounding the confidence to two decimals leaves 0.85 and 0.6 unchanged |
| PulseController.EntriesWithinCapacity | backend/controllers/pulseController.js:121-130 | every prediction entry has confidence 0.85 or 0.6; with distinct space ids, each entry's count is at most its space's capacity |
| PulseController.GetPredictions | backend/controllers/pulseController.js:113-136 | one entry per space, in order, with its id, predicted count, capacity, confidence (0.85 or 0.6) and the target time; with distinct space ids the count is within capacity |
| JsonStore.RecordIds | backend/utils/jsonDb.js:67 | the id column of a table whose records have numeric ids |
| JsonStore.NewRecord | backend/utils/jsonDb.js:71-78 | the new record's keys are exactly the id, the timestamp and the listed columns |
| JsonStore.BuildRecord | backend/utils/jsonDb.js:71-78 | the loop over the columns, then the timestamp fallback, builds exactly NewRecord |
| JsonStore.NewRecordHasId | backend/utils/jsonDb.js:71-78 | unless a listed column is named "id", the new record's id is numeric and equals the new id |
| JsonStore.NewRecordFields | backend/utils/jsonDb.js:71-78 | the new record holds the new id, the i-th listed column maps to params[i] (undefined past the end), its keys are the id, the timestamp and the columns, and its timestamp is the supplied one if truthy and the current time otherwise |
| JsonStore.InsertKeepsIdsDistinct | backend/utils/jsonDb.js:67-80 | appending a record with the next id keeps the ids of a table pairwise distinct |
| JsonStore.NewIdIsFresh | backend/utils/jsonDb.js:67 | the id of an insert is greater than every id in the table, and 1 on an empty table |
| JsonStore.JsonDb.constructor | backend/utils/jsonDb.js:5-30 | every one of the six tables holds its stored records, or none |
| JsonStore.JsonDb.All | backend/utils/jsonDb.js:37-43 | the whole named table unfiltered, and nothing for an unknown table |
| JsonStore.JsonDb.Get | backend/utils/jsonDb.js:46-57 | with "WHERE id = ?", the first record whose id equals params[0], and none exactly when no record matches; otherwise the first record, or none for an empty table |
| JsonStore.JsonDb.Run | backend/utils/jsonDb.js:60-85 | a non-INSERT, an unknown table or a missing column list fails and changes nothing; otherwise exactly one NewRecord with the next id is appended to that table, the other tables are unchanged, and the id is returned |
| JsonStore.JsonDb.Exec | backend/utils/jsonDb.js:88-96 | 'DELETE' or 'DROP' empties every table and keeps the table names; any other statement changes nothing |

## Left out

- HTTP plumbing: requests, responses and status codes are result datatypes. The async callback chains are straight-line code. The `err` branches that answer 500 (a failed query or COMMIT, or a rejected prediction) are not modelled.
- Transactions: BEGIN … COMMIT in `evaluateResource` and `reassignResource` is one atomic step. Neither transaction failure nor concurrent requests are modelled.
- Randomness: `generateOccupancy` (backend/utils/simulation.js) is not part of this model. The count it returns is the parameter `generated` of `PulseController.UpdateOccupancy`. `runSimulationStep` and the telemetry controller are left out.
- Time: `new Date()`, `Date.now()` and `getHours()` with its time zone are inputs. They are the target `hour` (0–23), an integer `predictionTime`, and the `now` string given to `JsonDb.Run`. Rows of the typed store carry no timestamps. "Newest by timestamp" is read as "later in table order", because rows are stamped as they are inserted.
- Floating point: numbers are exact rationals. IEEE rounding error in `toFixed`, in the multipliers and in the division by a capacity is not modelled.
- Reason and answer strings are tagged values (`CampusStore.Reason`, the response datatypes) carrying the numbers they embed, not formatted text.
- ResourceController.Evaluate: the JOIN and the `db.get` are modelled as the first event with the id that is booked in an existing space, joined to the first space with that id. What sqlite returns for duplicated ids is not modelled.
- PredictionService.PredictOccupancy: the "SELECT … ORDER BY timestamp DESC LIMIT 5" query is its result (the five newest counts). How the mock store ignores WHERE, ORDER BY and LIMIT is not folded into the services. Nor does the model show where the store as wired fails outright: `db.all(sql, cb)` with two arguments throws (in updateAllPredictions and getPredictions), `db.run` without a callback throws after its push (in logDecision), and `db.serialize` is missing and UPDATE is rejected, so REASSIGNED and the manual reassignment answer 500.
- ResourceService.SortByUtil: the in-place `Array.prototype.sort` of `spaceUtilization` is a stable insertion sort on a sequence. In-place update and aliasing of that array are not modelled.
- PulseController.GetPredictions: the bound "predicted count ≤ capacity" is stated only for tables with distinct space ids. With duplicated ids, `predictOccupancy` looks up the first space with the id, whose capacity may differ.
- FeedbackController.Metrics: the rows come in the order of the spaces table. SQL's GROUP BY gives no order. Accuracy rows of a space id that is not in the spaces table are dropped by the JOIN, and so by the model.
- Null columns: `to_space_id` and `reason` of a manual reassignment are always present. Non-numeric request values (`space_id`, `current_count`, `event_id` as strings, null or NaN) are not modelled; ids and counts are integers.
- JsonStore.JsonDb.Run: requires that the column list does not name `id`. In the source, such a column would overwrite the new id, and the next `Math.max` over ids could become NaN.
- JsonStore.JsonDb.Run: an INSERT into an unknown table throws a TypeError in the source (`table.length` of undefined). The model returns the error `UnknownTable` and changes nothing.
- JsonStore: the regular-expression parsing of the query text is not modelled. A statement arrives parsed: the table name, and the column list or its absence. `all`/`get` without a FROM clause (an error in the source) cannot be expressed.
- JsonStore: file persistence (`init`, `save`, the database directory) is not modelled. The constructor receives the stored tables, and a table without a file starts empty. Every stored record must have a numeric id. Records hold integers, strings, booleans, null and undefined, but no floats or nested objects.
- Code and prose differ on two points, and the model follows the code. The prediction is capped at the capacity only (`Math.min`), with no clamp at 0; it is non-negative only when the counts are. Ties between alternatives go to the earliest candidate in query order (stable sort), not to the lowest id.
