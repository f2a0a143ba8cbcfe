/**
 * Prediction feedback (controllers/feedbackController.js): a reported
 * actual count is compared with the space's most recent prediction, the
 * absolute error and a two-decimal accuracy score are computed, and one
 * accuracy row is appended; the metrics query averages the stored errors
 * per space.
 */
module FeedbackController {
  import opened Common
  import opened Tables
  import opened CampusStore

  /** The answer of `POST /api/feedback/evaluate`. */
  datatype FeedbackResponse =
    | FeedbackMissingField                                  // 400
    | NoRecentPrediction                                    // 404
    | FeedbackRecorded(spaceId: int, predictionId: int, predicted: int, actual: int, errorMargin: int, accuracy: real)

  /** One row of `GET /api/feedback/metrics`. */
  datatype MetricRow = MetricRow(spaceId: int, spaceName: string, avgError: real, sampleSize: nat)

  /**
   * `SELECT * FROM predictions WHERE space_id = ? ORDER BY id DESC LIMIT 1`:
   * the space's prediction with the greatest id.
   */
  function LatestPrediction(predictions: seq<PredictionRow>, spaceId: int): (r: Option<PredictionRow>)
    ensures r.None? <==> forall i :: 0 <= i < |predictions| ==> predictions[i].spaceId != spaceId
    ensures r.Some? ==> r.value in predictions && r.value.spaceId == spaceId
    ensures r.Some? ==> forall i :: 0 <= i < |predictions| && predictions[i].spaceId == spaceId ==> predictions[i].id <= r.value.id
  {
    LatestWhere(predictions, (p: PredictionRow) => p.spaceId == spaceId, (p: PredictionRow) => p.id)
  }

  /**
   * The accuracy score: 1 - error / max(actual, predicted), rounded to two
   * decimals, when the actual count is positive, and 1 otherwise.
   */
  function AccuracyScore(predicted: int, actual: int): (r: real)
    ensures actual <= 0 ==> r == 1.0
    ensures 0 <= predicted && 0 <= actual ==> 0.0 <= r <= 1.0
    ensures predicted == actual ==> r == 1.0
    ensures 0 < actual ==>
      var e := Abs(predicted - actual) as real / Max(actual, predicted) as real;
      1.0 - e - 0.005 <= r <= 1.0 - e + 0.005
    ensures Hundredths(r)
  {
    if 0 < actual then
      var e := Abs(predicted - actual);
      var m := Max(actual, predicted);
      var q := e as real / m as real;
      assert 0 <= predicted ==> 0.0 <= q <= 1.0 by {
        if 0 <= predicted { QuotientInUnit(e, m); }
      }
      assert predicted == actual ==> ToFixed2(1.0 - q) == 1.0 by {
        if predicted == actual {
          assert q == 0.0;
          assert ToFixed0(1.0 * 100.0) == 100;
        }
      }
      ToFixed2(1.0 - q)
    else 1.0
  }

  /** Predicted 50 against an actual 60: 1 - 10/60 = 0.8333..., reported as 0.83. */
  lemma AccuracyFiftyOfSixty()
    ensures AccuracyScore(50, 60) == 0.83
  {
    var x := (1.0 - 10.0 / 60.0) * 100.0;
    assert x + 0.5 == 503 as real / 6 as real;
    FloorOfQuotient(503, 6);
    assert ToFixed0(x) == 83;
  }

  /**
   * What `evaluateFeedback` answers: a missing space id or count is
   * rejected, a space without predictions has nothing to compare with, and
   * otherwise the newest prediction is scored against the actual count.
   */
  function Feedback(predictions: seq<PredictionRow>, spaceId: Option<int>, actualCount: Option<int>): (r: FeedbackResponse)
    ensures r.FeedbackMissingField? <==> spaceId.None? || actualCount.None?
    ensures r.NoRecentPrediction? <==> spaceId.Some? && actualCount.Some? && LatestPrediction(predictions, spaceId.value).None?
  {
    if spaceId.None? || actualCount.None? then FeedbackMissingField
    else match LatestPrediction(predictions, spaceId.value)
      case None => NoRecentPrediction
      case Some(prediction) =>
        var errorMargin := Abs(prediction.predictedCount - actualCount.value);
        var accuracy := AccuracyScore(prediction.predictedCount, actualCount.value);
        FeedbackRecorded(spaceId.value, prediction.id, prediction.predictedCount, actualCount.value, errorMargin, accuracy)
  }

  /**
   * A recorded feedback compares against the space's prediction with the
   * greatest id; its error is the absolute difference, zero exactly when
   * the counts agree, and its accuracy lies in [0, 1] for non-negative counts.
   */
  lemma FeedbackScoresLatest(predictions: seq<PredictionRow>, spaceId: Option<int>, actualCount: Option<int>)
    ensures var r := Feedback(predictions, spaceId, actualCount);
      r.FeedbackRecorded? ==>
        && r.spaceId == spaceId.value && r.actual == actualCount.value
        && (exists i :: 0 <= i < |predictions| && predictions[i].id == r.predictionId
              && predictions[i].spaceId == r.spaceId && predictions[i].predictedCount == r.predicted)
        && (forall i :: 0 <= i < |predictions| && predictions[i].spaceId == r.spaceId ==> predictions[i].id <= r.predictionId)
    ensures var r := Feedback(predictions, spaceId, actualCount);
      r.FeedbackRecorded? ==>
        && 0 <= r.errorMargin
        && (r.errorMargin == r.predicted - r.actual || r.errorMargin == r.actual - r.predicted)
        && (r.errorMargin == 0 <==> r.predicted == r.actual)
        && r.accuracy == AccuracyScore(r.predicted, r.actual)
        && (0 <= r.predicted && 0 <= r.actual ==> 0.0 <= r.accuracy <= 1.0)
  {
    var r := Feedback(predictions, spaceId, actualCount);
    if r.FeedbackRecorded? {
      var p := LatestPrediction(predictions, spaceId.value).value;
      var i :| 0 <= i < |predictions| && predictions[i] == p;
    }
  }

  /**
   * `evaluateFeedback`: answers as Feedback does; a recorded feedback
   * appends one accuracy row with the next id, the space, the prediction's
   * id, the actual count and the error; nothing else changes.
   */
  method EvaluateFeedback(db: Database, spaceId: Option<int>, actualCount: Option<int>) returns (r: FeedbackResponse)
    requires db.Valid()
    modifies db
    ensures db.Valid()
    ensures r == Feedback(old(db.predictions), spaceId, actualCount)
    ensures !r.FeedbackRecorded? ==> db.accuracyMetrics == old(db.accuracyMetrics)
    ensures r.FeedbackRecorded? ==>
      db.accuracyMetrics == old(db.accuracyMetrics) +
        [AccuracyRow(NextId(AccuracyIds(old(db.accuracyMetrics))), r.spaceId, r.predictionId, r.actual, r.errorMargin)]
    ensures db.spaces == old(db.spaces) && db.occupancyLogs == old(db.occupancyLogs) && db.predictions == old(db.predictions)
    ensures db.events == old(db.events) && db.reassignmentLogs == old(db.reassignmentLogs)
  {
    if spaceId.None? || actualCount.None? {
      return FeedbackMissingField;
    }
    var prediction := LatestPrediction(db.predictions, spaceId.value);
    if prediction.None? {
      return NoRecentPrediction;
    }
    var predicted, actual := prediction.value.predictedCount, actualCount.value;
    var errorMargin := Abs(predicted - actual);
    var accuracy := AccuracyScore(predicted, actual);
    var metricId := db.InsertAccuracy(spaceId.value, prediction.value.id, actual, errorMargin);
    r := FeedbackRecorded(spaceId.value, prediction.value.id, predicted, actual, errorMargin, accuracy);
  }

  /** The error margins recorded for one space, in table order. */
  function Errors(metrics: seq<AccuracyRow>, spaceId: int): (r: seq<int>)
    ensures |r| <= |metrics|
    ensures (forall i :: 0 <= i < |metrics| ==> metrics[i].spaceId != spaceId) <==> r == []
  {
    if metrics == [] then []
    else (if metrics[0].spaceId == spaceId then [metrics[0].errorMargin] else []) + Errors(metrics[1..], spaceId)
  }

  /** Appending an accuracy row adds its error to its own space's samples and to no other. */
  lemma {:induction false} ErrorsAppend(metrics: seq<AccuracyRow>, row: AccuracyRow, spaceId: int)
    ensures Errors(metrics + [row], spaceId) == Errors(metrics, spaceId) + (if row.spaceId == spaceId then [row.errorMargin] else [])
  {
    if metrics != [] {
      assert (metrics + [row])[1..] == metrics[1..] + [row];
      ErrorsAppend(metrics[1..], row, spaceId);
    }
  }

  /** The group of one space: AVG(error_margin) and COUNT(*) over its rows. */
  function Group(s: Space, metrics: seq<AccuracyRow>): (row: MetricRow)
    requires Errors(metrics, s.id) != []
    ensures row.spaceId == s.id && row.spaceName == s.name
    ensures row.sampleSize == |Errors(metrics, s.id)| && 0 < row.sampleSize
    ensures IsMean(row.avgError, row.sampleSize, Sum(Errors(metrics, s.id)))
  {
    var errors := Errors(metrics, s.id);
    MetricRow(s.id, s.name, Mean(Sum(errors), |errors|), |errors|)
  }

  /** The spaces that have at least one accuracy row, in table order (the groups the join produces). */
  function Sampled(spaces: seq<Space>, metrics: seq<AccuracyRow>): (r: seq<Space>)
    ensures forall s :: s in r <==> s in spaces && Errors(metrics, s.id) != []
  {
    if spaces == [] then []
    else
      var rest := Sampled(spaces[1..], metrics);
      assert forall s :: s in spaces <==> s == spaces[0] || s in spaces[1..];
      if Errors(metrics, spaces[0].id) != [] then [spaces[0]] + rest else rest
  }

  /**
   * `getMetrics`: one row per space that has accuracy rows, in the order of
   * the spaces table, with the mean error and the number of samples.
   */
  function Metrics(spaces: seq<Space>, metrics: seq<AccuracyRow>): (rows: seq<MetricRow>)
    ensures |rows| == |Sampled(spaces, metrics)|
    ensures forall i :: 0 <= i < |rows| ==> rows[i] == Group(Sampled(spaces, metrics)[i], metrics)
  {
    var groups := Sampled(spaces, metrics);
    seq(|groups|, i requires 0 <= i < |groups| => Group(groups[i], metrics))
  }

  /**
   * A space has a metrics row exactly when it has accuracy rows, and every
   * row is the group of such a space (the mean error and the sample count
   * Group states).
   */
  lemma MetricsAreGroups(spaces: seq<Space>, metrics: seq<AccuracyRow>)
    ensures forall s :: s in spaces && Errors(metrics, s.id) != [] ==> Group(s, metrics) in Metrics(spaces, metrics)
    ensures forall r :: r in Metrics(spaces, metrics) ==>
      exists s :: s in spaces && Errors(metrics, s.id) != [] && r == Group(s, metrics)
  {
    var rows := Metrics(spaces, metrics);
    var groups := Sampled(spaces, metrics);
    forall s | s in spaces && Errors(metrics, s.id) != []
      ensures Group(s, metrics) in rows
    {
      var i :| 0 <= i < |groups| && groups[i] == s;
      assert rows[i] == Group(s, metrics);
    }
    forall r | r in rows
      ensures exists s :: s in spaces && Errors(metrics, s.id) != [] && r == Group(s, metrics)
    {
      var i :| 0 <= i < |rows| && rows[i] == r;
      assert groups[i] in groups;
    }
  }

  /** With no negative recorded error, no reported mean error is negative. */
  lemma MetricsNonNegative(spaces: seq<Space>, metrics: seq<AccuracyRow>)
    requires forall i :: 0 <= i < |metrics| ==> 0 <= metrics[i].errorMargin
    ensures forall r :: r in Metrics(spaces, metrics) ==> 0.0 <= r.avgError
  {
    var rows := Metrics(spaces, metrics);
    var groups := Sampled(spaces, metrics);
    forall r | r in rows
      ensures 0.0 <= r.avgError
    {
      var i :| 0 <= i < |rows| && rows[i] == r;
      GroupMean(groups[i], metrics);
    }
  }

  /** A group's mean error is non-negative when every recorded error is. */
  lemma GroupMean(s: Space, metrics: seq<AccuracyRow>)
    requires Errors(metrics, s.id) != []
    requires forall i :: 0 <= i < |metrics| ==> 0 <= metrics[i].errorMargin
    ensures 0.0 <= Group(s, metrics).avgError
  {
    var g := Group(s, metrics);
    var errors := Errors(metrics, s.id);
    ErrorsNonNegative(metrics, s.id);
    assert 0 <= Sum(errors);
  }

  lemma {:induction false} ErrorsNonNegative(metrics: seq<AccuracyRow>, spaceId: int)
    requires forall i :: 0 <= i < |metrics| ==> 0 <= metrics[i].errorMargin
    ensures forall k :: 0 <= k < |Errors(metrics, spaceId)| ==> 0 <= Errors(metrics, spaceId)[k]
  {
    if metrics != [] {
      ErrorsNonNegative(metrics[1..], spaceId);
    }
  }

  /**
   * A recorded feedback adds one sample, its error, to the metrics of its
   * space, and leaves every other space's samples as they were.
   */
  lemma FeedbackAddsOneSample(metrics: seq<AccuracyRow>, row: AccuracyRow, spaceId: int)
    ensures spaceId == row.spaceId ==> |Errors(metrics + [row], spaceId)| == |Errors(metrics, spaceId)| + 1
    ensures spaceId == row.spaceId ==> Sum(Errors(metrics + [row], spaceId)) == Sum(Errors(metrics, spaceId)) + row.errorMargin
    ensures spaceId != row.spaceId ==> Errors(metrics + [row], spaceId) == Errors(metrics, spaceId)
  {
    ErrorsAppend(metrics, row, spaceId);
    if spaceId == row.spaceId {
      SumAppend(Errors(metrics, spaceId), row.errorMargin);
    }
  }
}
