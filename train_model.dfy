/**
 * Best-model selection (`train_and_display`): every registered classifier is
 * scored on ten seeded holdout splits, its scores are averaged, and the first
 * classifier with the highest average above zero is saved together with the
 * encoders and the replacement map.
 */
module TrainModel {
  import opened Wrappers
  import opened TrainCore
  import opened Series
  import opened Artifact

  /** The number of holdout runs per classifier; their seeds are 0..Runs-1. */
  const Runs: nat := 10
  /** The fraction of rows each split holds out for testing. */
  const TestSize: real := 0.2

  /** An entry of the `models` registry, in registry order. */
  datatype Candidate = Candidate(name: string, classifier: Classifier)

  /**
   * One holdout run, as the fit/predict/score calls report it: the accuracy of
   * the run and the (prediction, truth) pair of each test row.
   */
  datatype Holdout = Holdout(accuracy: real, outcomes: seq<(int, int)>)

  /** `(y_pred != y_test).sum()`: the number of test rows predicted wrongly. */
  function Misclassified(outcomes: seq<(int, int)>): (n: nat)
    ensures n <= |outcomes|
    ensures n == 0 <==> forall i :: 0 <= i < |outcomes| ==> outcomes[i].0 == outcomes[i].1
  {
    if outcomes == [] then 0
    else
      var rest := Misclassified(outcomes[1..]);
      assert forall i :: 0 < i < |outcomes| ==> outcomes[i] == outcomes[1..][i - 1];
      (if outcomes[0].0 != outcomes[0].1 then 1 else 0) + rest
  }

  /** The accuracies of the runs with seeds 0..runs-1, added up. */
  function AccuracySum(c: Classifier, evaluate: (Classifier, nat, real) -> Holdout, runs: nat): real
  {
    if runs == 0 then 0.0 else AccuracySum(c, evaluate, runs - 1) + evaluate(c, runs - 1, TestSize).accuracy
  }

  /** The misclassification counts of the runs with seeds 0..runs-1, added up. */
  function MissSum(c: Classifier, evaluate: (Classifier, nat, real) -> Holdout, runs: nat): nat
  {
    if runs == 0 then 0 else MissSum(c, evaluate, runs - 1) + Misclassified(evaluate(c, runs - 1, TestSize).outcomes)
  }

  /** `acc_sum / 10`. */
  function AverageAccuracy(c: Classifier, evaluate: (Classifier, nat, real) -> Holdout): real
  {
    AccuracySum(c, evaluate, Runs) / Runs as real
  }

  /** `int(miss_sum / 10)`: the sum is never negative, so truncation is floor division. */
  function AverageMisclassified(c: Classifier, evaluate: (Classifier, nat, real) -> Holdout): nat
  {
    MissSum(c, evaluate, Runs) / Runs
  }

  /** The averaged accuracy of every candidate, in registry order. */
  function Scores(registry: seq<Candidate>, evaluate: (Classifier, nat, real) -> Holdout): (scores: seq<real>)
    ensures |scores| == |registry|
    ensures forall j :: 0 <= j < |registry| ==> scores[j] == AverageAccuracy(registry[j].classifier, evaluate)
  {
    seq(|registry|, j requires 0 <= j < |registry| => AverageAccuracy(registry[j].classifier, evaluate))
  }

  /**
   * Candidate k is the one the strict-greater rule keeps: its average is above
   * zero, no candidate beats it, and every earlier one is strictly below it.
   */
  predicate FirstBest(scores: seq<real>, k: int)
  {
    && 0 <= k < |scores|
    && scores[k] > 0.0
    && (forall j :: 0 <= j < |scores| ==> scores[j] <= scores[k])
    && (forall j :: 0 <= j < k ==> scores[j] < scores[k])
  }

  /** The registry's keys. */
  function Names(registry: seq<Candidate>): (names: set<string>)
    ensures forall j :: 0 <= j < |registry| ==> registry[j].name in names
    ensures forall n :: n in names ==> exists j :: 0 <= j < |registry| && registry[j].name == n
  {
    if registry == [] then {}
    else
      var init := registry[..|registry| - 1];
      assert forall j :: 0 <= j < |init| ==> init[j] == registry[j];
      Names(init) + {registry[|registry| - 1].name}
  }

  /** The registry is a dict, so its keys are distinct. */
  predicate DistinctNames(registry: seq<Candidate>)
  {
    forall i, j :: 0 <= i < j < |registry| ==> registry[i].name != registry[j].name
  }

  /** `acc_dict` after the candidates of `registry` have been scored, in registry order. */
  function AccuracyTable(registry: seq<Candidate>, evaluate: (Classifier, nat, real) -> Holdout): map<string, real>
  {
    if registry == [] then map[]
    else
      var last := registry[|registry| - 1];
      AccuracyTable(registry[..|registry| - 1], evaluate)[last.name := AverageAccuracy(last.classifier, evaluate)]
  }

  /** `misclass_dict` after the candidates of `registry` have been scored, in registry order. */
  function MisclassTable(registry: seq<Candidate>, evaluate: (Classifier, nat, real) -> Holdout): map<string, nat>
  {
    if registry == [] then map[]
    else
      var last := registry[|registry| - 1];
      MisclassTable(registry[..|registry| - 1], evaluate)[last.name := AverageMisclassified(last.classifier, evaluate)]
  }

  /** The statistics tables have exactly one entry per registry key. */
  lemma {:induction false} TableKeys(registry: seq<Candidate>, evaluate: (Classifier, nat, real) -> Holdout)
    ensures AccuracyTable(registry, evaluate).Keys == MisclassTable(registry, evaluate).Keys == Names(registry)
  {
    if registry != [] {
      TableKeys(registry[..|registry| - 1], evaluate);
    }
  }

  /** Each registry key's entries hold that candidate's own averages. */
  lemma {:induction false} TableEntries(registry: seq<Candidate>, evaluate: (Classifier, nat, real) -> Holdout, j: int)
    requires DistinctNames(registry)
    requires 0 <= j < |registry|
    ensures registry[j].name in AccuracyTable(registry, evaluate) && registry[j].name in MisclassTable(registry, evaluate)
    ensures AccuracyTable(registry, evaluate)[registry[j].name] == AverageAccuracy(registry[j].classifier, evaluate)
    ensures MisclassTable(registry, evaluate)[registry[j].name] == AverageMisclassified(registry[j].classifier, evaluate)
  {
    var n := |registry| - 1;
    if j < n {
      var init := registry[..n];
      assert init[j] == registry[j];
      assert DistinctNames(init) by {
        forall a, b | 0 <= a < b < |init| ensures init[a].name != init[b].name {
          assert init[a] == registry[a] && init[b] == registry[b];
        }
      }
      assert registry[j].name != registry[n].name;
      TableEntries(init, evaluate, j);
    }
  }

  /** The statistics tables, the selection and the artifact written to `best_model.pkl`. */
  datatype Report = Report(
    accuracies: map<string, real>,
    misclassified: map<string, nat>,
    bestName: Option<string>,
    bestScore: real,
    bestObject: Option<Classifier>,
    saved: Loaded)

  /** The inner loop of `train_and_display`: ten seeded runs of one classifier, accumulated and averaged. */
  method RepeatedHoldout(c: Classifier, evaluate: (Classifier, nat, real) -> Holdout) returns (avgAcc: real, avgMis: nat)
    ensures avgAcc == AverageAccuracy(c, evaluate)
    ensures avgMis == AverageMisclassified(c, evaluate)
  {
    var accSum: real := 0.0;
    var missSum: nat := 0;
    for seed := 0 to Runs
      invariant accSum == AccuracySum(c, evaluate, seed)
      invariant missSum == MissSum(c, evaluate, seed)
    {
      var run := evaluate(c, seed, TestSize);
      accSum := accSum + run.accuracy;
      missSum := missSum + Misclassified(run.outcomes);
    }
    avgAcc := accSum / Runs as real;
    avgMis := missSum / Runs;
  }

  /**
   * What the scoring loop and the dump promise about `report`: the tables hold
   * every candidate's averages; the best score starts at 0 and only a strictly
   * greater average replaces it, so the kept candidate is the first one with
   * the largest average above 0, and none is kept when no average is above 0;
   * the saved artifact is that object with the preparation's encoders and
   * replacement map.
   */
  ghost predicate Selection(registry: seq<Candidate>, evaluate: (Classifier, nat, real) -> Holdout, data: Prepared, report: Report)
  {
    && report.accuracies == AccuracyTable(registry, evaluate)
    && report.misclassified == MisclassTable(registry, evaluate)
    && report.bestScore >= 0.0
    && (forall j :: 0 <= j < |registry| ==> Scores(registry, evaluate)[j] <= report.bestScore)
    && (report.bestName.None? <==> forall j :: 0 <= j < |registry| ==> Scores(registry, evaluate)[j] <= 0.0)
    && (report.bestName.None? ==> report.bestObject.None? && report.bestScore == 0.0)
    && (report.bestName.Some? ==>
          exists k :: FirstBest(Scores(registry, evaluate), k) && report.bestName == Some(registry[k].name) &&
                      report.bestObject == Some(registry[k].classifier) &&
                      report.bestScore == Scores(registry, evaluate)[k])
    && report.saved == Triple(if report.bestObject.Some? then Fitted(report.bestObject.value) else Absent,
                              data.labelEncoders, data.replaceMap)
  }

  /**
   * The body of `train_and_display` after the data is prepared: score every
   * candidate, keep the best, and build the triple that is pickled.
   * `evaluate(c, seed, testSize)` stands for splitting the prepared data with
   * that seed and fraction, fitting `c` on the training part and scoring it on
   * the test part.
   */
  method SelectBest(registry: seq<Candidate>, evaluate: (Classifier, nat, real) -> Holdout, data: Prepared)
    returns (report: Report)
    ensures Selection(registry, evaluate, data, report)
  {
    var accuracies: map<string, real> := map[];
    var misclassified: map<string, nat> := map[];
    var bestName: Option<string> := None;
    var bestScore: real := 0.0;
    var bestObject: Option<Classifier> := None;
    ghost var best := 0;
    ghost var scores := Scores(registry, evaluate);
    for k := 0 to |registry|
      invariant accuracies == AccuracyTable(registry[..k], evaluate)
      invariant misclassified == MisclassTable(registry[..k], evaluate)
      invariant bestScore >= 0.0
      invariant forall j :: 0 <= j < k ==> scores[j] <= bestScore
      invariant bestName.None? ==> bestObject.None? && bestScore == 0.0
      invariant bestName.Some? ==>
                  && best < k && bestScore > 0.0
                  && bestName == Some(registry[best].name) && bestObject == Some(registry[best].classifier)
                  && bestScore == scores[best]
                  && forall j :: 0 <= j < best ==> scores[j] < bestScore
    {
      var candidate := registry[k];
      assert registry[..k + 1][..k] == registry[..k];
      var avgAcc, avgMis := RepeatedHoldout(candidate.classifier, evaluate);
      accuracies := accuracies[candidate.name := avgAcc];
      misclassified := misclassified[candidate.name := avgMis];
      if avgAcc > bestScore {
        bestScore := avgAcc;
        bestName := Some(candidate.name);
        bestObject := Some(candidate.classifier);
        best := k;
      }
    }
    assert registry[..|registry|] == registry;
    var saved := Triple(if bestObject.Some? then Fitted(bestObject.value) else Absent, data.labelEncoders, data.replaceMap);
    report := Report(accuracies, misclassified, bestName, bestScore, bestObject, saved);
    assert report.accuracies == AccuracyTable(registry, evaluate);
    assert report.misclassified == MisclassTable(registry, evaluate);
    assert forall j :: 0 <= j < |registry| ==> scores[j] <= report.bestScore;
    assert report.bestName.None? <==> forall j :: 0 <= j < |registry| ==> scores[j] <= 0.0;
    if bestName.Some? {
      assert FirstBest(scores, best) && report.bestName == Some(registry[best].name) &&
             report.bestObject == Some(registry[best].classifier) && report.bestScore == scores[best];
    }
  }

  /**
   * `train_and_display` without the GUI: prepare the data, stopping with the
   * preparation's error if it raises, then score and select on the prepared
   * table. `evaluateOn(df)` is the holdout evaluation on the encoded table `df`.
   */
  method TrainAndDisplay(registry: seq<Candidate>, evaluateOn: map<string, seq<nat>> -> ((Classifier, nat, real) -> Holdout),
                         raw: Table)
    returns (r: Result<Report, PrepareError>)
    requires raw.Keys == set c | c in ColumnNames
    ensures StalkRoot in raw
    ensures r.Err? <==> Prepare(raw).Err?
    ensures r.Err? ==> r.error == Prepare(raw).error
    ensures r.Err? <==> Marker in raw[StalkRoot] && forall i :: 0 <= i < |raw[StalkRoot]| ==> raw[StalkRoot][i] == Marker
    ensures r.Ok? ==> Selection(registry, evaluateOn(Prepare(raw).value.df), Prepare(raw).value, r.value)
  {
    var prepared := LoadAndPrepareData(raw);
    if prepared.Err? {
      return Err(prepared.error);
    }
    var data := prepared.value;
    var report := SelectBest(registry, evaluateOn(data.df), data);
    r := Ok(report);
  }
}
