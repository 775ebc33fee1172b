/** The Experiment class: a bag of trials that grows in place, reports its
    per-trait summary and culls its outliers into a new experiment; and the
    free functions that compare experiments. The trait count is passed
    explicitly to every operation that needs it. */
module Experiments {
  import opened Trials
  import opened Summaries
  import opened Culling
  import opened Dispersion

  class Experiment {
    /** The trials, in insertion order; the order carries no meaning. */
    var dataset: seq<Evidence>

    constructor ()
      ensures dataset == []
    {
      dataset := [];
    }

    /** A copy owns its own trials: later changes to either side do not
        reach the other. */
    constructor Copy(other: Experiment)
      ensures dataset == other.dataset
    {
      dataset := other.dataset;
    }

    /** Appends one trial at the end. */
    method AddTrial(trial: Evidence)
      modifies this
      ensures dataset == old(dataset) + [trial]
    {
      dataset := dataset + [trial];
    }

    /** `this + add`: a new experiment holding a copy of add's trials followed
        by this one's; neither operand changes. */
    method Plus(add: Experiment) returns (local: Experiment)
      ensures fresh(local)
      ensures local.dataset == add.dataset + dataset
      ensures multiset(local.dataset) == multiset(dataset) + multiset(add.dataset)
      ensures dataset == old(dataset) && add.dataset == old(add.dataset)
    {
      local := new Experiment.Copy(add);
      local.dataset := local.dataset + dataset;
    }

    /** `this += add`: appends add's trials at the end of this one's. */
    method PlusAssign(add: Experiment)
      modifies this
      ensures dataset == old(dataset) + old(add.dataset)
      ensures add != this ==> add.dataset == old(add.dataset)
    {
      dataset := dataset + add.dataset;
    }

    method Size() returns (n: nat)
      ensures n == |dataset|
    {
      n := |dataset|;
    }

    /** The per-trait summary, accumulated trait by trait over all trials. */
    method Summary(traits: nat) returns (summary: seq<real>)
      requires |dataset| > 0
      ensures summary == SummaryOf(dataset, traits)
    {
      var acc := new real[traits](_ => 0.0);
      var j := 0;
      while j < traits
        invariant 0 <= j <= traits
        invariant forall k :: 0 <= k < j ==> acc[k] == Score(dataset, k)
        invariant forall k :: j <= k < traits ==> acc[k] == 0.0
      {
        var i := 0;
        while i < |dataset|
          invariant 0 <= i <= |dataset|
          invariant acc[j] == (CountTrue(dataset[..i], j) - CountFalse(dataset[..i], j)) as real
          invariant forall k :: 0 <= k < j ==> acc[k] == Score(dataset, k)
          invariant forall k :: j < k < traits ==> acc[k] == 0.0
        {
          assert dataset[..i + 1][..i] == dataset[..i];
          if dataset[i].IsTrue(j) {
            acc[j] := acc[j] + 1.0;
          } else if dataset[i].IsFalse(j) {
            acc[j] := acc[j] - 1.0;
          }
          i := i + 1;
        }
        assert dataset[..i] == dataset;
        acc[j] := acc[j] / |dataset| as real;
        j := j + 1;
      }
      summary := acc[..];
    }

    /** A new experiment holding, in order, the trials whose agreement with
        this experiment's summary reaches tolerance; this one is unchanged. */
    method OutlierCull(traits: nat, tolerance: real) returns (culled: Experiment)
      requires traits > 0
      ensures fresh(culled)
      ensures culled.dataset == CulledOf(dataset, traits, tolerance)
    {
      culled := new Experiment();
      if |dataset| == 0 {
        return;
      }
      var summary := Summary(traits);
      var i := 0;
      while i < |dataset|
        invariant 0 <= i <= |dataset|
        invariant culled.dataset == Kept(dataset[..i], summary, traits, tolerance)
      {
        var trial := dataset[i];
        var agree := TrialAgreement(trial, summary, traits);
        assert dataset[..i + 1][..i] == dataset[..i];
        if agree >= tolerance {
          culled.AddTrial(trial);
        }
        i := i + 1;
      }
      assert dataset[..i] == dataset;
    }
  }

  /** outlierCull's inner loop: the agreement of one trial with the summary,
      cut short at the first conflicting trait. */
  method TrialAgreement(trial: Evidence, summary: seq<real>, traits: nat) returns (agree: real)
    requires 0 < traits == |summary|
    ensures agree == Agreement(trial, summary, traits)
  {
    agree := traits as real;
    ghost var conflicted := false;
    var j := 0;
    while j < traits
      invariant 0 <= j <= traits
      invariant agree == traits as real + Contribution(trial, summary, j)
      invariant forall k: nat :: k < j ==> !trial.IsConflicting(k)
      invariant !conflicted
    {
      if trial.IsConflicting(j) {
        agree := (-2 * traits) as real;
        conflicted := true;
        break;
      }
      if trial.IsTrue(j) {
        agree := agree + summary[j];
      } else if trial.IsFalse(j) {
        agree := agree - summary[j];
      }
      j := j + 1;
    }
    if conflicted {
      assert Conflicting(trial, traits);
      ConflictScore(traits);
    } else {
      assert !Conflicting(trial, traits);
    }
    agree := agree / traits as real;
  }

  /** The trials of each experiment, in order. */
  function Datasets(exps: seq<Experiment>): (dss: seq<seq<Evidence>>)
    reads exps
    ensures |dss| == |exps|
  {
    seq(|exps|, i requires 0 <= i < |exps| reads exps => exps[i].dataset)
  }

  /** One summary per experiment. */
  function SummaryTable(dss: seq<seq<Evidence>>, traits: nat): (rows: seq<seq<real>>)
    requires forall i :: 0 <= i < |dss| ==> |dss[i]| > 0
    ensures |rows| == |dss| && Rectangular(rows, traits)
  {
    seq(|dss|, i requires 0 <= i < |dss| => SummaryOf(dss[i], traits))
  }

  /** The trial count of each experiment. */
  function Sizes(dss: seq<seq<Evidence>>): (ws: seq<nat>)
    ensures |ws| == |dss|
  {
    seq(|dss|, i requires 0 <= i < |dss| => |dss[i]|)
  }

  /** Non-empty experiments have a positive total trial count. */
  lemma {:induction false} SizesTotalPositive(dss: seq<seq<Evidence>>)
    requires |dss| > 0 && forall i :: 0 <= i < |dss| ==> |dss[i]| > 0
    ensures Total(Sizes(dss)) > 0
  {
    var ws := Sizes(dss);
    assert ws[|ws| - 1] > 0;
  }

  /** base's summary minus contrast's, trait by trait. */
  method Diff(base: Experiment, contrast: Experiment, traits: nat) returns (diff: seq<real>)
    requires |base.dataset| > 0 && |contrast.dataset| > 0
    ensures diff == DiffOf(SummaryOf(base.dataset, traits), SummaryOf(contrast.dataset, traits))
  {
    var d := new real[traits](_ => 0.0);
    for i := 0 to traits
      invariant forall k :: 0 <= k < i ==> d[k] == SummaryOf(base.dataset, traits)[k] - SummaryOf(contrast.dataset, traits)[k]
    {
      var b := base.Summary(traits);
      var c := contrast.Summary(traits);
      d[i] := b[i] - c[i];
    }
    diff := d[..];
  }

  /** Per trait, the unweighted mean of the experiments' scores, then the
      trial-count-weighted mean of the squared deviations from it. */
  method StdDev(exps: seq<Experiment>, traits: nat) returns (dev: seq<real>)
    requires |exps| > 0
    requires forall i :: 0 <= i < |exps| ==> |exps[i].dataset| > 0
    ensures Total(Sizes(Datasets(exps))) > 0
    ensures dev == StdDevOf(SummaryTable(Datasets(exps), traits), Sizes(Datasets(exps)), traits)
  {
    ghost var dss := Datasets(exps);
    assert forall i :: 0 <= i < |exps| ==> exps[i].dataset == dss[i];
    var avg := MeanScores(exps, dss, traits);
    dev := WeightedDeviations(exps, dss, traits, avg);
  }

  /** StdDev's second pass: per trait, the trial-count-weighted mean of the
      squared deviations of the scores from avg. */
  method WeightedDeviations(exps: seq<Experiment>, ghost dss: seq<seq<Evidence>>, traits: nat, avg: seq<real>) returns (dev: seq<real>)
    requires |exps| == |dss| > 0
    requires forall i :: 0 <= i < |exps| ==> exps[i].dataset == dss[i] && |dss[i]| > 0
    requires |avg| == traits
    requires forall k :: 0 <= k < traits ==> avg[k] == Mean(Column(SummaryTable(dss, traits), k))
    ensures Total(Sizes(dss)) > 0
    ensures dev == StdDevOf(SummaryTable(dss, traits), Sizes(dss), traits)
  {
    SizesTotalPositive(dss);
    ghost var target := StdDevOf(SummaryTable(dss, traits), Sizes(dss), traits);
    var acc := new real[traits](_ => 0.0);
    var j := 0;
    while j < traits
      invariant 0 <= j <= traits
      invariant forall k :: 0 <= k < j ==> acc[k] == target[k]
    {
      acc[j] := WeightedColumnDeviation(exps, dss, traits, j, avg[j]);
      j := j + 1;
    }
    dev := acc[..];
  }

  /** StdDev's second pass for trait j: the squared deviations of the
      experiments' scores from mean, weighted by trial count and divided by
      the total trial count. */
  method WeightedColumnDeviation(exps: seq<Experiment>, ghost dss: seq<seq<Evidence>>, traits: nat, j: nat, mean: real) returns (d: real)
    requires |exps| == |dss| > 0 && j < traits
    requires forall i :: 0 <= i < |exps| ==> exps[i].dataset == dss[i] && |dss[i]| > 0
    requires mean == Mean(Column(SummaryTable(dss, traits), j))
    ensures Total(Sizes(dss)) > 0
    ensures d == WeightedDeviation(Column(SummaryTable(dss, traits), j), Sizes(dss))
  {
    ghost var col := Column(SummaryTable(dss, traits), j);
    ghost var ws := Sizes(dss);
    ghost var terms := Weighted(SquaredDeviations(col, mean), ws);
    SizesTotalPositive(dss);
    var sum, size := 0.0, 0;
    var i := 0;
    while i < |exps|
      invariant 0 <= i <= |exps|
      invariant size == Total(ws[..i])
      invariant sum == Sum(terms[..i])
    {
      var s := exps[i].Summary(traits);
      var w := exps[i].Size();
      var x := s[j];
      assert col[i] == x && ws[i] == w;
      WeightedDeviationStep(col, ws, mean, i, x, w);
      TotalPrefix(ws, i);
      size := size + w;
      sum := sum + (mean - x) * (mean - x) * w as real;
      i := i + 1;
    }
    assert terms[..i] == terms && ws[..i] == ws;
    d := sum / size as real;
  }

  /** Per trait, the unweighted mean of the experiments' scores, then the
      unweighted mean of the squared deviations from it. */
  method AStdDev(exps: seq<Experiment>, traits: nat) returns (dev: seq<real>)
    requires |exps| > 0
    requires forall i :: 0 <= i < |exps| ==> |exps[i].dataset| > 0
    ensures dev == AStdDevOf(SummaryTable(Datasets(exps), traits), traits)
  {
    ghost var dss := Datasets(exps);
    assert forall i :: 0 <= i < |exps| ==> exps[i].dataset == dss[i];
    var avg := MeanScores(exps, dss, traits);
    dev := PlainDeviations(exps, dss, traits, avg);
  }

  /** AStdDev's second pass: per trait, the plain mean of the squared
      deviations of the scores from avg. */
  method PlainDeviations(exps: seq<Experiment>, ghost dss: seq<seq<Evidence>>, traits: nat, avg: seq<real>) returns (dev: seq<real>)
    requires |exps| == |dss| > 0
    requires forall i :: 0 <= i < |exps| ==> exps[i].dataset == dss[i] && |dss[i]| > 0
    requires |avg| == traits
    requires forall k :: 0 <= k < traits ==> avg[k] == Mean(Column(SummaryTable(dss, traits), k))
    ensures dev == AStdDevOf(SummaryTable(dss, traits), traits)
  {
    ghost var target := AStdDevOf(SummaryTable(dss, traits), traits);
    var acc := new real[traits](_ => 0.0);
    var j := 0;
    while j < traits
      invariant 0 <= j <= traits
      invariant forall k :: 0 <= k < j ==> acc[k] == target[k]
    {
      acc[j] := PlainColumnDeviation(exps, dss, traits, j, avg[j]);
      j := j + 1;
    }
    dev := acc[..];
  }

  /** AStdDev's second pass for trait j: the mean of the squared deviations
      of the experiments' scores from mean. */
  method PlainColumnDeviation(exps: seq<Experiment>, ghost dss: seq<seq<Evidence>>, traits: nat, j: nat, mean: real) returns (d: real)
    requires |exps| == |dss| > 0 && j < traits
    requires forall i :: 0 <= i < |exps| ==> exps[i].dataset == dss[i] && |dss[i]| > 0
    requires mean == Mean(Column(SummaryTable(dss, traits), j))
    ensures d == PlainDeviation(Column(SummaryTable(dss, traits), j))
  {
    ghost var col := Column(SummaryTable(dss, traits), j);
    ghost var terms := SquaredDeviations(col, mean);
    var sum := 0.0;
    var i := 0;
    while i < |exps|
      invariant 0 <= i <= |exps|
      invariant sum == Sum(terms[..i])
    {
      var s := exps[i].Summary(traits);
      var x := s[j];
      assert col[i] == x;
      PlainDeviationStep(col, mean, i, x);
      sum := sum + (mean - x) * (mean - x);
      i := i + 1;
    }
    assert terms[..i] == terms;
    d := sum / |exps| as real;
  }

  /** The first pass shared by StdDev and AStdDev: per trait, the plain mean
      of the experiments' scores. */
  method MeanScores(exps: seq<Experiment>, ghost dss: seq<seq<Evidence>>, traits: nat) returns (avg: seq<real>)
    requires |exps| == |dss| > 0
    requires forall i :: 0 <= i < |exps| ==> exps[i].dataset == dss[i] && |dss[i]| > 0
    ensures |avg| == traits
    ensures forall k :: 0 <= k < traits ==> avg[k] == Mean(Column(SummaryTable(dss, traits), k))
  {
    var acc := new real[traits](_ => 0.0);
    var j := 0;
    while j < traits
      invariant 0 <= j <= traits
      invariant forall k :: 0 <= k < j ==> acc[k] == Mean(Column(SummaryTable(dss, traits), k))
    {
      acc[j] := ColumnMean(exps, dss, traits, j);
      j := j + 1;
    }
    avg := acc[..];
  }

  /** The plain mean of the experiments' scores on trait j. */
  method ColumnMean(exps: seq<Experiment>, ghost dss: seq<seq<Evidence>>, traits: nat, j: nat) returns (m: real)
    requires |exps| == |dss| > 0 && j < traits
    requires forall i :: 0 <= i < |exps| ==> exps[i].dataset == dss[i] && |dss[i]| > 0
    ensures m == Mean(Column(SummaryTable(dss, traits), j))
  {
    ghost var col := Column(SummaryTable(dss, traits), j);
    var sum := 0.0;
    var i := 0;
    while i < |exps|
      invariant 0 <= i <= |exps|
      invariant sum == Sum(col[..i])
    {
      var s := exps[i].Summary(traits);
      assert col[i] == s[j];
      SumPrefix(col, i);
      sum := sum + s[j];
      i := i + 1;
    }
    assert col[..i] == col;
    m := sum / |exps| as real;
  }
}
