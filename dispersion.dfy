/** Comparing the summaries of several experiments: their difference, and
    the spread of each trait's score across experiments, once weighted by
    trial count and once with every experiment weighted equally. No square
    root is taken: the "standard deviations" are variances.

    A table of summaries has one row per experiment and one column per
    trait. */
module Dispersion {

  function Sum(xs: seq<real>): real {
    if xs == [] then 0.0 else Sum(xs[..|xs| - 1]) + xs[|xs| - 1]
  }

  function Total(ws: seq<nat>): nat {
    if ws == [] then 0 else Total(ws[..|ws| - 1]) + ws[|ws| - 1]
  }

  /** Extending a prefix by one element adds that element to the sum. */
  lemma SumPrefix(xs: seq<real>, i: nat)
    requires i < |xs|
    ensures Sum(xs[..i + 1]) == Sum(xs[..i]) + xs[i]
  {
    assert xs[..i + 1][..i] == xs[..i];
  }

  lemma TotalPrefix(ws: seq<nat>, i: nat)
    requires i < |ws|
    ensures Total(ws[..i + 1]) == Total(ws[..i]) + ws[i]
  {
    assert ws[..i + 1][..i] == ws[..i];
  }

  /** The unweighted mean. */
  function Mean(xs: seq<real>): real
    requires |xs| > 0
  {
    Sum(xs) / |xs| as real
  }

  /** Every row of the table has one entry per trait. */
  predicate Rectangular(rows: seq<seq<real>>, traits: nat) {
    forall i :: 0 <= i < |rows| ==> |rows[i]| == traits
  }

  /** Column j of the table: trait j's score in each experiment. */
  function Column(rows: seq<seq<real>>, j: nat): (c: seq<real>)
    requires forall i :: 0 <= i < |rows| ==> j < |rows[i]|
    ensures |c| == |rows|
  {
    seq(|rows|, i requires 0 <= i < |rows| => rows[i][j])
  }

  function SquaredDeviations(xs: seq<real>, m: real): (d: seq<real>)
    ensures |d| == |xs|
  {
    seq(|xs|, i requires 0 <= i < |xs| => (m - xs[i]) * (m - xs[i]))
  }

  function Weighted(xs: seq<real>, ws: seq<nat>): (r: seq<real>)
    requires |xs| == |ws|
    ensures |r| == |xs|
  {
    seq(|xs|, i requires 0 <= i < |xs| => xs[i] * ws[i] as real)
  }

  /** The squared deviations from the UNWEIGHTED mean, averaged with the
      weights ws. */
  function WeightedDeviation(xs: seq<real>, ws: seq<nat>): real
    requires |xs| == |ws| > 0 && Total(ws) > 0
  {
    Sum(Weighted(SquaredDeviations(xs, Mean(xs)), ws)) / Total(ws) as real
  }

  /** The squared deviations from the mean, averaged with equal weights. */
  function PlainDeviation(xs: seq<real>): real
    requires |xs| > 0
  {
    Sum(SquaredDeviations(xs, Mean(xs))) / |xs| as real
  }

  /** The trial-count-weighted dispersion of every trait. */
  function StdDevOf(rows: seq<seq<real>>, ws: seq<nat>, traits: nat): (r: seq<real>)
    requires |rows| == |ws| > 0 && Total(ws) > 0 && Rectangular(rows, traits)
    ensures |r| == traits
  {
    seq(traits, j requires 0 <= j < traits => WeightedDeviation(Column(rows, j), ws))
  }

  /** The unweighted dispersion of every trait. */
  function AStdDevOf(rows: seq<seq<real>>, traits: nat): (r: seq<real>)
    requires |rows| > 0 && Rectangular(rows, traits)
    ensures |r| == traits
  {
    seq(traits, j requires 0 <= j < traits => PlainDeviation(Column(rows, j)))
  }

  /** Component-wise difference of two summaries. */
  function DiffOf(a: seq<real>, b: seq<real>): (d: seq<real>)
    requires |a| == |b|
    ensures |d| == |a|
  {
    seq(|a|, j requires 0 <= j < |a| => a[j] - b[j])
  }

  lemma DiffSelfIsZero(a: seq<real>)
    ensures DiffOf(a, a) == seq(|a|, _ => 0.0)
  {
  }

  lemma DiffAntisymmetric(a: seq<real>, b: seq<real>)
    requires |a| == |b|
    ensures forall j :: 0 <= j < |a| ==> DiffOf(a, b)[j] == -DiffOf(b, a)[j]
  {
  }

  /** Sums of non-negative terms are non-negative. */
  lemma {:induction false} SumNonNegative(xs: seq<real>)
    requires forall i :: 0 <= i < |xs| ==> xs[i] >= 0.0
    ensures Sum(xs) >= 0.0
  {
    if xs != [] {
      var init := xs[..|xs| - 1];
      assert forall i :: 0 <= i < |init| ==> init[i] == xs[i];
      SumNonNegative(init);
    }
  }

  /** A sum of n copies of c is n * c. */
  lemma {:induction false} SumConstant(xs: seq<real>, c: real)
    requires forall i :: 0 <= i < |xs| ==> xs[i] == c
    ensures Sum(xs) == |xs| as real * c
  {
    if xs != [] {
      var init := xs[..|xs| - 1];
      assert forall i :: 0 <= i < |init| ==> init[i] == xs[i];
      SumConstant(init, c);
    }
  }

  /** A total of n copies of w is n * w. */
  lemma {:induction false} TotalConstant(ws: seq<nat>, w: nat)
    requires forall i :: 0 <= i < |ws| ==> ws[i] == w
    ensures Total(ws) as real == |ws| as real * w as real
  {
    if ws != [] {
      var init := ws[..|ws| - 1];
      assert forall i :: 0 <= i < |init| ==> init[i] == ws[i];
      TotalConstant(init, w);
    }
  }

  /** One more experiment's squared deviation, weighted, extends the running
      sum of a weighted dispersion. */
  lemma {:induction false} WeightedDeviationStep(xs: seq<real>, ws: seq<nat>, m: real, i: nat, x: real, w: nat)
    requires |xs| == |ws| && i < |xs| && xs[i] == x && ws[i] == w
    ensures Sum(Weighted(SquaredDeviations(xs, m), ws)[..i + 1])
         == Sum(Weighted(SquaredDeviations(xs, m), ws)[..i]) + (m - x) * (m - x) * w as real
  {
    var terms := Weighted(SquaredDeviations(xs, m), ws);
    var sq := (m - x) * (m - x);
    assert SquaredDeviations(xs, m)[i] == sq;
    assert terms[i] == sq * w as real;
    SumPrefix(terms, i);
  }

  /** One more experiment's squared deviation extends the running sum of a
      plain dispersion. */
  lemma {:induction false} PlainDeviationStep(xs: seq<real>, m: real, i: nat, x: real)
    requires i < |xs| && xs[i] == x
    ensures Sum(SquaredDeviations(xs, m)[..i + 1]) == Sum(SquaredDeviations(xs, m)[..i]) + (m - x) * (m - x)
  {
    SumPrefix(SquaredDeviations(xs, m), i);
  }

  lemma Distribute(a: real, b: real, r: real)
    ensures (a + b) * r == a * r + b * r
  {
  }

  /** With one common weight w, the weighted sum is w times the plain sum. */
  lemma {:induction false} SumUniformWeight(xs: seq<real>, ws: seq<nat>, w: nat)
    requires |xs| == |ws| && forall i :: 0 <= i < |ws| ==> ws[i] == w
    ensures Sum(Weighted(xs, ws)) == Sum(xs) * w as real
  {
    if xs != [] {
      var n := |xs| - 1;
      var r := w as real;
      var init := Sum(xs[..n]);
      assert Sum(Weighted(xs, ws)) == init * r + xs[n] * r by {
        var wx := Weighted(xs, ws);
        assert forall i :: 0 <= i < n ==> wx[..n][i] == Weighted(xs[..n], ws[..n])[i];
        assert wx[..n] == Weighted(xs[..n], ws[..n]);
        SumUniformWeight(xs[..n], ws[..n], w);
      }
      Distribute(init, xs[n], r);
    }
  }

  lemma SquaredDeviationsNonNegative(xs: seq<real>, m: real)
    ensures forall i :: 0 <= i < |xs| ==> SquaredDeviations(xs, m)[i] >= 0.0
  {
    forall i | 0 <= i < |xs| ensures SquaredDeviations(xs, m)[i] >= 0.0 {
      var d := m - xs[i];
      assert d * d >= 0.0;
    }
  }

  lemma ProductNonNegative(a: real, b: real)
    requires a >= 0.0 && b >= 0.0
    ensures a * b >= 0.0
  {
  }

  /** A weighted dispersion is non-negative. */
  lemma {:induction false} WeightedDeviationNonNegative(xs: seq<real>, ws: seq<nat>)
    requires |xs| == |ws| > 0 && Total(ws) > 0
    ensures WeightedDeviation(xs, ws) >= 0.0
  {
    var d := SquaredDeviations(xs, Mean(xs));
    SquaredDeviationsNonNegative(xs, Mean(xs));
    var wd := Weighted(d, ws);
    forall i | 0 <= i < |wd| ensures wd[i] >= 0.0 {
      assert wd[i] == d[i] * ws[i] as real;
      ProductNonNegative(d[i], ws[i] as real);
    }
    SumNonNegative(wd);
    assert Sum(wd) / Total(ws) as real >= 0.0;
  }

  /** Every weighted dispersion is non-negative. */
  lemma StdDevNonNegative(rows: seq<seq<real>>, ws: seq<nat>, traits: nat)
    requires |rows| == |ws| > 0 && Total(ws) > 0 && Rectangular(rows, traits)
    ensures forall j :: 0 <= j < traits ==> StdDevOf(rows, ws, traits)[j] >= 0.0
  {
    forall j | 0 <= j < traits ensures StdDevOf(rows, ws, traits)[j] >= 0.0 {
      WeightedDeviationNonNegative(Column(rows, j), ws);
    }
  }

  /** Every unweighted dispersion is non-negative. */
  lemma AStdDevNonNegative(rows: seq<seq<real>>, traits: nat)
    requires |rows| > 0 && Rectangular(rows, traits)
    ensures forall j :: 0 <= j < traits ==> AStdDevOf(rows, traits)[j] >= 0.0
  {
    forall j | 0 <= j < traits ensures AStdDevOf(rows, traits)[j] >= 0.0 {
      var c := Column(rows, j);
      SquaredDeviationsNonNegative(c, Mean(c));
      SumNonNegative(SquaredDeviations(c, Mean(c)));
    }
  }

  /** A column whose entries all agree has no squared deviation from its
      mean. */
  lemma ConstantColumnHasNoDeviation(xs: seq<real>)
    requires |xs| > 0 && forall i :: 0 <= i < |xs| ==> xs[i] == xs[0]
    ensures Mean(xs) == xs[0]
    ensures forall i :: 0 <= i < |xs| ==> SquaredDeviations(xs, Mean(xs))[i] == 0.0
  {
    SumConstant(xs, xs[0]);
  }

  lemma {:induction false} ConstantWeightedDeviation(xs: seq<real>, ws: seq<nat>)
    requires |xs| == |ws| > 0 && Total(ws) > 0
    requires forall i :: 0 <= i < |xs| ==> xs[i] == xs[0]
    ensures WeightedDeviation(xs, ws) == 0.0
  {
    ConstantColumnHasNoDeviation(xs);
    var d := SquaredDeviations(xs, Mean(xs));
    var wd := Weighted(d, ws);
    forall i | 0 <= i < |wd| ensures wd[i] == 0.0 {
      assert wd[i] == d[i] * ws[i] as real;
    }
    SumConstant(wd, 0.0);
  }

  /** When every experiment has the same summary, every weighted dispersion
      is 0. */
  lemma StdDevZeroWhenSummariesAgree(rows: seq<seq<real>>, ws: seq<nat>, traits: nat)
    requires |rows| == |ws| > 0 && Total(ws) > 0 && Rectangular(rows, traits)
    requires forall i :: 0 <= i < |rows| ==> rows[i] == rows[0]
    ensures StdDevOf(rows, ws, traits) == seq(traits, _ => 0.0)
  {
    forall j | 0 <= j < traits ensures StdDevOf(rows, ws, traits)[j] == 0.0 {
      ConstantWeightedDeviation(Column(rows, j), ws);
    }
  }

  /** When every experiment has the same summary, every unweighted
      dispersion is 0. */
  lemma AStdDevZeroWhenSummariesAgree(rows: seq<seq<real>>, traits: nat)
    requires |rows| > 0 && Rectangular(rows, traits)
    requires forall i :: 0 <= i < |rows| ==> rows[i] == rows[0]
    ensures AStdDevOf(rows, traits) == seq(traits, _ => 0.0)
  {
    forall j | 0 <= j < traits ensures AStdDevOf(rows, traits)[j] == 0.0 {
      var c := Column(rows, j);
      ConstantColumnHasNoDeviation(c);
      SumConstant(SquaredDeviations(c, Mean(c)), 0.0);
    }
  }

  /** Scaling both sides of a ratio by the same positive w leaves it
      unchanged. */
  lemma CancelWeight(sw: real, t: real, s: real, n: real, w: real)
    requires n > 0.0 && w > 0.0 && t == n * w && sw == s * w
    ensures t > 0.0 && sw / t == s / n
  {
    assert (s / n) * t == sw;
  }

  /** With one common positive weight, a weighted average is the plain
      average. */
  lemma {:induction false} UniformWeightAverage(d: seq<real>, ws: seq<nat>, w: nat)
    requires |d| == |ws| > 0 && w > 0 && forall i :: 0 <= i < |ws| ==> ws[i] == w
    ensures Total(ws) > 0 && Sum(Weighted(d, ws)) / Total(ws) as real == Sum(d) / |d| as real
  {
    TotalConstant(ws, w);
    SumUniformWeight(d, ws, w);
    CancelWeight(Sum(Weighted(d, ws)), Total(ws) as real, Sum(d), |d| as real, w as real);
  }

  /** With one common positive weight, the weighted and the plain dispersion
      of a column coincide. */
  lemma {:induction false} UniformWeightDeviation(xs: seq<real>, ws: seq<nat>, w: nat)
    requires |xs| == |ws| > 0 && w > 0 && forall i :: 0 <= i < |ws| ==> ws[i] == w
    ensures Total(ws) > 0 && WeightedDeviation(xs, ws) == PlainDeviation(xs)
  {
    UniformWeightAverage(SquaredDeviations(xs, Mean(xs)), ws, w);
  }

  /** When every experiment has the same positive trial count, weighting by
      trial count changes nothing. */
  lemma EqualSizesMakeStdDevsAgree(rows: seq<seq<real>>, ws: seq<nat>, traits: nat)
    requires |rows| == |ws| > 0 && Rectangular(rows, traits)
    requires ws[0] > 0 && forall i :: 0 <= i < |ws| ==> ws[i] == ws[0]
    ensures Total(ws) > 0
    ensures StdDevOf(rows, ws, traits) == AStdDevOf(rows, traits)
  {
    TotalConstant(ws, ws[0]);
    forall j | 0 <= j < traits ensures StdDevOf(rows, ws, traits)[j] == AStdDevOf(rows, traits)[j] {
      UniformWeightDeviation(Column(rows, j), ws, ws[0]);
    }
  }

  /** Two experiments of ten trials each, scoring 1 and -1 on one trait:
      the weighted dispersion is 1. */
  lemma OppositeExperimentsExample()
    ensures StdDevOf([[1.0], [-1.0]], [10, 10], 1) == [1.0]
  {
    var rows := [[1.0], [-1.0]];
    var ws: seq<nat> := [10, 10];
    var c := Column(rows, 0);
    assert c == [1.0, -1.0];
    assert [1.0, -1.0][..1] == [1.0];
    assert Sum(c) == 0.0;
    assert Mean(c) == 0.0;
    var wd := Weighted(SquaredDeviations(c, 0.0), ws);
    assert wd == [10.0, 10.0];
    assert [10.0, 10.0][..1] == [10.0];
    assert ws[..1] == [10];
    assert Sum(wd) == 20.0;
    assert Total(ws) == 20;
  }
}
