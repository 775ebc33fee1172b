/** The per-trait score an experiment reports: for trait j, the number of
    trials voting True minus the number voting False, over the number of
    trials. */
module Summaries {
  import opened Trials

  /** Number of trials in ds whose verdict on trait j is v. */
  function Count(ds: seq<Evidence>, j: nat, v: Verdict): (n: nat)
    ensures n <= |ds|
  {
    if ds == [] then 0
    else Count(ds[..|ds| - 1], j, v) + (if ds[|ds| - 1].VerdictAt(j) == v then 1 else 0)
  }

  function CountTrue(ds: seq<Evidence>, j: nat): nat {
    Count(ds, j, True)
  }

  function CountFalse(ds: seq<Evidence>, j: nat): nat {
    Count(ds, j, False)
  }

  /** Every trial gives exactly one verdict on a trait. */
  lemma {:induction false} CountsPartition(ds: seq<Evidence>, j: nat)
    ensures Count(ds, j, True) + Count(ds, j, False) + Count(ds, j, Indeterminate) == |ds|
  {
    if ds != [] {
      CountsPartition(ds[..|ds| - 1], j);
    }
  }

  /** A count reaches the number of trials exactly when every trial gives
      that verdict. */
  lemma {:induction false} CountAll(ds: seq<Evidence>, j: nat, v: Verdict)
    ensures Count(ds, j, v) == |ds| <==> forall i :: 0 <= i < |ds| ==> ds[i].VerdictAt(j) == v
  {
    if ds != [] {
      var init := ds[..|ds| - 1];
      CountAll(init, j, v);
      if Count(ds, j, v) == |ds| {
        forall i | 0 <= i < |ds| ensures ds[i].VerdictAt(j) == v {
          if i < |ds| - 1 {
            assert ds[i] == init[i];
          }
        }
      } else {
        assert Count(init, j, v) < |init| || ds[|ds| - 1].VerdictAt(j) != v;
        if Count(init, j, v) < |init| {
          var k :| 0 <= k < |init| && init[k].VerdictAt(j) != v;
          assert ds[k] == init[k];
        }
      }
    }
  }

  /** Counting distributes over concatenation. */
  lemma {:induction false} CountConcat(a: seq<Evidence>, b: seq<Evidence>, j: nat, v: Verdict)
    ensures Count(a + b, j, v) == Count(a, j, v) + Count(b, j, v)
  {
    if b == [] {
      assert a + b == a;
    } else {
      var b' := b[..|b| - 1];
      CountConcat(a, b', j, v);
      assert (a + b)[..|a + b| - 1] == a + b';
    }
  }

  /** Appending one trial adds its vote to the count. */
  lemma CountSnoc(ds: seq<Evidence>, e: Evidence, j: nat, v: Verdict)
    ensures Count(ds + [e], j, v) == Count(ds, j, v) + (if e.VerdictAt(j) == v then 1 else 0)
  {
    assert (ds + [e])[..|ds|] == ds;
  }

  /** Taking trial k out of ds removes one copy of it from the multiset and
      its vote from the count. */
  lemma RemoveAt(ds: seq<Evidence>, k: nat, j: nat, v: Verdict)
    requires k < |ds|
    ensures multiset(ds[..k] + ds[k + 1..]) == multiset(ds) - multiset{ds[k]}
    ensures Count(ds, j, v) == Count(ds[..k] + ds[k + 1..], j, v) + (if ds[k].VerdictAt(j) == v then 1 else 0)
  {
    var x := ds[k];
    assert ds == ds[..k] + [x] + ds[k + 1..];
    CountConcat(ds[..k] + [x], ds[k + 1..], j, v);
    CountConcat(ds[..k], [x], j, v);
    CountConcat(ds[..k], ds[k + 1..], j, v);
    assert [x][..0] == [];
  }

  /** Counting depends only on which trials there are, not on their order. */
  lemma {:induction false} CountPermutation(a: seq<Evidence>, b: seq<Evidence>, j: nat, v: Verdict)
    requires multiset(a) == multiset(b)
    ensures Count(a, j, v) == Count(b, j, v)
  {
    if a == [] {
      assert |b| == |multiset(b)| == 0;
    } else {
      var a' := a[..|a| - 1];
      var x := a[|a| - 1];
      assert a == a' + [x];
      assert multiset(a') == multiset(a) - multiset{x};
      assert x in b by {
        assert x in multiset(b);
      }
      var k :| 0 <= k < |b| && b[k] == x;
      var b' := b[..k] + b[k + 1..];
      RemoveAt(b, k, j, v);
      assert multiset(a') == multiset(b');
      CountPermutation(a', b', j, v);
      assert Count(a, j, v) == Count(a', j, v) + (if x.VerdictAt(j) == v then 1 else 0);
    }
  }

  /** A quotient whose numerator is no larger in magnitude than its positive
      denominator lies in [-1, 1]. */
  lemma UnitRatio(d: real, n: real)
    requires n > 0.0 && -n <= d <= n
    ensures -1.0 <= d / n <= 1.0
  {
    assert d / n * n == d;
  }

  /** The score of trait j: (#True - #False) / #trials, a value in [-1, 1]. */
  function Score(ds: seq<Evidence>, j: nat): (r: real)
    requires |ds| > 0
    ensures -1.0 <= r <= 1.0
  {
    CountsPartition(ds, j);
    UnitRatio((CountTrue(ds, j) - CountFalse(ds, j)) as real, |ds| as real);
    (CountTrue(ds, j) - CountFalse(ds, j)) as real / |ds| as real
  }

  /** The summary vector of a non-empty experiment: one score per trait. */
  function SummaryOf(ds: seq<Evidence>, traits: nat): (s: seq<real>)
    requires |ds| > 0
    ensures |s| == traits
    ensures forall j :: 0 <= j < traits ==> -1.0 <= s[j] <= 1.0
  {
    seq(traits, j requires 0 <= j < traits => Score(ds, j))
  }

  /** A score of 1 means every trial votes True on that trait, and the
      converse. */
  lemma ScoreOneIffAllTrue(ds: seq<Evidence>, traits: nat, j: nat)
    requires |ds| > 0 && j < traits
    ensures SummaryOf(ds, traits)[j] == 1.0 <==> forall i :: 0 <= i < |ds| ==> ds[i].IsTrue(j)
  {
    CountsPartition(ds, j);
    CountAll(ds, j, True);
    var n := |ds| as real;
    var d := (CountTrue(ds, j) - CountFalse(ds, j)) as real;
    assert SummaryOf(ds, traits)[j] == d / n;
    assert d / n == 1.0 <==> d == n;
  }

  /** A score of -1 means every trial votes False on that trait, and the
      converse. */
  lemma ScoreMinusOneIffAllFalse(ds: seq<Evidence>, traits: nat, j: nat)
    requires |ds| > 0 && j < traits
    ensures SummaryOf(ds, traits)[j] == -1.0 <==> forall i :: 0 <= i < |ds| ==> ds[i].IsFalse(j)
  {
    CountsPartition(ds, j);
    CountAll(ds, j, False);
    var n := |ds| as real;
    var d := (CountTrue(ds, j) - CountFalse(ds, j)) as real;
    assert SummaryOf(ds, traits)[j] == d / n;
    assert d / n == -1.0 <==> d == -n;
  }

  /** The summary does not depend on the order of the trials. */
  lemma SummaryOrderIndependent(a: seq<Evidence>, b: seq<Evidence>, traits: nat)
    requires |a| > 0 && multiset(a) == multiset(b)
    ensures |b| > 0 && SummaryOf(a, traits) == SummaryOf(b, traits)
  {
    assert |b| == |multiset(b)| == |multiset(a)| == |a|;
    forall j | 0 <= j < traits ensures SummaryOf(a, traits)[j] == SummaryOf(b, traits)[j] {
      CountPermutation(a, b, j, True);
      CountPermutation(a, b, j, False);
    }
  }

  /** Merging two experiments in either order gives the same summary. */
  lemma SummaryMergeCommutes(a: seq<Evidence>, b: seq<Evidence>, traits: nat)
    requires |a| + |b| > 0
    ensures SummaryOf(a + b, traits) == SummaryOf(b + a, traits)
  {
    assert multiset(a + b) == multiset(b + a);
    SummaryOrderIndependent(a + b, b + a, traits);
  }
}
