/** Outlier culling: each trial gets an agreement score against the
    experiment's own summary, and only the trials whose score reaches the
    tolerance are kept, in their original order.

    The agreement of a trial is read per trial: for trait j, a True vote adds
    summary[j] and a False vote subtracts it; the running total starts at
    the trait count and is divided by the trait count at the end, so a trial
    that never conflicts scores between 0 and 2. A trial that reports a
    conflict at any index below the trait count scores -2. */
module Culling {
  import opened Trials
  import opened Summaries

  /** Every entry of a summary-like vector lies in [-1, 1]. */
  predicate Bounded(s: seq<real>) {
    forall j :: 0 <= j < |s| ==> -1.0 <= s[j] <= 1.0
  }

  /** What trait j adds to a trial's agreement with summary s. */
  function Term(e: Evidence, s: seq<real>, j: nat): real
    requires j < |s|
  {
    if e.IsTrue(j) then s[j] else if e.IsFalse(j) then -s[j] else 0.0
  }

  /** The sum of the terms of traits 0 .. k-1. */
  function Contribution(e: Evidence, s: seq<real>, k: nat): real
    requires k <= |s|
  {
    if k == 0 then 0.0 else Contribution(e, s, k - 1) + Term(e, s, k - 1)
  }

  /** Each term moves the agreement by at most 1. */
  lemma {:induction false} ContributionBounds(e: Evidence, s: seq<real>, k: nat)
    requires k <= |s| && Bounded(s)
    ensures -(k as real) <= Contribution(e, s, k) <= k as real
  {
    if k > 0 {
      ContributionBounds(e, s, k - 1);
    }
  }

  /** The agreement score of trial e against summary s. */
  function Agreement(e: Evidence, s: seq<real>, traits: nat): real
    requires 0 < traits == |s|
  {
    if Conflicting(e, traits) then -2.0
    else (traits as real + Contribution(e, s, traits)) / traits as real
  }

  /** The score a conflicting trial is given, -2 * traits over traits, is -2. */
  lemma ConflictScore(traits: nat)
    requires traits > 0
    ensures (-2 * traits) as real / traits as real == -2.0
  {
    assert (-2 * traits) as real == -2.0 * traits as real;
  }

  /** A conflicting trial scores -2; any other trial scores in [0, 2]. */
  lemma AgreementRange(e: Evidence, s: seq<real>, traits: nat)
    requires 0 < traits == |s| && Bounded(s)
    ensures Conflicting(e, traits) ==> Agreement(e, s, traits) == -2.0
    ensures !Conflicting(e, traits) ==> 0.0 <= Agreement(e, s, traits) <= 2.0
  {
    ContributionBounds(e, s, traits);
    var n := traits as real;
    var c := Contribution(e, s, traits);
    assert 0.0 <= n + c <= 2.0 * n;
    if !Conflicting(e, traits) {
      assert Agreement(e, s, traits) == (n + c) / n;
      assert (n + c) / n <= 2.0 * n / n;
    }
  }

  /** The trials of ds, in order, whose agreement with s reaches tolerance. */
  function Kept(ds: seq<Evidence>, s: seq<real>, traits: nat, tolerance: real): seq<Evidence>
    requires 0 < traits == |s|
  {
    if ds == [] then []
    else
      var last := ds[|ds| - 1];
      Kept(ds[..|ds| - 1], s, traits, tolerance)
        + (if Agreement(last, s, traits) >= tolerance then [last] else [])
  }

  /** Trial e votes with the sign of s on every trait below traits: True only
      where the score is non-negative, False only where it is non-positive. */
  predicate AgreesWithMajority(e: Evidence, s: seq<real>, traits: nat)
    requires traits <= |s|
  {
    forall j :: 0 <= j < traits ==> (e.IsTrue(j) ==> s[j] >= 0.0) && (e.IsFalse(j) ==> s[j] <= 0.0)
  }

  /** A trial that votes with the majority gains agreement on every trait. */
  lemma {:induction false} AgreeingContribution(e: Evidence, s: seq<real>, k: nat)
    requires k <= |s| && AgreesWithMajority(e, s, k)
    ensures Contribution(e, s, k) >= 0.0
  {
    if k > 0 {
      AgreeingContribution(e, s, k - 1);
    }
  }

  /** A non-conflicting trial that votes with the majority on every trait
      scores at least 1. */
  lemma AgreeingTrialScoresAtLeastOne(e: Evidence, s: seq<real>, traits: nat)
    requires 0 < traits == |s| && !Conflicting(e, traits) && AgreesWithMajority(e, s, traits)
    ensures Agreement(e, s, traits) >= 1.0
  {
    AgreeingContribution(e, s, traits);
    var n := traits as real;
    var c := Contribution(e, s, traits);
    assert (n + c) / n * n == n + c;
  }

  /** Appending one trial to ds appends it to the filter's output exactly when
      its agreement reaches the tolerance. */
  lemma KeptSnoc(ds: seq<Evidence>, e: Evidence, s: seq<real>, traits: nat, tolerance: real)
    requires 0 < traits == |s|
    ensures Kept(ds + [e], s, traits, tolerance)
         == Kept(ds, s, traits, tolerance) + (if Agreement(e, s, traits) >= tolerance then [e] else [])
  {
    assert (ds + [e])[..|ds|] == ds;
  }

  /** The trials an experiment keeps when culled at the given tolerance. An
      empty experiment culls to an empty one; its summary is never used. */
  function CulledOf(ds: seq<Evidence>, traits: nat, tolerance: real): seq<Evidence>
    requires traits > 0
  {
    if ds == [] then [] else Kept(ds, SummaryOf(ds, traits), traits, tolerance)
  }

  /** The trials of ds with no conflict below the trait count, in order. */
  function WithoutConflicts(ds: seq<Evidence>, traits: nat): seq<Evidence> {
    if ds == [] then []
    else
      var last := ds[|ds| - 1];
      WithoutConflicts(ds[..|ds| - 1], traits) + (if Conflicting(last, traits) then [] else [last])
  }

  /** a can be obtained from b by deleting elements, keeping the order. */
  predicate Subsequence<T(==)>(a: seq<T>, b: seq<T>)
    decreases |b|
  {
    a == []
    || (b != []
        && ((a[|a| - 1] == b[|b| - 1] && Subsequence(a[..|a| - 1], b[..|b| - 1]))
            || Subsequence(a, b[..|b| - 1])))
  }

  lemma SubsequenceExtend<T>(a: seq<T>, b: seq<T>, x: T)
    requires Subsequence(a, b)
    ensures Subsequence(a, b + [x])
  {
    assert (b + [x])[..|b|] == b;
  }

  /** A subsequence holds no more copies of any element than its source. */
  lemma {:induction false} SubsequenceMultiset<T>(a: seq<T>, b: seq<T>)
    requires Subsequence(a, b)
    ensures multiset(a) <= multiset(b)
    decreases |b|
  {
    if a != [] {
      var b' := b[..|b| - 1];
      assert b == b' + [b[|b| - 1]];
      if a[|a| - 1] == b[|b| - 1] && Subsequence(a[..|a| - 1], b') {
        SubsequenceMultiset(a[..|a| - 1], b');
        assert a == a[..|a| - 1] + [a[|a| - 1]];
      } else {
        SubsequenceMultiset(a, b');
      }
    }
  }

  lemma {:induction false} KeptSubsequence(ds: seq<Evidence>, s: seq<real>, traits: nat, tolerance: real)
    requires 0 < traits == |s|
    ensures Subsequence(Kept(ds, s, traits, tolerance), ds)
  {
    if ds != [] {
      var init := ds[..|ds| - 1];
      var last := ds[|ds| - 1];
      KeptSubsequence(init, s, traits, tolerance);
      var k := Kept(init, s, traits, tolerance);
      assert ds == init + [last];
      if Agreement(last, s, traits) >= tolerance {
        assert (k + [last])[..|k|] == k;
      } else {
        assert Kept(ds, s, traits, tolerance) == k;
        SubsequenceExtend(k, init, last);
      }
    }
  }

  /** A trial is kept exactly when it is in ds and its agreement reaches the
      tolerance. */
  lemma {:induction false} KeptMembership(ds: seq<Evidence>, s: seq<real>, traits: nat, tolerance: real, x: Evidence)
    requires 0 < traits == |s|
    ensures x in Kept(ds, s, traits, tolerance) <==> x in ds && Agreement(x, s, traits) >= tolerance
  {
    if ds != [] {
      var init := ds[..|ds| - 1];
      KeptMembership(init, s, traits, tolerance, x);
      assert ds == init + [ds[|ds| - 1]];
    }
  }

  /** When every trial reaches the tolerance, nothing is dropped. */
  lemma {:induction false} KeptEverything(ds: seq<Evidence>, s: seq<real>, traits: nat, tolerance: real)
    requires 0 < traits == |s|
    requires forall i :: 0 <= i < |ds| ==> Agreement(ds[i], s, traits) >= tolerance
    ensures Kept(ds, s, traits, tolerance) == ds
  {
    if ds != [] {
      var init := ds[..|ds| - 1];
      var last := ds[|ds| - 1];
      assert forall i :: 0 <= i < |init| ==> init[i] == ds[i];
      KeptEverything(init, s, traits, tolerance);
      assert Agreement(last, s, traits) >= tolerance;
      assert Kept(ds, s, traits, tolerance) == init + [last];
      assert ds == init + [last];
    }
  }

  /** At tolerance 0 against a bounded summary, exactly the trials without a
      conflict survive. */
  lemma {:induction false} KeptAtZero(ds: seq<Evidence>, s: seq<real>, traits: nat)
    requires 0 < traits == |s| && Bounded(s)
    ensures Kept(ds, s, traits, 0.0) == WithoutConflicts(ds, traits)
  {
    if ds != [] {
      KeptAtZero(ds[..|ds| - 1], s, traits);
      AgreementRange(ds[|ds| - 1], s, traits);
    }
  }

  /** Raising the tolerance keeps a subsequence of what a lower one keeps. */
  lemma {:induction false} KeptMonotone(ds: seq<Evidence>, s: seq<real>, traits: nat, low: real, high: real)
    requires 0 < traits == |s| && low <= high
    ensures Subsequence(Kept(ds, s, traits, high), Kept(ds, s, traits, low))
  {
    if ds != [] {
      var init := ds[..|ds| - 1];
      var last := ds[|ds| - 1];
      KeptMonotone(init, s, traits, low, high);
      var kh := Kept(init, s, traits, high);
      var kl := Kept(init, s, traits, low);
      var a := Agreement(last, s, traits);
      if a >= high {
        assert (kh + [last])[..|kh|] == kh;
        assert (kl + [last])[..|kl|] == kl;
      } else if a >= low {
        assert Kept(ds, s, traits, high) == kh;
        assert Kept(ds, s, traits, low) == kl + [last];
        SubsequenceExtend(kh, kl, last);
      } else {
        assert Kept(ds, s, traits, high) == kh;
        assert Kept(ds, s, traits, low) == kl;
      }
    }
  }

  /** outlierCull returns a subsequence of the experiment's trials. */
  lemma CullIsSubsequence(ds: seq<Evidence>, traits: nat, tolerance: real)
    requires traits > 0
    ensures Subsequence(CulledOf(ds, traits, tolerance), ds)
    ensures multiset(CulledOf(ds, traits, tolerance)) <= multiset(ds)
  {
    if ds != [] {
      KeptSubsequence(ds, SummaryOf(ds, traits), traits, tolerance);
    }
    SubsequenceMultiset(CulledOf(ds, traits, tolerance), ds);
  }

  /** A trial survives culling exactly when it is one of the experiment's
      trials and its agreement with the experiment's summary reaches the
      tolerance. */
  lemma CullKeepsExactly(ds: seq<Evidence>, traits: nat, tolerance: real, x: Evidence)
    requires traits > 0 && |ds| > 0
    ensures x in CulledOf(ds, traits, tolerance)
        <==> x in ds && Agreement(x, SummaryOf(ds, traits), traits) >= tolerance
  {
    KeptMembership(ds, SummaryOf(ds, traits), traits, tolerance, x);
  }

  /** For any tolerance above -2, no conflicting trial survives. */
  lemma CullDropsConflicting(ds: seq<Evidence>, traits: nat, tolerance: real)
    requires traits > 0 && tolerance > -2.0
    ensures forall x :: x in CulledOf(ds, traits, tolerance) ==> !Conflicting(x, traits)
  {
    if ds != [] {
      var s := SummaryOf(ds, traits);
      forall x | x in CulledOf(ds, traits, tolerance) ensures !Conflicting(x, traits) {
        KeptMembership(ds, s, traits, tolerance, x);
      }
    }
  }

  /** Culling at tolerance 0 removes the conflicting trials and nothing else. */
  lemma CullAtZero(ds: seq<Evidence>, traits: nat)
    requires traits > 0
    ensures CulledOf(ds, traits, 0.0) == WithoutConflicts(ds, traits)
  {
    if ds != [] {
      KeptAtZero(ds, SummaryOf(ds, traits), traits);
    }
  }

  /** With no conflicting trial, culling at tolerance 0 keeps everything. */
  lemma {:induction false} NoConflictsKeepsAll(ds: seq<Evidence>, traits: nat)
    requires forall i :: 0 <= i < |ds| ==> !Conflicting(ds[i], traits)
    ensures WithoutConflicts(ds, traits) == ds
  {
    if ds != [] {
      var init := ds[..|ds| - 1];
      assert forall i :: 0 <= i < |init| ==> init[i] == ds[i];
      NoConflictsKeepsAll(init, traits);
      assert ds == init + [ds[|ds| - 1]];
    }
  }

  /** At tolerance 1 (or any lower one), every non-conflicting trial that
      votes with the sign of the experiment's summary on every trait survives. */
  lemma CullKeepsAgreeingTrials(ds: seq<Evidence>, traits: nat, tolerance: real, x: Evidence)
    requires traits > 0 && tolerance <= 1.0 && x in ds
    requires !Conflicting(x, traits) && AgreesWithMajority(x, SummaryOf(ds, traits), traits)
    ensures x in CulledOf(ds, traits, tolerance)
  {
    AgreeingTrialScoresAtLeastOne(x, SummaryOf(ds, traits), traits);
    CullKeepsExactly(ds, traits, tolerance, x);
  }

  /** Culling at a higher tolerance keeps a subsequence of what culling at a
      lower one keeps. */
  lemma CullMonotone(ds: seq<Evidence>, traits: nat, low: real, high: real)
    requires traits > 0 && low <= high
    ensures Subsequence(CulledOf(ds, traits, high), CulledOf(ds, traits, low))
  {
    if ds != [] {
      KeptMonotone(ds, SummaryOf(ds, traits), traits, low, high);
    }
  }

  /** Culling an already culled experiment again, at a tolerance no higher
      than the first and no higher than 0, removes nothing more. */
  lemma CullIdempotentAtLowTolerance(ds: seq<Evidence>, traits: nat, first: real, second: real)
    requires traits > 0 && second <= first && second <= 0.0
    ensures CulledOf(CulledOf(ds, traits, first), traits, second) == CulledOf(ds, traits, first)
  {
    var c := CulledOf(ds, traits, first);
    if c != [] {
      var s := SummaryOf(c, traits);
      if second > -2.0 {
        CullDropsConflicting(ds, traits, first);
      }
      forall i | 0 <= i < |c| ensures Agreement(c[i], s, traits) >= second {
        AgreementRange(c[i], s, traits);
      }
      KeptEverything(c, s, traits, second);
    }
  }

  /** No trial reaches a tolerance above 2 against a bounded summary, so the
      filter keeps nothing. */
  lemma {:induction false} KeptAboveTwo(ds: seq<Evidence>, s: seq<real>, traits: nat, tolerance: real)
    requires 0 < traits == |s| && Bounded(s) && tolerance > 2.0
    ensures Kept(ds, s, traits, tolerance) == []
  {
    if ds != [] {
      KeptAboveTwo(ds[..|ds| - 1], s, traits, tolerance);
      AgreementRange(ds[|ds| - 1], s, traits);
    }
  }

  /** Culling at a tolerance above 2 empties every experiment. */
  lemma CullAboveTwoIsEmpty(ds: seq<Evidence>, traits: nat, tolerance: real)
    requires traits > 0 && tolerance > 2.0
    ensures CulledOf(ds, traits, tolerance) == []
  {
    if ds != [] {
      KeptAboveTwo(ds, SummaryOf(ds, traits), traits, tolerance);
    }
  }

  /** Culling first at a tolerance above 2 leaves an empty experiment, which
      a second cull at any tolerance leaves as it is. */
  lemma CullIdempotentAboveTwo(ds: seq<Evidence>, traits: nat, first: real, second: real)
    requires traits > 0 && first > 2.0
    ensures CulledOf(CulledOf(ds, traits, first), traits, second) == CulledOf(ds, traits, first)
  {
    CullAboveTwoIsEmpty(ds, traits, first);
  }
}
