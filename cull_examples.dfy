/** Worked examples of outlier culling on small two-trait experiments. They
    show where the agreement score departs from the informal reading of the
    tolerance: a trial that votes against the majority on one trait can
    still reach tolerance 1, and culling twice at tolerance 1 can drop a
    trial that the first pass kept. */
module CullingExamples {
  import opened Trials
  import opened Summaries
  import opened Culling

  /** Each count over a prefix one longer adds the vote of the next trial. */
  lemma CountSteps(ds: seq<Evidence>, j: nat, v: Verdict)
    ensures forall k :: 0 <= k < |ds| ==>
      Count(ds[..k + 1], j, v) == Count(ds[..k], j, v) + (if ds[k].VerdictAt(j) == v then 1 else 0)
  {
    forall k | 0 <= k < |ds|
      ensures Count(ds[..k + 1], j, v) == Count(ds[..k], j, v) + (if ds[k].VerdictAt(j) == v then 1 else 0)
    {
      assert ds[..k + 1][..k] == ds[..k];
    }
  }

  /** The comment on outlierCull says tolerance 1 removes every trial not in
      agreement with the majority. Here the trial [True, False] votes False
      on trait 1, whose score is positive, and still survives tolerance 1. */
  lemma MinorityVoteSurvivesAtOne()
    ensures var tt := Evidence([True, True], {});
            var tf := Evidence([True, False], {});
            var ds := [tt, tt, tf];
            SummaryOf(ds, 2) == [1.0, 1.0 / 3.0]
            && tf.IsFalse(1) && SummaryOf(ds, 2)[1] > 0.0
            && tf in CulledOf(ds, 2, 1.0)
  {
    var tt := Evidence([True, True], {});
    var tf := Evidence([True, False], {});
    var ds := [tt, tt, tf];
    CountSteps(ds, 0, True);
    CountSteps(ds, 0, False);
    CountSteps(ds, 1, True);
    CountSteps(ds, 1, False);
    assert ds[..3] == ds;
    assert CountTrue(ds, 0) == 3 && CountFalse(ds, 0) == 0;
    assert CountTrue(ds, 1) == 2 && CountFalse(ds, 1) == 1;
    var s := SummaryOf(ds, 2);
    assert s[0] == 1.0 && s[1] == 1.0 / 3.0;
    assert s == [1.0, 1.0 / 3.0];
    assert !Conflicting(tf, 2);
    assert Contribution(tf, s, 1) == 1.0;
    assert Contribution(tf, s, 2) == 1.0 - 1.0 / 3.0;
    assert Agreement(tf, s, 2) == 4.0 / 3.0;
    CullKeepsExactly(ds, 2, 1.0, tf);
  }

  /** The six trials of the second example: X votes True then False, Y only
      False on trait 1, P True on both traits, and R, three times over, only
      True on trait 1. */
  const X := Evidence([True, False], {})
  const Y := Evidence([Indeterminate, False], {})
  const P := Evidence([True, True], {})
  const R := Evidence([Indeterminate, True], {})

  /** The whole experiment scores 1/3 on both traits. */
  lemma FirstSummary()
    ensures SummaryOf([X, Y, P, R, R, R], 2) == [1.0 / 3.0, 1.0 / 3.0]
  {
    var ds := [X, Y, P, R, R, R];
    CountSteps(ds, 0, True);
    CountSteps(ds, 0, False);
    CountSteps(ds, 1, True);
    CountSteps(ds, 1, False);
    assert ds[..6] == ds;
    assert CountTrue(ds, 0) == 2 && CountFalse(ds, 0) == 0 by {
      assert Count(ds[..1], 0, True) == 1 && Count(ds[..2], 0, True) == 1;
      assert Count(ds[..3], 0, True) == 2 && Count(ds[..4], 0, True) == 2;
      assert Count(ds[..5], 0, True) == 2 && Count(ds[..1], 0, False) == 0;
      assert Count(ds[..2], 0, False) == 0 && Count(ds[..3], 0, False) == 0;
      assert Count(ds[..4], 0, False) == 0 && Count(ds[..5], 0, False) == 0;
    }
    assert CountTrue(ds, 1) == 4 && CountFalse(ds, 1) == 2 by {
      assert Count(ds[..1], 1, True) == 0 && Count(ds[..2], 1, True) == 0;
      assert Count(ds[..3], 1, True) == 1 && Count(ds[..4], 1, True) == 2;
      assert Count(ds[..5], 1, True) == 3 && Count(ds[..1], 1, False) == 1;
      assert Count(ds[..2], 1, False) == 2 && Count(ds[..3], 1, False) == 2;
      assert Count(ds[..4], 1, False) == 2 && Count(ds[..5], 1, False) == 2;
    }
    var s := SummaryOf(ds, 2);
    assert s[0] == 1.0 / 3.0 && s[1] == 1.0 / 3.0;
  }

  /** Against the summary [1/3, 1/3], X scores exactly 1, Y 5/6, P 4/3 and
      R 7/6. */
  lemma FirstAgreements()
    ensures var s := [1.0 / 3.0, 1.0 / 3.0];
            Agreement(X, s, 2) == 1.0 && Agreement(Y, s, 2) == 5.0 / 6.0
            && Agreement(P, s, 2) == 4.0 / 3.0 && Agreement(R, s, 2) == 7.0 / 6.0
  {
    var s := [1.0 / 3.0, 1.0 / 3.0];
    assert !Conflicting(X, 2) && !Conflicting(Y, 2) && !Conflicting(P, 2) && !Conflicting(R, 2);
    assert Contribution(X, s, 1) == 1.0 / 3.0 && Contribution(X, s, 2) == 0.0;
    assert Contribution(Y, s, 1) == 0.0 && Contribution(Y, s, 2) == -1.0 / 3.0;
    assert Contribution(P, s, 1) == 1.0 / 3.0 && Contribution(P, s, 2) == 2.0 / 3.0;
    assert Contribution(R, s, 1) == 0.0 && Contribution(R, s, 2) == 1.0 / 3.0;
  }

  /** Filtering six trials of the first example's shape, with the third and
      later trials passing and the second failing, keeps all but the second. */
  lemma KeptAllButSecond(x: Evidence, y: Evidence, p: Evidence, r: Evidence, s: seq<real>)
    requires |s| == 2
    requires Agreement(x, s, 2) >= 1.0 && Agreement(y, s, 2) < 1.0
    requires Agreement(p, s, 2) >= 1.0 && Agreement(r, s, 2) >= 1.0
    ensures Kept([x, y, p, r, r, r], s, 2, 1.0) == [x, p, r, r, r]
  {
    var a1 := [] + [x];
    var a2 := a1 + [y];
    var a3 := a2 + [p];
    var a4 := a3 + [r];
    var a5 := a4 + [r];
    KeptSnoc([], x, s, 2, 1.0);
    KeptSnoc(a1, y, s, 2, 1.0);
    KeptSnoc(a2, p, s, 2, 1.0);
    KeptSnoc(a3, r, s, 2, 1.0);
    KeptSnoc(a4, r, s, 2, 1.0);
    KeptSnoc(a5, r, s, 2, 1.0);
    assert a5 + [r] == [x, y, p, r, r, r];
    assert [] + [x] + [p] + [r] + [r] + [r] == [x, p, r, r, r];
  }

  /** Against the whole experiment's own summary tolerance 1 drops only Y. */
  lemma FirstPassDropsOnlyY()
    ensures CulledOf([X, Y, P, R, R, R], 2, 1.0) == [X, P, R, R, R]
  {
    FirstSummary();
    FirstAgreements();
    KeptAllButSecond(X, Y, P, R, [1.0 / 3.0, 1.0 / 3.0]);
  }

  /** The survivors of the first pass score 2/5 and 3/5. */
  lemma SecondSummary()
    ensures SummaryOf([X, P, R, R, R], 2) == [2.0 / 5.0, 3.0 / 5.0]
  {
    var c := [X, P, R, R, R];
    CountSteps(c, 0, True);
    CountSteps(c, 0, False);
    CountSteps(c, 1, True);
    CountSteps(c, 1, False);
    assert c[..5] == c;
    assert CountTrue(c, 0) == 2 && CountFalse(c, 0) == 0 by {
      assert Count(c[..1], 0, True) == 1 && Count(c[..2], 0, True) == 2;
      assert Count(c[..3], 0, True) == 2 && Count(c[..4], 0, True) == 2;
      assert Count(c[..1], 0, False) == 0 && Count(c[..2], 0, False) == 0;
      assert Count(c[..3], 0, False) == 0 && Count(c[..4], 0, False) == 0;
    }
    assert CountTrue(c, 1) == 4 && CountFalse(c, 1) == 1 by {
      assert Count(c[..1], 1, True) == 0 && Count(c[..2], 1, True) == 1;
      assert Count(c[..3], 1, True) == 2 && Count(c[..4], 1, True) == 3;
      assert Count(c[..1], 1, False) == 1 && Count(c[..2], 1, False) == 1;
      assert Count(c[..3], 1, False) == 1 && Count(c[..4], 1, False) == 1;
    }
    var s := SummaryOf(c, 2);
    assert s[0] == 2.0 / 5.0 && s[1] == 3.0 / 5.0;
  }

  /** Against the summary [2/5, 3/5], X scores 9/10, P 3/2 and R 13/10. */
  lemma SecondAgreements()
    ensures var s := [2.0 / 5.0, 3.0 / 5.0];
            Agreement(X, s, 2) == 9.0 / 10.0 && Agreement(P, s, 2) == 3.0 / 2.0
            && Agreement(R, s, 2) == 13.0 / 10.0
  {
    var s := [2.0 / 5.0, 3.0 / 5.0];
    assert !Conflicting(X, 2) && !Conflicting(P, 2) && !Conflicting(R, 2);
    assert Contribution(X, s, 1) == 2.0 / 5.0 && Contribution(X, s, 2) == -1.0 / 5.0;
    assert Contribution(P, s, 1) == 2.0 / 5.0 && Contribution(P, s, 2) == 1.0;
    assert Contribution(R, s, 1) == 0.0 && Contribution(R, s, 2) == 3.0 / 5.0;
  }

  /** Filtering five trials of the second example's shape, with the first
      failing and the rest passing, keeps all but the first. */
  lemma KeptAllButFirst(x: Evidence, p: Evidence, r: Evidence, s: seq<real>)
    requires |s| == 2
    requires Agreement(x, s, 2) < 1.0
    requires Agreement(p, s, 2) >= 1.0 && Agreement(r, s, 2) >= 1.0
    ensures Kept([x, p, r, r, r], s, 2, 1.0) == [p, r, r, r]
  {
    var a1 := [] + [x];
    var a2 := a1 + [p];
    var a3 := a2 + [r];
    var a4 := a3 + [r];
    KeptSnoc([], x, s, 2, 1.0);
    KeptSnoc(a1, p, s, 2, 1.0);
    KeptSnoc(a2, r, s, 2, 1.0);
    KeptSnoc(a3, r, s, 2, 1.0);
    KeptSnoc(a4, r, s, 2, 1.0);
    assert a4 + [r] == [x, p, r, r, r];
    assert [] + [p] + [r] + [r] + [r] == [p, r, r, r];
  }

  /** Against the survivors' own summary tolerance 1 now drops X. */
  lemma SecondPassDropsX()
    ensures CulledOf([X, P, R, R, R], 2, 1.0) == [P, R, R, R]
  {
    SecondSummary();
    SecondAgreements();
    KeptAllButFirst(X, P, R, [2.0 / 5.0, 3.0 / 5.0]);
  }

  /** Culling an already culled experiment again at the same tolerance 1
      removes X, which the first pass kept: the survivors' summary is no
      longer the one X was first judged against. */
  lemma CullNotIdempotentAtOne()
    ensures var ds := [X, Y, P, R, R, R];
            CulledOf(CulledOf(ds, 2, 1.0), 2, 1.0) != CulledOf(ds, 2, 1.0)
  {
    FirstPassDropsOnlyY();
    SecondPassDropsX();
    assert |[P, R, R, R]| != |[X, P, R, R, R]|;
  }
}
