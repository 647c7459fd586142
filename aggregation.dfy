/** Turning the per-site weighted-NSE scores of one run into the single
    objective value the search minimises. */
module Aggregation {
  import opened Wrappers
  import Metrics

  datatype AggregationError = NoSites

  /** The objective of the two calibration sites: one minus the mean of their
      scores. Perfect fits at both sites give 0. */
  function TwoSiteObjective(f1: real, f2: real): (f: real)
    ensures f1 == 1.0 && f2 == 1.0 ==> f == 0.0
    ensures f1 <= 1.0 && f2 <= 1.0 ==> f >= 0.0
  {
    1.0 - ((f1 + f2) / 2.0)
  }

  /** Minimising the objective is maximising the summed scores. */
  lemma TwoSiteObjectiveOrder(a1: real, a2: real, b1: real, b2: real)
    ensures TwoSiteObjective(a1, a2) <= TwoSiteObjective(b1, b2) <==> a1 + a2 >= b1 + b2
  {
  }

  /** With the halved site scores of the weighted NSE as written, the objective
      of a run is (1 + f) / 2 where f is the objective from the intended scores:
      the reported values change, but since the map is increasing, every
      acceptance decision of the search is the same. */
  lemma HalvedScoresKeepAcceptance(a1: real, a2: real, b1: real, b2: real)
    ensures TwoSiteObjective(a1 / 2.0, a2 / 2.0) == (1.0 + TwoSiteObjective(a1, a2)) / 2.0
    ensures TwoSiteObjective(a1 / 2.0, a2 / 2.0) <= TwoSiteObjective(b1 / 2.0, b2 / 2.0)
        <==> TwoSiteObjective(a1, a2) <= TwoSiteObjective(b1, b2)
  {
  }

  /** The generalisation to any positive number of sites: one minus the mean
      score. No sites, no mean. */
  function MeanObjective(scores: seq<real>): (r: Result<real, AggregationError>)
    ensures r.Success? <==> |scores| > 0
    ensures r.Success? && (forall k :: 0 <= k < |scores| ==> scores[k] <= 1.0) ==> r.value >= 0.0
    ensures r.Success? && (forall k :: 0 <= k < |scores| ==> scores[k] == 1.0) ==> r.value == 0.0
  {
    if |scores| == 0 then Failure(NoSites)
    else
      MeanBounds(scores);
      Success(1.0 - Metrics.Sum(scores) / |scores| as real)
  }

  lemma MeanBounds(scores: seq<real>)
    requires |scores| > 0
    ensures (forall k :: 0 <= k < |scores| ==> scores[k] <= 1.0) ==> Metrics.Sum(scores) / |scores| as real <= 1.0
    ensures (forall k :: 0 <= k < |scores| ==> scores[k] == 1.0) ==> Metrics.Sum(scores) / |scores| as real == 1.0
  {
    if forall k :: 0 <= k < |scores| ==> scores[k] <= 1.0 {
      SumAtMost(scores, 1.0);
    }
    if forall k :: 0 <= k < |scores| ==> scores[k] == 1.0 {
      Metrics.SumOfConstant(scores, 1.0);
    }
  }

  /** Scores bounded by `c` sum to at most `|s|` times `c`. */
  lemma {:induction false} SumAtMost(s: seq<real>, c: real)
    requires forall k :: 0 <= k < |s| ==> s[k] <= c
    ensures Metrics.Sum(s) <= |s| as real * c
  {
    if s != [] {
      assert forall k :: 0 <= k < |s| - 1 ==> s[1..][k] == s[k + 1];
      SumAtMost(s[1..], c);
    }
  }

  /** For two sites the mean objective is the two-site objective. */
  lemma MeanObjectiveOfTwo(f1: real, f2: real)
    ensures MeanObjective([f1, f2]) == Success(TwoSiteObjective(f1, f2))
  {
    assert [f1, f2][1..] == [f2];
    assert [f2][1..] == [];
    assert Metrics.Sum([f2]) == f2 + Metrics.Sum([]);
    assert Metrics.Sum([f1, f2]) == f1 + Metrics.Sum([f2]);
  }

  /** The per-site pass of one run: the first site's score is held, and the
      objective is formed when the second site is reached. With fewer than two
      sites no objective is formed; sites after the second do not count. */
  method IterationObjective(siteScores: seq<real>) returns (fx: Option<real>)
    ensures |siteScores| < 2 <==> fx == None
    ensures |siteScores| >= 2 ==> fx == Some(TwoSiteObjective(siteScores[0], siteScores[1]))
  {
    var f1 := 0.0;
    fx := None;
    for row := 0 to |siteScores|
      invariant row >= 1 ==> f1 == siteScores[0]
      invariant row < 2 ==> fx == None
      invariant row >= 2 ==> fx == Some(TwoSiteObjective(siteScores[0], siteScores[1]))
    {
      if row == 0 {
        f1 := siteScores[row];
      } else if row == 1 {
        var f2 := siteScores[row];
        fx := Some(TwoSiteObjective(f1, f2));
      }
    }
  }
}
