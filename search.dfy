/** The calibration loop: one simulation per iteration, a greedy incumbent
    (the best parameter vector so far, its objective and its simulation id),
    and the per-iteration record written to the summary and parameter files. */
module Search {
  import opened Wrappers
  import opened DecisionVars
  import opened Dds
  import opened Aggregation
  import opened SimIds

  /** The best solution so far: parameters, objective (lower is better) and
      the id of the simulation that produced it. */
  datatype Incumbent = Incumbent(x: seq<real>, f: real, id: string)

  /** One scored simulation: iteration number, its id, the parameters it ran
      with and its objective. */
  datatype Trial = Trial(iter: nat, id: string, x: seq<real>, fx: real)

  /** The first scored iteration installs its result unconditionally; later
      ones replace the incumbent when they are no worse (ties go to the
      newer simulation). */
  predicate Accepted(inc: Incumbent, t: Trial) {
    t.iter == 1 || t.fx <= inc.f
  }

  function Accept(inc: Incumbent, t: Trial): (r: Incumbent)
    ensures r.f <= t.fx
    ensures t.iter > 1 ==> r.f <= inc.f
    ensures r == inc || r == Incumbent(t.x, t.fx, t.id)
    ensures Accepted(inc, t) <==> r == Incumbent(t.x, t.fx, t.id)
  {
    if Accepted(inc, t) then Incumbent(t.x, t.fx, t.id) else inc
  }

  /** The incumbent after a sequence of trials, starting from `inc`. */
  function Replay(inc: Incumbent, trials: seq<Trial>): Incumbent
    decreases |trials|
  {
    if trials == [] then inc else Replay(Accept(inc, trials[0]), trials[1..])
  }

  /** Stopping after the trials `a` and resuming from the incumbent they left
      gives the same incumbent as one uninterrupted run. */
  lemma {:induction false} ReplaySplit(inc: Incumbent, a: seq<Trial>, b: seq<Trial>)
    ensures Replay(inc, a + b) == Replay(Replay(inc, a), b)
    decreases |a|
  {
    if a != [] {
      assert (a + b)[1..] == a[1..] + b;
      ReplaySplit(Accept(inc, a[0]), a[1..], b);
    } else {
      assert a + b == b;
    }
  }

  /** Without a first iteration among them, trials never make the incumbent
      worse. */
  lemma {:induction false} ReplayNonincreasing(inc: Incumbent, trials: seq<Trial>)
    requires forall k :: 0 <= k < |trials| ==> trials[k].iter > 1
    ensures Replay(inc, trials).f <= inc.f
    decreases |trials|
  {
    if trials != [] {
      ReplayNonincreasing(Accept(inc, trials[0]), trials[1..]);
    }
  }

  /** When only the first trial may be a first iteration, the incumbent is at
      least as good as every trial. */
  lemma {:induction false} ReplayBelowAll(inc: Incumbent, trials: seq<Trial>)
    requires forall k :: 0 < k < |trials| ==> trials[k].iter > 1
    ensures forall k :: 0 <= k < |trials| ==> Replay(inc, trials).f <= trials[k].fx
    decreases |trials|
  {
    if trials != [] {
      var next := Accept(inc, trials[0]);
      ReplayNonincreasing(next, trials[1..]);
      ReplayBelowAll(next, trials[1..]);
      forall k | 0 < k < |trials|
        ensures Replay(inc, trials).f <= trials[k].fx
      {
        assert trials[k] == trials[1..][k - 1];
      }
    }
  }

  /** The incumbent is the starting one or the result of one of the trials. */
  lemma {:induction false} ReplayFromTrials(inc: Incumbent, trials: seq<Trial>)
    ensures Replay(inc, trials) == inc ||
      exists k :: 0 <= k < |trials| && Replay(inc, trials) == Incumbent(trials[k].x, trials[k].fx, trials[k].id)
    decreases |trials|
  {
    if trials != [] {
      var next := Accept(inc, trials[0]);
      ReplayFromTrials(next, trials[1..]);
      if Replay(inc, trials) != next {
        var k :| 0 <= k < |trials[1..]| && Replay(next, trials[1..]) == Incumbent(trials[1..][k].x, trials[1..][k].fx, trials[1..][k].id);
        assert trials[1..][k] == trials[k + 1];
      }
    }
  }

  /** A run of four iterations whose objectives are 0.9, 0.5, 0.95 and 0.5:
      the third is rejected and the tie in the fourth is accepted. */
  lemma AcceptanceTrace(x1: seq<real>, x2: seq<real>, x3: seq<real>, x4: seq<real>)
    ensures
      var start := Incumbent(x1, 0.0, "01");
      var t1 := Trial(1, "01", x1, 0.9);
      var t2 := Trial(2, "02", x2, 0.5);
      var t3 := Trial(3, "03", x3, 0.95);
      var t4 := Trial(4, "04", x4, 0.5);
      && Replay(start, [t1]) == Incumbent(x1, 0.9, "01")
      && Replay(start, [t1, t2]) == Incumbent(x2, 0.5, "02")
      && Replay(start, [t1, t2, t3]) == Incumbent(x2, 0.5, "02")
      && Replay(start, [t1, t2, t3, t4]) == Incumbent(x4, 0.5, "04")
  {
    var start := Incumbent(x1, 0.0, "01");
    var t1 := Trial(1, "01", x1, 0.9);
    var t2 := Trial(2, "02", x2, 0.5);
    var t3 := Trial(3, "03", x3, 0.95);
    var t4 := Trial(4, "04", x4, 0.5);
    ReplaySplit(start, [t1], [t2]);
    assert [t1] + [t2] == [t1, t2];
    ReplaySplit(start, [t1, t2], [t3]);
    assert [t1, t2] + [t3] == [t1, t2, t3];
    ReplaySplit(start, [t1, t2, t3], [t4]);
    assert [t1, t2, t3] + [t4] == [t1, t2, t3, t4];
  }

  /** The state of a calibration run. The decision-variable table and the
      number of sites are read once per run; with fewer than two sites no
      simulation is ever scored. `start` is the incumbent the run began from
      (the initial solution, or the one a restart was given) and `log` holds
      every scored simulation since then. Every incumbent and every logged
      parameter vector lies within the table's bounds. */
  class Calibration {
    const m: nat
    const stop: nat
    const sites: nat
    const vars: seq<DecisionVar>
    var next: nat
    var xBest: seq<real>
    var fBest: real
    var idBest: string
    var log: seq<Trial>
    ghost const start: Incumbent

    function Best(): Incumbent
      reads this
    {
      Incumbent(xBest, fBest, idBest)
    }

    ghost predicate Valid()
      reads this
    {
      && next >= 1
      && Best() == Replay(start, log)
      && (forall k :: 0 <= k < |log| ==> 1 <= log[k].iter < next && log[k].id == SimId(log[k].iter, m))
      && (forall k, l :: 0 <= k < l < |log| ==> log[k].iter < log[l].iter)
      && (forall k :: 0 <= k < |log| ==> fBest <= log[k].fx)
      && (sites < 2 ==> log == [])
      && WithinBounds(vars, xBest)
      && (forall k :: 0 <= k < |log| ==> WithinBounds(vars, log[k].x))
    }

    /** A fresh run over a table whose initial values lie within their
        bounds: iteration 1 simulates those initial values, which are the
        incumbent until a score arrives. */
    constructor Begin(m: nat, stop: nat, sites: nat, vars: seq<DecisionVar>)
      requires forall j :: 0 <= j < |vars| ==> WellFormed(vars[j])
      ensures Valid()
      ensures this.m == m && this.stop == stop && this.sites == sites && this.vars == vars
      ensures next == 1 && log == []
      ensures xBest == InitialValues(vars) && fBest == 0.0 && idBest == SimId(1, m)
    {
      this.m := m;
      this.stop := stop;
      this.sites := sites;
      this.vars := vars;
      next := 1;
      xBest := InitialValues(vars);
      fBest := 0.0;
      idBest := SimId(1, m);
      log := [];
      start := Incumbent(InitialValues(vars), 0.0, SimId(1, m));
    }

    /** A restart at iteration `iStart` from a saved incumbent, which a run
        over the same table produced and so lies within its bounds. */
    constructor Resume(m: nat, stop: nat, sites: nat, vars: seq<DecisionVar>, iStart: nat, x: seq<real>, f: real, id: string)
      requires iStart > 1
      requires WithinBounds(vars, x)
      ensures Valid()
      ensures this.m == m && this.stop == stop && this.sites == sites && this.vars == vars
      ensures next == iStart && log == []
      ensures xBest == x && fBest == f && idBest == id
    {
      this.m := m;
      this.stop := stop;
      this.sites := sites;
      this.vars := vars;
      next := iStart;
      xBest := x;
      fBest := f;
      idBest := id;
      log := [];
      start := Incumbent(x, f, id);
    }

    /** Records the score of the current iteration's simulation of
        `candidate`, updates the incumbent by the acceptance rule and moves to
        the next iteration. Scores are formed only in runs with at least two
        sites, and candidates come from the step, within the bounds. */
    method Step(candidate: seq<real>, fx: real) returns (accepted: bool)
      requires Valid() && next < stop && sites >= 2
      requires WithinBounds(vars, candidate)
      modifies this
      ensures Valid()
      ensures next == old(next) + 1
      ensures log == old(log) + [Trial(old(next), SimId(old(next), m), candidate, fx)]
      ensures accepted <==> (old(next) == 1 || fx <= old(fBest))
      ensures Best() == if accepted then Incumbent(candidate, fx, SimId(old(next), m)) else old(Best())
    {
      var t := Trial(next, SimId(next, m), candidate, fx);
      accepted := next == 1 || fx <= fBest;
      if accepted {
        xBest, fBest, idBest := candidate, fx, t.id;
      }
      ReplaySplit(start, log, [t]);
      assert Replay(Replay(start, log), [t]) == Accept(Best(), t) by {
        assert [t][1..] == [];
      }
      log := log + [t];
      next := next + 1;
      ReplayBelowAll(start, log);
    }

    /** One whole iteration: iteration 1 simulates the incumbent itself, later
        ones a DDS candidate drawn around it from the run's table; the site
        scores of that simulation (one per site of the run) are combined and,
        when there are at least two sites, the result is recorded by `Step`.
        A step the budget or the table does not allow changes nothing. */
    method Iterate(r: real, draw: Draw, siteScores: seq<real>) returns (res: Result<seq<real>, DdsError>)
      requires Valid() && next < stop
      requires Fits(draw, |vars|)
      requires |siteScores| == sites
      modifies this
      ensures Valid()
      ensures old(next) > 1 && !BudgetAllows(old(next), m) ==> res == Failure(BudgetOutOfRange) && unchanged(this)
      ensures old(next) > 1 && BudgetAllows(old(next), m) && |vars| == 0 ==> res == Failure(NoVariables) && unchanged(this)
      ensures old(next) == 1 ==> res == Success(old(xBest))
      ensures old(next) > 1 && BudgetAllows(old(next), m) && |vars| > 0 ==> res == Success(Candidate(vars, old(xBest), r, draw))
      ensures res.Success? ==> WithinBounds(vars, res.value) && next == old(next) + 1
      ensures res.Success? && |siteScores| < 2 ==> log == old(log) && Best() == old(Best())
      ensures res.Success? && |siteScores| >= 2 ==>
        log == old(log) + [Trial(old(next), SimId(old(next), m), res.value, TwoSiteObjective(siteScores[0], siteScores[1]))]
    {
      if next == 1 {
        res := Success(xBest);
      } else {
        res := DdsStep(next, m, vars, xBest, r, draw);
        if res.Failure? {
          return;
        }
        CandidateInBounds(vars, xBest, r, draw);
      }
      var fx := IterationObjective(siteScores);
      if fx.Some? {
        var _ := Step(res.value, fx.value);
      } else {
        next := next + 1;
      }
    }
  }
}
