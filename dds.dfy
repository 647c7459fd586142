/** One step of Dynamically Dimensioned Search (Tolson and Shoemaker, 2007):
    choose a neighbourhood of variables, perturb each chosen coordinate of the
    incumbent by a scaled draw, and bring it back into its bounds by one
    reflection followed, if needed, by a clamp. The random choices are inputs. */
module Dds {
  import opened Wrappers
  import opened Indices
  import opened DecisionVars

  /** The random choices of one step: a selection bit per variable, the
      variable forced in when no bit is set, and one draw per variable (only
      the draws of selected variables are used). */
  datatype Draw = Draw(sel: seq<bool>, fallback: nat, z: seq<real>)

  /** Why a step cannot be taken: the inclusion probability `1 - ln(i)/ln(m)`
      is undefined (a budget below 2, or iteration 0) or negative (an
      iteration past the budget), or the table is empty. */
  datatype DdsError = BudgetOutOfRange | NoVariables

  /** The iterations at which the inclusion probability is a probability. */
  predicate BudgetAllows(i: nat, m: nat) {
    2 <= m && 1 <= i <= m
  }

  /** The draw fits a table of `d` variables. */
  predicate Fits(draw: Draw, d: nat) {
    |draw.sel| == d && |draw.z| == d && (d > 0 ==> draw.fallback < d)
  }

  /** The neighbourhood: the selected positions in increasing order, or the
      fallback position alone when none is selected. It is never empty. */
  function Neighbourhood(sel: seq<bool>, fallback: nat): (n: seq<nat>)
    requires fallback < |sel|
    ensures n != []
    ensures forall k :: 0 <= k < |n| ==> n[k] < |sel|
    ensures forall k, l :: 0 <= k < l < |n| ==> n[k] < n[l]
    ensures (exists j :: 0 <= j < |sel| && sel[j]) ==> forall j :: 0 <= j < |sel| ==> (j in n <==> sel[j])
    ensures (forall j :: 0 <= j < |sel| ==> !sel[j]) ==> n == [fallback]
  {
    var chosen := Where(sel);
    if chosen == [] then [fallback]
    else assert sel[chosen[0]]; chosen
  }

  /** The unrepaired perturbed value: the incumbent plus the draw scaled by the
      ratio `r` times the width of the variable's range. */
  function Proposal(v: DecisionVar, best: real, r: real, z: real): real {
    var sig := r * (v.hi - v.lo);
    best + sig * z
  }

  /** The first repair block: a value below the lower bound is mirrored across
      it, and falls back to the lower bound if the mirror image passes the upper
      bound. With ordered bounds its result is never above the upper bound, so
      the second block does not fire afterwards. */
  function RepairBelow(x: real, lo: real, hi: real): (y: real)
    ensures x >= lo ==> y == x
    ensures x < lo && lo <= hi ==> lo <= y <= hi
  {
    if x < lo then
      var mirrored := lo + (lo - x);
      if mirrored > hi then lo else mirrored
    else x
  }

  /** The second repair block, the mirror image of the first at the upper bound. */
  function RepairAbove(x: real, lo: real, hi: real): (y: real)
    ensures x <= hi ==> y == x
    ensures x > hi && lo <= hi ==> lo <= y <= hi
  {
    if x > hi then
      var mirrored := hi - (x - hi);
      if mirrored < lo then hi else mirrored
    else x
  }

  /** Reflect-then-clamp repair: the two blocks applied in order. */
  function Repair(x: real, lo: real, hi: real): (y: real)
    ensures lo <= hi ==> lo <= y <= hi
    ensures lo <= x <= hi ==> y == x
    ensures x < lo && lo <= hi ==> y == (if 2.0 * lo - x <= hi then 2.0 * lo - x else lo)
    ensures x > hi && lo <= hi ==> y == (if 2.0 * hi - x >= lo then 2.0 * hi - x else hi)
  {
    RepairAbove(RepairBelow(x, lo, hi), lo, hi)
  }

  /** With ordered bounds the second block never changes what the first block
      produced from a value below the lower bound. */
  lemma SecondBlockIdleAfterFirst(x: real, lo: real, hi: real)
    requires lo <= hi && x < lo
    ensures RepairAbove(RepairBelow(x, lo, hi), lo, hi) == RepairBelow(x, lo, hi)
  {
  }

  /** Reflection and clamping on the bounds [0, 10]. */
  lemma RepairExamples()
    ensures Repair(-3.0, 0.0, 10.0) == 3.0
    ensures Repair(13.0, 0.0, 10.0) == 7.0
    ensures Repair(-25.0, 0.0, 10.0) == 0.0
    ensures Repair(25.0, 0.0, 10.0) == 10.0
  {
  }

  /** The candidate the step produces: selected coordinates perturbed and
      repaired, all others copied from the incumbent. */
  function Candidate(vars: seq<DecisionVar>, xBest: seq<real>, r: real, draw: Draw): (x: seq<real>)
    requires |vars| > 0 && |xBest| == |vars| && Fits(draw, |vars|)
    ensures |x| == |xBest|
  {
    var n := Neighbourhood(draw.sel, draw.fallback);
    seq(|xBest|, j requires 0 <= j < |xBest| =>
      if j in n then Repair(Proposal(vars[j], xBest[j], r, draw.z[j]), vars[j].lo, vars[j].hi)
      else xBest[j])
  }

  /** Every coordinate outside the neighbourhood keeps the incumbent's value,
      at least one coordinate is in the neighbourhood, and a coordinate in it
      whose perturbed value lands within its bounds takes exactly that value:
      the incumbent's plus the draw scaled by `r` times the range's width. */
  lemma CandidateCoordinates(vars: seq<DecisionVar>, xBest: seq<real>, r: real, draw: Draw)
    requires |vars| > 0 && |xBest| == |vars| && Fits(draw, |vars|)
    ensures forall j :: 0 <= j < |xBest| && j !in Neighbourhood(draw.sel, draw.fallback) ==> Candidate(vars, xBest, r, draw)[j] == xBest[j]
    ensures exists j :: 0 <= j < |xBest| && j in Neighbourhood(draw.sel, draw.fallback)
    ensures forall j :: 0 <= j < |xBest| && j in Neighbourhood(draw.sel, draw.fallback) ==>
      var p := xBest[j] + r * (vars[j].hi - vars[j].lo) * draw.z[j];
      vars[j].lo <= p <= vars[j].hi ==> Candidate(vars, xBest, r, draw)[j] == p
  {
    var n := Neighbourhood(draw.sel, draw.fallback);
    var c := Candidate(vars, xBest, r, draw);
    assert n[0] in n;
    forall j | 0 <= j < |xBest| && j in n
      ensures var p := xBest[j] + r * (vars[j].hi - vars[j].lo) * draw.z[j];
        vars[j].lo <= p <= vars[j].hi ==> c[j] == p
    {
      var p := Proposal(vars[j], xBest[j], r, draw.z[j]);
      assert c[j] == Repair(p, vars[j].lo, vars[j].hi);
    }
  }

  /** Every coordinate of the candidate lies within its variable's bounds when
      the bounds are ordered and the incumbent already lies within them. */
  lemma CandidateInBounds(vars: seq<DecisionVar>, xBest: seq<real>, r: real, draw: Draw)
    requires |vars| > 0 && |xBest| == |vars| && Fits(draw, |vars|)
    requires forall j :: 0 <= j < |vars| ==> vars[j].lo <= xBest[j] <= vars[j].hi
    ensures forall j :: 0 <= j < |vars| ==> vars[j].lo <= Candidate(vars, xBest, r, draw)[j] <= vars[j].hi
  {
  }

  /** The first DDS step, taken around the initial values of a table whose
      initial values lie within their bounds, stays within the bounds. */
  lemma FirstCandidateInBounds(vars: seq<DecisionVar>, r: real, draw: Draw)
    requires |vars| > 0 && Fits(draw, |vars|)
    requires forall j :: 0 <= j < |vars| ==> WellFormed(vars[j])
    ensures forall j :: 0 <= j < |vars| ==> vars[j].lo <= Candidate(vars, InitialValues(vars), r, draw)[j] <= vars[j].hi
  {
    CandidateInBounds(vars, InitialValues(vars), r, draw);
  }

  /** The DDS step of iteration `i` under budget `m`: selection pass, then the
      perturbation pass writing into a fresh copy of the incumbent. It fails
      first when the inclusion probability is not a probability, and then when
      the table is empty and there is no fallback to draw from. */
  method DdsStep(i: nat, m: nat, vars: seq<DecisionVar>, xBest: seq<real>, r: real, draw: Draw) returns (res: Result<seq<real>, DdsError>)
    requires |xBest| == |vars| && Fits(draw, |vars|)
    ensures !BudgetAllows(i, m) <==> res == Failure(BudgetOutOfRange)
    ensures BudgetAllows(i, m) ==> (|vars| == 0 <==> res == Failure(NoVariables))
    ensures BudgetAllows(i, m) && |vars| > 0 ==> res == Success(Candidate(vars, xBest, r, draw))
  {
    if !BudgetAllows(i, m) {
      return Failure(BudgetOutOfRange);
    }
    if |vars| == 0 {
      return Failure(NoVariables);
    }
    var n := SelectNeighbourhood(draw.sel, draw.fallback);
    var xNew := new real[|xBest|](j requires 0 <= j < |xBest| => xBest[j]);
    assert xNew[..] == xBest;
    PerturbInPlace(vars, xNew, xBest, r, draw.z, n);
    assert xNew[..] == Candidate(vars, xBest, r, draw);
    res := Success(xNew[..]);
  }

  /** The selection pass: collects the positions whose bit is set, then forces
      in the fallback when none is. */
  method SelectNeighbourhood(sel: seq<bool>, fallback: nat) returns (n: seq<nat>)
    requires fallback < |sel|
    ensures n == Neighbourhood(sel, fallback)
  {
    n := [];
    for d := 0 to |sel|
      invariant n == Where(sel[..d])
    {
      WhereSnoc(sel[..d], sel[d]);
      assert sel[..d + 1] == sel[..d] + [sel[d]];
      if sel[d] {
        n := n + [d];
      }
    }
    assert sel[..|sel|] == sel;
    if |n| < 1 {
      n := n + [fallback];
    }
  }

  /** The perturbation pass: for each position of the neighbourhood, writes the
      perturbed value into `x` and repairs it there with the two blocks in order.
      `best` is the incumbent; `x` starts as a copy of it. */
  method PerturbInPlace(vars: seq<DecisionVar>, x: array<real>, best: seq<real>, r: real, z: seq<real>, n: seq<nat>)
    requires |vars| > 0 && x.Length == |best| == |vars| == |z|
    requires forall k :: 0 <= k < |n| ==> n[k] < |vars|
    requires forall k, l :: 0 <= k < l < |n| ==> n[k] < n[l]
    modifies x
    ensures forall j :: 0 <= j < x.Length ==> x[j] == if j in n then Repair(Proposal(vars[j], best[j], r, z[j]), vars[j].lo, vars[j].hi) else old(x[j])
  {
    for k := 0 to |n|
      invariant forall j :: 0 <= j < x.Length ==> x[j] == if j in n[..k] then Repair(Proposal(vars[j], best[j], r, z[j]), vars[j].lo, vars[j].hi) else old(x[j])
    {
      var j := n[k];
      var lo, hi := vars[j].lo, vars[j].hi;
      var p := Proposal(vars[j], best[j], r, z[j]);
      x[j] := p;
      if x[j] < lo {
        x[j] := lo + (lo - x[j]);
        if x[j] > hi {
          x[j] := lo;
        }
      }
      assert x[j] == RepairBelow(p, lo, hi);
      if x[j] > hi {
        x[j] := hi - (x[j] - hi);
        if x[j] < lo {
          x[j] := hi;
        }
      }
      assert x[j] == Repair(p, lo, hi);
      assert forall i :: 0 <= i < k ==> n[i] != j;
      assert n[..k + 1] == n[..k] + [j];
    }
    assert n[..|n|] == n;
  }
}

/** The step as the source writes it: the candidate is not a copy but the
    incumbent array itself, so the perturbation pass overwrites the incumbent. */
module DdsAsWritten {
  import opened Wrappers
  import opened DecisionVars
  import opened Dds

  /** As written, the returned candidate IS the incumbent array, and the
      incumbent's contents become the candidate whatever the later acceptance
      test decides. (Each position is visited once, so reading the incumbent's
      value before writing it sees the original value.) */
  method DdsStepAliased(vars: seq<DecisionVar>, xBest: array<real>, r: real, draw: Draw) returns (res: Result<array<real>, DdsError>)
    requires xBest.Length == |vars| && Fits(draw, |vars|)
    modifies xBest
    ensures |vars| == 0 ==> res == Failure(NoVariables) && xBest[..] == old(xBest[..])
    ensures |vars| > 0 ==> res == Success(xBest) && xBest[..] == Candidate(vars, old(xBest[..]), r, draw)
  {
    if |vars| == 0 {
      return Failure(NoVariables);
    }
    var n := SelectNeighbourhood(draw.sel, draw.fallback);
    var xNew := xBest;
    PerturbInPlace(vars, xNew, xBest[..], r, draw.z, n);
    assert xBest[..] == Candidate(vars, old(xBest[..]), r, draw);
    res := Success(xNew);
  }

  /** A concrete step: one variable on [0, 10] at 5, selected, ratio 0.2 and
      draw 1 gives the candidate [7]. */
  lemma OneVariableCandidate()
    ensures Candidate([DecisionVar("REFKDT", 0.0, 10.0, 5.0, 1, 0)], [5.0], 0.2, Draw([true], 0, [1.0])) == [7.0]
  {
    var c := Candidate([DecisionVar("REFKDT", 0.0, 10.0, 5.0, 1, 0)], [5.0], 0.2, Draw([true], 0, [1.0]));
    assert 0 in Neighbourhood([true], 0);
    assert c[0] == 7.0;
  }

  /** The same step through the alias: the incumbent array holding [5] is
      itself [7] after the step, before any acceptance test has run, so a
      rejected candidate still replaces the incumbent. */
  method AliasedStepExample() returns (incumbent: array<real>)
    ensures incumbent[..] == [7.0]
  {
    incumbent := new real[1];
    incumbent[0] := 5.0;
    var res := DdsStepAliased([DecisionVar("REFKDT", 0.0, 10.0, 5.0, 1, 0)], incumbent, 0.2, Draw([true], 0, [1.0]));
    OneVariableCandidate();
    assert incumbent[..] == [7.0];
  }
}
