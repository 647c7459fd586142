/** The decision-variable table of the calibration script: one row per
    calibrated soil parameter, read once before the search starts. */
module DecisionVars {
  import opened Indices

  /** One row of the decision-variable table: its name, bounds, initial value,
      the inclusion flag (0 = drop) and the type tag (0 = reset to the initial
      value after each run, 1 = keep the candidate value). */
  datatype DecisionVar = DecisionVar(name: string, lo: real, hi: real, ini: real, flag: int, kind: int)

  /** The table's own invariant: the initial value lies within the bounds. */
  predicate WellFormed(v: DecisionVar) {
    v.lo <= v.ini <= v.hi
  }

  /** The initial solution: each variable's initial value, in table order. */
  function InitialValues(vars: seq<DecisionVar>): (x: seq<real>)
    ensures |x| == |vars|
    ensures forall j :: 0 <= j < |vars| ==> x[j] == vars[j].ini
    ensures (forall j :: 0 <= j < |vars| ==> WellFormed(vars[j])) ==> forall j :: 0 <= j < |vars| ==> vars[j].lo <= x[j] <= vars[j].hi
  {
    seq(|vars|, j requires 0 <= j < |vars| => vars[j].ini)
  }

  /** `x` assigns each variable of the table a value within its bounds. */
  predicate WithinBounds(vars: seq<DecisionVar>, x: seq<real>) {
    |x| == |vars| && forall j :: 0 <= j < |vars| ==> vars[j].lo <= x[j] <= vars[j].hi
  }

  /** Which rows survive the filter: those whose flag is not 0. */
  function KeepFlags(vars: seq<DecisionVar>): (r: seq<bool>)
    ensures |r| == |vars|
    ensures forall j :: 0 <= j < |vars| ==> (r[j] <==> vars[j].flag != 0)
  {
    seq(|vars|, j requires 0 <= j < |vars| => vars[j].flag != 0)
  }

  /** Drops the rows flagged 0 and re-indexes the survivors from 0: row `k` of
      the result is the `k`-th surviving row of the input, so the survivors are
      exactly the rows with a non-zero flag, in their original order. */
  method DropFlagged(vars: seq<DecisionVar>) returns (kept: seq<DecisionVar>)
    ensures |kept| == |Where(KeepFlags(vars))|
    ensures forall k :: 0 <= k < |kept| ==> kept[k] == vars[Where(KeepFlags(vars))[k]]
    ensures forall k :: 0 <= k < |kept| ==> kept[k].flag != 0
  {
    ghost var flags := KeepFlags(vars);
    kept := [];
    var d := 0;
    while d < |vars|
      invariant 0 <= d <= |vars|
      invariant |kept| == |Where(flags[..d])|
      invariant forall k :: 0 <= k < |kept| ==> kept[k] == vars[Where(flags[..d])[k]]
    {
      WhereSnoc(flags[..d], flags[d]);
      assert flags[..d + 1] == flags[..d] + [flags[d]];
      if vars[d].flag != 0 {
        kept := kept + [vars[d]];
      }
      d := d + 1;
    }
    assert flags[..d] == flags;
  }

  /** The value sent to the reset script for one variable: the initial value
      for type 0, the candidate value for type 1, and for any other type the
      value last sent (the loop variable is left over from the previous row). */
  function ResetValue(v: DecisionVar, candidate: real, carried: real): real {
    if v.kind == 0 then v.ini
    else if v.kind == 1 then candidate
    else carried
  }

  /** The reset pass after a run: one value per variable. Before the first row
      the carried value is the last candidate value, which the update pass
      assigned last. */
  method ResetValues(vars: seq<DecisionVar>, xNew: seq<real>) returns (vals: seq<real>)
    requires |xNew| == |vars|
    ensures |vals| == |vars|
    ensures forall j :: 0 <= j < |vars| && vars[j].kind == 0 ==> vals[j] == vars[j].ini
    ensures forall j :: 0 <= j < |vars| && vars[j].kind == 1 ==> vals[j] == xNew[j]
    ensures forall j :: 0 < j < |vars| && vars[j].kind !in {0, 1} ==> vals[j] == vals[j - 1]
    ensures |vars| > 0 && vars[0].kind !in {0, 1} ==> vals[0] == xNew[|xNew| - 1]
  {
    vals := [];
    if |vars| == 0 {
      return;
    }
    var carried := xNew[|xNew| - 1];
    for j := 0 to |vars|
      invariant |vals| == j
      invariant j > 0 ==> carried == vals[j - 1]
      invariant j == 0 ==> carried == xNew[|xNew| - 1]
      invariant forall k :: 0 <= k < j && vars[k].kind == 0 ==> vals[k] == vars[k].ini
      invariant forall k :: 0 <= k < j && vars[k].kind == 1 ==> vals[k] == xNew[k]
      invariant forall k :: 0 < k < j && vars[k].kind !in {0, 1} ==> vals[k] == vals[k - 1]
      invariant j > 0 && vars[0].kind !in {0, 1} ==> vals[0] == xNew[|xNew| - 1]
    {
      carried := ResetValue(vars[j], xNew[j], carried);
      vals := vals + [carried];
    }
  }
}
