# WRF-Hydro calibration: DDS step, fit metrics and search controller

This project models the core of the WRF-Hydro calibration scripts in Dafny.

- **The DDS step.** One step of Dynamically Dimensioned Search (Tolson and Shoemaker, 2007) runs in three stages:
  - it picks a neighbourhood of decision variables;
  - it perturbs each chosen coordinate of the incumbent by a scaled draw;
  - it repairs an out-of-range value with one reflection, falling back to the nearer bound if the reflection also overshoots.
- **The fit metrics.** These score a simulated discharge series against an observed one:
  - Nash-Sutcliffe efficiency;
  - percent bias;
  - the mean squared error under the RMSE's root;
  - the weighting of NSE and log-NSE.
- **The search controller.** It runs one simulation per iteration and keeps a greedy incumbent: the best parameter vector so far, its objective and its simulation id. Around it are:
  - the two-site objective;
  - the decision-variable filter;
  - the alignment of simulated and observed series on common timestamps;
  - the post-run reset rule;
  - the zero-padded simulation ids.

The random choices of a DDS step are inputs (`Dds.Draw`):
- one selection bit per variable;
- the variable forced in when no bit is set;
- one draw per variable.

The external simulation is also an input: the controller is given the per-site scores of each run.

Modules, one per file:
- `Indices`: the positions of the set flags. The neighbourhood, the variable filter and the alignment are all built on it.
- `DecisionVars`: the decision-variable table, the filter and the reset rule.
- `Dds`: the step, as functions (`Neighbourhood`, `Repair`, `Candidate`) and as the imperative passes the source runs (`SelectNeighbourhood`, `PerturbInPlace`, `DdsStep`).
- `DdsAsWritten`: the step as written, where the candidate is the incumbent array itself.
- `Metrics`: the metrics.
- `Aggregation`: the two-site objective and its generalisation to any number of sites.
- `Alignment`: the timestamp alignment.
- `SimIds`: the simulation ids.
- `Search`: the acceptance rule, `Replay` (the incumbent after a sequence of trials) and the `Calibration` class, whose `Step` records one scored trial.

### Where the model departs from the code

- **`dss_sel` signature.** `dss_sel` is declared with four parameters (`WRFHydro/Calibration/calib_tools.py:17`) but called with the incumbent as a fifth (`WRFHydro/Calibration/calibration.py:91`). The model takes the incumbent as a parameter.
- **Empty neighbourhood.** The fallback adds a variable's name rather than its position (`calib_tools.py:36`), so the following `loc[j, ...]` lookups would fail. The model adds a position.
- **The draw.** The perturbation draw is `np.random.normal(1)`, a normal draw with mean 1 (`calib_tools.py:48`). Canonical DDS (Tolson and Shoemaker, 2007) uses a zero-mean draw. The model takes the draw `z` as an arbitrary real, which covers both.
- **Restart.** The restart branch (`calibration.py:82-86`) cannot complete in a restarted process. `df_calib` is unbound at line 84, so that line raises `NameError`. Even past it, only the incumbent vector would be restored: `f_best` would be unbound at the comparison at line 216. `Search.Calibration.Resume` instead starts from an explicit `(xBest, fBest, idBest)`.
- **Metric block.** The call to `kge` at `calibration.py:183` passes `n` positionally into `sr` and also passes `sr=1`. That raises `TypeError` for the first site of every iteration, before the aggregation and acceptance at lines 188-228. The model assumes the metric block completes and the site scores reach the aggregation.
- **Acceptance happens only at the second site.** The objective is formed and the incumbent updated only when the per-site loop reaches its second row (`calibration.py:188-228`). With one site nothing is ever scored or accepted, and sites after the second do not count. `Aggregation.IterationObjective` and `Search.Calibration.Iterate` model this literally. `Aggregation.MeanObjective` is the k-site mean, offered as a generalisation and proved equal to the two-site objective for two sites.
- **Incumbent copy.** The candidate aliases the incumbent (`calib_tools.py:41`), and the weighted NSE is halved (`calib_tools.py:107`). Both are under Findings. `Dds.DdsStep` and `Search.Calibration.Iterate` use a fresh copy of the incumbent. The controller takes site scores as inputs and does not compute them, so neither weighting is used outside `Metrics`. `Aggregation.HalvedScoresKeepAcceptance` proves that halved scores lead to the same acceptance decisions.

## Model

| member | source | states |
|---|---|---|
| Indices.Where | WRFHydro/Calibration/calib_tools.py:25-31 | the positions whose bit is set, strictly increasing, each of them in range and set, and every set position present |
| DecisionVars.DropFlagged | WRFHydro/Calibration/calibration.py:35-37 | row k of the result is the k-th row with a non-zero flag: exactly the kept rows, in their original order, re-indexed from 0, all with a non-zero flag |
| DecisionVars.ResetValues | WRFHydro/Calibration/calibration.py:105-117 | type 0 resets to the initial value; type 1 keeps the candidate value; any other type resends the previous row's value, or for the first row the last value the update pass sent |
| Dds.Neighbourhood | WRFHydro/Calibration/calib_tools.py:24-37 | never empty, increasing, in range; when some bit is set it holds exactly the set positions, otherwise exactly the fallback position |
| Dds.SelectNeighbourhood | WRFHydro/Calibration/calib_tools.py:25-36 | the selection loop followed by the forced fallback computes `Neighbourhood` |
| Dds.RepairBelow | WRFHydro/Calibration/calib_tools.py:49-52 | a value at or above the lower bound is untouched; a value below it ends within the bounds when they are ordered |
| Dds.RepairAbove | WRFHydro/Calibration/calib_tools.py:53-56 | a value at or below the upper bound is untouched; a value above it ends within the bounds when they are ordered |
| Dds.Repair | WRFHydro/Calibration/calib_tools.py:49-56 | with ordered bounds the result is within them; an in-range value is unchanged; below the range it is `2·lo − x` if that fits, else `lo`; above the range it is `2·hi − x` if that fits, else `hi` |
| Dds.SecondBlockIdleAfterFirst | WRFHydro/Calibration/calib_tools.py:49-56 | after the lower-bound block has fired, the upper-bound block changes nothing |
| Dds.RepairExamples | WRFHydro/Calibration/calib_tools.py:49-56 | on [0, 10]: −3 reflects to 3, 13 to 7, −25 clamps to 0, 25 clamps to 10 |
| Dds.Candidate | WRFHydro/Calibration/calib_tools.py:41-56 | the candidate has the incumbent's length |
| Dds.CandidateCoordinates | WRFHydro/Calibration/calib_tools.py:41-56 | coordinates outside the neighbourhood keep the incumbent's value; some coordinate is perturbed; a perturbed coordinate that lands in range equals `best + r·(hi − lo)·z` |
| DecisionVars.InitialValues | WRFHydro/Calibration/calibration.py:63 | the initial solution holds each variable's initial value in table order, and lies within the bounds when every row is well formed |
| Dds.FirstCandidateInBounds | WRFHydro/Calibration/calib_tools.py:43-56 | for a well-formed table, the first step around the initial values stays within the bounds |
| Dds.CandidateInBounds | WRFHydro/Calibration/calib_tools.py:43-56 | an incumbent within its bounds yields a candidate within its bounds |
| Dds.DdsStep | WRFHydro/Calibration/calib_tools.py:17-59 | fails first exactly when `1 − ln(i)/ln(m)` is not a probability (m < 2, i = 0 or i > m), then exactly on an empty table; otherwise it returns `Candidate` computed on a copy, leaving the incumbent as it was |
| Dds.PerturbInPlace | WRFHydro/Calibration/calib_tools.py:43-56 | after the pass each neighbourhood position holds its repaired perturbed value and every other position its old value |
| DdsAsWritten.DdsStepAliased | WRFHydro/Calibration/calib_tools.py:41-56 | as written, the returned candidate is the incumbent array, and the incumbent's contents become the candidate |
| DdsAsWritten.OneVariableCandidate | WRFHydro/Calibration/calib_tools.py:44-56 | one variable on [0, 10] at 5, selected, with r = 0.2 and draw 1, gives candidate [7] |
| DdsAsWritten.AliasedStepExample | WRFHydro/Calibration/calib_tools.py:41-48 | on that input the incumbent array, which held [5], holds [7] after the aliased step, before any acceptance test |
| Metrics.SquaredError | WRFHydro/Calibration/calib_tools.py:125 | the sum of squared errors is never negative |
| Metrics.SquaredErrorZero | WRFHydro/Calibration/calib_tools.py:75 | the sum of squared errors is 0 exactly when the series are equal |
| Metrics.SquaredDeviation | WRFHydro/Calibration/calib_tools.py:76 | the sum of squared deviations is never negative |
| Metrics.SquaredDeviationZero | WRFHydro/Calibration/calib_tools.py:76 | the squared deviation from c is 0 exactly when every element is c |
| Metrics.DegenerateIffConstant | WRFHydro/Calibration/calib_tools.py:76-77 | the NSE denominator vanishes exactly when the observations are constant |
| Metrics.Nse | WRFHydro/Calibration/calib_tools.py:74-78 | defined exactly for equal, non-zero lengths and non-constant observations; at most 1, and 1 exactly on a perfect fit |
| Metrics.NseOfItself | WRFHydro/Calibration/calib_tools.py:74-78 | a non-constant series scores NSE 1 against itself |
| Metrics.DiffSumIsDifference | WRFHydro/Calibration/calib_tools.py:131 | the summed differences are the difference of the sums |
| Metrics.Pbias | WRFHydro/Calibration/calib_tools.py:130-132 | defined exactly for equal lengths and a non-zero observed total; 0 exactly when the totals agree; for a positive observed total, positive exactly when the model over-predicts |
| Metrics.PbiasOfItself | WRFHydro/Calibration/calib_tools.py:130-132 | a series with a non-zero total has bias 0 against itself |
| Metrics.MeanSquaredError | WRFHydro/Calibration/calib_tools.py:124-126 | defined exactly for equal, non-zero lengths; never negative; 0 exactly on a perfect fit |
| Metrics.NseWeighted | WRFHydro/Calibration/calib_tools.py:92-108 | defined exactly for 0 ≤ w ≤ 1; lies between the two scores; equals the NSE at w = 1 and the log-NSE at w = 0 |
| Metrics.ConvexBetween | WRFHydro/Calibration/calib_tools.py:107 | a convex combination lies between its two ends and equals each end at the extreme weights |
| Metrics.NseWeightedHalved | WRFHydro/Calibration/calib_tools.py:92-108 | as written: defined exactly for 0 ≤ w ≤ 1, and exactly half of the intended weighted score |
| Metrics.PerfectFitHalved | WRFHydro/Calibration/calib_tools.py:107 | a perfect fit at both scores gives 0.5 as written and 1 as intended |
| Aggregation.TwoSiteObjective | WRFHydro/Calibration/calibration.py:197 | perfect fits at both sites give 0; scores at most 1 give a non-negative objective |
| Aggregation.TwoSiteObjectiveOrder | WRFHydro/Calibration/calibration.py:197 | one run's objective is at most another's exactly when its summed site scores are at least as large |
| Aggregation.HalvedScoresKeepAcceptance | WRFHydro/Calibration/calibration.py:188-197 | with halved site scores the objective becomes (1 + f)/2, and every comparison between two runs comes out the same |
| Aggregation.MeanObjective | WRFHydro/Calibration/calibration.py:197 | the k-site generalisation: defined exactly for at least one site; non-negative for scores at most 1; 0 when all scores are 1 |
| Aggregation.MeanObjectiveOfTwo | WRFHydro/Calibration/calibration.py:197 | for two sites the mean objective is the two-site objective |
| Aggregation.IterationObjective | WRFHydro/Calibration/calibration.py:188-197 | no objective with fewer than two sites; otherwise the two-site objective of the first two sites, whatever follows |
| Alignment.Align | WRFHydro/Calibration/calibration.py:140-147 | no pair exactly when no modelled timestamp has an observation (the missing `obs` column); otherwise both outputs have the length of the list of modelled rows that have an observation, and row k pairs the k-th such row's modelled flow with the observation at its timestamp |
| Alignment.PairRows | WRFHydro/Calibration/calibration.py:141-145 | the row pass keeps, in order, exactly the modelled rows whose timestamp is observed, each paired with its observation |
| SimIds.SimId | WRFHydro/Calibration/calibration.py:56 | the id is all digits and as wide as the wider of the iteration number and the budget |
| SimIds.SimDir | WRFHydro/Calibration/calibration.py:57 | the directory name is `sim_` followed by the id |
| SimIds.ValueOfDigits | WRFHydro/Calibration/calibration.py:56 | reading the decimal numeral of n back gives n |
| SimIds.SimIdRoundTrip | WRFHydro/Calibration/calibration.py:56 | the zero-padded id reads back as the iteration number |
| SimIds.SimIdInjective | WRFHydro/Calibration/calibration.py:56-57 | distinct iterations get distinct ids, and so distinct directories |
| SimIds.DigitsMonotone | WRFHydro/Calibration/calibration.py:56 | a larger number never has fewer digits |
| SimIds.SimIdFixedWidth | WRFHydro/Calibration/calibration.py:56 | every iteration up to the budget gets an id exactly as wide as the budget |
| Search.Accept | WRFHydro/Calibration/calibration.py:205-220 | the incumbent after a trial is either unchanged or the trial itself, and it is the trial exactly when the trial is accepted; its objective is at most the trial's; after iteration 1 it never gets worse |
| Search.ReplaySplit | WRFHydro/Calibration/calibration.py:82-86 | stopping after some trials and resuming from the incumbent they left gives the same incumbent as an uninterrupted run |
| Search.ReplayNonincreasing | WRFHydro/Calibration/calibration.py:216-223 | trials after iteration 1 never raise the incumbent's objective |
| Search.ReplayBelowAll | WRFHydro/Calibration/calibration.py:205-223 | when only the first trial may be iteration 1, the incumbent's objective is at most every trial's |
| Search.ReplayFromTrials | WRFHydro/Calibration/calibration.py:205-223 | the incumbent is the starting one or exactly one of the trials |
| Search.AcceptanceTrace | WRFHydro/Calibration/calibration.py:205-223 | the objectives 0.9, 0.5, 0.95, 0.5 leave incumbents from trials 1, 2, 2, 4: the worse third trial is rejected and the tie in the fourth is accepted |
| Search.Calibration.Begin | WRFHydro/Calibration/calibration.py:61-65 | a fresh run over a fixed table (whose rows have their initial values within their bounds) and a fixed number of sites starts at iteration 1 with the table's initial values as the incumbent, the iteration-1 id and an empty log |
| Search.Calibration.Resume | WRFHydro/Calibration/calibration.py:82-86 | a restart over a fixed table and number of sites starts at the given iteration from the given incumbent vector (within the table's bounds), objective and id, with an empty log |
| Search.Calibration.Step | WRFHydro/Calibration/calibration.py:205-228 | appends the trial under its own id; accepts exactly at iteration 1 or when the objective is at most the incumbent's; on acceptance all three incumbent fields take the trial's values, otherwise none changes; keeps the incumbent equal to the replay of the log and at most every logged objective, and the incumbent and every logged vector within the table's bounds |
| Search.Calibration.Iterate | WRFHydro/Calibration/calibration.py:53-228 | takes one score per site of the run; iteration 1 simulates the incumbent itself and later iterations the DDS candidate from the run's table, always within its bounds; a step at an iteration the budget does not allow, or on an empty table, fails and leaves the state unchanged; with fewer than two sites nothing is logged or accepted; otherwise the trial is logged with the two-site objective |

## Left out

- **Inclusion probability and random draws.** The value of the probability `1 − ln(i)/ln(m)` (`calib_tools.py:21`) and every `np.random` call are not modelled. Dafny has no logarithm, and the draws are inputs (`Dds.Draw`). So the model does not state how often variables are selected. Its domain is modelled: for m = 1 the source divides by `ln 1 = 0` (ZeroDivisionError), for m = 0 or i = 0 `math.log` raises a domain error, and for i > m the probability is negative and `np.random.choice` at line 28 raises ValueError. `Dds.DdsStep` returns `BudgetOutOfRange` in all three cases.
- **Log and square-root metrics.** `nselog`, `pearson`, the square root of `rmse` and `kge` are not modelled, because they need `log10` and `sqrt`. `kge` is also broken: `n` is undefined in its scope (`calib_tools.py:137`), and its call raises `TypeError` (see above).
- Metrics.NseWeighted: takes the NSE and log-NSE scores as inputs instead of computing them from the series, because the log-NSE is not modelled.
- Metrics.NseWeightedHalved: takes the two scores as inputs, for the same reason.
- **Finite-precision arithmetic.** The whole model is over exact reals, not 64-bit floats or integers: the metrics, the perturbation and repair of the DDS step, the objective and the acceptance comparison.
  - The source's parameter vector takes the dtype of the `x_ini` column (`calibration.py:63-64`). An all-integer column gives an integer array, and every write at `calib_tools.py:48-56` then truncates toward zero. For example, with bounds [0.3, 10], incumbent 1 and proposal 0.2, the source stores 0, reflects to 0.6, stores 0 again and returns 0, which is outside the bounds; `Dds.Repair(0.2, 0.3, 10.0)` is 0.4. The model assumes a floating-point column.
  - An infinite or undefined numpy result is a `Failure`. This covers a zero denominator and the unbound local after an out-of-range weight.
  - Length-1 broadcasting between unequal series is not modelled. Any length mismatch is a `Failure`.
  - Site scores are finite reals in the controller. In the source a NaN or infinite site score, which the model's metrics turn into a `Failure`, still reaches the comparison `f_x_new <= f_best` at `calibration.py:216`. For example, a NaN objective at iteration 1 makes every later trial rejected. The controller does not model this.
- **External scripts.** The shell scripts run through `subprocess.call` (`calibration.py:98-121`) are not modelled: they update and reset the soil parameter file, run the model and move its output. Only the values passed to the reset script are modelled (`DecisionVars.ResetValues`).
- **CSV persistence.** The `df_calib`, `df_summary` and `df_metrics` tables and their files are not modelled. The append-only `log` of `Search.Calibration` stands in for the per-iteration records. The per-site metric tables (`calibration.py:150-184`) are not modelled.
- **Reading simulation output.** The extraction of simulated discharge (`output_tools.py`, `extract_chanobs.py`, `postprocess.py`) is not part of this model. Nor is the reading of the observation files. The per-site scores are inputs to `Search.Calibration.Iterate`.
- **Site ids.** The eight-digit formatting of the USGS site ids (`calibration.py:44-45`) is not modelled.
- **Diagnostics.** `print` output is not modelled.
- Search.Calibration.Begin: the incumbent objective is 0.0 until iteration 1 is scored. In the source the variable is simply unset until then, and the summary file holds 0. The site count is fixed per run, as the site table is read once (`calibration.py:43`). With at least two sites, iteration 1 is always scored. With fewer, nothing is ever scored or compared (`Step` requires two sites, and `Valid` keeps the log empty).
- Search.Calibration.Iterate: takes the site scores as inputs. It does not connect them to the candidate through a simulation.
- Alignment.Align: works row by row over observations given as a `map`, one value per timestamp. Two source behaviours are not captured:
  - a repeated observed timestamp makes the source's `obs_raw.loc[t, 'discharge_cms']` a series rather than a value;
  - a repeated simulated timestamp without an observation makes the source's drop-by-label remove every row with that label, after which a later row lookup fails.

  The case with no common timestamp is modelled: `Align` returns `None` where the source's `df['obs']` raises `KeyError`.
- Dds.DdsStep: returns `NoVariables` on an empty table, where the source's random choice over an empty table would raise.

## Findings

| source | as written | input that shows it | evidently intended | confidence | as-written member | corrected member |
|---|---|---|---|---|---|---|
| WRFHydro/Calibration/calib_tools.py:41 | `x_new = x_best` binds the candidate to the incumbent array itself, so the in-place writes at line 48 also overwrite the incumbent, even when the candidate is later rejected | one variable on [0, 10], incumbent [5], selected, r = 0.2, draw 1: the candidate is [7] and the incumbent becomes [7] too | the candidate is a fresh copy; the incumbent changes only on acceptance (`calibration.py:216-220`) | high (not executed) | DdsAsWritten.DdsStepAliased, DdsAsWritten.AliasedStepExample | Dds.DdsStep, Search.Calibration.Step |
| WRFHydro/Calibration/calib_tools.py:107 | the weighted NSE is `(w·nse + (1−w)·nselog)/2`, so a perfect fit scores 0.5 and the score never reaches 1 | nse = nselog = 1, any w in [0, 1]: result 0.5 | the weighted mean `w·nse + (1−w)·nselog`, which lies between the two scores and is 1 on a perfect fit; acceptance decisions are unaffected (`Aggregation.HalvedScoresKeepAcceptance`) | high (not executed) | Metrics.NseWeightedHalved, Metrics.PerfectFitHalved | Metrics.NseWeighted |
