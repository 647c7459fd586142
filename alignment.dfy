/** Pairing a site's modelled discharge with its observed discharge: the
    modelled rows are walked in order, a row whose timestamp has an
    observation gains it, and a row without one is dropped. */
module Alignment {
  import opened Wrappers
  import opened Indices

  /** One modelled row: a timestamp (in seconds) and the modelled discharge. */
  datatype Sample = Sample(time: int, flow: real)

  /** The two aligned series of one site. */
  datatype Aligned = Aligned(mod: seq<real>, observed: seq<real>)

  /** Which modelled rows have an observation at their timestamp. */
  function Observed(series: seq<Sample>, obs: map<int, real>): (r: seq<bool>)
    ensures |r| == |series|
    ensures forall j :: 0 <= j < |series| ==> (r[j] <==> series[j].time in obs)
  {
    seq(|series|, j requires 0 <= j < |series| => series[j].time in obs)
  }

  /** Row `k` of `mod` and `observed` comes from modelled row `idx[k]`, whose
      timestamp has an observation. */
  predicate Paired(series: seq<Sample>, obs: map<int, real>, idx: seq<nat>, mod: seq<real>, observed: seq<real>) {
    && |mod| == |observed| == |idx|
    && forall k :: 0 <= k < |idx| ==>
      idx[k] < |series| && series[idx[k]].time in obs
      && mod[k] == series[idx[k]].flow && observed[k] == obs[series[idx[k]].time]
  }

  lemma PairedSnoc(series: seq<Sample>, obs: map<int, real>, idx: seq<nat>, mod: seq<real>, observed: seq<real>, j: nat)
    requires Paired(series, obs, idx, mod, observed)
    requires j < |series| && series[j].time in obs
    ensures Paired(series, obs, idx + [j], mod + [series[j].flow], observed + [obs[series[j].time]])
  {
  }

  /** The aligned pair: row `k` of both outputs comes from the `k`-th modelled
      row that has an observation, so both have the same length, the kept
      timestamps are exactly the modelled ones present in the observations,
      and they keep the modelled order. When no modelled row has an
      observation the observed column is never created and there is no pair. */
  method Align(series: seq<Sample>, obs: map<int, real>) returns (res: Option<Aligned>)
    ensures res == None <==> Where(Observed(series, obs)) == []
    ensures res.Some? ==> |res.value.mod| == |res.value.observed| == |Where(Observed(series, obs))|
    ensures res.Some? ==> forall k :: 0 <= k < |res.value.mod| ==>
      var j := Where(Observed(series, obs))[k];
      series[j].time in obs && res.value.mod[k] == series[j].flow && res.value.observed[k] == obs[series[j].time]
  {
    var mod, observed := PairRows(series, obs);
    if |mod| == 0 {
      res := None;
    } else {
      res := Some(Aligned(mod, observed));
    }
  }

  /** The row pass: walks the modelled rows in order, keeping a row and its
      observation when its timestamp is observed and dropping it otherwise. */
  method PairRows(series: seq<Sample>, obs: map<int, real>) returns (mod: seq<real>, observed: seq<real>)
    ensures Paired(series, obs, Where(Observed(series, obs)), mod, observed)
  {
    ghost var flags := Observed(series, obs);
    mod, observed := [], [];
    for t := 0 to |series|
      invariant Paired(series, obs, Where(flags[..t]), mod, observed)
    {
      WhereSnoc(flags[..t], flags[t]);
      assert flags[..t + 1] == flags[..t] + [flags[t]];
      var step := series[t].time;
      if step in obs {
        PairedSnoc(series, obs, Where(flags[..t]), mod, observed, t);
        mod := mod + [series[t].flow];
        observed := observed + [obs[step]];
      }
    }
    assert flags[..|series|] == flags;
  }
}
