/** How far the energies that the jobs of a wrapper end with are from what was measured. A job
    whose share is not positive keeps the energy it had, which is accounted for apart. */
module Conservation {
  import opened Options
  import opened JobRecords
  import opened Digraph
  import opened Levels
  import opened Sequences
  import opened Energy

  ghost function EnergySum(st: Energies, jobs: seq<JobData>): real
    requires forall j :: j in jobs ==> j in st
  {
    if jobs == [] then 0.0 else EnergySum(st, jobs[..|jobs|-1]) + st[jobs[|jobs|-1]]
  }

  /** The energy that jobs keep because they are given none. */
  ghost function Kept(st: Energies, jobs: seq<JobData>, given: seq<real>): real
    requires |jobs| == |given| && forall j :: j in jobs ==> j in st
  {
    if jobs == [] then 0.0
    else
      var n := |jobs| - 1;
      Kept(st, jobs[..n], given[..n]) + if given[n] > 0.0 then 0.0 else st[jobs[n]]
  }

  ghost predicate NoneNegative(xs: seq<real>) { forall i :: 0 <= i < |xs| ==> xs[i] >= 0.0 }

  ghost predicate TwoDecimals(xs: seq<real>) { forall i :: 0 <= i < |xs| ==> Round2(xs[i]) == xs[i] }

  /** The state holds the energies of the jobs, and apart from them that of `dc`. */
  ghost predicate Holds(st: Energies, dc: JobData, jobs: seq<JobData>) {
    dc in st && dc !in jobs && NoRepeats(jobs) && forall j :: j in jobs ==> j in st
  }

  // ---------------------------------------------------------------- stored energies

  lemma {:induction false} GiveKeepsOthers(st: Energies, dc: JobData, jobs: seq<JobData>, given: seq<real>)
    requires |jobs| == |given| && dc in st && forall j :: j in jobs ==> j in st
    ensures var st' := Give(st, dc, jobs, given);
      st'.Keys == st.Keys && forall j :: j in st && j != dc && j !in jobs ==> st'[j] == st[j]
  {
    if jobs != [] { GiveKeepsOthers(st, dc, jobs[..|jobs|-1], given[..|given|-1]); }
  }

  lemma {:induction false} SumDependsOnJobs(st: Energies, st': Energies, jobs: seq<JobData>)
    requires forall j :: j in jobs ==> j in st && j in st' && st[j] == st'[j]
    ensures EnergySum(st, jobs) == EnergySum(st', jobs)
  {
    if jobs != [] { SumDependsOnJobs(st, st', jobs[..|jobs|-1]); }
  }

  /** Giving one job its energy changes neither the others nor their sum. */
  lemma GiveOneStores(st: Energies, dc: JobData, init: seq<JobData>, j: JobData, given: real)
    requires dc in st && j in st && j !in init && dc !in init && dc != j && forall k :: k in init ==> k in st
    ensures var st' := GiveOne(st, dc, j, given);
      && (forall k :: k in init ==> k in st') && j in st' && st'[j] == Stored(st[j], given)
      && EnergySum(st', init) == EnergySum(st, init)
  {
    SumDependsOnJobs(st, GiveOne(st, dc, j, given), init);
  }

  lemma {:induction false} GiveStores(st: Energies, dc: JobData, jobs: seq<JobData>, given: seq<real>)
    requires |jobs| == |given| && Holds(st, dc, jobs)
    ensures var st' := Give(st, dc, jobs, given);
      (forall j :: j in jobs ==> j in st') && EnergySum(st', jobs) == StoredSum(st, jobs, given)
  {
    hide GiveOne, Stored;
    if jobs != [] {
      var n := |jobs| - 1;
      var init, last := jobs[..n], jobs[n];
      assert last !in init && jobs == init + [last];
      GiveStores(st, dc, init, given[..n]);
      GiveKeepsOthers(st, dc, init, given[..n]);
      GiveOneStores(Give(st, dc, init, given[..n]), dc, init, last, given[n]);
    }
  }

  ghost function StoredSum(st: Energies, jobs: seq<JobData>, given: seq<real>): real
    requires |jobs| == |given| && forall j :: j in jobs ==> j in st
  {
    if jobs == [] then 0.0
    else
      var n := |jobs| - 1;
      StoredSum(st, jobs[..n], given[..n]) + Stored(st[jobs[n]], given[n])
  }

  lemma StoredIsNear(before: real, given: real)
    requires given >= 0.0
    ensures Near(Stored(before, given), (if given > 0.0 then 0.0 else before) + given, 0.005)
    ensures Round2(given) == given ==> Stored(before, given) == (if given > 0.0 then 0.0 else before) + given
  {
    Round2IsNear(given);
  }

  lemma {:induction false} StoredSumNear(st: Energies, jobs: seq<JobData>, given: seq<real>)
    requires |jobs| == |given| && NoneNegative(given) && forall j :: j in jobs ==> j in st
    ensures Near(StoredSum(st, jobs, given), Kept(st, jobs, given) + Sum(given), RoundError(|jobs|))
    ensures TwoDecimals(given) ==> StoredSum(st, jobs, given) == Kept(st, jobs, given) + Sum(given)
  {
    if jobs == [] {
      RoundErrorAdds(0);
    } else {
      var n := |jobs| - 1;
      StoredSumNear(st, jobs[..n], given[..n]);
      StoredIsNear(st[jobs[n]], given[n]);
      RoundErrorAdds(n);
      hide Near, Stored, Round2, RoundError;
      NearAdds(StoredSum(st, jobs[..n], given[..n]), Kept(st, jobs[..n], given[..n]) + Sum(given[..n]), RoundError(n),
               Stored(st[jobs[n]], given[n]), (if given[n] > 0.0 then 0.0 else st[jobs[n]]) + given[n], 0.005);
    }
  }

  /** The stored energies are the given ones, rounded, and the kept ones. */
  lemma StoredNearGiven(st: Energies, dc: JobData, jobs: seq<JobData>, given: seq<real>)
    requires |jobs| == |given| && Holds(st, dc, jobs) && NoneNegative(given)
    ensures var st' := Give(st, dc, jobs, given);
      && (forall j :: j in jobs ==> j in st')
      && Near(EnergySum(st', jobs), Kept(st, jobs, given) + Sum(given), RoundError(|jobs|))
      && (TwoDecimals(given) ==> EnergySum(st', jobs) == Kept(st, jobs, given) + Sum(given))
  {
    GiveStores(st, dc, jobs, given);
    StoredSumNear(st, jobs, given);
    hide Give, Near;
  }

  /** The error of n energies rounded to two decimals. */
  ghost function RoundError(n: nat): real { 0.005 * n as real }

  lemma RoundErrorAdds(n: nat)
    ensures RoundError(n + 1) == RoundError(n) + 0.005 && RoundError(0) == 0.0
  {}

  // ---------------------------------------------------------------- shares

  ghost function Total(ws: seq<nat>): nat { if ws == [] then 0 else Total(ws[..|ws|-1]) + ws[|ws|-1] }

  ghost function JobWeights(jobs: seq<JobData>): (ws: seq<nat>)
    ensures |ws| == |jobs|
  {
    seq(|jobs|, i requires 0 <= i < |jobs| => jobs[i].computationalWeight)
  }

  lemma {:induction false} TotalOfJobs(jobs: seq<JobData>)
    ensures TotalWeight(jobs) == Total(JobWeights(jobs))
  {
    if jobs != [] {
      TotalOfJobs(jobs[..|jobs|-1]);
      assert JobWeights(jobs)[..|jobs|-1] == JobWeights(jobs[..|jobs|-1]);
    }
  }

  /** The part of `energy` that shares of `total` make up. */
  ghost function ShareSum(ws: seq<nat>, total: nat, energy: real): real
    requires total > 0
  {
    if ws == [] then 0.0 else ShareSum(ws[..|ws|-1], total, energy) + Slice(ws[|ws|-1], total, energy)
  }

  /** A share of the energy, and the part of it that the share stands for. */
  ghost function Slice(weight: nat, total: nat, energy: real): real
    requires total > 0
  {
    Share(weight, total) * energy
  }

  ghost function Part(weight: nat, total: nat, energy: real): real
    requires total > 0
  {
    weight as real / total as real * energy
  }

  lemma ShareIsNear(weight: nat, total: nat, energy: real)
    requires total > 0 && energy >= 0.0
    ensures Near(Slice(weight, total, energy), Part(weight, total, energy), 0.00005 * energy)
    ensures Slice(weight, total, energy) >= 0.0
  {
    var ratio := weight as real / total as real;
    assert ratio >= 0.0;
    Round4IsNear(ratio);
    NearTimes(Round4(ratio), ratio, 0.00005, energy);
  }

  lemma PartsAdd(v: nat, w: nat, total: nat, energy: real)
    requires total > 0
    ensures Part(v + w, total, energy) == Part(v, total, energy) + Part(w, total, energy)
  {}

  lemma WholePart(total: nat, energy: real)
    requires total > 0
    ensures Part(total, total, energy) == energy && Part(0, total, energy) == 0.0
  {}

  /** The error of n shares, rounded to four decimals, of an energy. */
  ghost function ShareError(n: nat, energy: real): real { 0.00005 * n as real * energy }

  lemma ShareErrorAdds(n: nat, m: nat, energy: real)
    ensures ShareError(n + m, energy) == ShareError(n, energy) + ShareError(m, energy)
    ensures ShareError(1, energy) == 0.00005 * energy && ShareError(0, energy) == 0.0
  {}

  lemma {:induction false} SharesNearPart(ws: seq<nat>, total: nat, energy: real)
    requires total > 0 && energy >= 0.0
    ensures Near(ShareSum(ws, total, energy), Part(Total(ws), total, energy), ShareError(|ws|, energy))
  {
    if ws == [] {
      WholePart(total, energy);
      ShareErrorAdds(0, 0, energy);
    } else {
      var init, w := ws[..|ws|-1], ws[|ws|-1];
      SharesNearPart(init, total, energy);
      ShareIsNear(w, total, energy);
      PartsAdd(Total(init), w, total, energy);
      ShareErrorAdds(|init|, 1, energy);
      hide Slice, Part, ShareError, Near;
      NearAdds(ShareSum(init, total, energy), Part(Total(init), total, energy), ShareError(|init|, energy),
               Slice(w, total, energy), Part(w, total, energy), 0.00005 * energy);
    }
  }

  /** What the shares are to add up to: nothing, when there is no weight. */
  ghost function Shared(total: nat, energy: real): real { if total > 0 then energy else 0.0 }

  lemma SharesNearWhole(ws: seq<nat>, energy: real)
    requires energy >= 0.0
    ensures Near(ShareSum(ws, AtLeastOne(Total(ws)), energy), Shared(Total(ws), energy), ShareError(|ws|, energy))
  {
    hide ShareError;
    SharesNearPart(ws, AtLeastOne(Total(ws)), energy);
    WholePart(AtLeastOne(Total(ws)), energy);
  }

  /** With unique names, the weight found under a name is that of the job. */
  lemma {:induction false} WeightsByName(jobs: seq<JobData>, total: nat)
    requires UniqueNames(jobs) && total > 0
    ensures forall j :: j in jobs ==> WeightOf(Weights(jobs, total), j) == Share(j.computationalWeight, total)
  {
    if jobs != [] {
      WeightsByName(jobs[..|jobs|-1], total);
      hide Share;
    }
  }

  // ---------------------------------------------------------------- one step for each job

  ghost function StepsAndShares(ws: seq<nat>, steps: seq<real>, extern: real, total: nat): (r: seq<real>)
    requires |ws| == |steps| && total > 0
    ensures |r| == |ws|
  {
    seq(|ws|, i requires 0 <= i < |ws| => WithShare(steps[i], Share(ws[i], total), extern))
  }

  lemma {:induction false} StraightSum(ws: seq<nat>, steps: seq<real>, extern: real, total: nat)
    requires |ws| == |steps| && total > 0 && extern >= 0.0 && NoneNegative(steps)
    ensures var given := StepsAndShares(ws, steps, extern, total);
      Sum(given) == Sum(steps) + ShareSum(ws, total, extern) && NoneNegative(given)
  {
    if ws != [] {
      var n, given := |ws| - 1, StepsAndShares(ws, steps, extern, total);
      var w := ws[n];
      StraightSum(ws[..n], steps[..n], extern, total);
      ShareIsNear(w, total, extern);
      assert given[..n] == StepsAndShares(ws[..n], steps[..n], extern, total);
      assert given[n] == WithShare(steps[n], Share(w, total), extern) == steps[n] + Slice(w, total, extern);
      hide Share, Slice, Part, StepsAndShares, WithShare;
      assert forall i :: 0 <= i < n ==> given[i] == given[..n][i];
    }
  }

  lemma StraightGivenIs(jobs: seq<JobData>, steps: seq<real>, extern: real)
    requires |jobs| == |steps| && UniqueNames(jobs)
    ensures StraightGiven(jobs, steps, extern)
      == StepsAndShares(JobWeights(jobs), steps, extern, AtLeastOne(Total(JobWeights(jobs))))
    ensures TotalWeight(jobs) == Total(JobWeights(jobs))
  {
    TotalOfJobs(jobs);
    WeightsByName(jobs, AtLeastOne(TotalWeight(jobs)));
    hide Total, TotalWeight, Weights, WeightOf, Share, WithShare, UniqueNames;
  }

  lemma StraightGivenSum(jobs: seq<JobData>, steps: seq<real>, extern: real)
    requires |jobs| == |steps| && UniqueNames(jobs) && NoneNegative(steps) && extern >= 0.0
    ensures var given := StraightGiven(jobs, steps, extern);
      Near(Sum(given), Sum(steps) + Shared(TotalWeight(jobs), extern), ShareError(|jobs|, extern))
        && NoneNegative(given)
  {
    hide StraightGiven, StepsAndShares, ShareError, ShareSum, Shared, Near, NoneNegative, Sum, UniqueNames, Total,
      TotalWeight;
    var ws := JobWeights(jobs);
    StraightGivenIs(jobs, steps, extern);
    StraightSum(ws, steps, extern, AtLeastOne(Total(ws)));
    SharesNearWhole(ws, extern);
    NearApart(ShareSum(ws, AtLeastOne(Total(ws)), extern), Shared(Total(ws), extern), ShareError(|jobs|, extern),
      Sum(steps));
  }

  lemma NearApart(x: real, y: real, d: real, z: real)
    requires Near(x, y, d)
    ensures Near(z + x, z + y, d)
  {}

  /** The straight strategy conserves the energy of the steps and of the rest. */
  lemma StraightConserves(st: Energies, dc: JobData, jobs: seq<JobData>, steps: seq<real>, extern: real)
    requires |jobs| == |steps| && UniqueNames(jobs) && Holds(st, dc, jobs) && NoneNegative(steps) && extern >= 0.0
    ensures var given := StraightGiven(jobs, steps, extern);
      var st', n, measured := Give(st, dc, jobs, given), |jobs|, Sum(steps) + Shared(TotalWeight(jobs), extern);
      && (forall j :: j in jobs ==> j in st')
      && Near(Sum(given), measured, ShareError(n, extern))
      && Near(EnergySum(st', jobs), Kept(st, jobs, given) + measured, ShareError(n, extern) + RoundError(n))
  {
    hide StraightGiven, Sum, Shared, ShareError, RoundError, Give, Near, NoneNegative, TwoDecimals, NoRepeats,
      UniqueNames;
    var given := StraightGiven(jobs, steps, extern);
    StraightGivenSum(jobs, steps, extern);
    StoredNearGiven(st, dc, jobs, given);
    NearApart(Sum(given), Sum(steps) + Shared(TotalWeight(jobs), extern), ShareError(|jobs|, extern),
      Kept(st, jobs, given));
    NearTwice(EnergySum(Give(st, dc, jobs, given), jobs), Kept(st, jobs, given) + Sum(given),
              Kept(st, jobs, given) + (Sum(steps) + Shared(TotalWeight(jobs), extern)), RoundError(|jobs|),
              ShareError(|jobs|, extern));
  }

  // ---------------------------------------------------------------- one total for all jobs

  /** Rounded portions of an energy, for shares of `total`. */
  ghost function Portions(ws: seq<nat>, total: nat, energy: real): (r: seq<real>)
    requires total > 0
    ensures |r| == |ws|
  {
    seq(|ws|, i requires 0 <= i < |ws| => Portion(Share(ws[i], total), energy))
  }

  lemma PortionIsNear(weight: nat, total: nat, energy: real)
    requires total > 0 && energy >= 0.0
    ensures var p := Portion(Share(weight, total), energy);
      Near(p, Slice(weight, total, energy), 0.005) && p >= 0.0 && Round2(p) == p
  {
    ShareIsNear(weight, total, energy);
    Round2IsNear(Share(weight, total) * energy);
    hide Share, Round2;
  }

  lemma PortionsOneMore(ws: seq<nat>, total: nat, energy: real)
    requires total > 0 && ws != []
    ensures var n := |ws| - 1;
      Portions(ws, total, energy) == Portions(ws[..n], total, energy) + [Portion(Share(ws[n], total), energy)]
  {}

  lemma SumOneMore(xs: seq<real>, x: real)
    ensures Sum(xs + [x]) == Sum(xs) + x
  {
    assert (xs + [x])[..|xs|] == xs;
  }

  lemma {:induction false} PortionsSum(ws: seq<nat>, total: nat, energy: real)
    requires total > 0 && energy >= 0.0
    ensures var given := Portions(ws, total, energy);
      Near(Sum(given), ShareSum(ws, total, energy), RoundError(|ws|)) && NoneNegative(given) && TwoDecimals(given)
  {
    if ws != [] {
      var n, w := |ws| - 1, ws[|ws|-1];
      var before, p := Portions(ws[..n], total, energy), Portion(Share(w, total), energy);
      PortionsSum(ws[..n], total, energy);
      PortionIsNear(w, total, energy);
      PortionsOneMore(ws, total, energy);
      SumOneMore(before, p);
      RoundErrorAdds(n);
      hide Share, Slice, Portion, Portions, Round2, Sum, Near, RoundError;
      NearAdds(Sum(before), ShareSum(ws[..n], total, energy), RoundError(n), p, Slice(w, total, energy), 0.005);
    }
  }

  lemma PortionsConserve(ws: seq<nat>, energy: real)
    requires energy >= 0.0
    ensures var given := Portions(ws, AtLeastOne(Total(ws)), energy);
      && Near(Sum(given), Shared(Total(ws), energy), ShareError(|ws|, energy) + RoundError(|ws|))
      && NoneNegative(given) && TwoDecimals(given)
  {
    PortionsSum(ws, AtLeastOne(Total(ws)), energy);
    SharesNearWhole(ws, energy);
    hide Portions, ShareError, RoundError, ShareSum, Shared, Near, Sum, NoneNegative, TwoDecimals;
    NearTwice(Sum(Portions(ws, AtLeastOne(Total(ws)), energy)), ShareSum(ws, AtLeastOne(Total(ws)), energy),
              Shared(Total(ws), energy), RoundError(|ws|), ShareError(|ws|, energy));
  }

  /** The generalized strategy conserves the total energy. The energies are stored as given, so
      they add up to it exactly when no energy is kept. */
  lemma GeneralizedConserves(st: Energies, dc: JobData, jobs: seq<JobData>, total: real)
    requires UniqueNames(jobs) && Holds(st, dc, jobs) && total >= 0.0
    ensures var given := GeneralizedGiven(jobs, total);
      var st', n := Give(st, dc, jobs, given), |jobs|;
      && (forall j :: j in jobs ==> j in st')
      && Near(EnergySum(st', jobs), Kept(st, jobs, given) + Shared(TotalWeight(jobs), total),
        ShareError(n, total) + RoundError(n))
      && (EnergySum(st', jobs) == Sum(given) <==> Kept(st, jobs, given) == 0.0)
  {
    var weight, given := AtLeastOne(TotalWeight(jobs)), GeneralizedGiven(jobs, total);
    WeightsByName(jobs, weight);
    TotalOfJobs(jobs);
    assert given == Portions(JobWeights(jobs), weight, total);
    PortionsConserve(JobWeights(jobs), total);
    StoredNearGiven(st, dc, jobs, given);
    hide GeneralizedGiven, Portions, ShareError, RoundError, Shared, Give, TotalWeight, WeightOf, Weights;
  }

  /** Kept energy is not conserved: a job that is given none, out of nothing measured, still
      has the energy it had. */
  lemma KeptEnergyIsNotMeasured(dc: JobData, j: JobData)
    requires dc.jobName != j.jobName
    ensures var st := map[dc := 0.0, j := 7.0];
      && GeneralizedGiven([j], 0.0) == [0.0] && TotalEnergy(Monitor(Some(0.0), [], Some(0.0))) == Some(0.0)
      && Give(st, dc, [j], GeneralizedGiven([j], 0.0)) == st && EnergySum(st, [j]) == 7.0
  {
    var st, given := map[dc := 0.0, j := 7.0], GeneralizedGiven([j], 0.0);
    assert given == [0.0] && [j][..0] == [] && given[..0] == [];
    assert Give(st, dc, [j], given) == GiveOne(Give(st, dc, [], []), dc, j, 0.0) == st;
  }

  // ---------------------------------------------------------------- one step for each level

  ghost function LevelTotals(levels: seq<seq<JobData>>): (ws: seq<nat>)
    ensures |ws| == |levels|
  {
    seq(|levels|, i requires 0 <= i < |levels| => TotalWeight(levels[i]))
  }

  lemma {:induction false} TotalOfLevels(levels: seq<seq<JobData>>)
    ensures LevelWeights(levels) == Total(LevelTotals(levels))
  {
    if levels != [] {
      TotalOfLevels(levels[..|levels|-1]);
      assert LevelTotals(levels)[..|levels|-1] == LevelTotals(levels[..|levels|-1]);
    }
  }

  /** What all the jobs are given, level by level. */
  ghost function FlatGiven(levels: seq<seq<JobData>>, energies: seq<real>): (r: seq<real>)
    requires |levels| == |energies|
    ensures |r| == |Flat(levels)|
  {
    if levels == [] then []
    else
      var n := |levels| - 1;
      FlatGiven(levels[..n], energies[..n]) + LevelGiven(levels[n], energies[n])
  }

  lemma {:induction false} GiveConcat(st: Energies, dc: JobData, xs: seq<JobData>, gs: seq<real>, ys: seq<JobData>,
                                      hs: seq<real>)
    requires |xs| == |gs| && |ys| == |hs|
    ensures Give(st, dc, xs + ys, gs + hs) == Give(Give(st, dc, xs, gs), dc, ys, hs)
  {
    if ys == [] {
      assert xs + ys == xs && gs + hs == gs;
    } else {
      var n := |ys| - 1;
      GiveConcat(st, dc, xs, gs, ys[..n], hs[..n]);
      assert (xs + ys)[..|xs + ys|-1] == xs + ys[..n] && (gs + hs)[..|gs + hs|-1] == gs + hs[..n];
      hide GiveOne;
    }
  }

  lemma {:induction false} GiveFlat(st: Energies, dc: JobData, levels: seq<seq<JobData>>, energies: seq<real>)
    requires |levels| == |energies|
    ensures GiveLevels(st, dc, levels, energies) == Give(st, dc, Flat(levels), FlatGiven(levels, energies))
  {
    if levels != [] {
      var n := |levels| - 1;
      GiveFlat(st, dc, levels[..n], energies[..n]);
      GiveConcat(st, dc, Flat(levels[..n]), FlatGiven(levels[..n], energies[..n]), levels[n],
        LevelGiven(levels[n], energies[n]));
      hide Give, LevelGiven;
    }
  }

  lemma {:induction false} SumConcat(xs: seq<real>, ys: seq<real>)
    ensures Sum(xs + ys) == Sum(xs) + Sum(ys)
  {
    if ys == [] {
      assert xs + ys == xs;
    } else {
      var n := |ys| - 1;
      SumConcat(xs, ys[..n]);
      assert (xs + ys)[..|xs + ys|-1] == xs + ys[..n];
    }
  }

  /** The error of the shares within the levels. */
  ghost function LevelErrors(levels: seq<seq<JobData>>, energies: seq<real>): real
    requires |levels| == |energies|
  {
    if levels == [] then 0.0
    else
      var n := |levels| - 1;
      LevelErrors(levels[..n], energies[..n]) + ShareError(|levels[n]|, energies[n])
  }

  lemma RoundErrorsAdd(n: nat, m: nat)
    ensures RoundError(n + m) == RoundError(n) + RoundError(m)
  {}

  lemma LevelConserves(level: seq<JobData>, energy: real)
    requires TotalWeight(level) > 0 && energy >= 0.0
    ensures var given := LevelGiven(level, energy);
      && Near(Sum(given), energy, ShareError(|level|, energy) + RoundError(|level|))
      && NoneNegative(given) && TwoDecimals(given)
  {
    TotalOfJobs(level);
    PortionsConserve(JobWeights(level), energy);
    assert LevelGiven(level, energy) == Portions(JobWeights(level), AtLeastOne(TotalWeight(level)), energy);
    hide LevelGiven, Portions, ShareError, RoundError, Near, Sum, NoneNegative, TwoDecimals, TotalWeight;
  }

  lemma FlatOneMore(levels: seq<seq<JobData>>, energies: seq<real>)
    requires |levels| == |energies| > 0
    ensures var n := |levels| - 1;
      var before, last := FlatGiven(levels[..n], energies[..n]), LevelGiven(levels[n], energies[n]);
      && FlatGiven(levels, energies) == before + last
      && Sum(FlatGiven(levels, energies)) == Sum(before) + Sum(last)
        && Sum(energies) == Sum(energies[..n]) + energies[n]
      && RoundError(|FlatGiven(levels, energies)|) == RoundError(|before|) + RoundError(|last|)
      && LevelErrors(levels, energies) == LevelErrors(levels[..n], energies[..n]) + ShareError(|levels[n]|, energies[n])
  {
    var n := |levels| - 1;
    var before, last := FlatGiven(levels[..n], energies[..n]), LevelGiven(levels[n], energies[n]);
    SumConcat(before, last);
    RoundErrorsAdd(|before|, |last|);
    hide LevelGiven, RoundError, ShareError;
  }

  lemma FlatNone(levels: seq<seq<JobData>>, energies: seq<real>)
    requires levels == [] && energies == []
    ensures var given := FlatGiven(levels, energies);
      && Near(Sum(given), Sum(energies), LevelErrors(levels, energies) + RoundError(|given|))
      && NoneNegative(given) && TwoDecimals(given)
  {}

  lemma JoinGiven(before: seq<real>, last: seq<real>)
    requires NoneNegative(before) && TwoDecimals(before) && NoneNegative(last) && TwoDecimals(last)
    ensures NoneNegative(before + last) && TwoDecimals(before + last)
  {
    hide Round2;
  }

  lemma Prefix(levels: seq<seq<JobData>>, energies: seq<real>)
    requires |levels| == |energies| > 0 && NoneNegative(energies)
    ensures var n := |levels| - 1; NoneNegative(energies[..n]) && energies[n] >= 0.0
  {}

  /** The jobs are given what the levels have. */
  lemma {:induction false} FlatConserves(levels: seq<seq<JobData>>, energies: seq<real>)
    requires |levels| == |energies| && NoneNegative(energies) && forall k :: 0 <= k < |levels| ==>
      TotalWeight(levels[k]) > 0
    ensures var given := FlatGiven(levels, energies);
      && Near(Sum(given), Sum(energies), LevelErrors(levels, energies) + RoundError(|given|))
      && NoneNegative(given) && TwoDecimals(given)
  {
    hide *;
    if levels == [] {
      FlatNone(levels, energies);
    } else {
      var n := |levels| - 1;
      var before, last := FlatGiven(levels[..n], energies[..n]), LevelGiven(levels[n], energies[n]);
      Prefix(levels, energies);
      FlatConserves(levels[..n], energies[..n]);
      LevelConserves(levels[n], energies[n]);
      FlatOneMore(levels, energies);
      JoinGiven(before, last);
      NearAdds(Sum(before), Sum(energies[..n]), LevelErrors(levels[..n], energies[..n]) + RoundError(|before|),
               Sum(last), energies[n], ShareError(|levels[n]|, energies[n]) + RoundError(|last|));
    }
  }

  lemma LevelEnergiesAre(levels: seq<seq<JobData>>, steps: seq<real>, extern: real)
    requires |levels| == |steps| && LevelWeights(levels) > 0
    ensures LevelWeights(levels) == Total(LevelTotals(levels))
    ensures LevelEnergies(levels, steps, extern)
      == StepsAndShares(LevelTotals(levels), steps, extern, LevelWeights(levels))
  {
    TotalOfLevels(levels);
    hide Total, LevelWeights, TotalWeight, Share, WithShare;
  }

  /** The levels have what was measured. */
  lemma LevelEnergiesConserve(levels: seq<seq<JobData>>, steps: seq<real>, extern: real)
    requires |levels| == |steps| && LevelWeights(levels) > 0 && NoneNegative(steps) && extern >= 0.0
    ensures var energies := LevelEnergies(levels, steps, extern);
      NoneNegative(energies) && Near(Sum(energies), Sum(steps) + extern, ShareError(|levels|, extern))
  {
    hide LevelEnergies, StepsAndShares, ShareSum, Total, LevelTotals, ShareError, NoneNegative, LevelWeights, Sum, Near;
    var ws := LevelTotals(levels);
    LevelEnergiesAre(levels, steps, extern);
    StraightSum(ws, steps, extern, LevelWeights(levels));
    SharesNearWhole(ws, extern);
    NearApart(ShareSum(ws, LevelWeights(levels), extern), extern, ShareError(|levels|, extern), Sum(steps));
  }

  lemma {:induction false} SumWithout(st: Energies, jobs: seq<JobData>, i: nat)
    requires i < |jobs| && forall j :: j in jobs ==> j in st
    ensures EnergySum(st, jobs) == EnergySum(st, jobs[..i] + jobs[i + 1..]) + st[jobs[i]]
  {
    var n := |jobs| - 1;
    if i == n {
      assert jobs[..i] + jobs[i + 1..] == jobs[..n];
    } else {
      SumWithout(st, jobs[..n], i);
      var rest := jobs[..i] + jobs[i + 1..];
      assert rest[..n - 1] == jobs[..n][..i] + jobs[..n][i + 1..] && rest[n - 1] == jobs[n];
    }
  }

  lemma TakenOut(s: seq<JobData>, t: seq<JobData>) returns (i: nat)
    requires multiset(s) == multiset(t) && s != []
    ensures i < |t| && t[i] == s[|s|-1] && multiset(t[..i] + t[i + 1..]) == multiset(s[..|s|-1])
  {
    var n := |s| - 1;
    assert s[n] in multiset(t);
    i :| 0 <= i < |t| && t[i] == s[n];
    Without(t, i);
    Without(s, n);
    assert s[..n] + s[n + 1..] == s[..n];
  }

  lemma Without(t: seq<JobData>, i: nat)
    requires i < |t|
    ensures multiset(t[..i] + t[i + 1..]) == multiset(t) - multiset{t[i]}
  {
    assert t == t[..i] + [t[i]] + t[i + 1..];
    assert multiset(t[..i] + t[i + 1..]) == multiset(t[..i]) + multiset(t[i + 1..]);
  }

  /** The order of the jobs does not matter to their sum. */
  lemma {:induction false} SumInAnyOrder(st: Energies, s: seq<JobData>, t: seq<JobData>)
    requires multiset(s) == multiset(t) && (forall j :: j in s ==> j in st) && forall j :: j in t ==> j in st
    ensures EnergySum(st, s) == EnergySum(st, t)
  {
    assert |s| == |multiset(s)| == |t|;
    if s != [] {
      var i := TakenOut(s, t);
      SumInAnyOrder(st, s[..|s|-1], t[..i] + t[i + 1..]);
      SumWithout(st, t, i);
    }
  }

  lemma {:induction false} AllLeading(levels: seq<seq<JobData>>)
    requires forall k :: 0 <= k < |levels| ==> TotalWeight(levels[k]) > 0
    ensures Leading(levels) == |levels|
  {
    if levels != [] { AllLeading(levels[..|levels|-1]); }
  }

  lemma SameJobs(jobs: seq<JobData>, flat: seq<JobData>)
    requires multiset(flat) == multiset(jobs)
    ensures |flat| == |jobs| && forall j :: j in flat <==> j in jobs
  {
    assert |flat| == |multiset(flat)| && |jobs| == |multiset(jobs)|;
    forall j ensures j in flat <==> j in jobs { assert j in multiset(flat) <==> j in multiset(jobs); }
  }

  lemma HoldsInAnyOrder(st: Energies, dc: JobData, jobs: seq<JobData>, flat: seq<JobData>)
    requires Holds(st, dc, jobs) && multiset(flat) == multiset(jobs) && NoRepeats(flat)
    ensures Holds(st, dc, flat) && forall j :: j in flat ==> j in st
  {
    SameJobs(jobs, flat);
  }

  lemma StoredInAnyOrder(st: Energies, dc: JobData, jobs: seq<JobData>, flat: seq<JobData>, given: seq<real>)
    requires Holds(st, dc, jobs) && multiset(flat) == multiset(jobs) && NoRepeats(flat)
    requires |flat| == |given| && NoneNegative(given) && TwoDecimals(given)
    ensures forall j :: j in flat ==> j in st
    ensures var st' := Give(st, dc, flat, given);
      (forall j :: j in jobs ==> j in st') && EnergySum(st', jobs) == Kept(st, flat, given) + Sum(given)
  {
    hide *;
    HoldsInAnyOrder(st, dc, jobs, flat);
    SameJobs(jobs, flat);
    StoredNearGiven(st, dc, flat, given);
    SumInAnyOrder(Give(st, dc, flat, given), jobs, flat);
  }

  /** The two-dimensional strategy conserves the energy of the steps and of the rest, when every
      level has some weight and no job has two parents. */
  lemma TwoDimConserves(st: Energies, dc: JobData, jobs: seq<JobData>, levels: seq<seq<JobData>>, steps: seq<real>,
                        extern: real)
    requires UniqueNames(jobs) && PlainChildren(jobs) && Acyclic(Wrapper(jobs)) && Forest(Wrapper(jobs))
    requires AreLevels(jobs, levels) && |levels| == |steps| && Holds(st, dc, jobs)
    requires NoneNegative(steps) && extern >= 0.0
    requires LevelWeights(levels) > 0 && forall k :: 0 <= k < |levels| ==> TotalWeight(levels[k]) > 0
    ensures (forall j :: j in Flat(levels) ==> j in st)
    ensures var energies := LevelEnergies(levels, steps, extern);
      var st' := GiveLevels(st, dc, levels, energies);
      && Leading(levels) == |levels| && multiset(Flat(levels)) == multiset(jobs)
      && (forall j :: j in jobs ==> j in st')
      && Near(EnergySum(st', jobs), Kept(st, Flat(levels), FlatGiven(levels, energies)) + (Sum(steps) + extern),
              LevelErrors(levels, energies) + RoundError(|jobs|) + ShareError(|levels|, extern))
  {
    hide *;
    var energies := LevelEnergies(levels, steps, extern);
    ForestLevelsPartition(jobs, levels);
    SameJobs(jobs, Flat(levels));
    AllLeading(levels);
    LevelEnergiesConserve(levels, steps, extern);
    FlatConserves(levels, energies);
    GiveFlat(st, dc, levels, energies);
    var given := FlatGiven(levels, energies);
    HoldsInAnyOrder(st, dc, jobs, Flat(levels));
    StoredInAnyOrder(st, dc, jobs, Flat(levels), given);
    NearTwice(Sum(given), Sum(energies), Sum(steps) + extern,
              LevelErrors(levels, energies) + RoundError(|jobs|), ShareError(|levels|, extern));
    NearApart(Sum(given), Sum(steps) + extern,
              LevelErrors(levels, energies) + RoundError(|jobs|) + ShareError(|levels|, extern),
              Kept(st, Flat(levels), given));
  }
}
