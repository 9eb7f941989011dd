/** When jobs keep old energy, and when energy is lost, in terms of what is known before: weights,
    measured energies and old energies. */
module KeptEnergy {
  import opened JobRecords
  import opened Digraph
  import opened Levels
  import opened Sequences
  import opened Energy
  import opened Conservation

  // ---------------------------------------------------------------- one job

  lemma ShareIsPositive(weight: nat, total: nat)
    requires total > 0
    ensures Share(weight, total) >= 0.0
    ensures Share(weight, total) > 0.0 <==> 20000 * weight > total
  {
    var ratio := weight as real / total as real;
    assert ratio >= 0.0 && ratio * total as real == weight as real;
    RoundsToZero(ratio);
    Round4IsNear(ratio);
    RatioAbove(ratio, weight, total);
    hide Round4;
  }

  lemma RatioAbove(ratio: real, weight: nat, total: nat)
    requires total > 0 && ratio * total as real == weight as real
    ensures ratio > 0.00005 <==> 20000 * weight > total
  {
    var t := total as real;
    if ratio > 0.00005 { LargerProduct(0.00005, ratio, t); } else { ProductGrows(ratio, 0.00005, t); }
    assert weight as real > 0.00005 * t <==> 20000.0 * weight as real > t;
  }

  lemma ProductGrows(x: real, y: real, t: real)
    requires x <= y && t >= 0.0
    ensures x * t <= y * t
  {}

  lemma LargerProduct(x: real, y: real, t: real)
    requires x < y && t > 0.0
    ensures x * t < y * t
  {}

  lemma ProductIsPositive(x: real, y: real)
    requires x >= 0.0 && y >= 0.0
    ensures x * y >= 0.0 && (x * y > 0.0 <==> x > 0.0 && y > 0.0)
  {}

  /** A job is given something by the straight strategy. */
  lemma StraightShareIsPositive(step: real, weight: nat, total: nat, extern: real)
    requires step >= 0.0 && extern >= 0.0 && total > 0
    ensures WithShare(step, Share(weight, total), extern) > 0.0
      <==> step > 0.0 || (extern > 0.0 && 20000 * weight > total)
  {
    ShareIsPositive(weight, total);
    ProductIsPositive(Share(weight, total), extern);
    hide Share;
  }

  /** A job is given something of an energy that is divided. */
  lemma PortionIsPositive(weight: nat, total: nat, energy: real)
    requires energy >= 0.0 && total > 0
    ensures Portion(Share(weight, total), energy) > 0.0 <==> Slice(weight, total, energy) > 0.005
  {
    ShareIsPositive(weight, total);
    ProductIsPositive(Share(weight, total), energy);
    RoundsToZero(Share(weight, total) * energy);
    hide Share, Round2;
  }

  // ---------------------------------------------------------------- nothing is kept

  ghost predicate OldEnergies(st: Energies, jobs: seq<JobData>) { forall j :: j in jobs ==> j in st && st[j] >= 0.0 }

  lemma {:induction false} KeptIsZeroIff(st: Energies, jobs: seq<JobData>, given: seq<real>)
    requires |jobs| == |given| && OldEnergies(st, jobs)
    ensures Kept(st, jobs, given) >= 0.0
    ensures Kept(st, jobs, given) == 0.0 <==> forall i :: 0 <= i < |jobs| ==> given[i] > 0.0 || st[jobs[i]] == 0.0
  {
    if jobs != [] {
      var n := |jobs| - 1;
      KeptIsZeroIff(st, jobs[..n], given[..n]);
      assert jobs[n] in jobs;
      forall i | 0 <= i < n ensures jobs[..n][i] == jobs[i] && given[..n][i] == given[i] {}
    }
  }

  /** Every job has no old energy, or a step of its own, or a weight that is seen in its share. */
  ghost predicate StraightClears(st: Energies, jobs: seq<JobData>, steps: seq<real>, extern: real)
    requires |jobs| == |steps| && OldEnergies(st, jobs)
  {
    forall i :: 0 <= i < |jobs| ==>
      || st[jobs[i]] == 0.0 || steps[i] > 0.0
      || (extern > 0.0 && 20000 * jobs[i].computationalWeight > AtLeastOne(TotalWeight(jobs)))
  }

  lemma StraightGivenAt(jobs: seq<JobData>, steps: seq<real>, extern: real, i: nat)
    requires |jobs| == |steps| && UniqueNames(jobs) && i < |jobs|
    ensures StraightGiven(jobs, steps, extern)[i] ==
      WithShare(steps[i], Share(jobs[i].computationalWeight, AtLeastOne(TotalWeight(jobs))), extern)
  {
    WeightsByName(jobs, AtLeastOne(TotalWeight(jobs)));
    assert jobs[i] in jobs;
    hide Weights, WeightOf, Share, WithShare, TotalWeight, UniqueNames;
  }

  /** Under the straight strategy nothing is kept exactly then, and all is conserved. */
  lemma StraightKeepsNothingIff(st: Energies, dc: JobData, jobs: seq<JobData>, steps: seq<real>, extern: real)
    requires |jobs| == |steps| && UniqueNames(jobs) && Holds(st, dc, jobs) && NoneNegative(steps) && extern >= 0.0
    requires OldEnergies(st, jobs)
    ensures var given := StraightGiven(jobs, steps, extern);
      var st', n := Give(st, dc, jobs, given), |jobs|;
      && (Kept(st, jobs, given) == 0.0 <==> StraightClears(st, jobs, steps, extern))
      && (forall j :: j in jobs ==> j in st')
      && (StraightClears(st, jobs, steps, extern) ==>
          Near(EnergySum(st', jobs), Sum(steps) + Shared(TotalWeight(jobs), extern),
            ShareError(n, extern) + RoundError(n)))
  {
    hide StraightGiven, Give, TotalWeight, Share, WithShare, Near, Sum, EnergySum, ShareError, RoundError,
      UniqueNames, Kept;
    var given, total := StraightGiven(jobs, steps, extern), AtLeastOne(TotalWeight(jobs));
    StraightConserves(st, dc, jobs, steps, extern);
    KeptIsZeroIff(st, jobs, given);
    forall i | 0 <= i < |jobs|
      ensures given[i] > 0.0 <==> steps[i] > 0.0 || (extern > 0.0 && 20000 * jobs[i].computationalWeight > total)
    {
      StraightGivenAt(jobs, steps, extern, i);
      StraightShareIsPositive(steps[i], jobs[i].computationalWeight, total, extern);
    }
  }

  /** Every job has no old energy, or a share of the energy that is seen in two decimals. */
  ghost predicate GeneralizedClears(st: Energies, jobs: seq<JobData>, energy: real)
    requires OldEnergies(st, jobs)
  {
    forall i :: 0 <= i < |jobs| ==>
      st[jobs[i]] == 0.0 || Slice(jobs[i].computationalWeight, AtLeastOne(TotalWeight(jobs)), energy) > 0.005
  }

  lemma GeneralizedGivenAt(jobs: seq<JobData>, energy: real, i: nat)
    requires UniqueNames(jobs) && i < |jobs|
    ensures |GeneralizedGiven(jobs, energy)| == |jobs|
    ensures GeneralizedGiven(jobs, energy)[i] ==
      Portion(Share(jobs[i].computationalWeight, AtLeastOne(TotalWeight(jobs))), energy)
  {
    WeightsByName(jobs, AtLeastOne(TotalWeight(jobs)));
    assert jobs[i] in jobs;
    hide Weights, WeightOf, Share, Portion, TotalWeight, UniqueNames;
  }

  /** Under the generalized strategy nothing is kept exactly then, and all is conserved. */
  lemma GeneralizedKeepsNothingIff(st: Energies, dc: JobData, jobs: seq<JobData>, total: real)
    requires UniqueNames(jobs) && Holds(st, dc, jobs) && total >= 0.0 && OldEnergies(st, jobs)
    ensures var given := GeneralizedGiven(jobs, total);
      var st', n := Give(st, dc, jobs, given), |jobs|;
      && (Kept(st, jobs, given) == 0.0 <==> GeneralizedClears(st, jobs, total))
      && (forall j :: j in jobs ==> j in st')
      && (GeneralizedClears(st, jobs, total) ==>
          Near(EnergySum(st', jobs), Shared(TotalWeight(jobs), total), ShareError(n, total) + RoundError(n)))
  {
    hide Give, TotalWeight, Share, Slice, Portion, Near, Sum, EnergySum, ShareError, RoundError, UniqueNames, Kept;
    var given := GeneralizedGiven(jobs, total);
    GeneralizedConserves(st, dc, jobs, total);
    KeptIsZeroIff(st, jobs, given);
    forall i | 0 <= i < |jobs|
      ensures given[i] > 0.0 <==> Slice(jobs[i].computationalWeight, AtLeastOne(TotalWeight(jobs)), total) > 0.005
    {
      GeneralizedGivenAt(jobs, total, i);
      PortionIsPositive(jobs[i].computationalWeight, AtLeastOne(TotalWeight(jobs)), total);
    }
    hide GeneralizedGiven;
  }

  /** In every level, every job has no old energy, or a share of the energy of the level that is
      seen in two decimals. */
  ghost predicate LevelClears(st: Energies, level: seq<JobData>, energy: real) {
    forall i :: 0 <= i < |level| && level[i] in st ==>
      st[level[i]] == 0.0 || Slice(level[i].computationalWeight, AtLeastOne(TotalWeight(level)), energy) > 0.005
  }

  ghost predicate TwoDimClears(st: Energies, levels: seq<seq<JobData>>, energies: seq<real>)
    requires |levels| == |energies|
  {
    forall k :: 0 <= k < |levels| ==> LevelClears(st, levels[k], energies[k])
  }

  lemma {:induction false} KeptConcat(st: Energies, xs: seq<JobData>, gs: seq<real>, ys: seq<JobData>, hs: seq<real>)
    requires |xs| == |gs| && |ys| == |hs| && (forall j :: j in xs + ys ==> j in st)
    ensures (forall j :: j in xs ==> j in st) && (forall j :: j in ys ==> j in st)
    ensures Kept(st, xs + ys, gs + hs) == Kept(st, xs, gs) + Kept(st, ys, hs)
  {
    assert forall j :: j in xs || j in ys ==> j in xs + ys;
    if ys == [] {
      assert xs + ys == xs && gs + hs == gs;
    } else {
      var n := |ys| - 1;
      assert (xs + ys)[..|xs + ys|-1] == xs + ys[..n] && (gs + hs)[..|gs + hs|-1] == gs + hs[..n];
      KeptConcat(st, xs, gs, ys[..n], hs[..n]);
    }
  }

  lemma LevelKeepsNothingIff(st: Energies, level: seq<JobData>, energy: real)
    requires OldEnergies(st, level) && energy >= 0.0
    ensures Kept(st, level, LevelGiven(level, energy)) >= 0.0
    ensures Kept(st, level, LevelGiven(level, energy)) == 0.0 <==> LevelClears(st, level, energy)
  {
    var given, total := LevelGiven(level, energy), AtLeastOne(TotalWeight(level));
    hide TotalWeight, Share, Slice, Portion, Kept;
    KeptIsZeroIff(st, level, given);
    forall i | 0 <= i < |level| ensures given[i] > 0.0 <==> Slice(level[i].computationalWeight, total, energy) > 0.005 {
      PortionIsPositive(level[i].computationalWeight, total, energy);
    }
  }

  lemma {:induction false} FlatKeepsNothingIff(st: Energies, levels: seq<seq<JobData>>, energies: seq<real>)
    requires |levels| == |energies| && OldEnergies(st, Flat(levels)) && NoneNegative(energies)
    ensures Kept(st, Flat(levels), FlatGiven(levels, energies)) >= 0.0
    ensures Kept(st, Flat(levels), FlatGiven(levels, energies)) == 0.0 <==> TwoDimClears(st, levels, energies)
  {
    if levels != [] {
      hide Kept, LevelGiven, LevelClears, ShareError;
      var n := |levels| - 1;
      FlatPrefix(st, levels);
      FlatKeepsNothingIff(st, levels[..n], energies[..n]);
      LevelKeepsNothingIff(st, levels[n], energies[n]);
      KeptConcat(st, Flat(levels[..n]), FlatGiven(levels[..n], energies[..n]), levels[n],
        LevelGiven(levels[n], energies[n]));
      ClearsPrefix(st, levels, energies);
      hide *;
    }
  }

  lemma FlatPrefix(st: Energies, levels: seq<seq<JobData>>)
    requires levels != [] && OldEnergies(st, Flat(levels))
    ensures var n := |levels| - 1;
      Flat(levels) == Flat(levels[..n]) + levels[n] && OldEnergies(st, Flat(levels[..n])) && OldEnergies(st, levels[n])
  {
    var n := |levels| - 1;
    assert forall j :: j in Flat(levels[..n]) || j in levels[n] ==> j in Flat(levels);
  }

  lemma ClearsPrefix(st: Energies, levels: seq<seq<JobData>>, energies: seq<real>)
    requires |levels| == |energies| > 0
    ensures var n := |levels| - 1;
      var before, last := TwoDimClears(st, levels[..n], energies[..n]), LevelClears(st, levels[n], energies[n]);
      TwoDimClears(st, levels, energies) <==> before && last
  {
    var n := |levels| - 1;
    hide LevelClears;
    forall k | 0 <= k < n ensures levels[..n][k] == levels[k] && energies[..n][k] == energies[k] {}
  }

  /** Under the two-dimensional strategy nothing is kept exactly then, and all is conserved. */
  lemma TwoDimKeepsNothingIff(st: Energies, dc: JobData, jobs: seq<JobData>, levels: seq<seq<JobData>>,
                              steps: seq<real>, extern: real)
    requires UniqueNames(jobs) && PlainChildren(jobs) && Acyclic(Wrapper(jobs)) && Forest(Wrapper(jobs))
    requires AreLevels(jobs, levels) && |levels| == |steps| && Holds(st, dc, jobs)
    requires NoneNegative(steps) && extern >= 0.0 && OldEnergies(st, jobs)
    requires LevelWeights(levels) > 0 && forall k :: 0 <= k < |levels| ==> TotalWeight(levels[k]) > 0
    ensures forall j :: j in Flat(levels) ==> j in st
    ensures var energies := LevelEnergies(levels, steps, extern);
      var st' := GiveLevels(st, dc, levels, energies);
      && (Kept(st, Flat(levels), FlatGiven(levels, energies)) == 0.0 <==> TwoDimClears(st, levels, energies))
      && (forall j :: j in jobs ==> j in st')
      && (TwoDimClears(st, levels, energies) ==>
          Near(EnergySum(st', jobs), Sum(steps) + extern,
               LevelErrors(levels, energies) + RoundError(|jobs|) + ShareError(|levels|, extern)))
  {
    hide *;
    TwoDimConserves(st, dc, jobs, levels, steps, extern);
    LevelEnergiesConserve(levels, steps, extern);
    SameJobs(jobs, Flat(levels));
    OldEnergiesOf(st, jobs, Flat(levels));
    FlatKeepsNothingIff(st, levels, LevelEnergies(levels, steps, extern));
  }

  lemma OldEnergiesOf(st: Energies, jobs: seq<JobData>, others: seq<JobData>)
    requires OldEnergies(st, jobs) && forall j :: j in others ==> j in jobs
    ensures OldEnergies(st, others)
  {}

  // ---------------------------------------------------------------- energy is lost

  /** No weight is seen in its share of the total. */
  ghost predicate AllTooLight(ws: seq<nat>, total: nat) { forall i :: 0 <= i < |ws| ==> 20000 * ws[i] <= total }

  lemma {:induction false} ShareSumIsZeroIff(ws: seq<nat>, total: nat, energy: real)
    requires total > 0 && energy >= 0.0
    ensures ShareSum(ws, total, energy) >= 0.0
    ensures ShareSum(ws, total, energy) == 0.0 <==> energy == 0.0 || AllTooLight(ws, total)
  {
    if ws != [] {
      var n := |ws| - 1;
      ShareSumIsZeroIff(ws[..n], total, energy);
      ShareIsPositive(ws[n], total);
      ProductIsPositive(Share(ws[n], total), energy);
      hide Share;
      forall i | 0 <= i < n ensures ws[..n][i] == ws[i] {}
    }
  }

  /** All of the rest is lost exactly when there is none, or no weight is seen in its share. */
  lemma RestIsLostIff(jobs: seq<JobData>, steps: seq<real>, extern: real)
    requires |jobs| == |steps| && UniqueNames(jobs) && NoneNegative(steps) && extern >= 0.0
    ensures Sum(StraightGiven(jobs, steps, extern)) == Sum(steps)
      <==> extern == 0.0 || AllTooLight(JobWeights(jobs), AtLeastOne(TotalWeight(jobs)))
  {
    hide StraightGiven, StepsAndShares, ShareSum, Sum, NoneNegative, UniqueNames, AllTooLight, TotalWeight, Total;
    StraightGivenIs(jobs, steps, extern);
    StraightSum(JobWeights(jobs), steps, extern, AtLeastOne(Total(JobWeights(jobs))));
    ShareSumIsZeroIff(JobWeights(jobs), AtLeastOne(Total(JobWeights(jobs))), extern);
  }

  lemma {:induction false} TotalBound(ws: seq<nat>, bound: nat)
    requires forall i :: 0 <= i < |ws| ==> ws[i] <= bound
    ensures Total(ws) <= |ws| * bound
  {
    if ws != [] { TotalBound(ws[..|ws|-1], bound); }
  }

  lemma Heaviest(ws: seq<nat>) returns (i: nat)
    requires ws != []
    ensures i < |ws| && forall k :: 0 <= k < |ws| ==> ws[k] <= ws[i]
  {
    i := 0;
    for n := 1 to |ws|
      invariant i < |ws| && forall k :: 0 <= k < n ==> ws[k] <= ws[i]
    {
      if ws[n] > ws[i] { i := n; }
    }
  }

  /** With fewer than 20000 jobs, weights that are not seen are no weights: all of the rest is
      lost exactly when there is no weight at all. */
  lemma FewJobsLoseOnlyWithoutWeight(ws: seq<nat>)
    requires |ws| < 20000
    ensures AllTooLight(ws, AtLeastOne(Total(ws))) <==> Total(ws) == 0
  {
    if ws != [] {
      var i := Heaviest(ws);
      TotalBound(ws, ws[i]);
      TotalHolds(ws, i);
      if ws[i] > 0 { FewTimes(|ws|, ws[i]); }
    }
  }

  lemma FewTimes(n: nat, w: nat)
    requires n < 20000 && w > 0
    ensures n * w < 20000 * w
  {}

  lemma {:induction false} TotalHolds(ws: seq<nat>, i: nat)
    requires i < |ws|
    ensures ws[i] <= Total(ws)
    ensures Total(ws) == 0 ==> forall k :: 0 <= k < |ws| ==> ws[k] == 0
  {
    var n := |ws| - 1;
    if n > 0 { TotalHolds(ws[..n], if i < n then i else 0); }
    forall k | 0 <= k < n ensures ws[..n][k] == ws[k] {}
  }

  /** With more than 20000 jobs of equal weight all of the rest is lost. */
  lemma ManyJobsLoseTheRest(jobs: seq<JobData>, steps: seq<real>, extern: real)
    requires |jobs| == |steps| > 20000 && UniqueNames(jobs) && NoneNegative(steps) && extern >= 0.0
    requires forall j :: j in jobs ==> j.computationalWeight == 1
    ensures TotalWeight(jobs) == |jobs| && Sum(StraightGiven(jobs, steps, extern)) == Sum(steps)
  {
    OnesAddUp(jobs);
    forall i | 0 <= i < |jobs| ensures JobWeights(jobs)[i] == 1 { assert jobs[i] in jobs; }
    RestIsLostIff(jobs, steps, extern);
  }

  lemma {:induction false} OnesAddUp(jobs: seq<JobData>)
    requires forall j :: j in jobs ==> j.computationalWeight == 1
    ensures TotalWeight(jobs) == |jobs|
  {
    if jobs != [] {
      assert jobs[|jobs|-1] in jobs;
      OnesAddUp(jobs[..|jobs|-1]);
    }
  }

  /** One job without weight gets its step, and the rest is lost. */
  lemma RestIsLost(j: JobData)
    requires j.computationalWeight == 0
    ensures StraightGiven([j], [1.0], 100.0) == [1.0]
  {
    assert [j][..0] == [];
    StraightGivenAt([j], [1.0], 100.0, 0);
  }

  /** Small energies are rounded away, although the straight strategy gives them and nothing is
      kept. */
  lemma RoundingIsNotConserved(dc: JobData, j: JobData)
    requires dc.jobName != j.jobName
    ensures var st := map[dc := 0.0, j := 0.0];
      var given := StraightGiven([j], [0.004], 0.0);
      && given == [0.004] && Kept(st, [j], given) == 0.0 && Give(st, dc, [j], given) == st && EnergySum(st, [j]) == 0.0
  {
    var st, given := map[dc := 0.0, j := 0.0], StraightGiven([j], [0.004], 0.0);
    assert [j][..0] == [];
    StraightGivenAt([j], [0.004], 0.0, 0);
    assert given == [0.004] && given[..0] == [];
    assert Give(st, dc, [j], given) == GiveOne(Give(st, dc, [], []), dc, j, 0.004) == st;
  }
}
