/** The energy that each job of a wrapper ends with, under each of the three strategies. */
module JobEnergies {
  import opened Options
  import opened JobRecords
  import opened Digraph
  import opened Levels
  import opened Sequences
  import opened Energy
  import opened Conservation
  import opened KeptEnergy

  // ---------------------------------------------------------------- sums

  /** These are the sums, whatever the order in which they are taken. */
  lemma SumIsSum(x: real, xs: seq<real>, ys: seq<real>)
    ensures Sum([]) == 0.0 && Sum([x]) == x && Sum(xs + ys) == Sum(xs) + Sum(ys)
  {
    SumConcat(xs, ys);
    assert [x][..0] == [];
  }

  lemma {:induction false} WeightIsSum(j: JobData, xs: seq<JobData>, ys: seq<JobData>)
    ensures TotalWeight([]) == 0 && TotalWeight([j]) == j.computationalWeight
    ensures TotalWeight(xs + ys) == TotalWeight(xs) + TotalWeight(ys)
  {
    assert [j][..0] == [];
    if ys == [] {
      assert xs + ys == xs;
    } else {
      WeightIsSum(j, xs, ys[..|ys|-1]);
      assert (xs + ys)[..|xs + ys|-1] == xs + ys[..|ys|-1];
    }
  }

  // ---------------------------------------------------------------- storing what is given

  /** Every job ends with what it is given, rounded to two decimals, if that is positive, and keeps its
      energy otherwise. */
  lemma {:induction false} JobGets(st: Energies, dc: JobData, jobs: seq<JobData>, given: seq<real>, i: nat)
    requires |jobs| == |given| && Holds(st, dc, jobs) && i < |jobs|
    ensures jobs[i] in Give(st, dc, jobs, given) && jobs[i] in st
    ensures Give(st, dc, jobs, given)[jobs[i]] == if given[i] > 0.0 then Round2(given[i]) else st[jobs[i]]
  {
    var n := |jobs| - 1;
    var init, last := jobs[..n], jobs[n];
    assert jobs == init + [last] && last !in init;
    var before := Give(st, dc, init, given[..n]);
    GiveKeepsOthers(st, dc, init, given[..n]);
    GiveOneStores(before, dc, init, last, given[n]);
    if i < n {
      assert jobs[i] == init[i] && given[i] == given[..n][i];
      JobGets(st, dc, init, given[..n], i);
    }
    hide Round2;
  }

  ghost predicate Follows(st: Energies, st': Energies, dc: JobData, j: JobData) {
    j in st' && dc in st' && dc in st && st'[dc] == if st'[j] > 0.0 then Round2(st'[j]) else st[dc]
  }

  /** The record that is processed takes the energy of the job of its name, if that is positive, and is
      left alone if there is none. */
  lemma {:induction false} RecordFollows(st: Energies, dc: JobData, jobs: seq<JobData>, given: seq<real>)
    requires |jobs| == |given| && Holds(st, dc, jobs) && UniqueNames(jobs)
    ensures var st' := Give(st, dc, jobs, given);
      && dc in st'
      && ((forall j :: j in jobs ==> j.jobName != dc.jobName) ==> st'[dc] == st[dc])
      && forall j :: j in jobs && j.jobName == dc.jobName ==> Follows(st, st', dc, j)
  {
    if jobs != [] {
      var n := |jobs| - 1;
      var init, last := jobs[..n], jobs[n];
      assert jobs == init + [last] && last !in init;
      assert UniqueNames(init);
      RecordFollows(st, dc, init, given[..n]);
      GiveKeepsOthers(st, dc, init, given[..n]);
      GiveLast(st, dc, jobs, given);
      OthersNamed(init, last, jobs);
      hide Round2, Give, UniqueNames, NoRepeats, Follows, GiveOne;
      FollowsOneMore(st, Give(st, dc, init, given[..n]), dc, init, last, given[n]);
    }
  }

  lemma FollowsOneMore(st: Energies, mid: Energies, dc: JobData, init: seq<JobData>, last: JobData, x: real)
    requires dc in st && dc in mid && last in mid && dc != last && dc !in init
    requires forall j :: j in init ==> j.jobName != last.jobName && j != last
    requires (forall j :: j in init ==> j.jobName != dc.jobName) ==> mid[dc] == st[dc]
    requires forall j :: j in init && j.jobName == dc.jobName ==> Follows(st, mid, dc, j)
    ensures var st' := GiveOne(mid, dc, last, x);
      && dc in st'
      && ((forall j :: j in init ==> j.jobName != dc.jobName) && last.jobName != dc.jobName ==> st'[dc] == st[dc])
      && (forall j :: j in init && j.jobName == dc.jobName ==> Follows(st, st', dc, j))
      && (last.jobName == dc.jobName ==> Follows(st, st', dc, last))
  {
    hide Round2;
    var st' := GiveOne(mid, dc, last, x);
    forall j | j in init && j.jobName == dc.jobName ensures Follows(st, st', dc, j) {
      assert Follows(st, mid, dc, j) && st'[dc] == mid[dc] && st'[j] == mid[j];
    }
  }

  lemma OthersNamed(init: seq<JobData>, last: JobData, jobs: seq<JobData>)
    requires UniqueNames(jobs) && jobs == init + [last]
    ensures forall j :: j in init ==> j.jobName != last.jobName && j != last
  {
    forall i | 0 <= i < |init| ensures init[i].jobName != last.jobName {
      assert jobs[i] == init[i] && jobs[|init|] == last;
    }
  }

  lemma GiveLast(st: Energies, dc: JobData, jobs: seq<JobData>, given: seq<real>)
    requires |jobs| == |given| && jobs != []
    ensures var n := |jobs| - 1;
      Give(st, dc, jobs, given) == GiveOne(Give(st, dc, jobs[..n], given[..n]), dc, jobs[n], given[n])
  {}

  /** An own energy, and the share of another one that a weight out of a total stands for, as a fraction of
      four decimals. */
  function OwnAndShare(own: real, weight: nat, total: nat, shared: real): real
    requires total > 0
  {
    own + Round4(weight as real / total as real) * shared
  }

  /** The same with the exact fraction. */
  ghost function Proportional(own: real, weight: nat, total: nat, shared: real): real
    requires total > 0
  {
    own + weight as real / total as real * shared
  }

  /** `stored` is that, up to the rounding. */
  ghost predicate Fair(stored: real, own: real, weight: nat, total: nat, shared: real)
    requires total > 0
  {
    Near(stored, Proportional(own, weight, total, shared), 0.005 + 0.00005 * shared)
  }

  lemma SharedIsFair(own: real, weight: nat, total: nat, shared: real)
    requires total > 0 && shared >= 0.0
    ensures Fair(Round2(OwnAndShare(own, weight, total, shared)), own, weight, total, shared)
    ensures Near(OwnAndShare(own, weight, total, shared), Proportional(own, weight, total, shared), 0.00005 * shared)
    ensures own >= 0.0 ==> OwnAndShare(own, weight, total, shared) >= 0.0
  {
    var given := OwnAndShare(own, weight, total, shared);
    ShareIsNear(weight, total, shared);
    Round2IsNear(given);
    NearAdds(own, own, 0.0, Slice(weight, total, shared), Part(weight, total, shared), 0.00005 * shared);
    hide Round2, Share;
    NearTwice(Round2(given), given, own + Part(weight, total, shared), 0.005, 0.00005 * shared);
  }

  /** The shares of the strategies. */
  lemma SharesAre(own: real, weight: nat, total: nat, shared: real)
    requires total > 0
    ensures WithShare(own, Share(weight, total), shared) == OwnAndShare(own, weight, total, shared)
    ensures Portion(Share(weight, total), shared) == Round2(OwnAndShare(0.0, weight, total, shared))
  {
    assert 0.0 + Share(weight, total) * shared == Share(weight, total) * shared;
  }

  // ---------------------------------------------------------------- the three strategies

  /** The straight strategy gives each job its own step and its share of the rest. */
  lemma StraightJobEnergy(st: Energies, dc: JobData, jobs: seq<JobData>, steps: seq<real>, extern: real, i: nat)
    requires |jobs| == |steps| && UniqueNames(jobs) && Holds(st, dc, jobs) && i < |jobs| && extern >= 0.0
    ensures var (st', j, total) :=
      (Give(st, dc, jobs, StraightGiven(jobs, steps, extern)), jobs[i], AtLeastOne(TotalWeight(jobs)));
      var given := OwnAndShare(steps[i], j.computationalWeight, total, extern);
      && j in st' && j in st && st'[j] == (if given > 0.0 then Round2(given) else st[j])
      && (given > 0.0 ==> Fair(st'[j], steps[i], j.computationalWeight, total, extern))
  {
    hide *;
    PositiveTotal(jobs);
    StraightGivenAt(jobs, steps, extern, i);
    JobGets(st, dc, jobs, StraightGiven(jobs, steps, extern), i);
    SharesAre(steps[i], jobs[i].computationalWeight, AtLeastOne(TotalWeight(jobs)), extern);
    SharedIsFair(steps[i], jobs[i].computationalWeight, AtLeastOne(TotalWeight(jobs)), extern);
  }

  lemma PositiveTotal(jobs: seq<JobData>)
    ensures AtLeastOne(TotalWeight(jobs)) > 0
    ensures TotalWeight(jobs) > 0 ==> AtLeastOne(TotalWeight(jobs)) == TotalWeight(jobs)
  {}

  /** The generalized strategy gives each job its share of the total. */
  lemma GeneralizedJobEnergy(st: Energies, dc: JobData, jobs: seq<JobData>, total: real, i: nat)
    requires UniqueNames(jobs) && Holds(st, dc, jobs) && i < |jobs| && total >= 0.0
    ensures |GeneralizedGiven(jobs, total)| == |jobs|
    ensures var (st', j, weights) :=
      (Give(st, dc, jobs, GeneralizedGiven(jobs, total)), jobs[i], AtLeastOne(TotalWeight(jobs)));
      var given := Round2(OwnAndShare(0.0, j.computationalWeight, weights, total));
      && j in st' && j in st && st'[j] == (if given > 0.0 then given else st[j])
      && (given > 0.0 ==> Fair(st'[j], 0.0, j.computationalWeight, weights, total))
  {
    hide *;
    var weight, weights := jobs[i].computationalWeight, AtLeastOne(TotalWeight(jobs));
    PositiveTotal(jobs);
    GeneralizedGivenAt(jobs, total, i);
    JobGets(st, dc, jobs, GeneralizedGiven(jobs, total), i);
    SharesAre(0.0, weight, weights, total);
    Round2IsNear(OwnAndShare(0.0, weight, weights, total));
    SharedIsFair(0.0, weight, weights, total);
  }

  /** Where a job of a level stands among all jobs, and what it is given. */
  lemma {:induction false} FlatAt(levels: seq<seq<JobData>>, energies: seq<real>, k: nat, i: nat)
    requires |levels| == |energies| && k < |levels| && i < |levels[k]|
    ensures var p := |Flat(levels[..k])| + i;
      && p < |Flat(levels)| && Flat(levels)[p] == levels[k][i]
      && FlatGiven(levels, energies)[p] == LevelGiven(levels[k], energies[k])[i]
  {
    hide LevelGiven;
    var n := |levels| - 1;
    if k < n {
      assert levels[..n][..k] == levels[..k];
      FlatAt(levels[..n], energies[..n], k, i);
    }
  }

  /** The energy of a level: that of its step, and its share of the rest. */
  lemma LevelEnergyIs(levels: seq<seq<JobData>>, steps: seq<real>, extern: real, k: nat)
    requires |levels| == |steps| && LevelWeights(levels) > 0 && k < |levels| && extern >= 0.0
    ensures var energy := LevelEnergies(levels, steps, extern)[k];
      var (weight, weights) := (TotalWeight(levels[k]), LevelWeights(levels));
      && energy == OwnAndShare(steps[k], weight, weights, extern)
      && Near(energy, Proportional(steps[k], weight, weights, extern), 0.00005 * extern)
      && (steps[k] >= 0.0 ==> energy >= 0.0)
  {
    hide *;
    LevelEnergyAt(levels, steps, extern, k);
    SharesAre(steps[k], TotalWeight(levels[k]), LevelWeights(levels), extern);
    SharedIsFair(steps[k], TotalWeight(levels[k]), LevelWeights(levels), extern);
  }

  lemma LevelEnergyAt(levels: seq<seq<JobData>>, steps: seq<real>, extern: real, k: nat)
    requires |levels| == |steps| && LevelWeights(levels) > 0 && k < |levels|
    ensures LevelEnergies(levels, steps, extern)[k]
      == WithShare(steps[k], Share(TotalWeight(levels[k]), LevelWeights(levels)), extern)
  {
    hide Share, WithShare, TotalWeight, LevelWeights;
  }

  lemma {:induction false} LevelWeightIsSum(levels: seq<seq<JobData>>)
    ensures LevelWeights(levels) == TotalWeight(Flat(levels))
  {
    if levels != [] {
      var n := |levels| - 1;
      LevelWeightIsSum(levels[..n]);
      if levels[n] == [] {
        assert Flat(levels) == Flat(levels[..n]);
      } else {
        WeightIsSum(levels[n][0], Flat(levels[..n]), levels[n]);
      }
    }
  }

  /** The two-dimensional strategy, on a forest with weight in every level, gives each job its share of the
      energy of its level. */
  lemma TwoDimJobEnergy(st: Energies, dc: JobData, jobs: seq<JobData>, levels: seq<seq<JobData>>, steps: seq<real>,
                        extern: real, k: nat, i: nat)
    requires UniqueNames(jobs) && PlainChildren(jobs) && Acyclic(Wrapper(jobs)) && Forest(Wrapper(jobs))
    requires AreLevels(jobs, levels) && |levels| == |steps| && Holds(st, dc, jobs)
    requires NoneNegative(steps) && extern >= 0.0
    requires LevelWeights(levels) > 0 && forall k :: 0 <= k < |levels| ==> TotalWeight(levels[k]) > 0
    requires k < |levels| && i < |levels[k]|
    ensures var energy, j := LevelEnergies(levels, steps, extern)[k], levels[k][i];
      var st' := GiveLevels(st, dc, levels, LevelEnergies(levels, steps, extern));
      var given := Round2(OwnAndShare(0.0, j.computationalWeight, TotalWeight(levels[k]), energy));
      && Leading(levels) == |levels| && j in jobs && j in st' && j in st
      && st'[j] == (if given > 0.0 then given else st[j])
      && (given > 0.0 ==> Fair(st'[j], 0.0, j.computationalWeight, TotalWeight(levels[k]), energy))
  {
    hide *;
    var energies := LevelEnergies(levels, steps, extern);
    ForestLevelsPartition(jobs, levels);
    SameJobs(jobs, Flat(levels));
    AllLeading(levels);
    HoldsInAnyOrder(st, dc, jobs, Flat(levels));
    GiveFlat(st, dc, levels, energies);
    FlatAt(levels, energies, k, i);
    var p := |Flat(levels[..k])| + i;
    JobGets(st, dc, Flat(levels), FlatGiven(levels, energies), p);
    assert levels[k][i] in Flat(levels);
    PositiveLevel(steps, k);
    LevelEnergyIs(levels, steps, extern, k);
    LevelGivenAt(levels[k], energies[k], i);
    Round2IsNear(OwnAndShare(0.0, levels[k][i].computationalWeight, TotalWeight(levels[k]), energies[k]));
    SharedIsFair(0.0, levels[k][i].computationalWeight, TotalWeight(levels[k]), energies[k]);
  }

  lemma PositiveLevel(steps: seq<real>, k: nat)
    requires NoneNegative(steps) && k < |steps|
    ensures steps[k] >= 0.0
  {}

  lemma LevelGivenAt(level: seq<JobData>, energy: real, i: nat)
    requires i < |level| && TotalWeight(level) > 0
    ensures LevelGiven(level, energy)[i]
      == Round2(OwnAndShare(0.0, level[i].computationalWeight, TotalWeight(level), energy))
  {
    SharesAre(0.0, level[i].computationalWeight, TotalWeight(level), energy);
    hide OwnAndShare, Portion, Share, TotalWeight;
  }

  // ---------------------------------------------------------------- what is read, and where it ends

  /** The total is the larger of what the header says and what steps and rest add up to, and there is none
      when one of them is missing. */
  lemma TotalEnergyIs(monitor: Monitor)
    ensures TotalEnergy(monitor).Some? <==> monitor.header.Some? && monitor.extern.Some?
    ensures TotalEnergy(monitor).Some? ==>
      var (total, header, parts) :=
        (TotalEnergy(monitor).value, monitor.header.value, Sum(monitor.steps) + monitor.extern.value);
      total >= header && total >= parts && (total == header || total == parts)
  {}

  /** The levels are gone through up to the first one with jobs and without weight. */
  lemma {:induction false} LeadingExactly(levels: seq<seq<JobData>>)
    ensures forall k :: 0 <= k < Leading(levels) ==> levels[k] == [] || TotalWeight(levels[k]) > 0
    ensures Leading(levels) < |levels| ==> levels[Leading(levels)] != [] && TotalWeight(levels[Leading(levels)]) == 0
  {
    hide TotalWeight;
    if levels != [] {
      var n := |levels| - 1;
      LeadingExactly(levels[..n]);
      forall k | 0 <= k < n ensures levels[..n][k] == levels[k] {}
    }
  }

  /** Of several jobs with the same name the last one counts. */
  lemma {:induction false} LastWeightCounts(jobs: seq<JobData>, total: nat, i: nat)
    requires total > 0 && i < |jobs| && forall k :: i < k < |jobs| ==> jobs[k].jobName != jobs[i].jobName
    ensures jobs[i].jobName in Weights(jobs, total)
    ensures Weights(jobs, total)[jobs[i].jobName] == Round4(jobs[i].computationalWeight as real / total as real)
  {
    hide Round4;
    var n := |jobs| - 1;
    if i < n {
      assert jobs[..n][i] == jobs[i];
      forall k | i < k < n ensures jobs[..n][k].jobName != jobs[..n][i].jobName { assert jobs[..n][k] == jobs[k]; }
      LastWeightCounts(jobs[..n], total, i);
    }
  }
}
